/**
 * Base64 as defined in section 4 of RFC 4648 (standard alphabet, `=` padding).
 * The session uses it three times: for the audio bytes of every frame
 * (Node's `Buffer.toString('base64')`), for the HMAC digest and for the
 * authorization header (`CryptoJS.enc.Base64.stringify`). Both libraries
 * produce this padded encoding.
 */
module Base64 {
  import opened Common

  /** True for the 64 characters of the alphabet (padding excluded). */
  predicate IsDigit(c: char) {
    ('A' <= c <= 'Z') || ('a' <= c <= 'z') || ('0' <= c <= '9') || c == '+' || c == '/'
  }

  /** The character that stands for the 6-bit value `v` (Table 1 of RFC 4648). */
  function Digit(v: int): (c: char)
    requires 0 <= v < 64
    ensures IsDigit(c)
  {
    if v < 26 then ('A' as int + v) as char
    else if v < 52 then ('a' as int + (v - 26)) as char
    else if v < 62 then ('0' as int + (v - 52)) as char
    else if v == 62 then '+'
    else '/'
  }

  /** The 6-bit value a character of the alphabet stands for; the inverse of `Digit`. */
  function DigitValue(c: char): (v: int)
    requires IsDigit(c)
    ensures 0 <= v < 64 && Digit(v) == c
  {
    if 'A' <= c <= 'Z' then c as int - 'A' as int
    else if 'a' <= c <= 'z' then c as int - 'a' as int + 26
    else if '0' <= c <= '9' then c as int - '0' as int + 52
    else if c == '+' then 62
    else 63
  }

  /** True for every character an encoding may contain. */
  predicate IsEncodedChar(c: char) {
    IsDigit(c) || c == '='
  }

  /** The four characters that stand for three bytes. */
  function Quad(x: byte, y: byte, z: byte): (s: string)
    ensures |s| == 4 && forall i :: 0 <= i < 4 ==> IsDigit(s[i])
  {
    [Digit(x / 4), Digit(x % 4 * 16 + y / 16), Digit(y % 16 * 4 + z / 64), Digit(z % 64)]
  }

  /** The four characters that stand for a final group of one or two bytes. */
  function PaddedQuad(x: byte, y: Option<byte>): (s: string)
    ensures |s| == 4 && forall i :: 0 <= i < 4 ==> IsEncodedChar(s[i])
    ensures s[3] == '='
  {
    match y
    case None => [Digit(x / 4), Digit(x % 4 * 16), '=', '=']
    case Some(y) => [Digit(x / 4), Digit(x % 4 * 16 + y / 16), Digit(y % 16 * 4), '=']
  }

  lemma LengthStep(n: nat)
    requires n >= 3
    ensures (n + 2) / 3 * 4 == 4 + (n - 3 + 2) / 3 * 4
  {
  }

  /** Encoding: every 3 input bytes become 4 characters; a final group of
      one or two bytes is completed with `=` (section 4 of RFC 4648). */
  function Encode(b: seq<byte>): (s: string)
    ensures |s| == (|b| + 2) / 3 * 4
    ensures forall i :: 0 <= i < |s| ==> IsEncodedChar(s[i])
    ensures b == [] <==> s == ""
    decreases |b|
  {
    if |b| == 0 then ""
    else if |b| == 1 then PaddedQuad(b[0], None)
    else if |b| == 2 then PaddedQuad(b[0], Some(b[1]))
    else
      var head, tail := Quad(b[0], b[1], b[2]), Encode(b[3..]);
      LengthStep(|b|);
      assert forall i :: 4 <= i < |head + tail| ==> (head + tail)[i] == tail[i - 4];
      head + tail
  }

  /** Three bytes from four characters of the alphabet. */
  function DecodeQuad(c0: char, c1: char, c2: char, c3: char): Option<seq<byte>> {
    if IsDigit(c0) && IsDigit(c1) && IsDigit(c2) && IsDigit(c3) then
      var v0, v1, v2, v3 := DigitValue(c0), DigitValue(c1), DigitValue(c2), DigitValue(c3);
      Some([v0 * 4 + v1 / 16, v1 % 16 * 16 + v2 / 4, v2 % 4 * 64 + v3])
    else None
  }

  /** One or two bytes from a final group whose last character is `=`. */
  function DecodePadded(c0: char, c1: char, c2: char): Option<seq<byte>> {
    if !IsDigit(c0) || !IsDigit(c1) then None
    else
      var v0, v1 := DigitValue(c0), DigitValue(c1);
      if c2 == '=' then Some([v0 * 4 + v1 / 16])
      else if IsDigit(c2) then Some([v0 * 4 + v1 / 16, v1 % 16 * 16 + DigitValue(c2) / 4])
      else None
  }

  /** Decoding of a padded encoding; `None` for text that is not one. */
  function Decode(s: string): (r: Option<seq<byte>>)
    decreases |s|
  {
    if |s| == 0 then Some([])
    else if |s| < 4 then None
    else if |s| == 4 && s[3] == '=' then DecodePadded(s[0], s[1], s[2])
    else
      match DecodeQuad(s[0], s[1], s[2], s[3])
      case None => None
      case Some(group) =>
        match Decode(s[4..])
        case None => None
        case Some(rest) => Some(group + rest)
  }

  /** The bit regrouping of a full group is undone by the decoder's arithmetic. */
  lemma Regroup(x: byte, y: byte, z: byte)
    ensures (x / 4) * 4 + (x % 4 * 16 + y / 16) / 16 == x
    ensures (x % 4 * 16 + y / 16) % 16 * 16 + (y % 16 * 4 + z / 64) / 4 == y
    ensures (y % 16 * 4 + z / 64) % 4 * 64 + z % 64 == z
  {
  }

  /** Each character of the alphabet stands for one value only. */
  lemma DigitValueOf(v: int)
    requires 0 <= v < 64
    ensures DigitValue(Digit(v)) == v
  {
  }

  lemma DecodeQuadOf(x: byte, y: byte, z: byte)
    ensures var q := Quad(x, y, z); DecodeQuad(q[0], q[1], q[2], q[3]) == Some([x, y, z])
  {
    var v0, v1, v2, v3 := x / 4, x % 4 * 16 + y / 16, y % 16 * 4 + z / 64, z % 64;
    DigitValueOf(v0);
    DigitValueOf(v1);
    DigitValueOf(v2);
    DigitValueOf(v3);
    Regroup(x, y, z);
  }

  lemma DecodePaddedOf(x: byte, y: Option<byte>)
    ensures var q := PaddedQuad(x, y);
      DecodePadded(q[0], q[1], q[2]) == Some(if y.Some? then [x, y.value] else [x])
  {
    var y' := if y.Some? then y.value else 0;
    DigitValueOf(x / 4);
    DigitValueOf(x % 4 * 16 + y' / 16);
    DigitValueOf(y' % 16 * 4);
    Regroup(x, y', 0);
  }

  /** A final padded group decodes to its one or two bytes. */
  lemma DecodeFinal(x: byte, y: Option<byte>)
    ensures Decode(PaddedQuad(x, y)) == Some(if y.Some? then [x, y.value] else [x])
  {
    var q := PaddedQuad(x, y);
    assert |q| == 4 && q[3] == '=';
    DecodePaddedOf(x, y);
  }

  /** A full group in front of a decodable tail decodes group by group. */
  lemma DecodeCons(q: string, rest: string, group: seq<byte>, tail: seq<byte>)
    requires |q| == 4 && IsDigit(q[3])
    requires DecodeQuad(q[0], q[1], q[2], q[3]) == Some(group) && Decode(rest) == Some(tail)
    ensures Decode(q + rest) == Some(group + tail)
  {
    var s := q + rest;
    assert s[..4] == q && s[4..] == rest;
    assert s[0] == q[0] && s[1] == q[1] && s[2] == q[2] && s[3] == q[3];
  }

  /** Decoding undoes encoding. */
  lemma {:induction false} DecodeEncode(b: seq<byte>)
    ensures Decode(Encode(b)) == Some(b)
    decreases |b|
  {
    if |b| >= 3 {
      var x, y, z, t := b[0], b[1], b[2], b[3..];
      assert b == [x, y, z] + t;
      var q := Quad(x, y, z);
      assert Encode(b) == q + Encode(t);
      DecodeQuadOf(x, y, z);
      DecodeEncode(t);
      DecodeCons(q, Encode(t), [x, y, z], t);
    } else if |b| == 2 {
      var x, y := b[0], b[1];
      assert b == [x, y];
      assert Encode(b) == PaddedQuad(x, Some(y));
      DecodeFinal(x, Some(y));
    } else if |b| == 1 {
      var x := b[0];
      assert b == [x];
      assert Encode(b) == PaddedQuad(x, None);
      DecodeFinal(x, None);
    } else {
      assert Encode(b) == "";
    }
  }

  /** Distinct byte strings have distinct encodings. */
  lemma EncodeInjective(a: seq<byte>, b: seq<byte>)
    requires Encode(a) == Encode(b)
    ensures a == b
  {
    DecodeEncode(a);
    DecodeEncode(b);
  }

  /** An encoding holds no query separator: it can stand in a URL unescaped
      between `&`-separated parameters. */
  lemma EncodedSeparators(s: string)
    requires forall i :: 0 <= i < |s| ==> IsEncodedChar(s[i])
    ensures '&' !in s && '?' !in s
  {
    forall i | 0 <= i < |s| ensures s[i] != '&' && s[i] != '?' {
      assert IsEncodedChar(s[i]);
    }
  }
}
