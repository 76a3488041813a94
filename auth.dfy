/**
 * Authorization of one connection attempt: the signed request text, the
 * authorization token and the WebSocket URL built around them
 * (`getAuthStr` and `wssUrl` in `recognizeSpeech`).
 *
 * HMAC-SHA256 (RFC 2104) and UTF-8 encoding are library calls whose
 * internals are not modelled: they are passed in as functions. Base64 is
 * the concrete encoder of module Base64. The clock is a parameter: the
 * `Date` value whose `toUTCString` gives the timestamp.
 */
module Auth {
  import opened Common
  import Base64

  /** The fixed service configuration (`config`). */
  datatype Config = Config(
    hostUrl: string,
    host: string,
    appId: string,
    apiSecret: string,
    apiKey: string,
    uri: string)

  /** The values the program ships with. */
  const ServiceConfig := Config(
    "wss://iat-api.xfyun.cn/v2/iat",
    "iat-api.xfyun.cn",
    "*",
    "*",
    "*",
    "/v2/iat")

  /** The library primitives the signature is built from. */
  datatype Primitives = Primitives(
    hmacSha256: (string, string) -> seq<byte>,  // (message, key) -> digest
    utf8: string -> seq<byte>)

  // ---------------------------------------------------------------------
  // The timestamp: `new Date().toUTCString()`, an IMF-fixdate
  // (section 7.1.1.1 of RFC 7231), e.g. "Sun, 06 Nov 1994 08:49:37 GMT".
  // ---------------------------------------------------------------------

  /** A UTC instant broken into the fields `toUTCString` prints. */
  datatype Instant = Instant(
    weekday: nat,  // 0 = Sunday
    day: nat,
    month: nat,    // 0 = January
    year: nat,
    hour: nat,
    minute: nat,
    second: nat)

  predicate ValidInstant(t: Instant) {
    t.weekday < 7 && 1 <= t.day <= 31 && t.month < 12 && t.year <= 9999
    && t.hour < 24 && t.minute < 60 && t.second < 60
  }

  const WeekDays: seq<string> := ["Sun", "Mon", "Tue", "Wed", "Thu", "Fri", "Sat"]
  const Months: seq<string> :=
    ["Jan", "Feb", "Mar", "Apr", "May", "Jun", "Jul", "Aug", "Sep", "Oct", "Nov", "Dec"]

  /** The characters an IMF-fixdate is made of. */
  predicate IsDateChar(c: char) {
    ('A' <= c <= 'Z') || ('a' <= c <= 'z') || ('0' <= c <= '9') || c == ' ' || c == ',' || c == ':'
  }

  function DecimalDigit(n: nat): (c: char)
    requires n < 10
    ensures '0' <= c <= '9'
  {
    ('0' as int + n) as char
  }

  /** `n` in exactly `width` decimal digits, with leading zeros. */
  function Padded(n: nat, width: nat): (s: string)
    ensures |s| == width
    ensures forall i :: 0 <= i < |s| ==> '0' <= s[i] <= '9'
    decreases width
  {
    if width == 0 then "" else Padded(n / 10, width - 1) + [DecimalDigit(n % 10)]
  }

  /** The value of a string of decimal digits. */
  function DecimalValue(s: string): int {
    if s == [] then 0
    else DecimalValue(s[..|s| - 1]) * 10 + (s[|s| - 1] as int - '0' as int)
  }

  /** Padding loses nothing when `n` fits in `width` digits. */
  lemma {:induction false} PaddedValue(n: nat, width: nat, bound: nat)
    requires bound == Power10(width) && n < bound
    ensures DecimalValue(Padded(n, width)) == n
    decreases width
  {
    if width > 0 {
      var s := Padded(n, width);
      assert s[..|s| - 1] == Padded(n / 10, width - 1);
      PaddedValue(n / 10, width - 1, Power10(width - 1));
    }
  }

  function Power10(k: nat): (p: nat)
    ensures p >= 1
  {
    if k == 0 then 1 else 10 * Power10(k - 1)
  }

  /** True when every character of `s` is one of an IMF-fixdate's. */
  predicate IsDateText(s: string) {
    forall i :: 0 <= i < |s| ==> IsDateChar(s[i])
  }

  lemma DateTextConcat(a: string, b: string)
    requires IsDateText(a) && IsDateText(b)
    ensures IsDateText(a + b)
  {
    forall i | 0 <= i < |a + b| ensures IsDateChar((a + b)[i]) {
      if i >= |a| { assert (a + b)[i] == b[i - |a|]; }
    }
  }

  lemma NamesAreDateText(w: nat, m: nat)
    requires w < 7 && m < 12
    ensures |WeekDays[w]| == 3 && IsDateText(WeekDays[w])
    ensures |Months[m]| == 3 && IsDateText(Months[m])
  {
  }

  /** "Www, DD Mmm": the calendar part of the timestamp. */
  function DayPart(t: Instant): (s: string)
    requires ValidInstant(t)
    ensures |s| == 11 && IsDateText(s)
    ensures s[..3] == WeekDays[t.weekday] && s[5..7] == Padded(t.day, 2) && s[8..] == Months[t.month]
    ensures s[3..5] == ", " && s[7] == ' '
  {
    NamesAreDateText(t.weekday, t.month);
    var w, d, m := WeekDays[t.weekday], Padded(t.day, 2), Months[t.month];
    DateTextConcat(w, ", ");
    DateTextConcat(w + ", ", d);
    DateTextConcat(w + ", " + d, " ");
    DateTextConcat(w + ", " + d + " ", m);
    var s := w + ", " + d + " " + m;
    assert s[5..7] == d;
    s
  }

  /** "hh:mm:ss": the clock part of the timestamp. */
  function ClockPart(t: Instant): (s: string)
    requires ValidInstant(t)
    ensures |s| == 8 && IsDateText(s)
    ensures s[..2] == Padded(t.hour, 2) && s[3..5] == Padded(t.minute, 2) && s[6..] == Padded(t.second, 2)
    ensures s[2] == ':' && s[5] == ':'
  {
    var h, m, x := Padded(t.hour, 2), Padded(t.minute, 2), Padded(t.second, 2);
    DateTextConcat(h, ":");
    DateTextConcat(h + ":", m);
    DateTextConcat(h + ":" + m, ":");
    DateTextConcat(h + ":" + m + ":", x);
    var s := h + ":" + m + ":" + x;
    assert s[3..5] == m;
    s
  }

  /** `toUTCString`: "Www, DD Mmm YYYY hh:mm:ss GMT". */
  function ImfFixdate(t: Instant): (s: string)
    requires ValidInstant(t)
    ensures |s| == 29
    ensures IsDateText(s)
  {
    var day, year, clock := DayPart(t), Padded(t.year, 4), ClockPart(t);
    DateTextConcat(day, " ");
    DateTextConcat(day + " ", year);
    DateTextConcat(day + " " + year, " ");
    DateTextConcat(day + " " + year + " ", clock);
    DateTextConcat(day + " " + year + " " + clock, " GMT");
    day + " " + year + " " + clock + " GMT"
  }

  /** The fields can be read back at their fixed positions. */
  lemma ImfFixdateFields(t: Instant)
    requires ValidInstant(t)
    ensures var s := ImfFixdate(t);
      && s[..3] == WeekDays[t.weekday] && s[8..11] == Months[t.month]
      && DecimalValue(s[5..7]) == t.day && DecimalValue(s[12..16]) == t.year
      && DecimalValue(s[17..19]) == t.hour && DecimalValue(s[20..22]) == t.minute
      && DecimalValue(s[23..25]) == t.second
      && s[3..5] == ", " && s[7] == ' ' && s[11] == ' ' && s[16] == ' '
      && s[19] == ':' && s[22] == ':' && s[25..] == " GMT"
  {
    var s := ImfFixdate(t);
    var day := DayPart(t);
    ImfFixdateLayout(t);
    assert s[3..5] == day[3..5] && s[..3] == day[..3] && s[8..11] == day[8..];
    DateNumbers(t);
    ClockNumbers(t);
  }

  /** Day and year read back as numbers. */
  lemma DateNumbers(t: Instant)
    requires ValidInstant(t)
    ensures var s := ImfFixdate(t); DecimalValue(s[5..7]) == t.day && DecimalValue(s[12..16]) == t.year
  {
    var s := ImfFixdate(t);
    ImfFixdateLayout(t);
    assert s[5..7] == DayPart(t)[5..7];
    PaddedValue(t.day, 2, Power10(2));
    PaddedValue(t.year, 4, Power10(4));
  }

  /** Hour, minute and second read back as numbers. */
  lemma ClockNumbers(t: Instant)
    requires ValidInstant(t)
    ensures var s := ImfFixdate(t);
      && DecimalValue(s[17..19]) == t.hour && DecimalValue(s[20..22]) == t.minute
      && DecimalValue(s[23..25]) == t.second
  {
    var s, clock := ImfFixdate(t), ClockPart(t);
    ImfFixdateLayout(t);
    assert s[17..19] == clock[..2] && s[20..22] == clock[3..5] && s[23..25] == clock[6..];
    PaddedValue(t.hour, 2, Power10(2));
    PaddedValue(t.minute, 2, Power10(2));
    PaddedValue(t.second, 2, Power10(2));
  }


  /** Where the three parts sit in the date. */
  lemma ImfFixdateLayout(t: Instant)
    requires ValidInstant(t)
    ensures var s := ImfFixdate(t);
      && s[..11] == DayPart(t) && s[12..16] == Padded(t.year, 4) && s[17..25] == ClockPart(t)
      && s[7] == ' ' && s[11] == ' ' && s[16] == ' ' && s[19] == ':' && s[22] == ':' && s[25..] == " GMT"
  {
    var day, year, clock := DayPart(t), Padded(t.year, 4), ClockPart(t);
    var s := day + " " + year + " " + clock + " GMT";
    assert s[..11] == day;
    assert s[12..16] == year;
    assert s[17..25] == clock;
    assert s[25..] == " GMT";
    assert s[7] == day[7] && s[19] == clock[2] && s[22] == clock[5];
  }


  // ---------------------------------------------------------------------
  // The signature and the token.
  // ---------------------------------------------------------------------

  /** The text that is signed: three lines, host, date and request line. */
  function SignatureOrigin(host: string, date: string, uri: string): string {
    "host: " + host + "\ndate: " + date + "\nGET " + uri + " HTTP/1.1"
  }

  /** The base64 HMAC-SHA256 digest of the signed text, keyed with the API secret. */
  function Signature(p: Primitives, cfg: Config, date: string): (sig: string)
    ensures Base64.Decode(sig) == Some(p.hmacSha256(SignatureOrigin(cfg.host, date, cfg.uri), cfg.apiSecret))
  {
    var digest := p.hmacSha256(SignatureOrigin(cfg.host, date, cfg.uri), cfg.apiSecret);
    Base64.DecodeEncode(digest);
    Base64.Encode(digest)
  }

  /** The authorization header text before it is encoded. */
  function AuthorizationOrigin(apiKey: string, signature: string): string {
    "api_key=\"" + apiKey + "\", algorithm=\"hmac-sha256\", headers=\"host date request-line\", signature=\""
    + signature + "\""
  }

  /** `getAuthStr()`: the base64 of the UTF-8 bytes of the authorization header text. */
  function AuthStr(p: Primitives, cfg: Config, date: string): (token: string)
    ensures forall i :: 0 <= i < |token| ==> Base64.IsEncodedChar(token[i])
    ensures Base64.Decode(token) == Some(p.utf8(AuthorizationOrigin(cfg.apiKey, Signature(p, cfg, date))))
  {
    var bytes := p.utf8(AuthorizationOrigin(cfg.apiKey, Signature(p, cfg, date)));
    Base64.DecodeEncode(bytes);
    Base64.Encode(bytes)
  }

  /** `wssUrl`: the token, the date and the host as query parameters, none of them escaped. */
  function ConnectionUrl(cfg: Config, token: string, date: string): string {
    cfg.hostUrl + "?authorization=" + token + "&date=" + date + "&host=" + cfg.host
  }

  /** The URL of one connection attempt made at instant `t`. */
  function SessionUrl(p: Primitives, cfg: Config, t: Instant): string
    requires ValidInstant(t)
  {
    var date := ImfFixdate(t);
    ConnectionUrl(cfg, AuthStr(p, cfg, date), date)
  }

  // ---------------------------------------------------------------------
  // Reading the texts back: how the service sees them.
  // ---------------------------------------------------------------------

  /** The pieces of `s` between occurrences of `sep`. */
  function Split(s: string, sep: char): (parts: seq<string>)
    ensures |parts| >= 1
    decreases |s|
  {
    if s == [] then [""]
    else
      var rest := Split(s[1..], sep);
      if s[0] == sep then [""] + rest else [[s[0]] + rest[0]] + rest[1..]
  }

  /** Text without the separator is one piece. */
  lemma {:induction false} SplitWithout(s: string, sep: char)
    requires sep !in s
    ensures Split(s, sep) == [s]
    decreases |s|
  {
    if s != [] {
      assert sep !in s[1..];
      SplitWithout(s[1..], sep);
      assert [s[0]] + s[1..] == s;
    }
  }

  /** A separator after separator-free text ends the first piece. */
  lemma {:induction false} SplitAt(a: string, sep: char, b: string)
    requires sep !in a
    ensures Split(a + [sep] + b, sep) == [a] + Split(b, sep)
    decreases |a|
  {
    if a == [] {
      assert a + [sep] + b == [sep] + b;
      assert ([sep] + b)[1..] == b;
    } else {
      assert (a + [sep] + b)[1..] == a[1..] + [sep] + b;
      assert sep !in a[1..];
      SplitAt(a[1..], sep, b);
      assert [a[0]] + a[1..] == a;
    }
  }

  /** The lines of a text. */
  function Lines(s: string): seq<string> {
    Split(s, '\n')
  }

  /** The query of a URL: what follows its first `?`. */
  function Query(url: string): string
    decreases |url|
  {
    if url == [] then ""
    else if url[0] == '?' then url[1..]
    else Query(url[1..])
  }

  /** The name and the value of a `name=value` parameter, cut at the first `=`. */
  function NameOf(param: string): string
    decreases |param|
  {
    if param == [] || param[0] == '=' then "" else [param[0]] + NameOf(param[1..])
  }

  function ValueOf(param: string): string
    decreases |param|
  {
    if param == [] then "" else if param[0] == '=' then param[1..] else ValueOf(param[1..])
  }

  /** The value of the first parameter named `name` in a list of parameters. */
  function Lookup(params: seq<string>, name: string): Option<string>
    decreases |params|
  {
    if params == [] then None
    else if NameOf(params[0]) == name then Some(ValueOf(params[0]))
    else Lookup(params[1..], name)
  }

  /** The raw (not percent-decoded) value of query parameter `name`. */
  function QueryValue(url: string, name: string): Option<string> {
    Lookup(Split(Query(url), '&'), name)
  }

  /** The signed text reads back as exactly three lines, the second carrying the date. */
  lemma {:induction false} SignedLines(host: string, date: string, uri: string)
    requires '\n' !in host && '\n' !in date && '\n' !in uri
    ensures Lines(SignatureOrigin(host, date, uri))
      == ["host: " + host, "date: " + date, "GET " + uri + " HTTP/1.1"]
  {
    var l0, l1, l2 := "host: " + host, "date: " + date, "GET " + uri + " HTTP/1.1";
    assert '\n' !in l0 && '\n' !in l1 && '\n' !in l2;
    assert SignatureOrigin(host, date, uri) == l0 + ['\n'] + (l1 + ['\n'] + l2);
    SplitAt(l0, '\n', l1 + ['\n'] + l2);
    SplitAt(l1, '\n', l2);
    SplitWithout(l2, '\n');
  }

  lemma {:induction false} QueryAfter(a: string, b: string)
    requires '?' !in a
    ensures Query(a + "?" + b) == b
    decreases |a|
  {
    if a == [] {
      assert (a + "?" + b)[1..] == b;
    } else {
      assert (a + "?" + b)[1..] == a[1..] + "?" + b;
      assert '?' !in a[1..];
      QueryAfter(a[1..], b);
    }
  }

  lemma {:induction false} NameValue(name: string, value: string)
    requires '=' !in name
    ensures NameOf(name + "=" + value) == name && ValueOf(name + "=" + value) == value
    decreases |name|
  {
    if name == [] {
      assert (name + "=" + value)[1..] == value;
    } else {
      assert (name + "=" + value)[1..] == name[1..] + "=" + value;
      assert '=' !in name[1..];
      NameValue(name[1..], value);
      assert [name[0]] + name[1..] == name;
    }
  }

  /** The query of a connection URL is its three parameters. */
  lemma {:induction false} UrlQuery(cfg: Config, token: string, date: string)
    requires '?' !in cfg.hostUrl && '&' !in cfg.host && '&' !in token && '&' !in date
    ensures Split(Query(ConnectionUrl(cfg, token, date)), '&')
      == ["authorization=" + token, "date=" + date, "host=" + cfg.host]
  {
    var a, d, h := "authorization=" + token, "date=" + date, "host=" + cfg.host;
    assert "?authorization=" == "?" + "authorization=" && "&date=" == ['&'] + "date=" && "&host=" == ['&'] + "host=";
    assert ConnectionUrl(cfg, token, date) == cfg.hostUrl + "?" + (a + ['&'] + (d + ['&'] + h));
    QueryAfter(cfg.hostUrl, a + ['&'] + (d + ['&'] + h));
    assert '&' !in a && '&' !in d && '&' !in h;
    SplitAt(a, '&', d + ['&'] + h);
    SplitAt(d, '&', h);
    SplitWithout(h, '&');
  }

  /** Each of the three parameters is found under its own name. */
  lemma LookupParams(token: string, date: string, host: string)
    ensures var params := ["authorization=" + token, "date=" + date, "host=" + host];
      && Lookup(params, "authorization") == Some(token)
      && Lookup(params, "date") == Some(date)
      && Lookup(params, "host") == Some(host)
  {
    var a, d, h := "authorization=" + token, "date=" + date, "host=" + host;
    assert a == "authorization" + "=" + token && d == "date" + "=" + date && h == "host" + "=" + host;
    NameValue("authorization", token);
    NameValue("date", date);
    NameValue("host", host);
    var params := [a, d, h];
    assert params[1..] == [d, h] && params[1..][1..] == [h];
    assert "host" != "authorization" && "host" != "date";
    assert Lookup([h], "host") == Some(host);
    assert Lookup([d, h], "host") == Lookup([h], "host");
  }

  /** The three query parameters of a connection URL read back as the values put in. */
  lemma UrlParams(cfg: Config, token: string, date: string)
    requires '?' !in cfg.hostUrl && '&' !in cfg.host && '&' !in token && '&' !in date
    ensures QueryValue(ConnectionUrl(cfg, token, date), "authorization") == Some(token)
    ensures QueryValue(ConnectionUrl(cfg, token, date), "date") == Some(date)
    ensures QueryValue(ConnectionUrl(cfg, token, date), "host") == Some(cfg.host)
  {
    UrlQuery(cfg, token, date);
    LookupParams(token, date, cfg.host);
  }

  /** A date text holds no query or line separator. */
  lemma DateTextSeparators(s: string)
    requires IsDateText(s)
    ensures '&' !in s && '?' !in s && '\n' !in s
  {
    forall i | 0 <= i < |s| ensures s[i] != '&' && s[i] != '?' && s[i] != '\n' {
      assert IsDateChar(s[i]);
    }
  }

  /** What the URL must satisfy for its parameters to read back. */
  predicate UrlSafe(cfg: Config) {
    '?' !in cfg.hostUrl && '&' !in cfg.host && '\n' !in cfg.host && '\n' !in cfg.uri
  }

  lemma ServiceConfigSafe()
    ensures UrlSafe(ServiceConfig)
  {
    var url, host, uri := ServiceConfig.hostUrl, ServiceConfig.host, ServiceConfig.uri;
    assert forall i :: 0 <= i < |url| ==> url[i] != '?';
    assert forall i :: 0 <= i < |host| ==> host[i] != '&' && host[i] != '\n';
    assert forall i :: 0 <= i < |uri| ==> uri[i] != '\n';
  }

  /**
   * One connection attempt made at instant `t`: the `date` parameter of the
   * URL and the `date` line of the signed text are the same text, which is
   * the IMF-fixdate of `t` unescaped (its comma and space appear raw); the
   * `authorization` parameter is the token and `host` the configured host.
   */
  lemma SameDate(p: Primitives, cfg: Config, t: Instant)
    requires ValidInstant(t) && UrlSafe(cfg)
    ensures var date, url := ImfFixdate(t), SessionUrl(p, cfg, t);
      && QueryValue(url, "date") == Some(date)
      && Lines(SignatureOrigin(cfg.host, date, cfg.uri))
         == ["host: " + cfg.host, "date: " + date, "GET " + cfg.uri + " HTTP/1.1"]
      && QueryValue(url, "authorization") == Some(AuthStr(p, cfg, date))
      && QueryValue(url, "host") == Some(cfg.host)
      && ", " <= date[3..]
  {
    var date := ImfFixdate(t);
    var token := AuthStr(p, cfg, date);
    DateTextSeparators(date);
    Base64.EncodedSeparators(token);
    UrlParams(cfg, token, date);
    SignedLines(cfg.host, date, cfg.uri);
    ImfFixdateFields(t);
  }
}
