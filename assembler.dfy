/**
 * The result table of a session (`iatResult`) and the transcript built
 * from it. The table is a JavaScript array indexed by the service's
 * sequence number `sn`: a message writes its result at `sn` and, for a
 * replace-group revision (`pgs == "rpl"`), then writes null at every index
 * listed in `rg`. The transcript walks the array in ascending index order,
 * skipping holes and nulls, and appends every candidate word of every
 * segment.
 */
module Assembler {
  import opened Common

  /** One candidate word (`cw[k]`). */
  datatype Candidate = Candidate(w: string)

  /** One word segment (`ws[j]`): its candidates. */
  datatype Segment = Segment(cw: seq<Candidate>)

  /** `res.data.result`: sequence number, revision flag, replace group, segments. */
  datatype Result = Result(sn: int, pgs: Option<string>, rg: seq<int>, ws: seq<Segment>)

  /** True for a replace-group revision. */
  predicate IsRevision(r: Result) {
    r.pgs == Some("rpl")
  }

  /** The largest array index of JavaScript, 2^32 - 2; `a[i] = v` with any
      other `i` sets a plain property that `forEach` never visits. */
  const MaxIndex: int := 0xFFFF_FFFE

  predicate IsIndex(i: int) {
    0 <= i <= MaxIndex
  }

  /**
   * The array: `slots` holds the assigned indices (a key that is absent is a
   * hole; `Some(None)` is null, `Some(Some(r))` a result) and `length` is the
   * array's length.
   */
  datatype Table = Table(slots: map<nat, Option<Result>>, length: nat)

  predicate Valid(t: Table) {
    t.length <= MaxIndex + 1 && forall k :: k in t.slots ==> k < t.length
  }

  /** `let iatResult = []`. */
  const EmptyTable := Table(map[], 0)

  /** `iatResult[i] = v`: an index grows the length past it; anything else changes nothing visible. */
  function Put(t: Table, i: int, v: Option<Result>): (t': Table)
    requires Valid(t)
    ensures Valid(t')
    ensures forall k :: k in t'.slots <==> k in t.slots || (k == i && IsIndex(i))
    ensures IsIndex(i) ==> t'.slots[i] == v
    ensures forall k :: k in t.slots && k != i ==> t'.slots[k] == t.slots[k]
    ensures t.length <= t'.length && (t'.length == t.length || t'.length - 1 == i)
  {
    if IsIndex(i) then Table(t.slots[i := v], if i < t.length then t.length else i + 1) else t
  }

  /** `rg.forEach(i => iatResult[i] = null)`. */
  function Tombstone(t: Table, rg: seq<int>): (t': Table)
    requires Valid(t)
    ensures Valid(t')
    ensures forall k :: k in t'.slots <==> k in t.slots || (k in rg && IsIndex(k))
    ensures forall k :: k in t'.slots ==> t'.slots[k] == if k in rg then None else t.slots[k]
    ensures t.length <= t'.length && (t'.length == t.length || t'.length - 1 in rg)
    decreases |rg|
  {
    if rg == [] then t
    else
      var front, last := rg[..|rg| - 1], rg[|rg| - 1];
      assert rg == front + [last];
      var prev := Tombstone(t, front);
      var t' := Put(prev, last, None);
      assert forall k :: k in rg <==> k in front || k == last;
      t'
  }

  /**
   * The table after one result message: slot `sn` is written first, then a
   * revision nulls every listed index, `sn` itself included when listed.
   * Every other slot keeps its value; the length grows just enough to
   * cover the indices written.
   */
  function Apply(t: Table, r: Result): (t': Table)
    requires Valid(t)
    ensures Valid(t')
    ensures forall k :: k in t'.slots <==>
      k in t.slots || (k == r.sn && IsIndex(k)) || (IsRevision(r) && k in r.rg && IsIndex(k))
    ensures IsRevision(r) ==> forall i :: i in r.rg && IsIndex(i) ==> t'.slots[i] == None
    ensures IsIndex(r.sn) && !(IsRevision(r) && r.sn in r.rg) ==> t'.slots[r.sn] == Some(r)
    ensures forall k :: k in t.slots && k != r.sn && !(IsRevision(r) && k in r.rg) ==>
      t'.slots[k] == t.slots[k]
    ensures t.length <= t'.length
    ensures t'.length == t.length || t'.length - 1 == r.sn || (IsRevision(r) && t'.length - 1 in r.rg)
  {
    if IsRevision(r) then Revision(t, r) else Put(t, r.sn, Some(r))
  }

  /** A replace-group message: the write at `sn`, then the nulls of `rg`. */
  function Revision(t: Table, r: Result): (t': Table)
    requires Valid(t)
    ensures Valid(t')
    ensures forall k :: k in t'.slots <==> k in t.slots || (k == r.sn && IsIndex(k)) || (k in r.rg && IsIndex(k))
    ensures forall i :: i in r.rg && IsIndex(i) ==> t'.slots[i] == None
    ensures IsIndex(r.sn) && r.sn !in r.rg ==> t'.slots[r.sn] == Some(r)
    ensures forall k :: k in t.slots && k != r.sn && k !in r.rg ==> t'.slots[k] == t.slots[k]
    ensures t.length <= t'.length
    ensures t'.length == t.length || t'.length - 1 == r.sn || t'.length - 1 in r.rg
  {
    Tombstone(Put(t, r.sn, Some(r)), r.rg)
  }

  // ---------------------------------------------------------------------
  // The transcript.
  // ---------------------------------------------------------------------

  /** `cw.forEach(k => str += k.w)`: every candidate, in order. */
  function CandidatesText(cw: seq<Candidate>): string {
    if cw == [] then "" else CandidatesText(cw[..|cw| - 1]) + cw[|cw| - 1].w
  }

  /** `ws.forEach(j => ...)`: every segment's candidates, in order. */
  function SegmentsText(ws: seq<Segment>): string {
    if ws == [] then "" else SegmentsText(ws[..|ws| - 1]) + CandidatesText(ws[|ws| - 1].cw)
  }

  /** What slot `k` contributes: nothing for a hole or a null. */
  function SlotText(slots: map<nat, Option<Result>>, k: nat): string {
    if k in slots && slots[k].Some? then SegmentsText(slots[k].value.ws) else ""
  }

  /** The text of the slots `lo .. hi - 1`, in ascending index order. */
  function TextRange(slots: map<nat, Option<Result>>, lo: nat, hi: nat): string
    decreases hi
  {
    if hi <= lo then "" else TextRange(slots, lo, hi - 1) + SlotText(slots, hi - 1)
  }

  /** The transcript of a table: `iatResult.forEach(...)`. */
  function Transcript(t: Table): (text: string)
    ensures (forall k :: k in t.slots ==> t.slots[k].None?) ==> text == ""
  {
    NullsReadEmpty(t.slots, t.length);
    TextRange(t.slots, 0, t.length)
  }

  /** A table of holes and nulls has no text. */
  lemma NullsReadEmpty(slots: map<nat, Option<Result>>, length: nat)
    ensures (forall k :: k in slots ==> slots[k].None?) ==> TextRange(slots, 0, length) == ""
  {
    if forall k :: k in slots ==> slots[k].None? {
      TextRangeEmpty(slots, 0, length);
    }
  }

  /** The candidate text of a concatenation is the concatenation of the texts. */
  lemma {:induction false} CandidatesTextAppend(a: seq<Candidate>, b: seq<Candidate>)
    ensures CandidatesText(a + b) == CandidatesText(a) + CandidatesText(b)
    decreases |b|
  {
    if b != [] {
      var front := b[..|b| - 1];
      assert (a + b)[..|a + b| - 1] == a + front;
      CandidatesTextAppend(a, front);
    } else {
      assert a + b == a;
    }
  }

  /** The segment text of a concatenation is the concatenation of the texts. */
  lemma {:induction false} SegmentsTextAppend(a: seq<Segment>, b: seq<Segment>)
    ensures SegmentsText(a + b) == SegmentsText(a) + SegmentsText(b)
    decreases |b|
  {
    if b != [] {
      var front := b[..|b| - 1];
      assert (a + b)[..|a + b| - 1] == a + front;
      SegmentsTextAppend(a, front);
    } else {
      assert a + b == a;
    }
  }

  /** Every candidate of a segment is kept, not only the first: one segment
      contributes its candidates' words one after another. */
  lemma SegmentOfCandidates(c: seq<Candidate>, more: seq<Segment>)
    ensures SegmentsText([Segment(c)] + more) == CandidatesText(c) + SegmentsText(more)
  {
    SegmentsTextAppend([Segment(c)], more);
    assert [Segment(c)][..0] == [];
  }

  /** The text of a range is the text of its two halves. */
  lemma {:induction false} TextRangeSplit(slots: map<nat, Option<Result>>, lo: nat, mid: nat, hi: nat)
    requires lo <= mid <= hi
    ensures TextRange(slots, lo, hi) == TextRange(slots, lo, mid) + TextRange(slots, mid, hi)
    decreases hi
  {
    if hi > mid {
      TextRangeSplit(slots, lo, mid, hi - 1);
    }
  }

  /** The text of a range depends only on what its slots contribute. */
  lemma {:induction false} TextRangeFrame(s1: map<nat, Option<Result>>, s2: map<nat, Option<Result>>, lo: nat, hi: nat)
    requires forall k :: lo <= k < hi ==> SlotText(s1, k) == SlotText(s2, k)
    ensures TextRange(s1, lo, hi) == TextRange(s2, lo, hi)
    decreases hi
  {
    if hi > lo {
      TextRangeFrame(s1, s2, lo, hi - 1);
    }
  }

  /** A range with no result in it contributes nothing: holes and nulls read alike. */
  lemma {:induction false} TextRangeEmpty(slots: map<nat, Option<Result>>, lo: nat, hi: nat)
    requires forall k :: lo <= k < hi && k in slots ==> slots[k].None?
    ensures TextRange(slots, lo, hi) == ""
    decreases hi
  {
    if hi > lo {
      TextRangeEmpty(slots, lo, hi - 1);
    }
  }

  /** What slot `k` contributes after `a[i] = v`. */
  lemma PutSlotText(t: Table, i: int, v: Option<Result>, k: nat)
    requires Valid(t)
    ensures SlotText(Put(t, i, v).slots, k)
      == if k == i && IsIndex(i) then (if v.Some? then SegmentsText(v.value.ws) else "") else SlotText(t.slots, k)
  {
  }

  /** Away from `n`, slot texts are those of `t`. */
  lemma PutKeepsOthers(t: Table, n: nat, v: Option<Result>)
    requires Valid(t) && IsIndex(n)
    ensures forall k: nat :: k != n ==> SlotText(Put(t, n, v).slots, k) == SlotText(t.slots, k)
  {
    forall k: nat | k != n ensures SlotText(Put(t, n, v).slots, k) == SlotText(t.slots, k) {
      PutSlotText(t, n, v, k);
    }
  }

  /**
   * A message that is not a revision replaces the text at `sn` and leaves
   * every other slot's text in place.
   */
  lemma Overwrite(t: Table, r: Result)
    requires Valid(t) && IsIndex(r.sn) && !IsRevision(r)
    ensures Transcript(Apply(t, r))
      == TextRange(t.slots, 0, r.sn) + SegmentsText(r.ws) + TextRange(t.slots, r.sn + 1, t.length)
    ensures Apply(t, r).length == if r.sn < t.length then t.length else r.sn + 1
  {
    var n: nat := r.sn;
    var t' := Put(t, n, Some(r));
    var len' := if n < t.length then t.length else n + 1;
    assert Apply(t, r) == t' && t'.length == len';
    PutKeepsOthers(t, n, Some(r));
    PutSlotText(t, n, Some(r), n);
    ReplacedSlot(t.slots, t'.slots, n, t.length);
  }

  /** Slots other than `n` read as before: the range up to the new length
      reads as the old text before `n`, slot `n`, then the old text after it. */
  lemma ReplacedSlot(s: map<nat, Option<Result>>, s': map<nat, Option<Result>>, n: nat, len: nat)
    requires forall k: nat :: k != n ==> SlotText(s', k) == SlotText(s, k)
    ensures TextRange(s', 0, if n < len then len else n + 1)
      == TextRange(s, 0, n) + SlotText(s', n) + TextRange(s, n + 1, len)
  {
    TextRangeFrame(s', s, 0, n);
    if n < len {
      ReplacedInside(s, s', n, len);
    } else {
      assert TextRange(s, n + 1, len) == "";
    }
  }

  /** `ReplacedSlot` for a slot inside the range. */
  lemma ReplacedInside(s: map<nat, Option<Result>>, s': map<nat, Option<Result>>, n: nat, len: nat)
    requires n < len
    requires forall k: nat :: k != n ==> SlotText(s', k) == SlotText(s, k)
    ensures TextRange(s', 0, len) == TextRange(s, 0, n) + SlotText(s', n) + TextRange(s, n + 1, len)
  {
    var before, slot, after := TextRange(s, 0, n), SlotText(s', n), TextRange(s, n + 1, len);
    calc {
      TextRange(s', 0, len);
    == { TextRangeSplit(s', 0, n, len); }
      TextRange(s', 0, n) + TextRange(s', n, len);
    == { TextRangeSplit(s', n, n + 1, len); }
      TextRange(s', 0, n) + (TextRange(s', n, n + 1) + TextRange(s', n + 1, len));
    == { assert TextRange(s', n, n + 1) == slot;
         TextRangeFrame(s', s, 0, n);
         TextRangeFrame(s', s, n + 1, len); }
      before + (slot + after);
    }
    assert before + (slot + after) == before + slot + after;
  }




  /** Written at or past the end, a message that is not a revision appends its text. */
  lemma Append(t: Table, r: Result)
    requires Valid(t) && IsIndex(r.sn) && !IsRevision(r) && r.sn >= t.length
    ensures Transcript(Apply(t, r)) == Transcript(t) + SegmentsText(r.ws)
    ensures Apply(t, r).length == r.sn + 1
  {
    Overwrite(t, r);
    PastTheEnd(t.slots, t.length, r.sn);
  }

  /** Past the last key, a range contributes nothing. */
  lemma PastTheEnd(s: map<nat, Option<Result>>, len: nat, n: nat)
    requires len <= n && forall k :: k in s ==> k < len
    ensures TextRange(s, 0, n) == TextRange(s, 0, len) && TextRange(s, n + 1, len) == ""
  {
    TextRangeSplit(s, 0, len, n);
    TextRangeEmpty(s, len, n);
  }

  /**
   * A revision that arrives at the end of the table and lists every index
   * from `from` up to the end (and nothing else) replaces all of their text
   * with its own.
   */
  lemma Revise(t: Table, r: Result, from: nat)
    requires Valid(t) && IsIndex(r.sn) && IsRevision(r)
    requires from <= t.length <= r.sn && r.sn !in r.rg
    requires forall k :: from <= k < t.length ==> k in r.rg
    requires forall i :: i in r.rg ==> from <= i < t.length
    ensures Transcript(Apply(t, r)) == TextRange(t.slots, 0, from) + SegmentsText(r.ws)
  {
    RevisedSlots(t, r, from);
    ReplacedRange(t.slots, Apply(t, r).slots, from, r.sn);
  }

  /** Slots before `from` read as before, those from `from` up to `n` are
      empty: the range up to `n` inclusive reads as the old prefix followed
      by slot `n`. */
  lemma ReplacedRange(s: map<nat, Option<Result>>, s': map<nat, Option<Result>>, from: nat, n: nat)
    requires from <= n
    requires forall k :: 0 <= k < from ==> SlotText(s', k) == SlotText(s, k)
    requires forall k :: from <= k < n && k in s' ==> s'[k].None?
    ensures TextRange(s', 0, n + 1) == TextRange(s, 0, from) + SlotText(s', n)
  {
    var prefix := TextRange(s, 0, from);
    assert TextRange(s', 0, n) == prefix by {
      TextRangeFrame(s', s, 0, from);
      TextRangeEmpty(s', from, n);
      TextRangeSplit(s', 0, from, n);
      assert TextRange(s', from, n) == "";
    }
    assert TextRange(s', 0, n + 1) == TextRange(s', 0, n) + SlotText(s', n);
  }

  /** Slot by slot, what `Revise` relies on. */
  lemma RevisedSlots(t: Table, r: Result, from: nat)
    requires Valid(t) && IsIndex(r.sn) && IsRevision(r)
    requires from <= t.length <= r.sn && r.sn !in r.rg
    requires forall k :: from <= k < t.length ==> k in r.rg
    requires forall i :: i in r.rg ==> from <= i < t.length
    ensures Apply(t, r).length == r.sn + 1
    ensures SlotText(Apply(t, r).slots, r.sn) == SegmentsText(r.ws)
    ensures forall k :: 0 <= k < from ==> SlotText(Apply(t, r).slots, k) == SlotText(t.slots, k)
    ensures forall k :: from <= k < r.sn && k in Apply(t, r).slots ==> Apply(t, r).slots[k].None?
  {
    var t' := Apply(t, r);
    assert r.sn in t'.slots;
    assert t'.slots[r.sn] == Some(r);
  }


  /**
   * What any message leaves in slot `k`: nothing where `k` is not an index
   * or where a revision lists it, the message's own text at `sn`, and the
   * old text everywhere else. With `TextRangeFrame` this gives the
   * transcript after any message.
   */
  lemma ApplySlotText(t: Table, r: Result, k: nat)
    requires Valid(t)
    ensures SlotText(Apply(t, r).slots, k) ==
      if !IsIndex(k) then ""
      else if IsRevision(r) && k in r.rg then ""
      else if k == r.sn then SegmentsText(r.ws)
      else SlotText(t.slots, k)
  {
    var t' := Apply(t, r);
    if !IsIndex(k) {
      assert k !in t'.slots;
    }
  }

  /**
   * A revision listing 2 and 5 over a table whose slots 2 to 5 hold
   * results: only 2 and 5 are emptied, and 3 and 4 keep their text.
   */
  lemma ListedNotRange(t: Table, r: Result)
    requires Valid(t) && t.length == 6
    requires forall k :: 2 <= k <= 5 ==> k in t.slots && t.slots[k].Some?
    requires IsRevision(r) && r.rg == [2, 5] && r.sn == 6
    ensures SlotText(Apply(t, r).slots, 2) == "" && SlotText(Apply(t, r).slots, 5) == ""
    ensures SlotText(Apply(t, r).slots, 3) == SegmentsText(t.slots[3].value.ws)
    ensures SlotText(Apply(t, r).slots, 4) == SegmentsText(t.slots[4].value.ws)
    ensures SlotText(Apply(t, r).slots, 6) == SegmentsText(r.ws)
  {
    ApplySlotText(t, r, 2);
    ApplySlotText(t, r, 3);
    ApplySlotText(t, r, 4);
    ApplySlotText(t, r, 5);
    ApplySlotText(t, r, 6);
  }


  /** Results for 0, 1 and 2 arriving in order, none a revision: the
      transcript is their texts, in order. */
  lemma InOrder(r0: Result, r1: Result, r2: Result)
    requires r0.sn == 0 && r1.sn == 1 && r2.sn == 2
    requires !IsRevision(r0) && !IsRevision(r1) && !IsRevision(r2)
    ensures Transcript(Apply(Apply(Apply(EmptyTable, r0), r1), r2))
      == SegmentsText(r0.ws) + SegmentsText(r1.ws) + SegmentsText(r2.ws)
  {
    var t1 := Apply(EmptyTable, r0);
    var t2 := Apply(t1, r1);
    var x0, x1, x2 := SegmentsText(r0.ws), SegmentsText(r1.ws), SegmentsText(r2.ws);
    assert t1.length == 1 && Transcript(t1) == x0 by {
      Append(EmptyTable, r0);
      assert Transcript(EmptyTable) == "";
    }
    assert t2.length == 2 && Transcript(t2) == x0 + x1 by {
      Append(t1, r1);
    }
    Append(t2, r2);
  }

  /**
   * Results for 1 and 2, then a revision at 3 listing both: slot 0 was
   * never written and both are nulled, so only the revision's text is
   * left.
   */
  lemma ReplaceGroup(a: Result, b: Result, c: Result)
    requires a.sn == 1 && b.sn == 2 && !IsRevision(a) && !IsRevision(b)
    requires c.sn == 3 && IsRevision(c) && c.rg == [1, 2]
    ensures Transcript(Apply(Apply(Apply(EmptyTable, a), b), c)) == SegmentsText(c.ws)
  {
    var t1 := Apply(EmptyTable, a);
    var t2 := Apply(t1, b);
    Overwrite(EmptyTable, a);
    Overwrite(t1, b);
    Revise(t2, c, 1);
    assert 0 !in t2.slots;
    assert TextRange(t2.slots, 0, 1) == "";
  }
}
