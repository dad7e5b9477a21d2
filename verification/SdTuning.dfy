/** The sampling-phase search of MshcRockchipExecuteTuning (rockchip_ops.cpp):
    it tries phases in order, skipping ahead after a bad one, records the runs
    of good ones, joins the run at the end to the run at the start, and takes
    the middle of a longest run.

    ok[i] is whether setting phase i and sending the tuning command succeeds;
    every phase is tried at most once, so this covers all behaviours. */
module SdTuning {
  import opened Arith

  const NUM_PHASES := 360
  const BAD_PHASES_TO_SKIP := 20

  // RANGE_INDEX_TO_PHASE and PHASE_TO_RANGE_INDEX: with one index a degree,
  // DIV_CEIL(x * 360, 360).
  function RangeIndexToPhase(index: nat): nat { (index * 360 + NUM_PHASES - 1) / NUM_PHASES }
  function PhaseToRangeIndex(phase: nat): nat { (phase * NUM_PHASES + 360 - 1) / 360 }

  lemma IndexIsPhase(i: nat)
    ensures RangeIndexToPhase(i) == i && PhaseToRangeIndex(i) == i
  {}

  datatype Range = Range(start: int, end: int)

  datatype Outcome =
    | AllBad                  // STATUS_IO_DEVICE_ERROR
    | AllGood                 // the default phase is used
    | Tuned(index: nat)

  // ----------------------------------------------------------- the specification

  function NextIndex(ok: seq<bool>, i: nat): (n: nat)
    requires |ok| == NUM_PHASES && i < NUM_PHASES
    ensures i < n <= NUM_PHASES
  {
    if ok[i] then i + 1
    else if i == NUM_PHASES - 1 then NUM_PHASES
    else if i + BAD_PHASES_TO_SKIP >= NUM_PHASES then NUM_PHASES - 1
    else i + BAD_PHASES_TO_SKIP
  }

  // Phase k is tried by a search that has come to phase i.
  predicate Tried(ok: seq<bool>, i: nat, k: nat)
    requires |ok| == NUM_PHASES && i <= NUM_PHASES
    decreases NUM_PHASES - i
  {
    i < NUM_PHASES && (i == k || Tried(ok, NextIndex(ok, i), k))
  }

  // Phase k was tried and worked.
  predicate Good(ok: seq<bool>, k: nat)
    requires |ok| == NUM_PHASES
  {
    k < NUM_PHASES && ok[k] && Tried(ok, 0, k)
  }

  function Around(s: nat, j: nat): (k: nat)
    ensures k < NUM_PHASES
  {
    (s + j) % NUM_PHASES
  }

  // len good phases in a row, from s on, around the circle.
  ghost predicate GoodRun(ok: seq<bool>, s: nat, len: nat)
    requires |ok| == NUM_PHASES
  {
    s < NUM_PHASES && 1 <= len <= NUM_PHASES && forall j: nat | j < len :: Good(ok, Around(s, j))
  }

  lemma {:induction false} TriedFrom(ok: seq<bool>, i: nat, k: nat)
    requires |ok| == NUM_PHASES && i <= NUM_PHASES
    ensures Tried(ok, i, k) ==> i <= k < NUM_PHASES
    decreases NUM_PHASES - i
  {
    if i < NUM_PHASES && i != k { TriedFrom(ok, NextIndex(ok, i), k); }
  }

  /** The last phase is always tried. */
  lemma {:induction false} LastIsTried(ok: seq<bool>, i: nat)
    requires |ok| == NUM_PHASES && i < NUM_PHASES
    ensures Tried(ok, i, NUM_PHASES - 1)
    decreases NUM_PHASES - i
  {
    if i != NUM_PHASES - 1 { LastIsTried(ok, NextIndex(ok, i)); }
  }

  // ---------------------------------------------------- runs as they are found

  predicate Within(r: Range, k: int) { r.start <= k <= r.end }

  // Recorded ranges lie in order with a gap between them.
  predicate Ordered(rs: seq<Range>) {
    && (forall i | 0 <= i < |rs| :: 0 <= rs[i].start <= rs[i].end < NUM_PHASES && rs[i].start >= 2 * i)
    && (forall i, j | 0 <= i < j < |rs| :: rs[i].end + 2 <= rs[j].start)
  }

  // Below `to`, the ranges hold exactly the good phases.
  ghost predicate Records(ok: seq<bool>, rs: seq<Range>, to: nat)
    requires |ok| == NUM_PHASES
  {
    && Ordered(rs)
    && (forall i, k {:trigger Within(rs[i], k)} | 0 <= i < |rs| && Within(rs[i], k) :: 0 <= k < to && Good(ok, k))
    && (forall k | 0 <= k < to && Good(ok, k) :: exists i :: 0 <= i < |rs| && Within(rs[i], k))
  }

  // The last range is still open exactly if the phase before was good.
  predicate Open(rs: seq<Range>, to: nat, previousOk: bool) {
    if previousOk then |rs| > 0 && rs[|rs| - 1].end == to - 1
    else forall i | 0 <= i < |rs| :: rs[i].end <= to - 2
  }

  // A search that has come to `to`: what remains to be tried.
  ghost predicate Reached(ok: seq<bool>, to: nat)
    requires |ok| == NUM_PHASES && to <= NUM_PHASES
  {
    forall k | to <= k < NUM_PHASES :: Tried(ok, 0, k) <==> Tried(ok, to, k)
  }

  lemma ReachedNext(ok: seq<bool>, to: nat)
    requires |ok| == NUM_PHASES && to < NUM_PHASES && Reached(ok, to)
    ensures Tried(ok, 0, to)
    ensures Reached(ok, NextIndex(ok, to))
    ensures forall k | to < k < NextIndex(ok, to) :: !Tried(ok, 0, k)
  {
    assert Tried(ok, to, to);
    forall k | to < k < NUM_PHASES ensures Tried(ok, 0, k) <==> Tried(ok, NextIndex(ok, to), k) {
      assert Tried(ok, 0, k) <==> Tried(ok, to, k);
    }
    forall k | to < k < NextIndex(ok, to) ensures !Tried(ok, 0, k) {
      TriedFrom(ok, NextIndex(ok, to), k);
    }
  }

  // One phase more: good ones extend the open range or start a new one.
  function Recorded(rs: seq<Range>, i: nat, good: bool, previousOk: bool): seq<Range>
    requires previousOk ==> |rs| > 0
  {
    if !good then rs
    else if previousOk then rs[..|rs| - 1] + [rs[|rs| - 1].(end := i)]
    else rs + [Range(i, i)]
  }

  lemma RecordedOrdered(rs: seq<Range>, i: nat, previousOk: bool)
    requires Ordered(rs) && Open(rs, i, previousOk) && i < NUM_PHASES
    ensures Ordered(Recorded(rs, i, true, previousOk))
  {
    var t := Recorded(rs, i, true, previousOk);
    var last := |t| - 1;
    assert forall j | 0 <= j < last :: t[j] == rs[j];
    if !previousOk && |rs| > 0 {
      assert rs[last - 1].end <= i - 2 && rs[last - 1].start >= 2 * (last - 1);
    }
  }

  lemma RecordsGood(ok: seq<bool>, rs: seq<Range>, i: nat, previousOk: bool)
    requires |ok| == NUM_PHASES && i < NUM_PHASES
    requires Records(ok, rs, i) && Open(rs, i, previousOk) && Good(ok, i)
    ensures previousOk ==> |rs| > 0
    ensures Records(ok, Recorded(rs, i, true, previousOk), i + 1)
    ensures Open(Recorded(rs, i, true, previousOk), i + 1, true)
  {
    hide Good, Ordered;
    var t := Recorded(rs, i, true, previousOk);
    var last := |t| - 1;
    assert forall j | 0 <= j < last :: t[j] == rs[j];
    RecordedOrdered(rs, i, previousOk);
    forall j, k | 0 <= j < |t| && Within(t[j], k) ensures k < i + 1 && Good(ok, k) {
      if j < last || (previousOk && k < i) { assert Within(rs[j], k); }
    }
    forall k | 0 <= k < i + 1 && Good(ok, k) ensures exists j :: 0 <= j < |t| && Within(t[j], k) {
      if k == i {
        assert Within(t[last], k);
      } else {
        var j :| 0 <= j < |rs| && Within(rs[j], k);
        assert Within(t[j], k);
      }
    }
  }

  lemma EndBefore(ok: seq<bool>, rs: seq<Range>, to: nat, j: nat)
    requires |ok| == NUM_PHASES && Records(ok, rs, to) && j < |rs|
    ensures rs[j].end < to
  {
    hide Good;
    var end: nat := rs[j].end;
    assert Within(rs[j], end);
  }

  lemma RecordsBad(ok: seq<bool>, rs: seq<Range>, i: nat, n: nat)
    requires |ok| == NUM_PHASES && i < n <= NUM_PHASES
    requires Records(ok, rs, i) && forall k | i <= k < n :: !Good(ok, k)
    ensures Records(ok, rs, n) && Open(rs, n, false)
  {
    hide Good;
    forall j | 0 <= j < |rs| ensures rs[j].end < i {
      EndBefore(ok, rs, i, j);
    }
  }

  lemma RecordsNext(ok: seq<bool>, rs: seq<Range>, i: nat, previousOk: bool)
    requires |ok| == NUM_PHASES && i < NUM_PHASES
    requires Records(ok, rs, i) && Open(rs, i, previousOk) && Reached(ok, i)
    ensures previousOk ==> |rs| > 0
    ensures Records(ok, Recorded(rs, i, ok[i], previousOk), NextIndex(ok, i))
    ensures Open(Recorded(rs, i, ok[i], previousOk), NextIndex(ok, i), ok[i])
    ensures |Recorded(rs, i, ok[i], previousOk)| <= NUM_PHASES / 2
    ensures Reached(ok, NextIndex(ok, i))
  {
    hide Tried, Records, Reached;
    ReachedNext(ok, i);
    if ok[i] {
      RecordsGood(ok, rs, i, previousOk);
    } else {
      RecordsBad(ok, rs, i, NextIndex(ok, i));
    }
    AtMostHalf(ok, Recorded(rs, i, ok[i], previousOk), NextIndex(ok, i));
  }

  lemma AtMostHalf(ok: seq<bool>, rs: seq<Range>, to: nat)
    requires |ok| == NUM_PHASES && Records(ok, rs, to)
    ensures |rs| <= NUM_PHASES / 2
  {
    hide Good;
    if |rs| > 0 { assert rs[|rs| - 1].start >= 2 * (|rs| - 1); }
  }

  lemma NothingRecorded(ok: seq<bool>)
    requires |ok| == NUM_PHASES
    ensures Records(ok, [], 0) && Open([], 0, false) && Reached(ok, 0)
  {
    hide Tried;
  }

  // -------------------------------------------------------------- the circle

  function Length(r: Range): int {
    var n := r.end - r.start + 1;
    if n < 0 then n + NUM_PHASES else n
  }

  // A range of the circle that holds only good phases and cannot be extended
  // at its end.
  ghost predicate Closed(ok: seq<bool>, r: Range)
    requires |ok| == NUM_PHASES
  {
    && 0 <= r.start < NUM_PHASES && 1 <= Length(r) < NUM_PHASES
    && GoodRun(ok, r.start, Length(r))
    && !Good(ok, Around(r.start, Length(r)))
  }

  // How far k is after the start of r.
  function Offset(r: Range, k: int): (o: int)
    ensures 0 <= o < NUM_PHASES
  {
    (k - r.start) % NUM_PHASES
  }

  // The ranges, seen on the circle, hold every good phase.
  ghost predicate Covers(ok: seq<bool>, rs: seq<Range>)
    requires |ok| == NUM_PHASES
  {
    forall k | 0 <= k < NUM_PHASES && Good(ok, k) :: exists i :: 0 <= i < |rs| && Offset(rs[i], k) < Length(rs[i])
  }

  lemma AroundNext(s: nat, j: nat)
    requires s < NUM_PHASES
    ensures Around(s, j + 1) == if Around(s, j) == NUM_PHASES - 1 then 0 else Around(s, j) + 1
  {}

  lemma OffsetIs(r: Range, k: nat)
    requires 0 <= r.start < NUM_PHASES && k < NUM_PHASES
    ensures Offset(r, k) == if k >= r.start then k - r.start else k - r.start + NUM_PHASES
  {}

  lemma AroundIs(s: nat, o: nat)
    requires s < NUM_PHASES && o <= NUM_PHASES
    ensures Around(s, o) == if s + o < NUM_PHASES then s + o else s + o - NUM_PHASES
  {}

  lemma OffsetNext(r: Range, s: nat, j: nat)
    requires 0 <= r.start < NUM_PHASES && s < NUM_PHASES
    ensures Offset(r, Around(s, j + 1))
         == if Offset(r, Around(s, j)) == NUM_PHASES - 1 then 0 else Offset(r, Around(s, j)) + 1
    ensures Around(r.start, Offset(r, Around(s, j)) + 1) == Around(s, j + 1)
  {
    hide Offset, Around;
    AroundNext(s, j);
    OffsetIs(r, Around(s, j));
    OffsetIs(r, Around(s, j + 1));
    AroundIs(r.start, Offset(r, Around(s, j)) + 1);
  }

  // A run that starts inside a closed range stays inside it.
  lemma {:induction false} StaysInside(ok: seq<bool>, r: Range, s: nat, len: nat)
    requires |ok| == NUM_PHASES && Closed(ok, r) && GoodRun(ok, s, len)
    requires Offset(r, s) < Length(r)
    ensures Offset(r, s) + len <= Length(r)
    ensures Offset(r, Around(s, len - 1)) == Offset(r, s) + len - 1
    decreases len
  {
    hide Good, Length, Offset, Around;
    if len == 1 {
      AroundZero(s);
    } else {
      StaysInside(ok, r, s, len - 1);
      OffsetNext(r, s, len - 2);
      assert Good(ok, Around(s, len - 1));
    }
  }

  lemma AroundZero(s: nat)
    requires s < NUM_PHASES
    ensures Around(s, 0) == s
  {}

  lemma LongestIsLongest(ok: seq<bool>, rs: seq<Range>, best: nat, s: nat, len: nat)
    requires |ok| == NUM_PHASES && Covers(ok, rs) && best < |rs|
    requires forall i | 0 <= i < |rs| :: Closed(ok, rs[i]) && Length(rs[i]) <= Length(rs[best])
    requires GoodRun(ok, s, len)
    ensures len <= Length(rs[best])
  {
    AroundZero(s);
    assert Good(ok, Around(s, 0));
    var i :| 0 <= i < |rs| && Offset(rs[i], s) < Length(rs[i]);
    StaysInside(ok, rs[i], s, len);
  }

  // The join of the last range to the first.
  function Joined(rs: seq<Range>, ok: seq<bool>): seq<Range>
    requires |ok| == NUM_PHASES
  {
    if |rs| > 1 && ok[0] && ok[NUM_PHASES - 1]
    then [Range(rs[|rs| - 1].start, rs[0].end)] + rs[1..|rs| - 1]
    else rs
  }

  lemma RangeOf(ok: seq<bool>, rs: seq<Range>, k: nat) returns (i: nat)
    requires |ok| == NUM_PHASES && Records(ok, rs, NUM_PHASES) && Good(ok, k)
    ensures i < |rs| && Within(rs[i], k)
  {
    i :| 0 <= i < |rs| && Within(rs[i], k);
  }

  // A phase after a range and before the next one is not good.
  lemma GapIsBad(ok: seq<bool>, rs: seq<Range>, i: nat)
    requires |ok| == NUM_PHASES && Records(ok, rs, NUM_PHASES) && i < |rs| && rs[i].end + 1 < NUM_PHASES
    ensures !Good(ok, rs[i].end + 1)
  {
    if Good(ok, rs[i].end + 1) {
      var j := RangeOf(ok, rs, rs[i].end + 1);
    }
  }

  lemma PlainClosed(ok: seq<bool>, rs: seq<Range>, i: nat)
    requires |ok| == NUM_PHASES && Records(ok, rs, NUM_PHASES) && i < |rs|
    requires rs[i] != Range(0, NUM_PHASES - 1)
    requires rs[i].end == NUM_PHASES - 1 ==> !Good(ok, 0)
    ensures Closed(ok, rs[i]) && Length(rs[i]) == rs[i].end - rs[i].start + 1
    ensures forall k | 0 <= k < NUM_PHASES && Within(rs[i], k) :: Offset(rs[i], k) < Length(rs[i])
  {
    hide Good;
    if rs[i].end + 1 < NUM_PHASES { GapIsBad(ok, rs, i); }
    forall j: nat | j < Length(rs[i]) ensures Good(ok, Around(rs[i].start, j)) {
      assert Within(rs[i], rs[i].start + j);
    }
  }

  lemma JoinedClosed(ok: seq<bool>, rs: seq<Range>)
    requires |ok| == NUM_PHASES && Records(ok, rs, NUM_PHASES) && |rs| > 1 && Good(ok, 0) && Good(ok, NUM_PHASES - 1)
    ensures rs[0].start == 0 && rs[|rs| - 1].end == NUM_PHASES - 1
    ensures var r := Range(rs[|rs| - 1].start, rs[0].end);
      && Closed(ok, r)
      && (forall k | 0 <= k < NUM_PHASES && (Within(rs[0], k) || Within(rs[|rs| - 1], k)) :: Offset(r, k) < Length(r))
  {
    hide Good;
    var last := |rs| - 1;
    var i0 := RangeOf(ok, rs, 0);
    var i1 := RangeOf(ok, rs, NUM_PHASES - 1);
    assert rs[0].end + 2 <= rs[last].start;
    var r := Range(rs[last].start, rs[0].end);
    GapIsBad(ok, rs, 0);
    assert Length(r) == NUM_PHASES - rs[last].start + rs[0].end + 1;
    forall j: nat | j < Length(r) ensures Good(ok, Around(r.start, j)) {
      if r.start + j < NUM_PHASES { assert Within(rs[last], r.start + j); }
      else { assert Within(rs[0], r.start + j - NUM_PHASES); }
    }
    assert Around(r.start, Length(r)) == rs[0].end + 1;
  }

  // Phase 0 and the last phase are good exactly if they worked.
  lemma EndsTried(ok: seq<bool>)
    requires |ok| == NUM_PHASES
    ensures Good(ok, 0) <==> ok[0]
    ensures Good(ok, NUM_PHASES - 1) <==> ok[NUM_PHASES - 1]
  {
    LastIsTried(ok, 0);
  }

  lemma JoinedAllClosed(ok: seq<bool>, rs: seq<Range>)
    requires |ok| == NUM_PHASES && Records(ok, rs, NUM_PHASES) && |rs| > 0
    requires rs[0] != Range(0, NUM_PHASES - 1)
    ensures Covers(ok, Joined(rs, ok))
    ensures forall i | 0 <= i < |Joined(rs, ok)| :: Closed(ok, Joined(rs, ok)[i])
  {
    hide Good, Offset, Length, Closed;
    var t := Joined(rs, ok);
    EndsTried(ok);
    var join := |rs| > 1 && ok[0] && ok[NUM_PHASES - 1];
    if join { JoinedClosed(ok, rs); }
    forall i | 0 <= i < |rs| && !(join && (i == 0 || i == |rs| - 1))
      ensures Closed(ok, rs[i])
      ensures forall k | 0 <= k < NUM_PHASES && Within(rs[i], k) :: Offset(rs[i], k) < Length(rs[i])
    {
      LoneRange(ok, rs, i);
      PlainClosed(ok, rs, i);
    }
    forall k | 0 <= k < NUM_PHASES && Good(ok, k) ensures exists i :: 0 <= i < |t| && Offset(t[i], k) < Length(t[i]) {
      var i := RangeOf(ok, rs, k);
      if join && (i == 0 || i == |rs| - 1) {
        assert Offset(t[0], k) < Length(t[0]);
      } else {
        JoinedAt(rs, ok, i);
      }
    }
    forall i | 0 <= i < |t| ensures Closed(ok, t[i]) {
      if !(join && i == 0) { JoinedAt(rs, ok, i); }
    }
  }

  lemma EndsLast(rs: seq<Range>, i: nat)
    requires Ordered(rs) && i < |rs| && rs[i].end == NUM_PHASES - 1
    ensures i == |rs| - 1
  {
    assert rs[|rs| - 1].start < NUM_PHASES;
  }

  lemma JoinedAt(rs: seq<Range>, ok: seq<bool>, i: nat)
    requires |ok| == NUM_PHASES && i < |Joined(rs, ok)|
    requires i > 0 || !(|rs| > 1 && ok[0] && ok[NUM_PHASES - 1])
    ensures Joined(rs, ok)[i] == rs[i]
  {}

  // A range that is not joined and reaches the end has a bad phase 0 after it.
  lemma LoneRange(ok: seq<bool>, rs: seq<Range>, i: nat)
    requires |ok| == NUM_PHASES && Records(ok, rs, NUM_PHASES) && i < |rs| && rs[0] != Range(0, NUM_PHASES - 1)
    requires !(|rs| > 1 && ok[0] && ok[NUM_PHASES - 1]) || (0 < i < |rs| - 1)
    ensures rs[i] != Range(0, NUM_PHASES - 1)
    ensures rs[i].end == NUM_PHASES - 1 ==> !Good(ok, 0)
  {
    hide Good;
    EndsTried(ok);
    if rs[i].end == NUM_PHASES - 1 {
      assert Within(rs[i], NUM_PHASES - 1);
      EndsLast(rs, i);
    }
  }

  lemma NothingGood(ok: seq<bool>, rs: seq<Range>)
    requires |ok| == NUM_PHASES && Records(ok, rs, NUM_PHASES) && |rs| == 0
    ensures forall k | 0 <= k < NUM_PHASES :: !Good(ok, k)
    ensures !GoodRun(ok, 0, NUM_PHASES)
  {
    hide Good, Around;
    assert forall k | 0 <= k < NUM_PHASES :: !Good(ok, k);
    assert !Good(ok, Around(0, 0));
  }

  lemma SomethingGood(ok: seq<bool>, rs: seq<Range>)
    requires |ok| == NUM_PHASES && Records(ok, rs, NUM_PHASES) && |rs| > 0
    ensures exists k :: 0 <= k < NUM_PHASES && Good(ok, k)
  {
    hide Good;
    assert Within(rs[0], rs[0].start);
    assert Good(ok, rs[0].start);
  }

  lemma AllGoodRange(ok: seq<bool>, rs: seq<Range>)
    requires |ok| == NUM_PHASES && Records(ok, rs, NUM_PHASES) && |rs| > 0
    ensures GoodRun(ok, 0, NUM_PHASES) <==> rs[0] == Range(0, NUM_PHASES - 1)
    ensures rs[0] == Range(0, NUM_PHASES - 1) <==> Joined(rs, ok)[0] == Range(0, NUM_PHASES - 1)
  {
    hide Good;
    if rs[0] == Range(0, NUM_PHASES - 1) {
      forall j: nat | j < NUM_PHASES ensures Good(ok, Around(0, j)) {
        assert Within(rs[0], j);
      }
    } else { NotAllGood(ok, rs); }
    if |rs| > 1 { assert rs[0].end + 2 <= rs[|rs| - 1].start; }
  }

  lemma NotAllGood(ok: seq<bool>, rs: seq<Range>)
    requires |ok| == NUM_PHASES && Records(ok, rs, NUM_PHASES) && |rs| > 0 && rs[0] != Range(0, NUM_PHASES - 1)
    ensures !GoodRun(ok, 0, NUM_PHASES)
  {
    hide Good, Around;
    if rs[0].end + 1 < NUM_PHASES {
      GapIsBad(ok, rs, 0);
      AroundIs(0, rs[0].end + 1);
      assert !Good(ok, Around(0, rs[0].end + 1));
    } else {
      AroundIs(0, 0);
      assert forall i | 0 <= i < |rs| :: !Within(rs[i], 0);
      assert !Good(ok, Around(0, 0));
    }
  }

  // ---------------------------------------------------------------- the search

  // The first loop.
  method FindRanges(ok: seq<bool>, ranges: array<Range>) returns (rangeCount: nat, firstOk: bool, currentOk: bool)
    requires |ok| == NUM_PHASES && ranges.Length == NUM_PHASES / 2 + 1
    modifies ranges
    ensures rangeCount <= NUM_PHASES / 2 && Records(ok, ranges[..rangeCount], NUM_PHASES)
    ensures firstOk == ok[0] && currentOk == ok[NUM_PHASES - 1]
  {
    hide Tried, Good, Records, Open, Reached;
    NothingRecorded(ok);
    var previousOk := false;
    firstOk, currentOk := false, false;
    rangeCount := 0;
    var index := 0;
    assert ranges[..0] == [];
    while index < NUM_PHASES
      invariant 0 <= index <= NUM_PHASES && rangeCount <= NUM_PHASES / 2
      invariant Records(ok, ranges[..rangeCount], index) && Open(ranges[..rangeCount], index, previousOk) && Reached(ok, index)
      invariant index > 0 ==> firstOk == ok[0]
      invariant index == NUM_PHASES ==> currentOk == ok[NUM_PHASES - 1]
      decreases NUM_PHASES - index
    {
      ghost var rs, at, before := ranges[..rangeCount], index, previousOk;
      RecordsNext(ok, rs, at, before);
      currentOk := ok[index];
      if index == 0 {
        firstOk := currentOk;
      }
      if currentOk {
        if !previousOk {
          rangeCount := rangeCount + 1;
          ranges[rangeCount - 1] := ranges[rangeCount - 1].(start := index);
        }
        ranges[rangeCount - 1] := ranges[rangeCount - 1].(end := index);
        index := index + 1;
      } else if index == NUM_PHASES - 1 {
        // the last phase: there is nothing to skip to
        index := index + 1;
      } else {
        index := index + PhaseToRangeIndex(BAD_PHASES_TO_SKIP);
        // the last phase is never skipped
        if index >= NUM_PHASES {
          index := NUM_PHASES - 1;
        }
      }
      assert ranges[..rangeCount] == Recorded(rs, at, currentOk, before);
      assert index == NextIndex(ok, at);
      previousOk := currentOk;
    }
  }

  // The second loop: a first longest range.
  method FindLongest(ranges: array<Range>, rangeCount: nat) returns (longestRangeLength: int, longestRange: int)
    requires 0 < rangeCount <= ranges.Length
    requires forall i | 0 <= i < rangeCount :: Length(ranges[i]) >= 1
    ensures 0 <= longestRange < rangeCount && longestRangeLength == Length(ranges[longestRange])
    ensures forall i | 0 <= i < rangeCount :: Length(ranges[i]) <= longestRangeLength
    ensures forall i | 0 <= i < longestRange :: Length(ranges[i]) < longestRangeLength
  {
    longestRangeLength := -1;
    longestRange := -1;
    for index := 0 to rangeCount
      invariant index == 0 ==> longestRangeLength == longestRange == -1
      invariant index > 0 ==> 0 <= longestRange < index && longestRangeLength == Length(ranges[longestRange])
      invariant forall i | 0 <= i < index :: Length(ranges[i]) <= longestRangeLength
      invariant forall i | 0 <= i < longestRange :: Length(ranges[i]) < longestRangeLength
    {
      var length := ranges[index].end - ranges[index].start + 1;
      if length < 0 {
        length := length + NUM_PHASES;
      }
      if longestRangeLength < length {
        longestRangeLength := length;
        longestRange := index;
      }
    }
  }

  // index is the middle of a longest run.
  ghost predicate MiddleOfLongest(ok: seq<bool>, index: nat, s: nat, len: nat)
    requires |ok| == NUM_PHASES
  {
    && GoodRun(ok, s, len) && len < NUM_PHASES && index == Around(s, len / 2)
    && forall s': nat, len': nat | GoodRun(ok, s', len') :: len' <= len
  }

  lemma ChosenIsMiddle(ok: seq<bool>, rs: seq<Range>, best: nat)
    requires |ok| == NUM_PHASES && Covers(ok, rs) && best < |rs|
    requires forall i | 0 <= i < |rs| :: Closed(ok, rs[i]) && Length(rs[i]) <= Length(rs[best])
    ensures 0 <= rs[best].start < NUM_PHASES && Length(rs[best]) >= 1
    ensures var len := Length(rs[best]);
      && MiddleOfLongest(ok, Around(rs[best].start, len / 2), rs[best].start, len)
      && Good(ok, Around(rs[best].start, len / 2))
  {
    hide Good, Offset, Around, Length;
    assert Closed(ok, rs[best]);
    forall s': nat, len': nat | GoodRun(ok, s', len') ensures len' <= Length(rs[best]) {
      LongestIsLongest(ok, rs, best, s', len');
    }
  }

  // ------------------------------------------------- what skipping can lose

  // len phases in a row that would work, tried or not.
  ghost predicate WorkingRun(ok: seq<bool>, s: nat, len: nat)
    requires |ok| == NUM_PHASES
  {
    s < NUM_PHASES && 1 <= len <= NUM_PHASES && forall j: nat | j < len :: ok[Around(s, j)]
  }

  // From any phase on, one of the next twenty is tried.
  lemma {:induction false} TriedSoon(ok: seq<bool>, i: nat, s: nat) returns (n: nat)
    requires |ok| == NUM_PHASES && i <= s < NUM_PHASES
    ensures s <= n < s + BAD_PHASES_TO_SKIP && n < NUM_PHASES && Tried(ok, i, n)
    decreases s - i
  {
    var next := NextIndex(ok, i);
    if i == s {
      n := s;
    } else if next <= s {
      n := TriedSoon(ok, next, s);
    } else {
      n := next;
    }
  }

  // The phase after one that works is tried.
  lemma {:induction false} TriedAfter(ok: seq<bool>, i: nat, k: nat)
    requires |ok| == NUM_PHASES && i <= NUM_PHASES && k + 1 < NUM_PHASES && ok[k] && Tried(ok, i, k)
    ensures Tried(ok, i, k + 1)
    decreases NUM_PHASES - i
  {
    if i != k {
      TriedAfter(ok, NextIndex(ok, i), k);
    } else {
      assert NextIndex(ok, k) == k + 1 && Tried(ok, k + 1, k + 1);
    }
  }

  lemma GoodAfter(ok: seq<bool>, s: nat, j: nat)
    requires |ok| == NUM_PHASES && Good(ok, Around(s, j)) && ok[Around(s, j + 1)]
    ensures Good(ok, Around(s, j + 1))
  {
    var k := Around(s, j);
    if k + 1 < NUM_PHASES { TriedAfter(ok, 0, k); }
  }

  lemma {:induction false} GoodOnwards(ok: seq<bool>, s: nat, len: nat, d: nat, j: nat)
    requires |ok| == NUM_PHASES && WorkingRun(ok, s, len) && d <= j < len && Good(ok, Around(s, d))
    ensures Good(ok, Around(s, j))
    decreases j
  {
    hide Good;
    if j > d {
      GoodOnwards(ok, s, len, d, j - 1);
      GoodAfter(ok, s, j - 1);
    }
  }

  /** Of a run of phases that work, skipping loses fewer than twenty, all of
      them at its start. */
  lemma SkippingLosesFew(ok: seq<bool>, s: nat, len: nat) returns (d: nat)
    requires |ok| == NUM_PHASES && WorkingRun(ok, s, len)
    ensures d < BAD_PHASES_TO_SKIP && forall j: nat | d <= j < len :: Good(ok, Around(s, j))
  {
    hide Tried;
    var n := TriedSoon(ok, 0, s);
    d := n - s;
    if d < len {
      AroundIs(s, d);
      assert ok[Around(s, d)];
      forall j: nat | d <= j < len ensures Good(ok, Around(s, j)) { GoodOnwards(ok, s, len, d, j); }
    }
  }

  // What is left of it is a run of good phases.
  lemma RestIsGoodRun(ok: seq<bool>, s: nat, len: nat, d: nat)
    requires |ok| == NUM_PHASES && s < NUM_PHASES && d < len <= NUM_PHASES
    requires forall j: nat | d <= j < len :: Good(ok, Around(s, j))
    ensures GoodRun(ok, Around(s, d), len - d)
  {
    hide Good;
    forall j: nat | j < len - d ensures Good(ok, Around(Around(s, d), j)) {
      assert Around(Around(s, d), j) == Around(s, d + j);
    }
  }

  /** The run chosen is at most nineteen phases shorter than the longest run of
      phases that work; and if every phase that was tried failed, no more than
      nineteen in a row work. */
  lemma ChosenIsNearlyLongest(ok: seq<bool>, len: nat, s': nat, len': nat)
    requires |ok| == NUM_PHASES && WorkingRun(ok, s', len')
    requires forall s: nat, l: nat | GoodRun(ok, s, l) :: l <= len
    ensures len' <= len + 19
  {
    hide Good, GoodRun, WorkingRun;
    var d := SkippingLosesFew(ok, s', len');
    if d < len' {
      RunStarts(ok, s', len');
      RestIsGoodRun(ok, s', len', d);
    }
  }

  lemma RunStarts(ok: seq<bool>, s: nat, len: nat)
    requires |ok| == NUM_PHASES && WorkingRun(ok, s, len)
    ensures s < NUM_PHASES && len <= NUM_PHASES
  {}

  // Only phases 1 to 19 work.
  function FirstNineteen(): (ok: seq<bool>)
    ensures |ok| == NUM_PHASES
  {
    seq(NUM_PHASES, k => 1 <= k < BAD_PHASES_TO_SKIP)
  }

  // The phases a search that only fails comes to: 0, 20, ..., 340 and 359.
  predicate Station(k: nat) { k % BAD_PHASES_TO_SKIP == 0 || k == NUM_PHASES - 1 }

  predicate StationsFail(ok: seq<bool>)
    requires |ok| == NUM_PHASES
  {
    forall k: nat | k < NUM_PHASES && Station(k) :: !ok[k]
  }

  // It comes to no other phase ...
  lemma {:induction false} OnlyStations(ok: seq<bool>, i: nat, k: nat)
    requires |ok| == NUM_PHASES && StationsFail(ok)
    requires i <= NUM_PHASES && (Station(i) || i == NUM_PHASES) && Tried(ok, i, k)
    ensures k < NUM_PHASES && Station(k)
    decreases NUM_PHASES - i
  {
    if i != k { OnlyStations(ok, NextIndex(ok, i), k); }
  }

  // ... and to each of them.
  lemma {:induction false} EachStation(ok: seq<bool>, i: nat, k: nat)
    requires |ok| == NUM_PHASES && i <= k < NUM_PHASES && Station(i) && Station(k)
    requires forall x: nat | i <= x < NUM_PHASES && Tried(ok, i, x) :: !ok[x]
    ensures Tried(ok, i, k)
    decreases NUM_PHASES - i
  {
    if i != k {
      assert Tried(ok, i, i);
      EachStation(ok, NextIndex(ok, i), k);
    }
  }

  /** No phase that was tried works exactly if none of 0, 20, ..., 340 and 359
      works. */
  lemma NoneGoodIff(ok: seq<bool>)
    requires |ok| == NUM_PHASES
    ensures (forall k | 0 <= k < NUM_PHASES :: !Good(ok, k)) <==> StationsFail(ok)
  {
    if StationsFail(ok) {
      forall k | 0 <= k < NUM_PHASES ensures !Good(ok, k) {
        if Tried(ok, 0, k) { OnlyStations(ok, 0, k); }
      }
    } else {
      var k: nat :| k < NUM_PHASES && Station(k) && ok[k];
      if forall x | 0 <= x < NUM_PHASES :: !Good(ok, x) {
        forall x: nat | x < NUM_PHASES && Tried(ok, 0, x) ensures !ok[x] { assert !Good(ok, x); }
        EachStation(ok, 0, k);
      }
    }
  }

  /** All nineteen can be lost: then the search finds nothing. */
  lemma NineteenCanBeLost()
    ensures WorkingRun(FirstNineteen(), 1, 19)
    ensures forall k | 0 <= k < NUM_PHASES :: !Good(FirstNineteen(), k)
  {
    NoneGoodIff(FirstNineteen());
  }

  // The phases from g up to s fail, all that do before s, which works.
  predicate Gap(ok: seq<bool>, g: nat, s: nat)
    requires |ok| == NUM_PHASES
  {
    g < s < NUM_PHASES && ok[s] && (g == 0 || ok[g - 1]) && forall x: nat | g <= x < s :: !ok[x]
  }

  // Every gap in front of a phase other than the last is a number of skips.
  ghost predicate GapsAreSkips(ok: seq<bool>)
    requires |ok| == NUM_PHASES
  {
    forall g: nat, s: nat | Gap(ok, g, s) && s < NUM_PHASES - 1 :: (s - g) % BAD_PHASES_TO_SKIP == 0
  }

  // The search is in a gap that began at g, or at its end.
  predicate InGap(ok: seq<bool>, g: nat, i: nat)
    requires |ok| == NUM_PHASES
  {
    && g <= i < NUM_PHASES && (g == 0 || ok[g - 1]) && (i - g) % BAD_PHASES_TO_SKIP == 0
    && forall x: nat | g <= x < i :: !ok[x]
  }

  lemma FirstWorking(ok: seq<bool>, i: nat, k: nat) returns (s: nat)
    requires |ok| == NUM_PHASES && i <= k < NUM_PHASES && ok[k]
    ensures i <= s <= k && ok[s] && forall x: nat | i <= x < s :: !ok[x]
  {
    s := i;
    while !ok[s]
      invariant i <= s <= k && forall x: nat | i <= x < s :: !ok[x]
      decreases k - s
    {
      s := s + 1;
    }
  }

  lemma {:induction false} AllComeUp(ok: seq<bool>, g: nat, i: nat, k: nat)
    requires |ok| == NUM_PHASES && GapsAreSkips(ok) && InGap(ok, g, i) && i <= k < NUM_PHASES - 1 && ok[k]
    ensures Tried(ok, i, k)
    decreases NUM_PHASES - i
  {
    if i == k {
    } else if ok[i] {
      AllComeUp(ok, i + 1, i + 1, k);
    } else {
      var s := FirstWorking(ok, i, k);
      assert Gap(ok, g, s);
      NextSkip(g, i, s);
      AllComeUp(ok, g, i + BAD_PHASES_TO_SKIP, k);
    }
  }

  lemma NextSkip(g: nat, i: nat, s: nat)
    requires g <= i < s && (i - g) % 20 == 0 && (s - g) % 20 == 0
    ensures i + 20 <= s && (i + 20 - g) % 20 == 0
  {}

  // What is tried later is tried from any phase that is.
  lemma {:induction false} TriedFromThere(ok: seq<bool>, i: nat, m: nat, k: nat)
    requires |ok| == NUM_PHASES && i <= NUM_PHASES && m <= k && Tried(ok, i, m) && Tried(ok, i, k)
    ensures m < NUM_PHASES && Tried(ok, m, k)
    decreases NUM_PHASES - i
  {
    if i != m {
      TriedFrom(ok, NextIndex(ok, i), m);
      TriedFromThere(ok, NextIndex(ok, i), m, k);
    }
  }

  lemma {:induction false} SkipsToEnd(ok: seq<bool>, i: nat, s: nat)
    requires |ok| == NUM_PHASES && i <= s < NUM_PHASES - 1 && Tried(ok, i, s)
    requires forall x: nat | i <= x < s :: !ok[x]
    ensures (s - i) % BAD_PHASES_TO_SKIP == 0
    decreases s - i
  {
    if i != s {
      var next := NextIndex(ok, i);
      TriedFrom(ok, next, s);
      SkipsToEnd(ok, next, s);
      assert next == i + BAD_PHASES_TO_SKIP;
    }
  }

  /** No phase that works is lost exactly if every run of failing phases in front
      of a working one, other than the last, has a length divisible by twenty. */
  lemma NothingLostIff(ok: seq<bool>)
    requires |ok| == NUM_PHASES
    ensures (forall k | 0 <= k < NUM_PHASES && ok[k] :: Good(ok, k)) <==> GapsAreSkips(ok)
  {
    if GapsAreSkips(ok) {
      forall k | 0 <= k < NUM_PHASES && ok[k] ensures Good(ok, k) {
        if k == NUM_PHASES - 1 { LastIsTried(ok, 0); } else { AllComeUp(ok, 0, 0, k); }
      }
    } else {
      var g: nat, s: nat :| Gap(ok, g, s) && s < NUM_PHASES - 1 && (s - g) % BAD_PHASES_TO_SKIP != 0;
      if forall k | 0 <= k < NUM_PHASES && ok[k] :: Good(ok, k) {
        assert Good(ok, s);
        if g > 0 {
          assert Good(ok, g - 1);
          TriedAfter(ok, 0, g - 1);
        }
        TriedFromThere(ok, 0, g, s);
        SkipsToEnd(ok, g, s);
      }
    }
  }

  /** Then the longest run of good phases is the longest run that works. */
  lemma NothingLostIsLongest(ok: seq<bool>, s: nat, len: nat)
    requires |ok| == NUM_PHASES && GapsAreSkips(ok)
    ensures GoodRun(ok, s, len) <==> WorkingRun(ok, s, len)
  {
    hide GapsAreSkips, Tried;
    NothingLostIff(ok);
  }

  // All work exactly if all are tried and work.
  lemma AllGoodIff(ok: seq<bool>)
    requires |ok| == NUM_PHASES
    ensures GoodRun(ok, 0, NUM_PHASES) <==> forall k: nat | k < NUM_PHASES :: ok[k]
  {
    if forall k: nat | k < NUM_PHASES :: ok[k] {
      assert WorkingRun(ok, 0, NUM_PHASES);
      assert forall g: nat, s: nat | Gap(ok, g, s) :: !ok[g];
      NothingLostIsLongest(ok, 0, NUM_PHASES);
    } else if GoodRun(ok, 0, NUM_PHASES) {
      forall k: nat | k < NUM_PHASES ensures ok[k] {
        AroundIs(0, k);
        assert Good(ok, Around(0, k));
      }
    }
  }

  // The rest of the search, once some phase has worked.
  method MiddleOfRanges(ok: seq<bool>, ranges: array<Range>, rangeCount: nat) returns (middlePhase: nat)
    requires |ok| == NUM_PHASES && 0 < rangeCount <= ranges.Length
    requires Covers(ok, ranges[..rangeCount])
    requires forall i | 0 <= i < rangeCount :: Closed(ok, ranges[i])
    ensures Good(ok, middlePhase)
    ensures exists s: nat, len: nat :: MiddleOfLongest(ok, middlePhase, s, len)
  {
    hide Good, Offset, Covers, GoodRun, MiddleOfLongest, Length;
    ghost var t := ranges[..rangeCount];
    assert forall i | 0 <= i < rangeCount :: Length(ranges[i]) >= 1 by {
      forall i | 0 <= i < rangeCount ensures Length(ranges[i]) >= 1 { assert Closed(ok, ranges[i]); }
    }
    var longestRangeLength, longestRange := FindLongest(ranges, rangeCount);
    assert t[longestRange] == ranges[longestRange];
    ChosenIsMiddle(ok, t, longestRange);
    middlePhase := ranges[longestRange].start + longestRangeLength / 2;
    middlePhase := middlePhase % NUM_PHASES;
    IndexIsPhase(middlePhase);
  }

  /** For every pattern of working phases: the error is returned exactly if none
      of 0, 20, ..., 340 and 359 works; the default phase is kept exactly if all
      360 work; otherwise the phase chosen is a good one, the middle of a run of
      good ones around the circle than which there is no longer one.  No run of
      phases that work is longer than that by more than nineteen, and none is
      longer if skipping loses nothing. */
  method ExecuteTuning(ok: seq<bool>) returns (outcome: Outcome)
    requires |ok| == NUM_PHASES
    ensures outcome.AllBad? <==> StationsFail(ok)
    ensures outcome.AllGood? <==> forall k: nat | k < NUM_PHASES :: ok[k]
    ensures outcome.Tuned? ==>
              Good(ok, outcome.index) && exists s: nat, len: nat ::
                MiddleOfLongest(ok, outcome.index, s, len)
                && forall s': nat, len': nat | WorkingRun(ok, s', len') ::
                     len' <= len + if GapsAreSkips(ok) then 0 else 19
  {
    hide Good, Records, Covers, Closed, GoodRun, MiddleOfLongest, WorkingRun, StationsFail, GapsAreSkips;
    NoneGoodIff(ok);
    AllGoodIff(ok);
    var ranges := new Range[NUM_PHASES / 2 + 1](_ => Range(0, 0));
    var rangeCount, firstOk, currentOk := FindRanges(ok, ranges);
    ghost var rs := ranges[..rangeCount];
    if rangeCount == 0 {
      NothingGood(ok, rs);
      return AllBad;
    }
    SomethingGood(ok, rs);

    // A run across phase 0 was recorded as two.
    if rangeCount > 1 && firstOk && currentOk {
      ranges[0] := ranges[0].(start := ranges[rangeCount - 1].start);
      rangeCount := rangeCount - 1;
    }
    ghost var t := ranges[..rangeCount];
    assert t == Joined(rs, ok);

    AllGoodRange(ok, rs);
    if ranges[0].start == 0 && ranges[0].end == NUM_PHASES - 1 {
      return AllGood;
    }
    JoinedAllClosed(ok, rs);
    assert forall i | 0 <= i < rangeCount :: ranges[i] == t[i];
    var middlePhase := MiddleOfRanges(ok, ranges, rangeCount);
    NearlyLongest(ok, middlePhase);
    outcome := Tuned(middlePhase);
  }

  lemma NearlyLongest(ok: seq<bool>, index: nat)
    requires |ok| == NUM_PHASES && exists s: nat, len: nat :: MiddleOfLongest(ok, index, s, len)
    ensures exists s: nat, len: nat ::
              MiddleOfLongest(ok, index, s, len)
              && forall s': nat, len': nat | WorkingRun(ok, s', len') ::
                   len' <= len + if GapsAreSkips(ok) then 0 else 19
  {
    hide WorkingRun, GoodRun, GapsAreSkips;
    var s: nat, len: nat :| MiddleOfLongest(ok, index, s, len);
    forall s': nat, len': nat | WorkingRun(ok, s', len')
      ensures len' <= len + if GapsAreSkips(ok) then 0 else 19
    {
      if GapsAreSkips(ok) { NothingLostIsLongest(ok, s', len'); }
      ChosenIsNearlyLongest(ok, len, s', len');
    }
  }
}
