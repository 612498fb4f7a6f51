/** Change heatmaps over fixed windows: `windows.rs`. */
module Heatmap {
  import opened Bytes
  import opened Sorting

  // ---------- Bytes that differ ----------

  function Max(a: nat, b: nat): nat {
    if a >= b then a else b
  }

  /** Differing positions of the common prefix, plus the length difference. */
  function Distance(a: Data, b: Data): nat {
    if a == [] || b == [] then Max(|a|, |b|)
    else (if a[0] != b[0] then 1 else 0) + Distance(a[1..], b[1..])
  }

  function Take(s: Data, n: nat): Data {
    s[..Min(n, |s|)]
  }

  function Drop(s: Data, n: nat): Data {
    s[Min(n, |s|)..]
  }

  lemma DistanceUnfolds(a: Data, b: Data)
    requires a != [] && b != []
    ensures Distance(a, b) == (if a[0] != b[0] then 1 else 0) + Distance(a[1..], b[1..])
  {
  }

  lemma CutStep(s: Data, n: nat)
    requires s != [] && n > 0
    ensures Take(s, n) != [] && Take(s, n)[0] == s[0] && Take(s, n)[1..] == Take(s[1..], n - 1)
    ensures Drop(s, n) == Drop(s[1..], n - 1)
  {
  }

  lemma CutLengths(s: Data, n: nat)
    ensures |Take(s, n)| + |Drop(s, n)| == |s|
    ensures n == 0 ==> Take(s, n) == [] && Drop(s, n) == s
  {
  }

  lemma {:induction false} DistanceSplits(a: Data, b: Data, n: nat)
    ensures Distance(a, b) == Distance(Take(a, n), Take(b, n)) + Distance(Drop(a, n), Drop(b, n))
    decreases n
  {
    hide Take, Drop;
    if a != [] && b != [] && n > 0 {
      hide Max, Distance;
      CutStep(a, n);
      CutStep(b, n);
      DistanceUnfolds(a, b);
      DistanceUnfolds(Take(a, n), Take(b, n));
      DistanceSplits(a[1..], b[1..], n - 1);
    } else {
      CutLengths(a, n);
      CutLengths(b, n);
    }
  }

  lemma {:induction false} DistanceBounds(a: Data, b: Data)
    ensures Distance(a, b) <= Max(|a|, |b|)
    ensures Distance(a, b) == 0 <==> a == b
  {
    if a != [] && b != [] {
      DistanceBounds(a[1..], b[1..]);
      assert a == [a[0]] + a[1..] && b == [b[0]] + b[1..];
    }
  }

  /** Window `i` of `s`. */
  function Window(s: Data, i: nat, w: nat): Data {
    Take(Drop(s, i * w), w)
  }

  predicate Differs(old_: Data, new_: Data, w: nat, i: nat) {
    Window(old_, i, w) != Window(new_, i, w)
  }

  function WindowCount(n: nat, w: nat): nat
    requires w > 0
  {
    (n + w - 1) / w
  }

  function Total(old_: Data, new_: Data, w: nat): nat
    requires w > 0
  {
    Max(WindowCount(|new_|, w), WindowCount(|old_|, w))
  }

  lemma DropDrop(s: Data, a: nat, b: nat)
    ensures Drop(Drop(s, a), b) == Drop(s, a + b)
  {
  }

  lemma NextWindow(i: nat, w: nat)
    ensures (i + 1) * w == i * w + w
  {
  }

  lemma CountCovers(n: nat, w: nat, total: nat)
    requires w > 0 && total >= WindowCount(n, w)
    ensures total * w >= n
  {
    var c := WindowCount(n, w);
    assert c * w >= n;
    assert total * w == c * w + (total - c) * w;
  }

  /** Differences in the windows from `i` on. */
  function DistanceFrom(old_: Data, new_: Data, w: nat, i: nat): nat {
    Distance(Drop(old_, i * w), Drop(new_, i * w))
  }

  lemma DistanceStep(old_: Data, new_: Data, w: nat, i: nat)
    ensures DistanceFrom(old_, new_, w, i) ==
      Distance(Window(old_, i, w), Window(new_, i, w)) + DistanceFrom(old_, new_, w, i + 1)
  {
    hide Distance, Take, Drop;
    DistanceSplits(Drop(old_, i * w), Drop(new_, i * w), w);
    NextWindow(i, w);
    DropDrop(old_, i * w, w);
    DropDrop(new_, i * w, w);
  }

  // ---------- Coarse and fine windows ----------

  function At(s: Data, i: nat): Option<Byte> {
    if i < |s| then Some(s[i]) else None
  }

  lemma WindowAgrees(old_: Data, new_: Data, w: nat, i: nat)
    ensures !Differs(old_, new_, w, i) <==> forall k | i * w <= k < i * w + w :: At(old_, k) == At(new_, k)
  {
    var start, a, b := i * w, Window(old_, i, w), Window(new_, i, w);
    forall k | 0 <= k < w
      ensures At(a, k) == At(old_, start + k) && At(b, k) == At(new_, start + k)
    {
    }
    if a == b {
      forall k | start <= k < start + w ensures At(old_, k) == At(new_, k) {
        assert At(a, k - start) == At(b, k - start);
      }
    } else if forall k | start <= k < start + w :: At(old_, k) == At(new_, k) {
      forall k | 0 <= k < w ensures At(a, k) == At(b, k) {
        assert At(old_, start + k) == At(new_, start + k);
      }
      assert |a| < w ==> At(a, |a|) == At(b, |a|);
      assert |b| < w ==> At(a, |b|) == At(b, |b|);
      forall k | 0 <= k < |a| ensures |a| == |b| && a[k] == b[k] {
        assert At(a, k) == At(b, k);
      }
    }
  }

  lemma {:induction false} MulSteps(a: int, b: int, w: nat)
    ensures a < b ==> a * w + w <= b * w
  {
    if a < b {
      var d := b - a - 1;
      assert b * w == (a + 1 + d) * w == a * w + w + d * w;
      assert d * w >= 0;
    }
  }

  lemma Quotient(k: nat, w: nat) returns (j: nat)
    requires w > 0
    ensures j * w <= k < j * w + w
  {
    j := k / w;
  }

  lemma Rescale(c: nat, m: nat, w: nat)
    ensures c * (m * w) == (c * m) * w && c * (m * w) + m * w == (c * m + m) * w
  {
  }

  lemma SubWindow(w: nat, m: nat, c: nat, k: nat) returns (j: nat)
    requires w > 0 && c * (m * w) <= k < c * (m * w) + m * w
    ensures c * m <= j < c * m + m && j * w <= k < j * w + w
  {
    j := Quotient(k, w);
    Rescale(c, m, w);
    MulSteps(j, c * m, w);
    MulSteps(c * m + m - 1, j, w);
  }

  lemma {:induction false} SubWindowInside(w: nat, m: nat, c: nat, j: nat)
    requires c * m <= j < c * m + m
    ensures c * (m * w) <= j * w && j * w + w <= c * (m * w) + m * w
  {
    Rescale(c, m, w);
    MulSteps(c * m - 1, j, w);
    MulSteps(j, c * m + m, w);
  }

  /** A window of `m` fine windows changed iff one of them did. */
  lemma CoarseIsSomeFine(old_: Data, new_: Data, w: nat, m: nat, c: nat)
    requires w > 0
    ensures Differs(old_, new_, m * w, c) <==> exists j | c * m <= j < c * m + m :: Differs(old_, new_, w, j)
  {
    WindowAgrees(old_, new_, m * w, c);
    if !Differs(old_, new_, m * w, c) {
      forall j | c * m <= j < c * m + m ensures !Differs(old_, new_, w, j) {
        SubWindowInside(w, m, c, j);
        WindowAgrees(old_, new_, w, j);
      }
    } else {
      var k :| c * (m * w) <= k < c * (m * w) + m * w && At(old_, k) != At(new_, k);
      var j := SubWindow(w, m, c, k);
      WindowAgrees(old_, new_, w, j);
    }
  }

  // ---------- Runs ----------

  /** A run of changed windows: its first window and how many. */
  datatype Run = Run(start: nat, len: nat)

  function RunEnd(changed: seq<bool>, i: nat): (e: nat)
    requires i <= |changed|
    ensures i <= e <= |changed| && (e < |changed| ==> !changed[e])
    ensures forall k | i <= k < e :: changed[k]
    decreases |changed| - i
  {
    if i < |changed| && changed[i] then RunEnd(changed, i + 1) else i
  }

  /** The runs from `i` on. */
  function RunsFrom(changed: seq<bool>, i: nat): seq<Run>
    requires i <= |changed|
    decreases |changed| - i
  {
    if i == |changed| then []
    else if changed[i] then
      var e := RunEnd(changed, i + 1);
      [Run(i, e - i)] + RunsFrom(changed, e)
    else RunsFrom(changed, i + 1)
  }

  function Count(changed: seq<bool>, i: nat): nat
    requires i <= |changed|
    decreases |changed| - i
  {
    if i == |changed| then 0 else (if changed[i] then 1 else 0) + Count(changed, i + 1)
  }

  function Lengths(runs: seq<Run>): nat {
    if runs == [] then 0 else runs[0].len + Lengths(runs[1..])
  }

  /** Ascending maximal runs that hold every changed window from `i` on and no other. */
  predicate MaximalRuns(runs: seq<Run>, changed: seq<bool>, i: nat)
    requires i <= |changed|
    decreases |runs|
  {
    if runs == [] then forall k | i <= k < |changed| :: !changed[k]
    else
      var s, e := runs[0].start, runs[0].start + runs[0].len;
      && i <= s < e <= |changed|
      && (forall k | i <= k < s :: !changed[k]) && (forall k | s <= k < e :: changed[k])
      && (e < |changed| ==> !changed[e])
      && MaximalRuns(runs[1..], changed, e)
  }

  lemma MaximalStep(rest: seq<Run>, changed: seq<bool>, i: nat, e: nat)
    requires i < e <= |changed| && MaximalRuns(rest, changed, e)
    requires if changed[i] then e == RunEnd(changed, i + 1) else e == i + 1
    ensures MaximalRuns(if changed[i] then [Run(i, e - i)] + rest else rest, changed, i)
  {
    if changed[i] {
      hide RunEnd;
      assert ([Run(i, e - i)] + rest)[1..] == rest;
    }
  }

  lemma {:induction false} RunsAreMaximal(changed: seq<bool>, i: nat)
    requires i <= |changed|
    ensures MaximalRuns(RunsFrom(changed, i), changed, i)
    decreases |changed| - i
  {
    if i < |changed| {
      var e := if changed[i] then RunEnd(changed, i + 1) else i + 1;
      RunsAreMaximal(changed, e);
      MaximalStep(RunsFrom(changed, e), changed, i, e);
    }
  }

  lemma {:induction false} CountRun(changed: seq<bool>, i: nat, e: nat)
    requires i <= e <= |changed|
    ensures (forall k | i <= k < e :: changed[k]) ==> Count(changed, i) == e - i + Count(changed, e)
    ensures (forall k | i <= k < e :: !changed[k]) ==> Count(changed, i) == Count(changed, e)
    decreases e - i
  {
    if i < e {
      CountRun(changed, i + 1, e);
    }
  }

  /** Maximal runs add up to the changed windows, with a gap between any two: the span from the first
      change to the last is at least `changed + runs - 1`. */
  lemma {:induction false} RunsSpan(runs: seq<Run>, changed: seq<bool>, i: nat)
    requires i <= |changed| && MaximalRuns(runs, changed, i)
    ensures Lengths(runs) == Count(changed, i) && |runs| <= Lengths(runs)
    ensures runs != [] ==>
      var last := runs[|runs| - 1];
      && i <= runs[0].start && last.start + last.len <= |changed|
      && last.start + last.len - runs[0].start >= Lengths(runs) + |runs| - 1
      && (forall k | i <= k < runs[0].start :: !changed[k])
      && (forall k | last.start + last.len <= k < |changed| :: !changed[k])
      && changed[runs[0].start] && changed[last.start + last.len - 1]
    decreases |runs|
  {
    if runs == [] {
      CountRun(changed, i, |changed|);
    } else {
      var s, e := runs[0].start, runs[0].start + runs[0].len;
      CountRun(changed, i, s);
      CountRun(changed, s, e);
      RunsSpan(runs[1..], changed, e);
      if |runs| > 1 {
        assert runs[1..][|runs| - 2] == runs[|runs| - 1] && runs[1..][0] == runs[1];
        assert changed[runs[1].start] && runs[1].start != e;
      }
    }
  }

  predicate LongerFirst(a: Run, b: Run) {
    a.len >= b.len
  }

  // ---------- The heatmap ----------

  datatype Heatmap = Heatmap(
    windowSize: nat,
    totalWindows: nat,
    changedWindows: nat,
    runs: nat,
    scatteredness: real,
    spanRatio: real,
    changedByteDensity: real,
    largestRanges: seq<Run>,
    meanRunLen: real)

  const KEPT: nat := 5

  /** The bytes in the first `n` windows that differ, each counted by its longer side. */
  function ChangedBytes(old_: Data, new_: Data, w: nat, n: nat): nat {
    if n == 0 then 0
    else
      var i := n - 1;
      ChangedBytes(old_, new_, w, i)
      + if Differs(old_, new_, w, i) then Max(|Window(old_, i, w)|, |Window(new_, i, w)|) else 0
  }

  /** Which windows changed, the bytes that differ in them and the bytes they hold. */
  method MarkWindows(old_: Data, new_: Data, w: nat) returns (changed: array<bool>, bytes: nat, windowBytes: nat)
    requires w > 0
    ensures fresh(changed) && changed.Length == Total(old_, new_, w)
    ensures forall i | 0 <= i < changed.Length :: changed[i] == Differs(old_, new_, w, i)
    ensures bytes == Distance(old_, new_) <= windowBytes
    ensures windowBytes == ChangedBytes(old_, new_, w, changed.Length)
    ensures bytes == 0 <==> windowBytes == 0
  {
    hide Distance, Take, Drop;
    changed := new bool[Total(old_, new_, w)](_ => false);
    bytes, windowBytes := 0, 0;
    WholeDistance(old_, new_, w);
    for i := 0 to changed.Length
      invariant forall k | 0 <= k < i :: changed[k] == Differs(old_, new_, w, k)
      invariant forall k | i <= k < changed.Length :: !changed[k]
      invariant bytes + DistanceFrom(old_, new_, w, i) == Distance(old_, new_)
      invariant windowBytes == ChangedBytes(old_, new_, w, i)
      invariant bytes <= windowBytes && (bytes == 0 <==> windowBytes == 0)
    {
      DistanceStep(old_, new_, w, i);
      var o, n := Window(old_, i, w), Window(new_, i, w);
      DistanceBounds(o, n);
      if o != n {
        changed[i] := true;
        windowBytes := windowBytes + Max(|o|, |n|);
        bytes := bytes + Distance(o, n);
      }
    }
  }

  /** All differences lie in the windows, and none beyond them. */
  lemma {:induction false} WholeDistance(old_: Data, new_: Data, w: nat)
    requires w > 0
    ensures DistanceFrom(old_, new_, w, 0) == Distance(old_, new_)
    ensures DistanceFrom(old_, new_, w, Total(old_, new_, w)) == 0
  {
    assert Drop(old_, 0) == old_ && Drop(new_, 0) == new_;
    CountCovers(|old_|, w, Total(old_, new_, w));
    CountCovers(|new_|, w, Total(old_, new_, w));
  }

  /** The loop that collects runs. */
  method CollectRuns(changed: array<bool>) returns (ranges: seq<Run>)
    ensures ranges == RunsFrom(changed[..], 0)
  {
    ranges := [];
    ghost var c := changed[..];
    var i := 0;
    while i < changed.Length
      invariant 0 <= i <= changed.Length
      invariant ranges + RunsFrom(c, i) == RunsFrom(c, 0)
    {
      if changed[i] {
        var start := i;
        while i < changed.Length && changed[i]
          invariant start <= i <= changed.Length
          invariant i == start ==> changed[i]
          invariant RunEnd(c, i) == RunEnd(c, start + 1)
        {
          i := i + 1;
        }
        ranges := ranges + [Run(start, i - start)];
      } else {
        i := i + 1;
      }
    }
  }

  method CountChanged(changed: array<bool>) returns (n: nat)
    ensures n == Count(changed[..], 0)
  {
    n := 0;
    ghost var c := changed[..];
    for i := 0 to changed.Length
      invariant n + Count(c, i) == Count(c, 0)
    {
      if changed[i] {
        n := n + 1;
      }
    }
  }

  /** `position` and `rposition` of a changed window. */
  method Ends(changed: array<bool>) returns (first: Option<nat>, last: Option<nat>)
    ensures first.None? <==> last.None?
    ensures first.None? ==> forall k | 0 <= k < changed.Length :: !changed[k]
    ensures first.Some? ==> first.value <= last.value < changed.Length && changed[first.value] && changed[last.value]
    ensures first.Some? ==> forall k | 0 <= k < changed.Length && changed[k] :: first.value <= k <= last.value
  {
    first, last := None, None;
    for i := 0 to changed.Length
      invariant first.None? <==> last.None?
      invariant first.None? ==> forall k | 0 <= k < i :: !changed[k]
      invariant first.Some? ==> first.value <= last.value < i && changed[first.value] && changed[last.value]
      invariant first.Some? ==> forall k | 0 <= k < i && changed[k] :: first.value <= k <= last.value
    {
      if changed[i] {
        first, last := if first.None? then Some(i) else first, Some(i);
      }
    }
  }

  function Kept(runs: seq<Run>): seq<Run> {
    SortBy(runs, LongerFirst)[..Min(KEPT, |runs|)]
  }

  function Dropped(runs: seq<Run>): seq<Run> {
    SortBy(runs, LongerFirst)[Min(KEPT, |runs|)..]
  }

  /** Kept and dropped runs are all the runs, and equally long ones keep the order of their positions. */
  lemma KeptAndDropped(runs: seq<Run>, length: nat)
    ensures multiset(Kept(runs) + Dropped(runs)) == multiset(runs)
    ensures var z := Run(0, length); Like(Kept(runs) + Dropped(runs), z, LongerFirst) == Like(runs, z, LongerFirst)
  {
    SortKeeps(runs, LongerFirst);
    SortStable(runs, LongerFirst, Run(0, length));
    hide SortBy, Like;
    var sorted := SortBy(runs, LongerFirst);
    assert Kept(runs) + Dropped(runs) == sorted;
  }

  /** No dropped run is longer than a kept one, and the kept ones descend. */
  lemma KeptAreLongest(runs: seq<Run>)
    ensures forall i, j | 0 <= i < |Kept(runs)| && 0 <= j < |Dropped(runs)| :: Kept(runs)[i].len >= Dropped(runs)[j].len
    ensures forall i, j | 0 <= i < j < |Kept(runs)| :: Kept(runs)[i].len >= Kept(runs)[j].len
  {
    SortSorts(runs, LongerFirst);
    hide SortBy, Sorted;
    Descending(SortBy(runs, LongerFirst));
  }

  lemma Descending(sorted: seq<Run>)
    requires Sorted(sorted, LongerFirst)
    ensures forall i, j | 0 <= i < j < |sorted| :: sorted[i].len >= sorted[j].len
  {
    forall i, j | 0 <= i < j < |sorted| ensures sorted[i].len >= sorted[j].len {
      SortedPair(sorted, LongerFirst, i, j);
    }
  }

  /** What the flags of the changed windows must be. */
  predicate Marks(old_: Data, new_: Data, w: nat, flags: seq<bool>)
    requires w > 0
  {
    |flags| == Total(old_, new_, w) && forall i | 0 <= i < |flags| :: flags[i] == Differs(old_, new_, w, i)
  }

  function Ratio(a: int, b: int): (q: real)
    requires b > 0
    ensures q * b as real == a as real
    ensures a >= 0 ==> q >= 0.0
    ensures a <= b ==> q <= 1.0
    ensures q == 0.0 <==> a == 0
    ensures q == 1.0 <==> a == b
  {
    a as real / b as real
  }

  /** 0 is one contiguous block of changes, 1 is every changed window isolated. */
  function Scatteredness(runs: nat, count: nat): (q: real)
    requires runs <= count && (count > 0 ==> runs > 0)
    ensures 0.0 <= q <= 1.0
    ensures q == 0.0 <==> count <= 1 || runs == 1
    ensures count > 1 ==> (q == 1.0 <==> runs == count)
  {
    if count <= 1 then 0.0 else Ratio(runs - 1, count - 1)
  }

  /** Counts and ratios against the runs of the flags. */
  predicate Measured(h: Heatmap, flags: seq<bool>, bytes: nat, windowBytes: nat) {
    var all := RunsFrom(flags, 0);
    && h.totalWindows == |flags| && h.changedWindows == Count(flags, 0) == Lengths(all) && h.runs == |all|
    && h.largestRanges == Kept(all)
    && |all| <= h.changedWindows && (h.changedWindows > 0 ==> all != [])
    && h.scatteredness == Scatteredness(h.runs, h.changedWindows)
    && (all == [] ==> h.spanRatio == 0.0 == h.meanRunLen)
    && (all != [] ==>
          && Span(all) >= h.changedWindows + h.runs - 1
          && 0 < Span(all) <= h.totalWindows && h.spanRatio == Ratio(Span(all), h.totalWindows)
          && h.meanRunLen == Ratio(h.changedWindows, h.runs))
    && bytes <= windowBytes
    && h.changedByteDensity == if windowBytes == 0 then 0.0 else Ratio(bytes, windowBytes)
  }

  /** Windows from the first change to the last. */
  function Span(runs: seq<Run>): int
    requires runs != []
  {
    runs[|runs| - 1].start + runs[|runs| - 1].len - runs[0].start
  }

  /** `heatmap`: the bytes counted as changed are the distance between the two contents, whatever
      the window size; their density is over the bytes of the changed windows. */
  method Measure(old_: Data, new_: Data, windowSize: nat)
    returns (h: Heatmap, ghost flags: seq<bool>)
    ensures h.windowSize == Max(windowSize, 1) && Marks(old_, new_, h.windowSize, flags)
    ensures Measured(h, flags, Distance(old_, new_), ChangedBytes(old_, new_, h.windowSize, h.totalWindows))
    ensures h.changedWindows == 0 <==> old_ == new_
  {
    hide Distance, Differs, SortBy, Ratio, Scatteredness, MaximalRuns, RunsFrom, Count, ChangedBytes;
    var w := Max(windowSize, 1);
    var changed, bytes, window := MarkWindows(old_, new_, w);
    var ranges := CollectRuns(changed);
    var runs := |ranges|;
    var count := CountChanged(changed);
    var first, last := Ends(changed);
    flags := changed[..];
    assert ranges == RunsFrom(flags, 0);
    RunsAreMaximal(flags, 0);
    RunsSpan(ranges, flags, 0);
    DistanceBounds(old_, new_);
    NoneChanged(old_, new_, w, flags);
    var scatteredness := Scatteredness(runs, count);
    var span := if first.None? then 0.0 else Ratio(last.value - first.value + 1, changed.Length);
    var density := if window == 0 then 0.0 else Ratio(bytes, window);
    var mean := if runs == 0 then 0.0 else Ratio(count, runs);
    var sorted := SortBy(ranges, LongerFirst);
    h := Heatmap(w, changed.Length, count, runs, scatteredness, span, density, sorted[..Min(KEPT, |sorted|)], mean);
  }

  /** No window differs exactly when the contents are equal. */
  lemma NoneChanged(old_: Data, new_: Data, w: nat, flags: seq<bool>)
    requires w > 0 && Marks(old_, new_, w, flags)
    ensures (forall i | 0 <= i < |flags| :: !flags[i]) <==> old_ == new_
  {
    if forall i | 0 <= i < |flags| :: !flags[i] {
      WholeDistance(old_, new_, w);
      SameFrom(old_, new_, w, flags, 0);
      DistanceBounds(old_, new_);
    }
  }

  lemma {:induction false} SameFrom(old_: Data, new_: Data, w: nat, flags: seq<bool>, i: nat)
    requires w > 0 && Marks(old_, new_, w, flags) && i <= |flags| && forall k | 0 <= k < |flags| :: !flags[k]
    ensures DistanceFrom(old_, new_, w, i) == 0
    decreases |flags| - i
  {
    hide Distance, Take, Drop;
    if i == |flags| {
      WholeDistance(old_, new_, w);
    } else {
      SameFrom(old_, new_, w, flags, i + 1);
      assert !flags[i];
      DistanceStep(old_, new_, w, i);
      DistanceBounds(Window(old_, i, w), Window(new_, i, w));
    }
  }
}
