/**
  Where in the buffer to look, src/core/signal_probe.c:894-915 and 942-1014: the
  chunk length, and the padded window around the loudest chunk's busy run.

  The band-isolated power of each chunk is an input here, and `busyRatio` stands
  for 10^(SIGNAL_ACTIVITY_BUSY_DB / 10): a level is 12 dB over the floor exactly
  when it is at least that many times the floor.
 */
module Activity {
  import opened Basics
  import opened Select

  const MAX_CHUNKS: nat := 65536
  const MIN_PAIRS: nat := 65536

  // ----------------------------------------------------------- chunk length

  /** How many filtered samples a chunk is first made of: a whole number, and never none. */
  function Units(asked: nat, decimate: nat): (u: nat)
    requires decimate > 0
    ensures u > 0
    ensures asked < decimate ==> u == 1
    ensures asked >= decimate ==> u * decimate <= asked < u * decimate + decimate
  {
    assert asked == asked / decimate * decimate + asked % decimate;
    if asked / decimate < 1 then 1 else asked / decimate
  }

  lemma HalvedQuotient(n: nat, c: nat)
    requires c > 0 && n / c >= MAX_CHUNKS
    ensures c < n
  {
    if c >= n { QuotientAtMostOne(n, c); }
  }

  lemma QuotientAtMostOne(n: nat, c: nat)
    requires c > 0 && c >= n
    ensures n / c <= 1
  {}

  /** A chunk of u filtered samples, doubled k times. */
  ghost function Chunk(decimate: nat, u: nat, k: nat): nat {
    decimate * (u * Power2(k))
  }

  lemma Doubled(decimate: nat, u: nat, k: nat)
    ensures Chunk(decimate, u, k) * 2 == Chunk(decimate, u, k + 1)
  {
    assert u * Power2(k + 1) == u * Power2(k) * 2;
  }

  lemma FirstChunk(asked: nat, decimate: nat)
    requires decimate > 0
    ensures
      var c := asked - asked % decimate;
      Chunk(decimate, Units(asked, decimate), 0) == (if c < decimate then decimate else c) > 0
  {
    var q := asked / decimate;
    assert asked - asked % decimate == decimate * q;
    if q >= 1 {
      assert decimate * (q - 1) >= 0;
      assert Chunk(decimate, q, 0) == decimate * q;
    } else {
      assert Chunk(decimate, 1, 0) == decimate;
    }
  }

  /** Lines 897-906: as few doublings as bring the number of chunks under the limit. */
  method ChunkPairs(asked: nat, decimate: nat, pairCount: nat) returns (chunkPairs: nat, ghost doublings: nat)
    requires decimate > 0
    ensures chunkPairs == Chunk(decimate, Units(asked, decimate), doublings) > 0
    ensures pairCount / chunkPairs < MAX_CHUNKS
    ensures doublings > 0 ==>
      var half := Chunk(decimate, Units(asked, decimate), doublings - 1);
      half > 0 && pairCount / half >= MAX_CHUNKS
  {
    hide Chunk, Units;
    ghost var u := Units(asked, decimate);
    FirstChunk(asked, decimate);
    chunkPairs := asked - asked % decimate;
    if chunkPairs < decimate {
      chunkPairs := decimate;
    }
    doublings := 0;
    while pairCount / chunkPairs >= MAX_CHUNKS
      invariant chunkPairs == Chunk(decimate, u, doublings) > 0
      invariant doublings > 0 ==>
        var half := Chunk(decimate, u, doublings - 1);
        half > 0 && pairCount / half >= MAX_CHUNKS
      decreases pairCount - chunkPairs
    {
      HalvedQuotient(pairCount, chunkPairs);
      Doubled(decimate, u, doublings);
      chunkPairs := chunkPairs * 2;
      doublings := doublings + 1;
    }
  }

  /** Every chunk length is a whole number of filtered samples. */
  lemma ChunkIsWhole(decimate: nat, u: nat, k: nat)
    requires decimate > 0
    ensures Chunk(decimate, u, k) % decimate == 0
  {
    Multiple(decimate, u * Power2(k));
  }

  lemma {:induction false} Multiple(d: nat, q: nat)
    requires d > 0
    ensures (d * q) % d == 0
  {
    if q > 0 {
      Multiple(d, q - 1);
      AddOne(d, d * (q - 1));
      assert d * q == d * (q - 1) + d;
    }
  }

  lemma AddOne(d: nat, m: nat)
    requires d > 0
    ensures (m + d) % d == m % d
  {
    assert m + d == d * (m / d + 1) + m % d;
    var e := (m + d) / d - (m / d + 1);
    assert d * e == m % d - (m + d) % d;
    if e >= 1 { Product(d, e - 1); } else if e <= -1 { Product(d, -1 - e); }
  }

  lemma Product(d: nat, e: nat)
    ensures d * e >= 0 && d * (e + 1) == d * e + d && d * (-1 - e) == -(d * e) - d
  {}

  // -------------------------------------------------------------- the window

  datatype Window = Window(uniform: bool, offset: nat, pairs: nat, busyChunks: nat, runs: nat)

  /** [first, last] is the maximal stretch around `at` that stays at or over the threshold. */
  ghost predicate MaximalRun(power: seq<real>, threshold: real, at: nat, first: nat, last: nat) {
    && first <= at <= last < |power|
    && (forall k :: first <= k <= last ==> power[k] >= threshold)
    && (first > 0 ==> power[first - 1] < threshold)
    && (last + 1 < |power| ==> power[last + 1] < threshold)
  }

  ghost predicate Starts(power: seq<real>, threshold: real, k: nat) {
    k < |power| && power[k] >= threshold && (k == 0 || power[k - 1] < threshold)
  }

  /** Where, in the first n chunks, stretches at or over the threshold begin. */
  ghost function RunStarts(power: seq<real>, threshold: real, n: nat): set<nat> {
    set k: nat | k < n && Starts(power, threshold, k)
  }

  ghost function BusyChunks(power: seq<real>, threshold: real, n: nat): set<nat>
    requires n <= |power|
  {
    set k | 0 <= k < n && power[k] >= threshold
  }

  /** The first chunk holding the largest power. */
  ghost predicate IsLoudest(power: seq<real>, at: nat) {
    && at < |power|
    && (forall k :: 0 <= k < |power| ==> power[k] <= power[at])
    && (forall k :: 0 <= k < at ==> power[k] < power[at])
  }

  /** Line 971: the level a busy chunk has to reach. */
  function Threshold(floorPower: real, busyRatio: real): real {
    floorPower * busyRatio
  }

  ghost predicate Bursty(power: seq<real>, busyRatio: real)
    requires |power| >= 8
  {
    var floor, best := Sort(power)[|power| / 4], Sort(power)[|power| - 1];
    floor > 0.0 && best >= Threshold(floor, busyRatio)
  }

  lemma SortLast(power: seq<real>)
    requires power != []
    ensures exists at :: 0 <= at < |power| && power[at] == Sort(power)[|power| - 1]
    ensures forall k :: 0 <= k < |power| ==> power[k] <= Sort(power)[|power| - 1]
  {
    var s := Sort(power);
    assert s[|s| - 1] in multiset(power);
    forall k | 0 <= k < |power| ensures power[k] <= s[|s| - 1] {
      assert power[k] in multiset(s);
      var j :| 0 <= j < |s| && s[j] == power[k];
    }
  }

  method FirstEqual(power: seq<real>, best: real) returns (at: nat)
    requires exists k :: 0 <= k < |power| && power[k] == best
    requires forall k :: 0 <= k < |power| ==> power[k] <= best
    ensures IsLoudest(power, at) && power[at] == best
  {
    ghost var there :| 0 <= there < |power| && power[there] == best;
    at := 0;
    while power[at] != best
      invariant 0 <= at <= there
      invariant forall k :: 0 <= k < at ==> power[k] < best
      decreases there - at
    {
      at := at + 1;
    }
  }

  /** Lines 972-979. */
  method CountBusy(power: seq<real>, threshold: real) returns (busy: nat, runs: nat)
    ensures busy == |BusyChunks(power, threshold, |power|)|
    ensures runs == |RunStarts(power, threshold, |power|)|
  {
    busy, runs := 0, 0;
    var inRun := false;
    var k: nat := 0;
    while k < |power|
      invariant k <= |power|
      invariant busy == |BusyChunks(power, threshold, k)| && runs == |RunStarts(power, threshold, k)|
      invariant inRun <==> k > 0 && power[k - 1] >= threshold
    {
      OneMoreChunk(power, threshold, k);
      if power[k] >= threshold {
        busy := busy + 1;
        if !inRun {
          runs := runs + 1;
          inRun := true;
        }
      } else {
        inRun := false;
      }
      k := k + 1;
    }
  }

  lemma OneMoreChunk(power: seq<real>, threshold: real, k: nat)
    requires k < |power|
    ensures |BusyChunks(power, threshold, k + 1)| == |BusyChunks(power, threshold, k)| + (if power[k] >= threshold then 1 else 0)
    ensures |RunStarts(power, threshold, k + 1)| == |RunStarts(power, threshold, k)|
      + (if power[k] >= threshold && (k == 0 || power[k - 1] < threshold) then 1 else 0)
  {
    hide BusyChunks, RunStarts;
    OneMoreBusy(power, threshold, k);
    OneMoreStart(power, threshold, k);
  }

  lemma OneMoreBusy(power: seq<real>, threshold: real, k: nat)
    requires k < |power|
    ensures |BusyChunks(power, threshold, k + 1)| == |BusyChunks(power, threshold, k)| + (if power[k] >= threshold then 1 else 0)
  {
    var b := BusyChunks(power, threshold, k);
    assert BusyChunks(power, threshold, k + 1) == if power[k] >= threshold then b + {k} else b;
  }

  lemma OneMoreStart(power: seq<real>, threshold: real, k: nat)
    requires k < |power|
    ensures |RunStarts(power, threshold, k + 1)| == |RunStarts(power, threshold, k)| + (if Starts(power, threshold, k) then 1 else 0)
  {
    hide Starts;
    var r := RunStarts(power, threshold, k);
    assert RunStarts(power, threshold, k + 1) == if Starts(power, threshold, k) then r + {k} else r;
  }

  /** Lines 985-990. */
  method RunAround(power: seq<real>, threshold: real, at: nat) returns (first: nat, last: nat)
    requires at < |power| && power[at] >= threshold
    ensures MaximalRun(power, threshold, at, first, last)
  {
    first := at;
    while first > 0 && power[first - 1] >= threshold
      invariant first <= at && forall k :: first <= k <= at ==> power[k] >= threshold
    {
      first := first - 1;
    }
    last := at;
    while last + 1 < |power| && power[last + 1] >= threshold
      invariant at <= last < |power| && forall k :: at <= k <= last ==> power[k] >= threshold
    {
      last := last + 1;
    }
  }

  /** Lines 998-1009: pad a short stretch, and clamp it to the buffer. */
  function Padded(offset: nat, pairs: nat, pairCount: nat): (w: (nat, nat))
    requires offset + pairs <= pairCount
    ensures w.0 + w.1 <= pairCount
    ensures w.0 <= offset && offset + pairs <= w.0 + w.1
    ensures w.1 >= if MIN_PAIRS <= pairCount then MIN_PAIRS else pairCount
    ensures pairs >= MIN_PAIRS ==> w == (offset, pairs)
  {
    if pairs < MIN_PAIRS then
      var grow := (MIN_PAIRS - pairs) / 2;
      var want := if MIN_PAIRS > pairCount then pairCount else MIN_PAIRS;
      var moved := if offset > grow then offset - grow else 0;
      (if moved + want > pairCount then pairCount - want else moved, want)
    else (offset, pairs)
  }

  /** The samples in this many chunks. */
  function Samples(chunks: nat, chunkPairs: nat): (n: nat)
    ensures n == chunks * chunkPairs
  {
    chunks * chunkPairs
  }

  lemma ChunksFit(chunkPairs: nat, first: nat, last: nat, chunks: nat, pairCount: nat) returns (offset: nat, pairs: nat)
    requires first <= last < chunks && chunks * chunkPairs <= pairCount
    ensures offset == first * chunkPairs && pairs == (last - first + 1) * chunkPairs
    ensures offset + pairs == (last + 1) * chunkPairs <= pairCount
  {
    offset, pairs := first * chunkPairs, (last - first + 1) * chunkPairs;
    SumOfProducts(first, last - first + 1, chunkPairs);
    SumOfProducts(last + 1, chunks - (last + 1), chunkPairs);
  }

  lemma SumOfProducts(a: nat, b: nat, c: nat)
    ensures a * c + b * c == (a + b) * c && b * c >= 0
  {}

  /** over_floor_db is zero unless both levels are positive, and zero is under the bar. */
  lemma BurstyTest(floorPower: real, best: real, busyRatio: real)
    requires busyRatio >= 1.0
    ensures floorPower > 0.0 && best >= Threshold(floorPower, busyRatio) ==> best > 0.0
  {}

  /**
    Lines 942-1016. A level buffer is returned whole. A bursty one is returned as
    a window inside the buffer that holds the whole maximal run around the
    loudest chunk, with the busy chunks and the busy runs counted.
   */
  method FindWindow(power: seq<real>, chunkPairs: nat, pairCount: nat, busyRatio: real)
    returns (w: Window, ghost loudest: nat, ghost first: nat, ghost last: nat)
    requires |power| >= 8 && chunkPairs > 0 && |power| * chunkPairs <= pairCount && busyRatio >= 1.0
    ensures w.uniform <==> !Bursty(power, busyRatio)
    ensures w.offset + w.pairs <= pairCount
    ensures w.uniform ==> w.offset == 0 && w.pairs == pairCount
    ensures !w.uniform ==>
      var threshold := Threshold(Sort(power)[|power| / 4], busyRatio);
      && IsLoudest(power, loudest) && MaximalRun(power, threshold, loudest, first, last)
      && w.offset <= first * chunkPairs && (last + 1) * chunkPairs <= w.offset + w.pairs
      && w.pairs >= (if MIN_PAIRS <= pairCount then MIN_PAIRS else pairCount)
      && w.busyChunks == |BusyChunks(power, threshold, |power|)| && w.runs == |RunStarts(power, threshold, |power|)|
  {
    first, last, loudest := 0, 0, 0;
    var sorted := Sort(power);
    var floorPower, best := sorted[|power| / 4], sorted[|power| - 1];
    SortLast(power);
    hide Sorted, Sort, Threshold, MaximalRun, IsLoudest, BusyChunks, RunStarts;
    var at := FirstEqual(power, best);
    loudest := at;
    BurstyTest(floorPower, best, busyRatio);
    var threshold := Threshold(floorPower, busyRatio);
    if !(floorPower > 0.0 && best > 0.0) || best < threshold {
      w := Window(true, 0, pairCount, |power|, 1);
      return;
    }
    var busy, runs := CountBusy(power, threshold);
    var from, to := RunAround(power, threshold, at);
    RunInside(power, threshold, at, from, to, chunkPairs, pairCount);
    first, last := from, to;
    var padded := Padded(Samples(from, chunkPairs), Samples(to - from + 1, chunkPairs), pairCount);
    w := Window(false, padded.0, padded.1, busy, runs);
  }

  /** The padded window covers every sample of the stretch, and stays in the buffer. */
  lemma RunInside(power: seq<real>, threshold: real, at: nat, first: nat, last: nat, chunkPairs: nat, pairCount: nat)
    requires MaximalRun(power, threshold, at, first, last) && |power| * chunkPairs <= pairCount
    ensures first <= last < |power|
    ensures Samples(first, chunkPairs) + Samples(last - first + 1, chunkPairs) == (last + 1) * chunkPairs <= pairCount
    ensures var w := Padded(Samples(first, chunkPairs), Samples(last - first + 1, chunkPairs), pairCount);
            w.0 <= first * chunkPairs && (last + 1) * chunkPairs <= w.0 + w.1 <= pairCount
  {
    hide Padded;
    var offset, pairs := ChunksFit(chunkPairs, first, last, |power|, pairCount);
  }
}
