/**
  Selecting a rank without sorting: src/core/sdr_dsp.c:182-305. `select_nth` is
  a three-way quickselect over an array; `sdr_dsp_signal_stats` runs it twice,
  the second time only above the first rank.
 */
module Select {
  // ----------------------------------------------- what sorting would give

  ghost predicate Sorted(s: seq<real>) {
    forall i, j :: 0 <= i <= j < |s| ==> s[i] <= s[j]
  }

  /** Every element of a rearrangement of s occurs in s. */
  lemma SameElements(r: seq<real>, m: multiset<real>)
    requires multiset(r) == m
    ensures forall i :: 0 <= i < |r| ==> r[i] in m
  {
    forall i | 0 <= i < |r| ensures r[i] in m { assert r[i] in multiset(r); }
  }

  function Insert(x: real, s: seq<real>): (r: seq<real>)
    requires Sorted(s)
    ensures Sorted(r) && multiset(r) == multiset{x} + multiset(s)
    decreases |s|
  {
    if s == [] || x <= s[0] then
      [x] + s
    else
      assert s == [s[0]] + s[1..];
      var rest := Insert(x, s[1..]);
      SameElements(rest, multiset{x} + multiset(s[1..]));
      [s[0]] + rest
  }

  /** The reference: the ascending arrangement of s. */
  function Sort(s: seq<real>): (r: seq<real>)
    ensures Sorted(r) && multiset(r) == multiset(s) && |r| == |s|
  {
    if s == [] then [] else
      assert s == [s[0]] + s[1..];
      var r := Insert(s[0], Sort(s[1..]));
      assert |r| == |multiset(r)| == |multiset(s)| == |s|;
      r
  }

  lemma {:induction false} SortedUnique(s: seq<real>, t: seq<real>)
    requires Sorted(s) && Sorted(t) && multiset(s) == multiset(t)
    ensures s == t
  {
    assert |s| == |multiset(s)| == |multiset(t)| == |t|;
    hide Sorted;
    if s != [] {
      LeastFirst(s, t);
      LeastFirst(t, s);
      WithoutFirst(s);
      WithoutFirst(t);
      SortedUnique(s[1..], t[1..]);
      assert s == [s[0]] + s[1..] && t == [t[0]] + t[1..];
    }
  }

  lemma WithoutFirst(s: seq<real>)
    requires s != []
    ensures multiset(s[1..]) == multiset(s) - multiset{s[0]}
    ensures Sorted(s) ==> Sorted(s[1..])
  {
    assert s == [s[0]] + s[1..];
  }

  lemma LeastFirst(s: seq<real>, t: seq<real>)
    requires Sorted(s) && multiset(s) == multiset(t) && s != [] && t != []
    ensures s[0] <= t[0]
  {
    assert t[0] in multiset(s);
    var i :| 0 <= i < |s| && s[i] == t[0];
  }

  // ------------------------------------------------------------- partitions

  /** v[k] is in its place: nothing before it is larger, nothing after it smaller. */
  ghost predicate PlacedWithin(v: seq<real>, low: int, high: int, k: int) {
    && 0 <= low <= k <= high < |v|
    && (forall i :: low <= i <= k ==> v[i] <= v[k])
    && (forall i :: k <= i <= high ==> v[k] <= v[i])
  }

  lemma SortBelow(s: seq<real>, b: real)
    requires forall i :: 0 <= i < |s| ==> s[i] <= b
    ensures forall i :: 0 <= i < |s| ==> Sort(s)[i] <= b
  {
    SameElements(Sort(s), multiset(s));
  }

  lemma SortAbove(s: seq<real>, b: real)
    requires forall i :: 0 <= i < |s| ==> b <= s[i]
    ensures forall i :: 0 <= i < |s| ==> b <= Sort(s)[i]
  {
    SameElements(Sort(s), multiset(s));
  }

  lemma SortedAround(l: seq<real>, x: real, r: seq<real>)
    requires Sorted(l) && Sorted(r)
    requires forall i :: 0 <= i < |l| ==> l[i] <= x
    requires forall i :: 0 <= i < |r| ==> x <= r[i]
    ensures Sorted(l + [x] + r)
  {}

  /** An element in its place is the one a full sort would put there. */
  lemma PlacedIsRank(v: seq<real>, s: seq<real>, k: nat)
    requires k < |v| && PlacedWithin(v, 0, |v| - 1, k)
    requires multiset(v) == multiset(s)
    ensures k < |Sort(s)| && Sort(s)[k] == v[k]
  {
    var before, after := v[..k], v[k + 1..];
    assert v == before + [v[k]] + after;
    SortBelow(before, v[k]);
    SortAbove(after, v[k]);
    SortedAround(Sort(before), v[k], Sort(after));
    var t := Sort(before) + [v[k]] + Sort(after);
    assert multiset(t) == multiset(v);
    SortedUnique(t, Sort(s));
  }

  /** w is v with only the stretch [lo, hi) rearranged. */
  ghost predicate Rearranged(v: seq<real>, w: seq<real>, lo: int, hi: int) {
    && |v| == |w| && 0 <= lo <= hi <= |v|
    && multiset(v[lo..hi]) == multiset(w[lo..hi])
    && (forall i :: 0 <= i < lo ==> v[i] == w[i])
    && (forall i :: hi <= i < |v| ==> v[i] == w[i])
  }

  ghost predicate Occurs(x: real, v: seq<real>, lo: int, hi: int)
    requires 0 <= lo <= hi <= |v|
  {
    exists j :: lo <= j < hi && v[j] == x
  }

  lemma RearrangedFrom(v: seq<real>, w: seq<real>, lo: int, hi: int)
    requires Rearranged(v, w, lo, hi)
    ensures forall i :: lo <= i < hi ==> Occurs(w[i], v, lo, hi)
  {
    forall i | lo <= i < hi ensures Occurs(w[i], v, lo, hi) {
      assert w[lo..hi][i - lo] in multiset(v[lo..hi]);
      var j :| 0 <= j < hi - lo && v[lo..hi][j] == w[i];
      assert v[lo + j] == w[i];
    }
  }

  lemma RearrangedWider(v: seq<real>, w: seq<real>, lo: int, hi: int, lo2: int, hi2: int)
    requires Rearranged(v, w, lo, hi) && 0 <= lo2 <= lo && hi <= hi2 <= |v|
    ensures Rearranged(v, w, lo2, hi2)
  {
    assert v[lo2..hi2] == v[lo2..lo] + v[lo..hi] + v[hi..hi2];
    assert w[lo2..hi2] == w[lo2..lo] + w[lo..hi] + w[hi..hi2];
    assert v[lo2..lo] == w[lo2..lo] && v[hi..hi2] == w[hi..hi2];
  }

  lemma SwapRearranges(v: seq<real>, i: int, j: int, lo: int, hi: int)
    requires 0 <= lo <= i < hi <= |v| && lo <= j < hi
    ensures Rearranged(v, v[i := v[j]][j := v[i]], lo, hi)
  {
    var w := v[i := v[j]][j := v[i]];
    assert w[lo..hi] == v[lo..hi][i - lo := v[lo..hi][j - lo]][j - lo := v[lo..hi][i - lo]];
  }

  method Swap(values: array<real>, i: int, j: int)
    requires 0 <= i < values.Length && 0 <= j < values.Length
    modifies values
    ensures values[..] == old(values[..])[i := old(values[..])[j]][j := old(values[..])[i]]
  {
    values[i], values[j] := values[j], values[i];
  }

  lemma SwapKeeps(v: seq<real>, w: seq<real>, i: int, j: int, low: int, high: int)
    requires Rearranged(v, w, low, high + 1) && low <= i <= high && low <= j <= high
    ensures Rearranged(v, w[i := w[j]][j := w[i]], low, high + 1)
  {
    SwapRearranges(w, i, j, low, high + 1);
    RearrangedTwice(v, w, w[i := w[j]][j := w[i]], low, high + 1);
  }

  function MedianOfThree(a: real, b: real, c: real): (pivot: real)
    ensures pivot == a || pivot == b || pivot == c
  {
    if a < b then (if b < c then b else if a < c then c else a)
    else (if a < c then a else if b < c then c else b)
  }

  lemma NothingMoved(v: seq<real>, lowIndex: int, highIndex: int)
    requires 0 <= lowIndex <= highIndex < |v|
    ensures Rearranged(v, v, lowIndex, highIndex + 1)
    ensures Enclosed(v, lowIndex, lowIndex, highIndex, highIndex)
  {}

  lemma RearrangedTwice(u: seq<real>, v: seq<real>, w: seq<real>, lo: int, hi: int)
    requires Rearranged(u, v, lo, hi) && Rearranged(v, w, lo, hi)
    ensures Rearranged(u, w, lo, hi)
  {}

  /** [low, less) is below the pivot, [less, i) equals it, (greater, high] is above it. */
  ghost predicate Parted(v: seq<real>, low: int, less: int, i: int, greater: int, high: int, pivot: real) {
    && 0 <= low <= less <= i <= greater + 1 <= high + 1 <= |v|
    && (forall k :: low <= k < less ==> v[k] < pivot)
    && (forall k :: less <= k < i ==> v[k] == pivot)
    && (forall k :: greater < k <= high ==> v[k] > pivot)
  }

  lemma PartStep(v: seq<real>, low: int, less: int, i: int, greater: int, high: int, pivot: real)
    requires Parted(v, low, less, i, greater, high, pivot) && i <= greater
    ensures v[i] < pivot ==> Parted(v[less := v[i]][i := v[less]], low, less + 1, i + 1, greater, high, pivot)
    ensures v[i] > pivot ==> Parted(v[greater := v[i]][i := v[greater]], low, less, i, greater - 1, high, pivot)
    ensures v[i] == pivot ==> Parted(v, low, less, i + 1, greater, high, pivot)
  {}

  /** The pivot is still somewhere in the stretch, so its run is not empty. */
  lemma PivotRun(v: seq<real>, w: seq<real>, low: int, less: int, greater: int, high: int, at: int)
    requires 0 <= low <= at <= high < |v| && Rearranged(v, w, low, high + 1)
    requires Parted(w, low, less, greater + 1, greater, high, v[at])
    ensures less <= greater
  {
    RearrangedFrom(w, v, low, high + 1);
  }

  /** Lines 219-245: one three-way pass around a median-of-three pivot. */
  method Partition(values: array<real>, low: int, high: int) returns (less: int, greater: int, ghost pivot: real)
    requires 0 <= low < high < values.Length
    modifies values
    ensures low <= less <= greater <= high
    ensures Rearranged(old(values[..]), values[..], low, high + 1)
    ensures Parted(values[..], low, less, greater + 1, greater, high, pivot)
  {
    hide Rearranged, Parted;
    ghost var v := values[..];
    NothingMoved(v, low, high);
    var mid := low + (high - low) / 2;
    var middle := MedianOfThree(values[low], values[mid], values[high]);
    pivot := middle;
    less, greater := low, high;
    var i := low;
    PartedStart(v, low, high, middle);
    ghost var now := v;
    while i <= greater
      invariant low <= less <= i <= greater + 1 <= high + 1
      invariant values[..] == now && |now| == |v|
      invariant Rearranged(v, now, low, high + 1)
      invariant Parted(now, low, less, i, greater, high, middle)
      decreases greater - i
    {
      PartStep(now, low, less, i, greater, high, middle);
      if values[i] < middle {
        SwapKeeps(v, now, less, i, low, high);
        now := now[less := now[i]][i := now[less]];
        Swap(values, less, i);
        less := less + 1;
        i := i + 1;
      } else if values[i] > middle {
        SwapKeeps(v, now, greater, i, low, high);
        now := now[greater := now[i]][i := now[greater]];
        Swap(values, greater, i);
        greater := greater - 1;
      } else {
        i := i + 1;
      }
    }
    PivotRun(v, now, low, less, greater, high,
             if v[low] == middle then low else if v[mid] == middle then mid else high);
  }

  lemma PartedStart(v: seq<real>, low: int, high: int, pivot: real)
    requires 0 <= low <= high < |v|
    ensures Parted(v, low, low, low, high, high, pivot)
  {}

  /** Everything left of [low, high] is below it and everything right of it above. */
  ghost predicate Enclosed(v: seq<real>, lowIndex: int, low: int, high: int, highIndex: int) {
    && 0 <= lowIndex <= low <= high <= highIndex < |v|
    && (forall i, j :: lowIndex <= i < low <= j <= highIndex ==> v[i] <= v[j])
    && (forall i, j :: lowIndex <= i <= high < j <= highIndex ==> v[i] <= v[j])
  }

  lemma EnclosedSurvives(v: seq<real>, w: seq<real>, lowIndex: int, low: int, high: int, highIndex: int)
    requires Enclosed(v, lowIndex, low, high, highIndex)
    requires Rearranged(v, w, low, high + 1)
    ensures Enclosed(w, lowIndex, low, high, highIndex)
  {
    RearrangedFrom(v, w, low, high + 1);
  }

  lemma Narrowed(w: seq<real>, lowIndex: int, low: int, high: int, highIndex: int,
                 less: int, greater: int, pivot: real)
    requires Enclosed(w, lowIndex, low, high, highIndex) && less <= greater
    requires Parted(w, low, less, greater + 1, greater, high, pivot)
    ensures low < less ==> Enclosed(w, lowIndex, low, less - 1, highIndex)
    ensures greater < high ==> Enclosed(w, lowIndex, greater + 1, high, highIndex)
    ensures forall k :: less <= k <= greater ==> PlacedWithin(w, lowIndex, highIndex, k)
  {}

  /** One partition pass encloses the rank more tightly, or ends with it placed. */
  lemma PassNarrows(v: seq<real>, u: seq<real>, w: seq<real>, lowIndex: int, low: int, high: int, highIndex: int,
                    less: int, greater: int, pivot: real)
    requires Rearranged(v, u, lowIndex, highIndex + 1)
    requires Enclosed(u, lowIndex, low, high, highIndex) && less <= greater
    requires Rearranged(u, w, low, high + 1)
    requires Parted(w, low, less, greater + 1, greater, high, pivot)
    ensures Rearranged(v, w, lowIndex, highIndex + 1)
    ensures low < less ==> Enclosed(w, lowIndex, low, less - 1, highIndex)
    ensures greater < high ==> Enclosed(w, lowIndex, greater + 1, high, highIndex)
    ensures forall k :: less <= k <= greater ==> PlacedWithin(w, lowIndex, highIndex, k)
  {
    EnclosedSurvives(u, w, lowIndex, low, high, highIndex);
    RearrangedWider(u, w, low, high + 1, lowIndex, highIndex + 1);
    Narrowed(w, lowIndex, low, high, highIndex, less, greater, pivot);
  }

  /**
    Lines 212-253: the k-th smallest of values[lowIndex..highIndex] ends at k,
    and nothing outside that range moves.
   */
  method SelectNth(values: array<real>, lowIndex: int, highIndex: int, k: int)
    requires 0 <= lowIndex <= k <= highIndex < values.Length
    modifies values
    ensures Rearranged(old(values[..]), values[..], lowIndex, highIndex + 1)
    ensures PlacedWithin(values[..], lowIndex, highIndex, k)
  {
    hide Rearranged, Enclosed, Parted, PlacedWithin;
    ghost var v := values[..];
    NothingMoved(v, lowIndex, highIndex);
    var low, high := lowIndex, highIndex;
    ghost var now := v;
    while low < high
      invariant lowIndex <= low <= k <= high <= highIndex
      invariant values[..] == now
      invariant Rearranged(v, now, lowIndex, highIndex + 1)
      invariant Enclosed(now, lowIndex, low, high, highIndex)
      decreases high - low
    {
      var less, greater, pivot := Partition(values, low, high);
      PassNarrows(v, now, values[..], lowIndex, low, high, highIndex, less, greater, pivot);
      now := values[..];
      if k < less {
        high := less - 1;
      } else if k > greater {
        low := greater + 1;
      } else {
        return;
      }
    }
    EnclosedOne(now, lowIndex, k, highIndex);
  }

  lemma EnclosedOne(v: seq<real>, lowIndex: int, k: int, highIndex: int)
    requires Enclosed(v, lowIndex, k, k, highIndex)
    ensures PlacedWithin(v, lowIndex, highIndex, k)
  {}

  // ------------------------------------------------------- two percentiles

  function Ceiling(x: real): (c: int)
    ensures c as real - 1.0 < x <= c as real
  {
    -(-x).Floor
  }

  /** One before the ceiling of p*count, clamped into the array. */
  function RankIndex(count: nat, percentile: real): (index: nat)
    requires count > 0 && percentile >= 0.0
    ensures index < count
    ensures percentile * count as real <= (index + 1) as real || index + 1 == count
    ensures index as real < percentile * count as real || index == 0
  {
    var ceiling := Ceiling(percentile * count as real);
    var rank := if ceiling < 1 then 1 else if ceiling > count then count else ceiling;
    rank - 1
  }

  lemma RankIndexMonotone(count: nat, p: real, q: real)
    requires count > 0 && 0.0 <= p <= q
    ensures RankIndex(count, p) <= RankIndex(count, q)
  {
    var x, y := p * count as real, q * count as real;
    assert y - x == (q - p) * count as real >= 0.0;
    assert Ceiling(x) as real - 1.0 < Ceiling(y) as real;
  }

  /**
    Lines 265-305: both percentiles come out as a full sort of the magnitudes
    would give them, although the second selection looks only above the first.
   */
  method NoiseAndSignal(magnitudes: array<real>, workspace: array<real>) returns (noise: real, signal: real)
    requires magnitudes != workspace && 0 < magnitudes.Length <= workspace.Length
    modifies workspace
    ensures noise == Sort(magnitudes[..])[RankIndex(magnitudes.Length, 0.10)]
    ensures signal == Sort(magnitudes[..])[RankIndex(magnitudes.Length, 0.995)]
    ensures noise <= signal
    ensures workspace[..][magnitudes.Length..] == old(workspace[..])[magnitudes.Length..]
  {
    hide Rearranged, PlacedWithin, RankIndex, Sorted;
    var count := magnitudes.Length;
    CopyMagnitudes(magnitudes, workspace);
    ghost var m, copy := magnitudes[..], workspace[..];
    var noiseIndex := RankIndex(count, 0.10);
    var signalIndex := RankIndex(count, 0.995);
    RankIndexMonotone(count, 0.10, 0.995);

    SelectNth(workspace, 0, count - 1, noiseIndex);
    ghost var once := workspace[..];
    RankFromPrefix(m, copy, once, count, noiseIndex);
    noise := workspace[noiseIndex];
    if signalIndex > noiseIndex {
      SelectNth(workspace, noiseIndex + 1, count - 1, signalIndex);
      ghost var twice := workspace[..];
      SecondSelection(copy, once, twice, count, noiseIndex, signalIndex);
      RankFromPrefix(m, copy, twice, count, signalIndex);
    }
    signal := workspace[signalIndex];
    SortedRanks(m, noiseIndex, signalIndex);
  }

  lemma SortedRanks(m: seq<real>, i: nat, j: nat)
    requires i <= j < |m|
    ensures Sort(m)[i] <= Sort(m)[j]
  {}

  method CopyMagnitudes(magnitudes: array<real>, workspace: array<real>)
    requires magnitudes != workspace && 0 < magnitudes.Length <= workspace.Length
    modifies workspace
    ensures workspace[..][..magnitudes.Length] == magnitudes[..]
    ensures workspace[..][magnitudes.Length..] == old(workspace[..])[magnitudes.Length..]
  {
    var count := magnitudes.Length;
    var n := 0;
    while n < count
      invariant 0 <= n <= count
      invariant workspace[..n] == magnitudes[..n]
      invariant workspace[count..] == old(workspace[count..])
    {
      workspace[n] := magnitudes[n];
      n := n + 1;
    }
  }

  lemma RankFromPrefix(m: seq<real>, copy: seq<real>, v: seq<real>, count: nat, k: nat)
    requires |m| == count && k < count && Rearranged(copy, v, 0, count - 1 + 1) && copy[..count] == m
    requires PlacedWithin(v, 0, count - 1, k)
    ensures Sort(m)[k] == v[k]
    ensures v[count..] == copy[count..]
  {
    hide Sorted;
    var w := v[..count];
    assert multiset(w) == multiset(m) by {
      assert v[0..count] == w && copy[0..count] == copy[..count];
    }
    assert PlacedWithin(w, 0, |w| - 1, k);
    PlacedIsRank(w, m, k);
  }

  /** Rearranging above a placed element, and placing k there, places k in the whole. */
  lemma SecondSelection(copy: seq<real>, v: seq<real>, w: seq<real>, count: nat, first: nat, k: nat)
    requires first < k < count <= |v|
    requires Rearranged(copy, v, 0, count - 1 + 1)
    requires PlacedWithin(v, 0, count - 1, first)
    requires Rearranged(v, w, first + 1, count - 1 + 1)
    requires PlacedWithin(w, first + 1, count - 1, k)
    ensures PlacedWithin(w, 0, count - 1, k)
    ensures Rearranged(copy, w, 0, count - 1 + 1)
  {
    RearrangedFrom(v, w, first + 1, count);
    RearrangedWider(v, w, first + 1, count, 0, count);
    RearrangedTwice(copy, v, w, 0, count);
  }
}
