/**
  The peak finder, src/core/sdr_dsp.c:337-398 and 424-551: local maxima that
  stand out on both sides, measured against the median of their surroundings,
  the strongest of them kept as they stream past and sorted at the end.

  `sentinel` is the level at or under which a bin was never measured.
 */
module Peaks {
  import opened Basics
  import opened Select

  datatype Peak = Peak(index: nat, power: real, floor: real, prominence: real, lower: nat, upper: nat)

  datatype Gate = Gate(topographic: real, floor: real, bandwidth: real)

  predicate Measured(power: seq<real>, sentinel: real, i: int) {
    0 <= i < |power| && power[i] > sentinel
  }

  // -------------------------------------------------- topographic prominence

  /** One side of the walk: the lowest level met before higher ground, an unmeasured bin or the bound. */
  function Saddle(power: seq<real>, sentinel: real, level: real, at: int, direction: int, steps: nat, low: real): real
    decreases steps
  {
    if steps == 0 || !Measured(power, sentinel, at) || power[at] > level then low
    else Saddle(power, sentinel, level, at + direction, direction, steps - 1, Min(low, power[at]))
  }

  predicate Passable(power: seq<real>, sentinel: real, level: real, i: int) {
    Measured(power, sentinel, i) && power[i] <= level
  }

  /** Bin at + d*direction can be reached from `at` over measured bins no higher than the level. */
  ghost predicate Reachable(power: seq<real>, sentinel: real, level: real, at: int, direction: int, d: nat) {
    forall e: nat | e <= d :: Passable(power, sentinel, level, Place(at, direction, e))
  }

  function Place(at: int, direction: int, d: nat): int { at + d * direction }

  lemma PlaceNext(at: int, direction: int, d: nat)
    ensures Place(at + direction, direction, d) == Place(at, direction, d + 1)
    ensures Place(at, direction, 0) == at
  {
    assert (d + 1) * direction == d * direction + direction;
  }

  lemma ReachableNext(power: seq<real>, sentinel: real, level: real, at: int, direction: int, d: nat)
    ensures Reachable(power, sentinel, level, at, direction, 0)
       <==> Measured(power, sentinel, at) && power[at] <= level
    ensures Reachable(power, sentinel, level, at, direction, d + 1)
       <==> Measured(power, sentinel, at) && power[at] <= level && Reachable(power, sentinel, level, at + direction, direction, d)
  {
    PlaceNext(at, direction, 0);
    var next := at + direction;
    if Reachable(power, sentinel, level, at, direction, d + 1) {
      assert Place(at, direction, 0) == at;
      forall e: nat | e <= d
        ensures Passable(power, sentinel, level, Place(next, direction, e))
      {
        PlaceNext(at, direction, e);
      }
    }
    if Measured(power, sentinel, at) && power[at] <= level && Reachable(power, sentinel, level, next, direction, d) {
      forall e: nat | e <= d + 1
        ensures Passable(power, sentinel, level, Place(at, direction, e))
      {
        if e > 0 {
          PlaceNext(at, direction, e - 1);
          assert Passable(power, sentinel, level, Place(next, direction, e - 1));
        }
      }
    }
  }

  predicate AtOrUnder(power: seq<real>, i: int, x: real) {
    0 <= i < |power| && power[i] <= x
  }

  /** A reachable bin within the bound that lies at or under x. */
  ghost predicate Descends(power: seq<real>, sentinel: real, level: real, at: int, direction: int, steps: nat, x: real) {
    exists d: nat :: d < steps && Reachable(power, sentinel, level, at, direction, d) && AtOrUnder(power, Place(at, direction, d), x)
  }

  lemma {:induction false} SaddleIsDescent(power: seq<real>, sentinel: real, level: real, at: int, direction: int,
                                           steps: nat, low: real, x: real)
    ensures Saddle(power, sentinel, level, at, direction, steps, low) <= x
       <==> low <= x || Descends(power, sentinel, level, at, direction, steps, x)
    decreases steps
  {
    hide Reachable, Place;
    ReachableNext(power, sentinel, level, at, direction, 0);
    PlaceNext(at, direction, 0);
    if steps == 0 || !Measured(power, sentinel, at) || power[at] > level {
      forall d: nat ensures !(d < steps && Reachable(power, sentinel, level, at, direction, d)) {
        if d > 0 { ReachableNext(power, sentinel, level, at, direction, d - 1); }
      }
    } else {
      SaddleIsDescent(power, sentinel, level, at + direction, direction, steps - 1, Min(low, power[at]), x);
      if Descends(power, sentinel, level, at, direction, steps, x) {
        var d: nat :| d < steps && Reachable(power, sentinel, level, at, direction, d) && AtOrUnder(power, Place(at, direction, d), x);
        if d > 0 {
          ReachableNext(power, sentinel, level, at, direction, d - 1);
          PlaceNext(at, direction, d - 1);
        }
      }
      if Descends(power, sentinel, level, at + direction, direction, steps - 1, x) {
        var d: nat :| d < steps - 1 && Reachable(power, sentinel, level, at + direction, direction, d)
          && AtOrUnder(power, Place(at + direction, direction, d), x);
        ReachableNext(power, sentinel, level, at, direction, d);
        PlaceNext(at, direction, d);
      }
    }
  }

  function Prominence(power: seq<real>, sentinel: real, at: nat, window: nat): real
    requires at < |power|
  {
    var level := power[at];
    var left := Saddle(power, sentinel, level, at - 1, -1, window, level);
    var right := Saddle(power, sentinel, level, at + 1, 1, window, level);
    level - (if left > right then left else right)
  }

  /** A peak stands out by t exactly when both sides fall by t before reaching anything higher. */
  lemma ProminenceIsDescent(power: seq<real>, sentinel: real, at: nat, window: nat, t: real)
    requires at < |power|
    ensures Prominence(power, sentinel, at, window) >= t <==>
      || t <= 0.0
      || (&& Descends(power, sentinel, power[at], at - 1, -1, window, power[at] - t)
          && Descends(power, sentinel, power[at], at + 1, 1, window, power[at] - t))
  {
    hide Saddle, Descends;
    SaddleIsDescent(power, sentinel, power[at], at - 1, -1, window, power[at], power[at] - t);
    SaddleIsDescent(power, sentinel, power[at], at + 1, 1, window, power[at], power[at] - t);
  }

  /** Lines 376-398. */
  method TopographicProminence(power: array<real>, sentinel: real, at: nat, window: nat) returns (p: real)
    requires at < power.Length
    ensures p == Prominence(power[..], sentinel, at, window)
  {
    var level := power[at];
    var leftSaddle, rightSaddle := level, level;
    var steps: nat := 0;
    var i: int := at - 1;
    while i >= 0 && steps < window && power[i] > sentinel && power[i] <= level
      invariant -1 <= i < power.Length && steps <= window
      invariant Saddle(power[..], sentinel, level, i, -1, window - steps, leftSaddle)
             == Saddle(power[..], sentinel, level, at - 1, -1, window, level)
      decreases i
    {
      if power[i] < leftSaddle {
        leftSaddle := power[i];
      }
      i, steps := i - 1, steps + 1;
    }
    steps, i := 0, at + 1;
    while i < power.Length && steps < window && power[i] > sentinel && power[i] <= level
      invariant 0 <= i <= power.Length && steps <= window
      invariant Saddle(power[..], sentinel, level, i, 1, window - steps, rightSaddle)
             == Saddle(power[..], sentinel, level, at + 1, 1, window, level)
      decreases power.Length - i
    {
      if power[i] < rightSaddle {
        rightSaddle := power[i];
      }
      i, steps := i + 1, steps + 1;
    }
    p := level - (if leftSaddle > rightSaddle then leftSaddle else rightSaddle);
  }

  // ---------------------------------------------------------------- the hump

  function LowerEdge(power: seq<real>, sentinel: real, threshold: real, at: nat, reach: nat, lower: nat): (r: nat)
    requires lower <= at < |power|
    ensures r <= lower
    ensures at - lower <= reach ==> at - r <= reach
    ensures forall k :: r <= k < lower ==> power[k] > sentinel && power[k] >= threshold
    ensures r == 0 || at - r >= reach || power[r - 1] <= sentinel || power[r - 1] < threshold
  {
    if lower > 0 && at - lower < reach && power[lower - 1] > sentinel && power[lower - 1] >= threshold
    then LowerEdge(power, sentinel, threshold, at, reach, lower - 1) else lower
  }

  function UpperEdge(power: seq<real>, sentinel: real, threshold: real, at: nat, reach: nat, upper: nat): (r: nat)
    requires at <= upper < |power|
    ensures upper <= r < |power|
    ensures upper - at <= reach ==> r - at <= reach
    ensures forall k :: upper < k <= r ==> power[k] > sentinel && power[k] >= threshold
    ensures r == |power| - 1 || r - at >= reach || power[r + 1] <= sentinel || power[r + 1] < threshold
    decreases |power| - upper
  {
    if upper < |power| - 1 && upper - at < reach && power[upper + 1] > sentinel && power[upper + 1] >= threshold
    then UpperEdge(power, sentinel, threshold, at, reach, upper + 1) else upper
  }

  /** The measured bins of [from, to) outside the hump, in order. */
  function Around(power: seq<real>, sentinel: real, lower: int, upper: int, from: nat, to: nat): seq<real>
    requires from <= to <= |power|
  {
    if from == to then []
    else Around(power, sentinel, lower, upper, from, to - 1)
         + (if lower <= to - 1 <= upper || power[to - 1] <= sentinel then [] else [power[to - 1]])
  }

  lemma AroundNothing(power: seq<real>, sentinel: real, lower: int, upper: int, from: nat)
    requires from <= |power|
    ensures Around(power, sentinel, lower, upper, from, from) == []
  {}

  lemma AroundNext(power: seq<real>, sentinel: real, lower: int, upper: int, from: nat, i: nat)
    requires from <= i < |power|
    ensures var before := Around(power, sentinel, lower, upper, from, i);
      Around(power, sentinel, lower, upper, from, i + 1)
        == if lower <= i <= upper || power[i] <= sentinel then before else before + [power[i]]
  {}

  /** The median of what lies around the hump, if anything does. */
  function LocalFloor(power: seq<real>, sentinel: real, centre: nat, lower: nat, upper: nat, window: nat): Option<real>
    requires centre < |power|
  {
    var from := if centre < window then 0 else centre - window;
    var to := if centre + window > |power| - 1 then |power| - 1 else centre + window;
    var around := Around(power, sentinel, lower, upper, from, to + 1);
    if around == [] then None else Some(Sort(around)[|around| / 2])
  }

  /** Lines 337-359, the workspace filled and sorted. */
  method MeasureFloor(power: array<real>, sentinel: real, centre: nat, lower: nat, upper: nat, window: nat)
    returns (floor: Option<real>)
    requires centre < power.Length
    ensures floor == LocalFloor(power[..], sentinel, centre, lower, upper, window)
  {
    hide Around, Sort;
    var from: nat := if centre < window then 0 else centre - window;
    AroundNothing(power[..], sentinel, lower, upper, from);
    var to: nat := if centre + window > power.Length - 1 then power.Length - 1 else centre + window;
    var workspace: seq<real> := [];
    var i: nat := from;
    while i <= to
      invariant from <= i <= to + 1
      invariant workspace == Around(power[..], sentinel, lower, upper, from, i)
    {
      AroundNext(power[..], sentinel, lower, upper, from, i);
      if !(lower <= i <= upper) && !(power[i] <= sentinel) {
        workspace := workspace + [power[i]];
      }
      i := i + 1;
    }
    if workspace == [] {
      return None;
    }
    return Some(Sort(workspace)[|workspace| / 2]);
  }

  // ----------------------------------------------------------- one candidate

  function WindowFor(count: nat): nat {
    if count / 4 > 1024 then 1024 else if count / 4 < 16 then 16 else count / 4
  }

  function ReachFor(count: nat): nat { if count / 4 < 4 then 4 else count / 4 }

  predicate LocalMaximum(power: seq<real>, sentinel: real, i: nat) {
    0 < i < |power| - 1 && power[i] > sentinel && power[i] >= power[i - 1] && power[i] > power[i + 1]
  }

  /** What bin i contributes: a peak if it clears every bar, and nothing otherwise. */
  function Candidate(power: seq<real>, sentinel: real, gate: Gate, i: nat): Option<Peak>
    requires i < |power|
  {
    if !LocalMaximum(power, sentinel, i) || Prominence(power, sentinel, i, WindowFor(|power|)) < gate.topographic then None
    else
      var lower := LowerEdge(power, sentinel, power[i] - gate.bandwidth, i, ReachFor(|power|), i);
      var upper := UpperEdge(power, sentinel, power[i] - gate.bandwidth, i, ReachFor(|power|), i);
      var floor := LocalFloor(power, sentinel, i, lower, upper, FloorWindow(lower, upper));
      if floor.None? || floor.value >= power[i] || power[i] - floor.value < gate.floor then None
      else Some(Peak(i, power[i], floor.value, power[i] - floor.value, lower, upper))
  }

  function FloorWindow(lower: nat, upper: nat): nat
  {
    var width := upper - lower + 1;
    if width * 8 < 16 then 16 else width * 8
  }

  /** All candidates below bin n, in order. */
  function Candidates(power: seq<real>, sentinel: real, gate: Gate, n: nat): seq<Peak>
    requires n <= |power|
  {
    if n == 0 then []
    else Candidates(power, sentinel, gate, n - 1)
         + (var c := Candidate(power, sentinel, gate, n - 1); if c.Some? then [c.value] else [])
  }

  /** What every reported peak satisfies. */
  ghost predicate SoundPeak(power: seq<real>, sentinel: real, gate: Gate, p: Peak) {
    && LocalMaximum(power, sentinel, p.index) && p.power == power[p.index]
    && p.lower <= p.index <= p.upper < |power|
    && p.index - p.lower <= ReachFor(|power|) && p.upper - p.index <= ReachFor(|power|)
    && (forall k :: p.lower <= k <= p.upper ==> power[k] > sentinel)
    && (forall k :: p.lower <= k <= p.upper && k != p.index ==> power[k] >= p.power - gate.bandwidth)
    && Some(p.floor) == LocalFloor(power, sentinel, p.index, p.lower, p.upper, FloorWindow(p.lower, p.upper))
    && p.prominence == p.power - p.floor > 0.0 && p.prominence >= gate.floor
    && Prominence(power, sentinel, p.index, WindowFor(|power|)) >= gate.topographic
  }

  /** Sound peaks in bin order, all below bin n. */
  ghost predicate SoundInOrder(power: seq<real>, sentinel: real, gate: Gate, cs: seq<Peak>, n: nat) {
    && (forall j | 0 <= j < |cs| :: SoundPeak(power, sentinel, gate, cs[j]) && cs[j].index < n)
    && (forall j, k | 0 <= j < k < |cs| :: cs[j].index < cs[k].index)
  }

  lemma OneMoreSound(power: seq<real>, sentinel: real, gate: Gate, cs: seq<Peak>, n: nat, c: Option<Peak>)
    requires SoundInOrder(power, sentinel, gate, cs, n)
    requires c.Some? ==> SoundPeak(power, sentinel, gate, c.value) && c.value.index == n
    ensures SoundInOrder(power, sentinel, gate, if c.Some? then cs + [c.value] else cs, n + 1)
  {
    hide SoundPeak;
  }

  lemma {:induction false} CandidatesAreSound(power: seq<real>, sentinel: real, gate: Gate, n: nat)
    requires n <= |power|
    ensures SoundInOrder(power, sentinel, gate, Candidates(power, sentinel, gate, n), n)
  {
    hide Candidate, SoundPeak;
    if n > 0 {
      CandidatesAreSound(power, sentinel, gate, n - 1);
      var c := Candidate(power, sentinel, gate, n - 1);
      if c.Some? { CandidateIsSound(power, sentinel, gate, n - 1); }
      OneMoreSound(power, sentinel, gate, Candidates(power, sentinel, gate, n - 1), n - 1, c);
    }
  }

  lemma CandidateIsSound(power: seq<real>, sentinel: real, gate: Gate, i: nat)
    requires i < |power| && Candidate(power, sentinel, gate, i).Some?
    ensures SoundPeak(power, sentinel, gate, Candidate(power, sentinel, gate, i).value)
    ensures Candidate(power, sentinel, gate, i).value.index == i
  {
    hide Prominence, LocalFloor;
  }

  // ---------------------------------------------------- keeping the strongest

  /** `kept` is a strongest-`most` selection of `seen`, and `dropped` is what it left out. */
  ghost predicate Strongest(seen: seq<Peak>, kept: seq<Peak>, dropped: seq<Peak>, most: nat) {
    && multiset(kept) + multiset(dropped) == multiset(seen)
    && |kept| <= most && (|kept| < most ==> dropped == [])
    && forall i, j | 0 <= i < |kept| && 0 <= j < |dropped| :: dropped[j].power <= kept[i].power
  }

  ghost predicate IsWeakest(kept: seq<Peak>, w: nat) {
    w < |kept| && forall i | 0 <= i < |kept| :: kept[w].power <= kept[i].power
  }

  lemma KeepWithRoom(seen: seq<Peak>, kept: seq<Peak>, dropped: seq<Peak>, most: nat, c: Peak)
    requires Strongest(seen, kept, dropped, most) && |kept| < most
    ensures Strongest(seen + [c], kept + [c], dropped, most)
  {}

  lemma KeepWhenFull(seen: seq<Peak>, kept: seq<Peak>, dropped: seq<Peak>, most: nat, c: Peak, w: nat)
    requires Strongest(seen, kept, dropped, most) && |kept| == most && IsWeakest(kept, w)
    ensures c.power > kept[w].power ==> Strongest(seen + [c], kept[w := c], dropped + [kept[w]], most)
    ensures c.power <= kept[w].power ==> Strongest(seen + [c], kept, dropped + [c], most)
  {
    if c.power > kept[w].power {
      assert multiset(kept[w := c]) == multiset(kept) - multiset{kept[w]} + multiset{c};
    }
  }

  lemma NothingSeen(most: nat)
    ensures Strongest([], [], [], most)
  {}

  /** Lines 541-544. */
  method Weakest(peaks: array<Peak>, found: nat) returns (weakest: nat)
    requires 0 < found <= peaks.Length
    ensures IsWeakest(peaks[..found], weakest)
  {
    weakest := 0;
    var k := 1;
    while k < found
      invariant 1 <= k <= found && weakest < k
      invariant forall i :: 0 <= i < k ==> peaks[weakest].power <= peaks[i].power
    {
      if peaks[k].power < peaks[weakest].power {
        weakest := k;
      }
      k := k + 1;
    }
  }

  /** Lines 537-547: take a candidate in if there is room, or in place of the weakest it beats. */
  method Keep(peaks: array<Peak>, found: nat, c: Peak, ghost seen: seq<Peak>, ghost dropped: seq<Peak>, most: nat)
    returns (next: nat, ghost left: seq<Peak>)
    requires 0 < most <= peaks.Length && found <= most && Strongest(seen, peaks[..found], dropped, most)
    modifies peaks
    ensures found <= next <= most && Strongest(seen + [c], peaks[..next], left, most)
    ensures forall i :: most <= i < peaks.Length ==> peaks[i] == old(peaks[i])
  {
    hide Strongest;
    ghost var kept := peaks[..found];
    left := dropped;
    if found < most {
      KeepWithRoom(seen, kept, dropped, most, c);
      peaks[found] := c;
      next := found + 1;
      assert peaks[..next] == kept + [c];
    } else {
      next := found;
      var weakest := Weakest(peaks, found);
      hide IsWeakest;
      KeepWhenFull(seen, kept, dropped, most, c, weakest);
      if c.power > peaks[weakest].power {
        left := dropped + [peaks[weakest]];
        peaks[weakest] := c;
        assert peaks[..next] == kept[weakest := c];
      } else {
        left := dropped + [c];
      }
    }
  }

  // ----------------------------------------------------------------- sorting

  ghost predicate Descending(s: seq<Peak>) {
    forall i, j | 0 <= i < j < |s| :: s[i].power >= s[j].power
  }

  function InsertPeak(p: Peak, s: seq<Peak>): (r: seq<Peak>)
    requires Descending(s)
    ensures Descending(r) && multiset(r) == multiset{p} + multiset(s) && |r| == |s| + 1
    decreases |s|
  {
    if s == [] || p.power >= s[0].power then [p] + s
    else
      assert s == [s[0]] + s[1..];
      var rest := InsertPeak(p, s[1..]);
      NoneAbove(rest, p, s[1..], s[0].power);
      [s[0]] + rest
  }

  lemma NoneAbove(rest: seq<Peak>, p: Peak, tail: seq<Peak>, top: real)
    requires multiset(rest) == multiset{p} + multiset(tail) && p.power <= top
    requires forall i | 0 <= i < |tail| :: tail[i].power <= top
    ensures forall i | 0 <= i < |rest| :: rest[i].power <= top
  {
    forall i | 0 <= i < |rest| ensures rest[i].power <= top {
      assert rest[i] in multiset(rest);
      assert rest[i] == p || rest[i] in tail;
    }
  }

  /** qsort with compare_peaks: some arrangement from strongest to weakest. */
  function SortPeaks(s: seq<Peak>): (r: seq<Peak>)
    ensures Descending(r) && multiset(r) == multiset(s) && |r| == |s|
    decreases |s|
  {
    if s == [] then [] else
      assert s == [s[0]] + s[1..];
      InsertPeak(s[0], SortPeaks(s[1..]))
  }

  lemma SortedStillStrongest(seen: seq<Peak>, kept: seq<Peak>, dropped: seq<Peak>, most: nat)
    requires Strongest(seen, kept, dropped, most)
    ensures Strongest(seen, SortPeaks(kept), dropped, most)
  {
    var r := SortPeaks(kept);
    forall i, j | 0 <= i < |r| && 0 <= j < |dropped| ensures dropped[j].power <= r[i].power {
      assert r[i] in multiset(kept);
      assert r[i] in kept;
    }
  }

  // ------------------------------------------------------------------ the finder

  /**
    Lines 424-551. The list reported is sorted strongest first and is a
    strongest-maxPeaks selection of all candidates in the array: what was
    dropped is no stronger than anything kept, and nothing is dropped while
    there is room.
   */
  method FindPeaks(power: array<real>, sentinel: real, gate: Gate, peaks: array<Peak>, maxPeaks: int)
    returns (found: nat, ghost dropped: seq<Peak>)
    requires maxPeaks <= peaks.Length
    modifies peaks
    ensures power.Length <= 2 || maxPeaks <= 0 ==> found == 0 && peaks[..] == old(peaks[..])
    ensures power.Length > 2 && maxPeaks > 0 ==>
      && found <= maxPeaks
      && Descending(peaks[..found])
      && Strongest(Candidates(power[..], sentinel, gate, power.Length), peaks[..found], dropped, maxPeaks)
  {
    found, dropped := 0, [];
    if power.Length <= 2 || maxPeaks <= 0 {
      return;
    }
    found, dropped := Collect(power, sentinel, gate, peaks, maxPeaks);
    SortedStillStrongest(Candidates(power[..], sentinel, gate, power.Length), peaks[..found], dropped, maxPeaks);
    SortInPlace(peaks, found);
  }

  method SortInPlace(peaks: array<Peak>, found: nat)
    requires found <= peaks.Length
    modifies peaks
    ensures peaks[..found] == SortPeaks(old(peaks[..found])) && Descending(peaks[..found])
  {
    hide Descending;
    var sorted := SortPeaks(peaks[..found]);
    forall k | 0 <= k < found { peaks[k] := sorted[k]; }
    assert peaks[..found] == sorted;
  }

  /** Lines 439-548: the stream of candidates, before the sort. */
  method Collect(power: array<real>, sentinel: real, gate: Gate, peaks: array<Peak>, most: nat)
    returns (found: nat, ghost dropped: seq<Peak>)
    requires 0 < most <= peaks.Length && power.Length > 2
    modifies peaks
    ensures found <= most
    ensures Strongest(Candidates(power[..], sentinel, gate, power.Length), peaks[..found], dropped, most)
  {
    hide Strongest, Candidate;
    found, dropped := 0, [];
    ghost var p := power[..];
    ghost var kept: seq<Peak> := [];
    NothingSeen(most);
    NoCandidateAtEdges(p, sentinel, gate);
    var i: nat := 1;
    while i < power.Length - 1
      invariant 1 <= i <= power.Length - 1 && found <= most
      invariant peaks[..found] == kept && power[..] == p
      invariant Strongest(Candidates(p, sentinel, gate, i), kept, dropped, most)
    {
      var c := MeasureCandidate(power, sentinel, gate, i);
      CandidatesNext(p, sentinel, gate, i);
      if c.Some? {
        found, dropped := Keep(peaks, found, c.value, Candidates(p, sentinel, gate, i), dropped, most);
        kept := peaks[..found];
      }
      i := i + 1;
    }
  }

  lemma CandidatesNext(power: seq<real>, sentinel: real, gate: Gate, i: nat)
    requires i < |power|
    ensures var cs, c := Candidates(power, sentinel, gate, i), Candidate(power, sentinel, gate, i);
      Candidates(power, sentinel, gate, i + 1) == if c.Some? then cs + [c.value] else cs
  {
    hide Candidate;
  }

  lemma NoCandidateAtEdges(power: seq<real>, sentinel: real, gate: Gate)
    requires |power| > 2
    ensures Candidates(power, sentinel, gate, 1) == []
    ensures Candidates(power, sentinel, gate, |power|) == Candidates(power, sentinel, gate, |power| - 1)
  {
    assert Candidate(power, sentinel, gate, 0) == None && Candidate(power, sentinel, gate, |power| - 1) == None;
    hide Candidate;
    CandidatesNext(power, sentinel, gate, 0);
    CandidatesNext(power, sentinel, gate, |power| - 1);
  }

  /** The body of the loop at lines 439-535: bin i measured against every bar. */
  method MeasureCandidate(power: array<real>, sentinel: real, gate: Gate, i: nat) returns (c: Option<Peak>)
    requires 0 < i < power.Length - 1
    ensures c == Candidate(power[..], sentinel, gate, i)
  {
    hide Prominence, LocalFloor, LowerEdge, UpperEdge;
    var count := power.Length;
    var window := count / 4;
    if window > 1024 {
      window := 1024;
    }
    if window < 16 {
      window := 16;
    }
    if power[i] <= sentinel || !(power[i] >= power[i - 1] && power[i] > power[i + 1]) {
      return None;
    }
    ghost var trace := power[..];
    assert LocalMaximum(trace, sentinel, i) && trace[i] == power[i] && window == WindowFor(|trace|);
    hide LocalMaximum, WindowFor, ReachFor, FloorWindow;
    var prominence := TopographicProminence(power, sentinel, i, window);
    if prominence < gate.topographic {
      return None;
    }
    var lower, upper := Widen(power, sentinel, power[i] - gate.bandwidth, i, ReachFor(count));
    var floor := MeasureFloor(power, sentinel, i, lower, upper, FloorWindow(lower, upper));
    if floor.None? || floor.value >= power[i] || power[i] - floor.value < gate.floor {
      return None;
    }
    return Some(Peak(i, power[i], floor.value, power[i] - floor.value, lower, upper));
  }

  /** Lines 483-494. */
  method Widen(power: array<real>, sentinel: real, threshold: real, at: nat, reach: nat) returns (lower: nat, upper: nat)
    requires at < power.Length
    ensures lower == LowerEdge(power[..], sentinel, threshold, at, reach, at)
    ensures upper == UpperEdge(power[..], sentinel, threshold, at, reach, at)
    ensures lower <= at <= upper < power.Length
  {
    lower := at;
    while lower > 0 && at - lower < reach && power[lower - 1] > sentinel && power[lower - 1] >= threshold
      invariant lower <= at
      invariant LowerEdge(power[..], sentinel, threshold, at, reach, lower)
             == LowerEdge(power[..], sentinel, threshold, at, reach, at)
    {
      lower := lower - 1;
    }
    upper := at;
    while upper < power.Length - 1 && upper - at < reach && power[upper + 1] > sentinel && power[upper + 1] >= threshold
      invariant at <= upper < power.Length
      invariant UpperEdge(power[..], sentinel, threshold, at, reach, upper)
             == UpperEdge(power[..], sentinel, threshold, at, reach, at)
    {
      upper := upper + 1;
    }
  }

  /** What a caller may rely on for the whole list. */
  lemma ReportedPeaks(power: seq<real>, sentinel: real, gate: Gate, kept: seq<Peak>, dropped: seq<Peak>, most: nat)
    requires Strongest(Candidates(power, sentinel, gate, |power|), kept, dropped, most)
    ensures forall p <- kept :: SoundPeak(power, sentinel, gate, p)
    ensures forall i, j | 0 <= i < j < |kept| :: kept[i].index != kept[j].index
    ensures |kept| == (if |Candidates(power, sentinel, gate, |power|)| < most
                       then |Candidates(power, sentinel, gate, |power|)| else most)
  {
    hide SoundPeak, Candidate;
    var cs := Candidates(power, sentinel, gate, |power|);
    CandidatesAreSound(power, sentinel, gate, |power|);
    assert |kept| + |dropped| == |multiset(kept) + multiset(dropped)| == |multiset(cs)| == |cs|;
    forall p | p in kept ensures SoundPeak(power, sentinel, gate, p) {
      assert p in multiset(kept) + multiset(dropped);
      assert p in multiset(cs);
    }
    forall i, j | 0 <= i < j < |kept| ensures kept[i].index != kept[j].index {
      if kept[i].index == kept[j].index {
        assert kept[i] in multiset(kept) && kept[j] in multiset(kept);
        OnePerIndex(cs, kept[i], kept[j]);
        Twice(kept, i, j);
      }
    }
  }

  /** Peaks in strict bin order share no bin, so none occurs twice. */
  lemma OnePerIndex(cs: seq<Peak>, p: Peak, q: Peak)
    requires forall a, b | 0 <= a < b < |cs| :: cs[a].index < cs[b].index
    requires p in multiset(cs) && q in multiset(cs) && p.index == q.index
    ensures p == q && multiset(cs)[p] == 1
  {
    var a :| 0 <= a < |cs| && cs[a] == p;
    var b :| 0 <= b < |cs| && cs[b] == q;
    assert cs == cs[..a] + [cs[a]] + cs[a + 1..];
    assert cs[a] !in cs[..a] && cs[a] !in cs[a + 1..];
  }

  lemma Twice(kept: seq<Peak>, i: nat, j: nat)
    requires i < j < |kept| && kept[i] == kept[j]
    ensures multiset(kept)[kept[i]] >= 2
  {
    assert kept == kept[..i] + [kept[i]] + kept[i + 1..j] + [kept[j]] + kept[j + 1..];
  }
}
