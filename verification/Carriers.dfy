/**
  Grouping the maxima of a survey into carriers, src/core/survey_carrier.h:159-363:
  the smoothed spectrum, the walk from a peak to the trough that ends its signal,
  the grouping itself, and where each carrier's power sits.
 */
module Carriers {
  import opened Peaks

  const CARRIER_MAX: int := 64
  const SPLIT_DB := 6.0

  // ------------------------------------------------------ the smoothed level

  /** The strongest measured level among bins [lo, hi), or the sentinel. */
  function LoudestIn(power: seq<real>, sentinel: real, lo: int, hi: int): (r: real)
    requires lo <= hi
    ensures r >= sentinel
    ensures forall w :: lo <= w < hi && Measured(power, sentinel, w) ==> power[w] <= r
    ensures r > sentinel ==> (exists w :: lo <= w < hi && Measured(power, sentinel, w) && power[w] == r)
    decreases hi - lo
  {
    if lo == hi then sentinel
    else
      var best := LoudestIn(power, sentinel, lo, hi - 1);
      if Measured(power, sentinel, hi - 1) && power[hi - 1] > best then power[hi - 1] else best
  }

  function Smoothed(power: seq<real>, sentinel: real, at: int, notch: nat): real {
    LoudestIn(power, sentinel, at - notch, at + notch + 1)
  }

  /** Lines 194-206. */
  method SmoothedLevel(power: array<real>, sentinel: real, at: int, notch: nat) returns (best: real)
    ensures best == Smoothed(power[..], sentinel, at, notch)
  {
    best := sentinel;
    var w := at - notch;
    while w <= at + notch
      invariant at - notch <= w <= at + notch + 1
      invariant best == LoudestIn(power[..], sentinel, at - notch, w)
    {
      if !(w < 0 || w >= power.Length || power[w] <= sentinel) && power[w] > best {
        best := power[w];
      }
      w := w + 1;
    }
  }

  // ------------------------------------------------------- the walk to an edge

  /** k bins from b in the given direction. */
  function Bin(b: int, direction: int, k: int): int { if direction == 1 then b + k else b - k }

  predicate Inside(power: seq<real>, b: int) { 0 <= b < |power| }

  /** The smoothed levels met walking from bin b, up to the array's end or an unmeasured bin. */
  function Ahead(power: seq<real>, sentinel: real, notch: nat, b: int, direction: int): seq<real>
    requires direction == 1 || direction == -1
    decreases if !Inside(power, b) then 0 else if direction == 1 then |power| - b else b + 1
  {
    if !Inside(power, b) || Smoothed(power, sentinel, b, notch) <= sentinel then []
    else [Smoothed(power, sentinel, b, notch)] + Ahead(power, sentinel, notch, b + direction, direction)
  }

  /** The lowest of the seed and the first k levels. */
  function Lowest(seed: real, levels: seq<real>, k: nat): (r: real)
    requires k <= |levels|
    ensures r <= seed && forall i :: 0 <= i < k ==> r <= levels[i]
  {
    if k == 0 then seed
    else if levels[k - 1] < Lowest(seed, levels, k - 1) then levels[k - 1] else Lowest(seed, levels, k - 1)
  }

  /** How many steps out that lowest level was first met; none if it is the seed's. */
  function FirstLowest(seed: real, levels: seq<real>, k: nat): (e: nat)
    requires k <= |levels|
    ensures e <= k
    ensures e == 0 ==> Lowest(seed, levels, k) == seed
    ensures e > 0 ==> levels[e - 1] == Lowest(seed, levels, k) < seed && forall i :: 0 <= i < e - 1 ==> levels[i] > levels[e - 1]
  {
    if k == 0 then 0
    else if levels[k - 1] < Lowest(seed, levels, k - 1) then k else FirstLowest(seed, levels, k - 1)
  }

  /** Step k neither climbs out of the trough so far nor is down by the carrier's edge level. */
  predicate GoesOn(seed: real, levels: seq<real>, bar: real, k: nat)
    requires k < |levels|
  {
    levels[k] <= Lowest(seed, levels, k) + SPLIT_DB && levels[k] >= bar
  }

  /** The first step from k on that does one or the other. */
  function StopsAt(seed: real, levels: seq<real>, bar: real, k: nat): (stop: nat)
    requires k <= |levels|
    ensures k <= stop <= |levels|
    ensures forall i :: k <= i < stop ==> GoesOn(seed, levels, bar, i)
    ensures stop < |levels| ==> !GoesOn(seed, levels, bar, stop)
    decreases |levels| - k
  {
    if k == |levels| || !GoesOn(seed, levels, bar, k) then k else StopsAt(seed, levels, bar, k + 1)
  }

  /** The edge: the bin down by the edge level if the walk got there, the bottom of the trough otherwise. */
  function EdgeSteps(seed: real, levels: seq<real>, bar: real): (e: nat)
    ensures e <= |levels|
  {
    var stop := StopsAt(seed, levels, bar, 0);
    if stop < |levels| && levels[stop] <= Lowest(seed, levels, stop) + SPLIT_DB then stop + 1
    else FirstLowest(seed, levels, stop)
  }

  /**
    Up to where the walk stops every level is within the split of the trough so
    far and not down by the edge level. Then either the next is down by it without
    climbing, and is the edge; or the walk climbs or runs out, and the edge is
    where the lowest level was first met, or the peak itself when none is lower.
   */
  lemma EdgeIsDownOrTrough(seed: real, levels: seq<real>, bar: real)
    ensures var e, stop := EdgeSteps(seed, levels, bar), StopsAt(seed, levels, bar, 0);
            && (forall i | 0 <= i < stop :: levels[i] >= bar && levels[i] <= Lowest(seed, levels, i) + SPLIT_DB)
            && (stop < |levels| && levels[stop] <= Lowest(seed, levels, stop) + SPLIT_DB ==>
                  e == stop + 1 && levels[stop] < bar)
            && (stop == |levels| || levels[stop] > Lowest(seed, levels, stop) + SPLIT_DB ==>
                  var bottom := if e == 0 then seed else levels[e - 1];
                  && e <= stop && bottom <= seed && (forall i | 0 <= i < stop :: bottom <= levels[i])
                  && (e > 0 ==> bottom < seed && forall i | 0 <= i < e - 1 :: bottom < levels[i]))
  {
    hide Lowest, FirstLowest, StopsAt;
    forall i | 0 <= i < StopsAt(seed, levels, bar, 0)
      ensures levels[i] >= bar && levels[i] <= Lowest(seed, levels, i) + SPLIT_DB
    {
      assert GoesOn(seed, levels, bar, i);
    }
  }

  function Seed(power: seq<real>, sentinel: real, from: int, peak: real, notch: nat): real {
    if Smoothed(power, sentinel, from, notch) <= sentinel then peak else Smoothed(power, sentinel, from, notch)
  }

  function Edge(power: seq<real>, sentinel: real, from: int, peak: real, edgeDb: real, notch: nat, direction: int): (edge: int)
    requires direction == 1 || direction == -1
  {
    Bin(from, direction, EdgeSteps(Seed(power, sentinel, from, peak, notch),
                                   Ahead(power, sentinel, notch, from + direction, direction), peak - edgeDb))
  }

  lemma {:induction false} AheadStaysInside(power: seq<real>, sentinel: real, notch: nat, b: int, direction: int)
    requires direction == 1 || direction == -1
    ensures var n := |Ahead(power, sentinel, notch, b, direction)|;
      n > 0 ==> Inside(power, b) && Inside(power, Bin(b, direction, n - 1))
    decreases if !Inside(power, b) then 0 else if direction == 1 then |power| - b else b + 1
  {
    hide Smoothed, LoudestIn;
    if Inside(power, b) && Smoothed(power, sentinel, b, notch) > sentinel {
      AheadStaysInside(power, sentinel, notch, b + direction, direction);
    }
  }

  /** Edges stay in the array, each on its own side of the peak. */
  lemma EdgeInside(power: seq<real>, sentinel: real, from: int, peak: real, edgeDb: real, notch: nat, direction: int)
    requires Inside(power, from) && (direction == 1 || direction == -1)
    ensures var edge := Edge(power, sentinel, from, peak, edgeDb, notch, direction);
      Inside(power, edge) && if direction == 1 then edge >= from else edge <= from
  {
    hide Ahead, EdgeSteps;
    AheadStaysInside(power, sentinel, notch, from + direction, direction);
  }

  lemma {:induction false} AheadAt(power: seq<real>, sentinel: real, notch: nat, b: int, direction: int, k: nat)
    requires direction == 1 || direction == -1
    requires k <= |Ahead(power, sentinel, notch, b, direction)|
    ensures var levels, c := Ahead(power, sentinel, notch, b, direction), Bin(b, direction, k);
      && (k < |levels| ==> Inside(power, c) && levels[k] == Smoothed(power, sentinel, c, notch) > sentinel)
      && (k == |levels| ==> !Inside(power, c) || Smoothed(power, sentinel, c, notch) <= sentinel)
    decreases k
  {
    hide Smoothed;
    if k > 0 {
      AheadAt(power, sentinel, notch, b + direction, direction, k - 1);
    }
  }

  lemma WalkRunsOut(seed: real, levels: seq<real>, bar: real)
    requires StopsAt(seed, levels, bar, 0) == StopsAt(seed, levels, bar, |levels|)
    ensures EdgeSteps(seed, levels, bar) == FirstLowest(seed, levels, |levels|)
  {}

  /** Lines 223-260: the one-pass walk ends on that edge. */
  method WalkToEdge(power: array<real>, sentinel: real, from: int, peak: real, edgeDb: real, notch: nat, direction: int)
    returns (edge: int)
    requires Inside(power[..], from) && (direction == 1 || direction == -1)
    ensures edge == Edge(power[..], sentinel, from, peak, edgeDb, notch, direction)
  {
    hide Smoothed, Ahead, GoesOn, StopsAt, EdgeSteps, Lowest, FirstLowest;
    ghost var p := power[..];
    ghost var levels := Ahead(p, sentinel, notch, from + direction, direction);
    ghost var seed, bar := Seed(p, sentinel, from, peak, notch), peak - edgeDb;
    var lowest := SmoothedLevel(power, sentinel, from, notch);
    if lowest <= sentinel {
      lowest := peak;
    }
    edge := from;
    var b := from;
    ghost var k: nat := 0;
    NothingPassed(seed, levels);
    while true
      invariant k <= |levels| && b == Bin(from, direction, k)
      invariant lowest == Lowest(seed, levels, k) && edge == Bin(from, direction, FirstLowest(seed, levels, k))
      invariant StopsAt(seed, levels, bar, 0) == StopsAt(seed, levels, bar, k)
      decreases |levels| - k
    {
      AheadAt(p, sentinel, notch, from + direction, direction, k);
      b := b + direction;
      assert b == Bin(from + direction, direction, k);
      if b < 0 || b >= power.Length {
        WalkRunsOut(seed, levels, bar);
        return;
      }
      var value := SmoothedLevel(power, sentinel, b, notch);
      if value <= sentinel {
        WalkRunsOut(seed, levels, bar);
        return;
      }
      StepDecides(seed, levels, bar, k);
      if value < lowest {
        lowest := value;
        edge := b;
      } else if value > lowest + SPLIT_DB {
        return;
      }
      if value < peak - edgeDb {
        edge := b;
        return;
      }
      k := k + 1;
    }
  }

  lemma NothingPassed(seed: real, levels: seq<real>)
    ensures Lowest(seed, levels, 0) == seed && FirstLowest(seed, levels, 0) == 0
  {}

  /** What the level at step k does to the walk. */
  lemma StepDecides(seed: real, levels: seq<real>, bar: real, k: nat)
    requires k < |levels| && StopsAt(seed, levels, bar, 0) == StopsAt(seed, levels, bar, k)
    ensures levels[k] > Lowest(seed, levels, k) + SPLIT_DB ==>
      EdgeSteps(seed, levels, bar) == FirstLowest(seed, levels, k)
    ensures levels[k] <= Lowest(seed, levels, k) + SPLIT_DB && levels[k] < bar ==>
      EdgeSteps(seed, levels, bar) == k + 1
    ensures levels[k] <= Lowest(seed, levels, k) + SPLIT_DB && levels[k] >= bar ==>
      StopsAt(seed, levels, bar, 0) == StopsAt(seed, levels, bar, k + 1)
    ensures Lowest(seed, levels, k + 1) == if levels[k] < Lowest(seed, levels, k) then levels[k] else Lowest(seed, levels, k)
    ensures FirstLowest(seed, levels, k + 1) == if levels[k] < Lowest(seed, levels, k) then k + 1 else FirstLowest(seed, levels, k)
  {}

  // ------------------------------------------------------------- the grouping

  /** A carrier while it is being gathered. */
  datatype Group = Group(low: int, high: int, peak: real, floor: real, strongest: nat, peaks: nat)

  predicate Holds(g: Group, bin: int) { g.low <= bin <= g.high }

  /** The first group whose extent holds the bin, or -1. */
  function Holder(gs: seq<Group>, bin: int): (k: int)
    ensures -1 <= k < |gs|
    ensures k >= 0 ==> Holds(gs[k], bin)
    ensures forall j :: 0 <= j < |gs| && (k < 0 || j < k) ==> !Holds(gs[j], bin)
    decreases |gs|
  {
    if gs == [] then -1
    else
      var k := Holder(gs[..|gs| - 1], bin);
      if k >= 0 then k else if Holds(gs[|gs| - 1], bin) then |gs| - 1 else -1
  }

  lemma HolderIs(gs: seq<Group>, bin: int, k: int)
    requires -1 <= k < |gs| && (k >= 0 ==> Holds(gs[k], bin))
    requires forall j :: 0 <= j < |gs| && (k < 0 || j < k) ==> !Holds(gs[j], bin)
    ensures Holder(gs, bin) == k
  {
    var h := Holder(gs, bin);
    assert h >= 0 ==> Holds(gs[h], bin);
  }

  lemma HolderAfterUpdate(gs: seq<Group>, k: nat, g: Group, bin: int)
    requires k < |gs| && g.low == gs[k].low && g.high == gs[k].high
    ensures Holder(gs[k := g], bin) == Holder(gs, bin)
  {
    HolderIs(gs[k := g], bin, Holder(gs, bin));
  }

  lemma HolderAfterAppend(gs: seq<Group>, g: Group, bin: int)
    ensures Holder(gs + [g], bin)
         == if Holder(gs, bin) >= 0 then Holder(gs, bin) else if Holds(g, bin) then |gs| else -1
  {
    assert (gs + [g])[..|gs|] == gs;
  }

  /** The peaks among the first n that fall in group k. */
  ghost function Members(bins: int, peaks: seq<Peak>, gs: seq<Group>, n: nat, k: int): set<nat>
    requires n <= |peaks|
  {
    set i: nat | i < n && peaks[i].index < bins && Holder(gs, peaks[i].index) == k
  }

  lemma MemberAdded(bins: int, peaks: seq<Peak>, gs: seq<Group>, n: nat, k: int)
    requires n < |peaks|
    ensures Members(bins, peaks, gs, n + 1, k)
         == Members(bins, peaks, gs, n, k)
            + if peaks[n].index < bins && Holder(gs, peaks[n].index) == k then {n} else {}
  {}

  /** g counts its members, and reports the first strongest of them and their lowest floor. */
  ghost predicate Reports(peaks: seq<Peak>, members: set<nat>, g: Group) {
    && (forall i <- members :: i < |peaks|)
    && g.peaks == |members|
    && g.strongest in members && g.strongest < |peaks| && peaks[g.strongest].power == g.peak
    && (forall i <- members :: i < |peaks| && peaks[i].power <= g.peak && g.floor <= peaks[i].floor)
    && (forall i <- members :: i < g.strongest ==> peaks[i].power < g.peak)
    && (exists i :: i in members && i < |peaks| && peaks[i].floor == g.floor)
  }

  /** Lines 315-326: one more peak joins a group. */
  function Joined(g: Group, peaks: seq<Peak>, i: nat): Group
    requires i < |peaks|
  {
    var p := peaks[i];
    g.(peak := if p.power > g.peak then p.power else g.peak,
       strongest := if p.power > g.peak then i else g.strongest,
       floor := if p.floor < g.floor then p.floor else g.floor,
       peaks := g.peaks + 1)
  }

  lemma JoinReports(peaks: seq<Peak>, members: set<nat>, g: Group, i: nat)
    requires i < |peaks| && Reports(peaks, members, g) && forall j <- members :: j < i
    ensures Reports(peaks, members + {i}, Joined(g, peaks, i))
  {
    var g' := Joined(g, peaks, i);
    if peaks[i].floor < g.floor {
      assert i in members + {i} && peaks[i].floor == g'.floor;
    } else {
      var j :| j in members && j < |peaks| && peaks[j].floor == g.floor;
      assert j in members + {i} && peaks[j].floor == g'.floor;
    }
  }

  /** The walk settings, which stay the same throughout. */
  datatype Survey = Survey(power: seq<real>, sentinel: real, edgeDb: real, notch: nat)

  /** Group k is the extent walked out from its founder. */
  ghost predicate FoundedBy(s: Survey, peaks: seq<Peak>, g: Group, f: nat) {
    && f < |peaks| && peaks[f].index < |s.power|
    && g.low == Edge(s.power, s.sentinel, peaks[f].index, peaks[f].power, s.edgeDb, s.notch, -1)
    && g.high == Edge(s.power, s.sentinel, peaks[f].index, peaks[f].power, s.edgeDb, s.notch, 1)
  }

  /** Group k after n peaks: what it reports, of whom, and who founded it. */
  ghost predicate Settled(s: Survey, peaks: seq<Peak>, n: nat, gs: seq<Group>, k: nat, founder: nat)
    requires n <= |peaks| && k < |gs|
  {
    && founder < n && FoundedBy(s, peaks, gs[k], founder)
    && Holder(gs, peaks[founder].index) == k
    && Reports(peaks, Members(|s.power|, peaks, gs, n, k), gs[k])
    && (forall i <- Members(|s.power|, peaks, gs, n, k) :: founder <= i)
  }

  /**
    The state after n peaks. Each group was founded by its first member, whose bin
    lies outside every earlier extent; it reports exactly the peaks whose first
    holder it is; and a peak in the array is held by nobody only when the limit
    has been reached.
   */
  ghost predicate Grouped(s: Survey, peaks: seq<Peak>, n: nat, gs: seq<Group>, founders: seq<nat>, limit: nat) {
    && n <= |peaks| && |gs| == |founders| <= limit
    && (forall k | 0 <= k < |gs| :: Settled(s, peaks, n, gs, k, founders[k]))
    && (forall i | 0 <= i < n && peaks[i].index < |s.power| && Holder(gs, peaks[i].index) < 0 :: |gs| == limit)
  }

  lemma SkipPeak(s: Survey, peaks: seq<Peak>, n: nat, gs: seq<Group>, founders: seq<nat>, limit: nat)
    requires Grouped(s, peaks, n, gs, founders, limit) && n < |peaks|
    requires peaks[n].index >= |s.power| || (Holder(gs, peaks[n].index) < 0 && |gs| == limit)
    ensures Grouped(s, peaks, n + 1, gs, founders, limit)
  {
    hide Reports, FoundedBy, Holder;
    forall k | 0 <= k < |gs| ensures Settled(s, peaks, n + 1, gs, k, founders[k]) {
      assert Settled(s, peaks, n, gs, k, founders[k]);
      MemberAdded(|s.power|, peaks, gs, n, k);
      assert Members(|s.power|, peaks, gs, n + 1, k) == Members(|s.power|, peaks, gs, n, k);
    }
  }

  /** A peak joining one group leaves the others as they were and is reported by its own. */
  lemma JoinOne(s: Survey, peaks: seq<Peak>, n: nat, gs: seq<Group>, at: nat, k: nat, founder: nat)
    requires n < |peaks| && k < |gs| && at < |gs| && Settled(s, peaks, n, gs, k, founder)
    requires peaks[n].index < |s.power| && Holder(gs, peaks[n].index) == at
    ensures Settled(s, peaks, n + 1, gs[at := Joined(gs[at], peaks, n)], k, founder)
  {
    hide Reports, Holder, Members, FoundedBy;
    var g := Joined(gs[at], peaks, n);
    MembersAfterJoin(|s.power|, peaks, n, gs, at, g, k);
    HolderAfterUpdate(gs, at, g, peaks[founder].index);
    FoundedStill(s, peaks, gs[k], gs[at := g][k], founder);
    var before := Members(|s.power|, peaks, gs, n, k);
    if k == at {
      EarlierMembers(|s.power|, peaks, gs, n, k);
      JoinReports(peaks, before, gs[at], n);
    } else {
      assert before + {} == before;
    }
  }

  lemma FoundedStill(s: Survey, peaks: seq<Peak>, g: Group, h: Group, f: nat)
    requires FoundedBy(s, peaks, g, f) && h.low == g.low && h.high == g.high
    ensures FoundedBy(s, peaks, h, f)
  {}

  lemma EarlierMembers(bins: int, peaks: seq<Peak>, gs: seq<Group>, n: nat, k: int)
    requires n <= |peaks|
    ensures forall i <- Members(bins, peaks, gs, n, k) :: i < n
  {}

  lemma MembersAfterJoin(bins: int, peaks: seq<Peak>, n: nat, gs: seq<Group>, at: nat, g: Group, k: nat)
    requires n < |peaks| && at < |gs| && peaks[n].index < bins && Holder(gs, peaks[n].index) == at
    requires g.low == gs[at].low && g.high == gs[at].high
    ensures Members(bins, peaks, gs[at := g], n + 1, k) == Members(bins, peaks, gs, n, k) + if k == at then {n} else {}
  {
    hide Holder;
    forall i: nat | i <= n ensures Holder(gs[at := g], peaks[i].index) == Holder(gs, peaks[i].index) {
      HolderAfterUpdate(gs, at, g, peaks[i].index);
    }
  }

  lemma JoinPeak(s: Survey, peaks: seq<Peak>, n: nat, gs: seq<Group>, founders: seq<nat>, limit: nat)
    requires Grouped(s, peaks, n, gs, founders, limit) && n < |peaks|
    requires peaks[n].index < |s.power| && Holder(gs, peaks[n].index) >= 0
    ensures var k := Holder(gs, peaks[n].index);
      Grouped(s, peaks, n + 1, gs[k := Joined(gs[k], peaks, n)], founders, limit)
  {
    hide Settled, Holder;
    var at := Holder(gs, peaks[n].index);
    var g := Joined(gs[at], peaks, n);
    forall k | 0 <= k < |gs| ensures Settled(s, peaks, n + 1, gs[at := g], k, founders[k]) {
      JoinOne(s, peaks, n, gs, at, k, founders[k]);
    }
    forall i | 0 <= i <= n ensures Holder(gs[at := g], peaks[i].index) == Holder(gs, peaks[i].index) {
      HolderAfterUpdate(gs, at, g, peaks[i].index);
    }
  }

  /** A new group after the others takes no member from them. */
  lemma FoundAfter(s: Survey, peaks: seq<Peak>, n: nat, gs: seq<Group>, g: Group, k: nat, founder: nat)
    requires n < |peaks| && k < |gs| && Settled(s, peaks, n, gs, k, founder)
    requires peaks[n].index < |s.power| && Holder(gs, peaks[n].index) < 0
    ensures Settled(s, peaks, n + 1, gs + [g], k, founder)
  {
    hide Reports, Holder, FoundedBy, Holds;
    var gs' := gs + [g];
    assert Members(|s.power|, peaks, gs', n + 1, k) == Members(|s.power|, peaks, gs, n, k) by {
      forall i: nat | i <= n
        ensures Holder(gs', peaks[i].index)
             == if Holder(gs, peaks[i].index) >= 0 then Holder(gs, peaks[i].index)
                else if Holds(g, peaks[i].index) then |gs| else -1
      {
        HolderAfterAppend(gs, g, peaks[i].index);
      }
    }
    HolderAfterAppend(gs, g, peaks[founder].index);
  }

  /** The founder is its new group's only member: everyone before it already has a holder. */
  lemma FoundNew(s: Survey, peaks: seq<Peak>, n: nat, gs: seq<Group>, g: Group)
    requires n < |peaks| && peaks[n].index < |s.power| && Holder(gs, peaks[n].index) < 0
    requires forall i | 0 <= i < n && peaks[i].index < |s.power| :: Holder(gs, peaks[i].index) >= 0
    requires FoundedBy(s, peaks, g, n)
    requires g.peak == peaks[n].power && g.floor == peaks[n].floor && g.strongest == n && g.peaks == 1
    ensures Settled(s, peaks, n + 1, gs + [g], |gs|, n)
  {
    hide Reports, Holder, FoundedBy, Holds, Members;
    FounderHeld(s, peaks, g, n);
    MembersOfNew(|s.power|, peaks, n, gs, g);
    HolderAfterAppend(gs, g, peaks[n].index);
    OneMember(peaks, n, g);
  }

  lemma FounderHeld(s: Survey, peaks: seq<Peak>, g: Group, f: nat)
    requires FoundedBy(s, peaks, g, f)
    ensures Holds(g, peaks[f].index)
  {
    hide Edge;
    EdgeInside(s.power, s.sentinel, peaks[f].index, peaks[f].power, s.edgeDb, s.notch, -1);
    EdgeInside(s.power, s.sentinel, peaks[f].index, peaks[f].power, s.edgeDb, s.notch, 1);
  }

  lemma MembersOfNew(bins: int, peaks: seq<Peak>, n: nat, gs: seq<Group>, g: Group)
    requires n < |peaks| && peaks[n].index < bins && Holder(gs, peaks[n].index) < 0 && Holds(g, peaks[n].index)
    requires forall i | 0 <= i < n && peaks[i].index < bins :: Holder(gs, peaks[i].index) >= 0
    ensures Members(bins, peaks, gs + [g], n + 1, |gs|) == {n}
  {
    hide Holder, Holds;
    forall i: nat | i <= n
      ensures Holder(gs + [g], peaks[i].index)
           == if Holder(gs, peaks[i].index) >= 0 then Holder(gs, peaks[i].index)
              else if Holds(g, peaks[i].index) then |gs| else -1
    {
      HolderAfterAppend(gs, g, peaks[i].index);
    }
    var members := Members(bins, peaks, gs + [g], n + 1, |gs|);
    forall i | i in members ensures i == n {
      HolderBelow(gs, peaks[i].index);
    }
  }

  lemma HolderBelow(gs: seq<Group>, bin: int)
    ensures Holder(gs, bin) < |gs|
  {}

  lemma FoundGroup(s: Survey, peaks: seq<Peak>, n: nat, gs: seq<Group>, founders: seq<nat>, limit: nat, g: Group)
    requires Grouped(s, peaks, n, gs, founders, limit) && n < |peaks| && |gs| < limit
    requires peaks[n].index < |s.power| && Holder(gs, peaks[n].index) < 0
    requires FoundedBy(s, peaks, g, n)
    requires g.peak == peaks[n].power && g.floor == peaks[n].floor && g.strongest == n && g.peaks == 1
    ensures Grouped(s, peaks, n + 1, gs + [g], founders + [n], limit)
  {
    hide Settled, Holder, FoundedBy, Holds;
    var gs', founders' := gs + [g], founders + [n];
    forall k | 0 <= k < |gs'| ensures Settled(s, peaks, n + 1, gs', k, founders'[k]) {
      if k < |gs| {
        FoundAfter(s, peaks, n, gs, g, k, founders[k]);
      } else {
        FoundNew(s, peaks, n, gs, g);
      }
    }
    assert Holder(gs', peaks[n].index) >= 0 by { FoundNew(s, peaks, n, gs, g); SettledHolder(s, peaks, n + 1, gs', |gs|, n); }
    forall i | 0 <= i < n && peaks[i].index < |s.power| ensures Holder(gs', peaks[i].index) >= 0 {
      HolderAfterAppend(gs, g, peaks[i].index);
    }
  }

  lemma SettledHolder(s: Survey, peaks: seq<Peak>, n: nat, gs: seq<Group>, k: nat, founder: nat)
    requires n <= |peaks| && k < |gs| && Settled(s, peaks, n, gs, k, founder)
    ensures founder < n && Holder(gs, peaks[founder].index) == k
  {}

  lemma OneMember(peaks: seq<Peak>, n: nat, g: Group)
    requires n < |peaks|
    requires g.peak == peaks[n].power && g.floor == peaks[n].floor && g.strongest == n && g.peaks == 1
    ensures Reports(peaks, {n}, g)
  {
    assert n in {n} && peaks[n].floor == g.floor;
  }

  lemma NothingGrouped(s: Survey, peaks: seq<Peak>, limit: nat)
    ensures Grouped(s, peaks, 0, [], [], limit)
  {}

  method FirstHolder(gs: seq<Group>, bin: int) returns (joined: int)
    ensures joined == Holder(gs, bin)
  {
    joined := -1;
    var k := 0;
    while k < |gs|
      invariant 0 <= k <= |gs|
      invariant forall j :: 0 <= j < k ==> !Holds(gs[j], bin)
    {
      if bin >= gs[k].low && bin <= gs[k].high {
        HolderIs(gs, bin, k);
        return k;
      }
      k := k + 1;
    }
    HolderIs(gs, bin, -1);
  }

  /** Lines 290-327: every peak in turn joins the first carrier that holds it, or starts one. */
  method Gather(power: array<real>, sentinel: real, edgeDb: real, notch: nat, peaks: seq<Peak>, limit: nat)
    returns (gs: seq<Group>, ghost founders: seq<nat>)
    ensures Grouped(Survey(power[..], sentinel, edgeDb, notch), peaks, |peaks|, gs, founders, limit)
  {
    hide Grouped;
    ghost var s := Survey(power[..], sentinel, edgeDb, notch);
    gs, founders := [], [];
    NothingGrouped(s, peaks, limit);
    var i: nat := 0;
    while i < |peaks|
      invariant i <= |peaks| && power[..] == s.power
      invariant Grouped(s, peaks, i, gs, founders, limit) && |gs| <= limit
    {
      var p := peaks[i];
      if p.index >= power.Length {
        SkipPeak(s, peaks, i, gs, founders, limit);
      } else {
        var joined := FirstHolder(gs, p.index);
        if joined >= 0 {
          JoinPeak(s, peaks, i, gs, founders, limit);
          gs := gs[joined := Joined(gs[joined], peaks, i)];
        } else if |gs| >= limit {
          SkipPeak(s, peaks, i, gs, founders, limit);
        } else {
          var low := WalkToEdge(power, sentinel, p.index, p.power, edgeDb, notch, -1);
          var high := WalkToEdge(power, sentinel, p.index, p.power, edgeDb, notch, 1);
          var g := Group(low, high, p.power, p.floor, i, 1);
          FoundGroup(s, peaks, i, gs, founders, limit, g);
          gs, founders := gs + [g], founders + [i];
        }
      }
      i := i + 1;
    }
  }

  // -------------------------------------------------------------- conservation

  function TotalPeaks(gs: seq<Group>): nat {
    if gs == [] then 0 else TotalPeaks(gs[..|gs| - 1]) + gs[|gs| - 1].peaks
  }

  ghost function InArray(bins: int, peaks: seq<Peak>): set<nat> {
    set i: nat | i < |peaks| && peaks[i].index < bins
  }

  /** The peaks in the array whose holder is one of the first m groups. */
  ghost function HeldBy(bins: int, peaks: seq<Peak>, gs: seq<Group>, m: nat): set<nat> {
    set i: nat | i < |peaks| && peaks[i].index < bins && 0 <= Holder(gs, peaks[i].index) < m
  }

  lemma {:induction false} CountsAddUp(s: Survey, peaks: seq<Peak>, gs: seq<Group>, founders: seq<nat>, limit: nat, m: nat)
    requires Grouped(s, peaks, |peaks|, gs, founders, limit) && m <= |gs|
    ensures |HeldBy(|s.power|, peaks, gs, m)| == TotalPeaks(gs[..m])
  {
    hide Grouped, HeldBy, Members, Holder;
    if m == 0 {
      NobodyHeld(|s.power|, peaks, gs);
    } else {
      CountsAddUp(s, peaks, gs, founders, limit, m - 1);
      OneMoreGroup(|s.power|, peaks, gs, m - 1);
      CountOf(s, peaks, gs, founders, limit, m - 1);
      assert gs[..m][..m - 1] == gs[..m - 1];
    }
  }

  lemma NobodyHeld(bins: int, peaks: seq<Peak>, gs: seq<Group>)
    ensures HeldBy(bins, peaks, gs, 0) == {}
  {}

  lemma CountOf(s: Survey, peaks: seq<Peak>, gs: seq<Group>, founders: seq<nat>, limit: nat, k: nat)
    requires Grouped(s, peaks, |peaks|, gs, founders, limit) && k < |gs|
    ensures gs[k].peaks == |Members(|s.power|, peaks, gs, |peaks|, k)|
  {
    hide Holder, FoundedBy, Members;
    assert Settled(s, peaks, |peaks|, gs, k, founders[k]);
  }

  lemma OneMoreGroup(bins: int, peaks: seq<Peak>, gs: seq<Group>, m: nat)
    ensures |HeldBy(bins, peaks, gs, m + 1)| == |HeldBy(bins, peaks, gs, m)| + |Members(bins, peaks, gs, |peaks|, m)|
  {
    hide Holder;
    var before, members := HeldBy(bins, peaks, gs, m), Members(bins, peaks, gs, |peaks|, m);
    assert HeldBy(bins, peaks, gs, m + 1) == before + members && before !! members;
  }

  /** Every peak in the array is counted in exactly one carrier, unless the limit turned some away. */
  lemma PeaksConserved(s: Survey, peaks: seq<Peak>, gs: seq<Group>, founders: seq<nat>, limit: nat)
    requires Grouped(s, peaks, |peaks|, gs, founders, limit)
    ensures TotalPeaks(gs) <= |InArray(|s.power|, peaks)|
    ensures |gs| < limit ==> TotalPeaks(gs) == |InArray(|s.power|, peaks)|
  {
    CountsAddUp(s, peaks, gs, founders, limit, |gs|);
    assert gs[..|gs|] == gs;
    hide Settled;
    var held, all := HeldBy(|s.power|, peaks, gs, |gs|), InArray(|s.power|, peaks);
    assert held <= all;
    SubsetSize(held, all);
    if |gs| < limit {
      forall i | i in all ensures i in held { assert Holder(gs, peaks[i].index) >= 0; }
      assert held == all;
    }
  }

  lemma SubsetSize(a: set<nat>, b: set<nat>)
    requires a <= b
    ensures |a| <= |b|
  {
    assert b == a + (b - a);
  }

  // -------------------------------------------------------- where the power sits

  /** What bin k weighs: only measured bins over the floor, by `linear` of how far over. */
  function BinWeight(power: seq<real>, sentinel: real, floor: real, linear: real -> real, k: int): (w: real)
    ensures w >= 0.0
  {
    if !Measured(power, sentinel, k) || power[k] - floor <= 0.0 || linear(power[k] - floor) <= 0.0 then 0.0
    else linear(power[k] - floor)
  }

  function BinHz(firstHz: real, binHz: real, k: int): real { firstHz + k as real * binHz }

  function Weight(power: seq<real>, sentinel: real, floor: real, linear: real -> real, low: int, n: nat): real {
    if n == 0 then 0.0
    else Weight(power, sentinel, floor, linear, low, n - 1) + BinWeight(power, sentinel, floor, linear, low + n - 1)
  }

  function Moment(power: seq<real>, sentinel: real, floor: real, linear: real -> real, firstHz: real, binHz: real,
                  low: int, n: nat): real {
    if n == 0 then 0.0
    else Moment(power, sentinel, floor, linear, firstHz, binHz, low, n - 1)
         + BinWeight(power, sentinel, floor, linear, low + n - 1) * BinHz(firstHz, binHz, low + n - 1)
  }

  lemma HzOrdered(firstHz: real, binHz: real, j: int, k: int)
    requires binHz >= 0.0 && j <= k
    ensures BinHz(firstHz, binHz, j) <= BinHz(firstHz, binHz, k)
  {
    assert (k - j) as real * binHz >= 0.0;
    assert k as real * binHz == j as real * binHz + (k - j) as real * binHz;
  }

  lemma OneMoreTerm(weight: real, moment: real, w: real, f: real, a: real, b: real)
    requires w >= 0.0 && a <= f <= b
    requires weight * a <= moment <= weight * b
    ensures (weight + w) * a <= moment + w * f <= (weight + w) * b
  {
    assert w * (f - a) >= 0.0 && w * (b - f) >= 0.0;
  }

  /** A weighted mean of frequencies lies between the lowest and the highest. */
  lemma {:induction false} MomentBetween(power: seq<real>, sentinel: real, floor: real, linear: real -> real,
                                         firstHz: real, binHz: real, low: int, n: nat, high: int)
    requires binHz >= 0.0 && low + n - 1 <= high
    ensures
      var weight := Weight(power, sentinel, floor, linear, low, n);
      var moment := Moment(power, sentinel, floor, linear, firstHz, binHz, low, n);
      && weight >= 0.0
      && weight * BinHz(firstHz, binHz, low) <= moment <= weight * BinHz(firstHz, binHz, high)
  {
    hide BinWeight, BinHz;
    if n > 0 {
      MomentBetween(power, sentinel, floor, linear, firstHz, binHz, low, n - 1, high);
      var k := low + n - 1;
      HzOrdered(firstHz, binHz, low, k);
      HzOrdered(firstHz, binHz, k, high);
      OneMoreTerm(Weight(power, sentinel, floor, linear, low, n - 1),
                  Moment(power, sentinel, floor, linear, firstHz, binHz, low, n - 1),
                  BinWeight(power, sentinel, floor, linear, k), BinHz(firstHz, binHz, k),
                  BinHz(firstHz, binHz, low), BinHz(firstHz, binHz, high));
    }
  }

  function PowerCentre(power: seq<real>, sentinel: real, floor: real, linear: real -> real,
                       firstHz: real, binHz: real, low: int, high: int): real
    requires low <= high
  {
    var weight := Weight(power, sentinel, floor, linear, low, high - low + 1);
    if weight > 0.0 then Moment(power, sentinel, floor, linear, firstHz, binHz, low, high - low + 1) / weight
    else (BinHz(firstHz, binHz, low) + BinHz(firstHz, binHz, high)) / 2.0
  }

  /** The power centre always lies within the carrier's own extent. */
  lemma PowerCentreInside(power: seq<real>, sentinel: real, floor: real, linear: real -> real,
                          firstHz: real, binHz: real, low: int, high: int)
    requires low <= high && binHz >= 0.0
    ensures BinHz(firstHz, binHz, low) <= PowerCentre(power, sentinel, floor, linear, firstHz, binHz, low, high)
            <= BinHz(firstHz, binHz, high)
  {
    hide BinHz, BinWeight, Weight, Moment;
    var n := high - low + 1;
    var weight := Weight(power, sentinel, floor, linear, low, n);
    HzOrdered(firstHz, binHz, low, high);
    MomentBetween(power, sentinel, floor, linear, firstHz, binHz, low, n, high);
    if weight > 0.0 {
      QuotientBetween(Moment(power, sentinel, floor, linear, firstHz, binHz, low, n), weight,
                      BinHz(firstHz, binHz, low), BinHz(firstHz, binHz, high));
    }
  }

  lemma QuotientBetween(m: real, w: real, a: real, b: real)
    requires w > 0.0 && w * a <= m <= w * b
    ensures a <= m / w <= b
  {}

  /** Lines 346-360. `linear` stands for the excess over a floor in linear units, 10^(x/10) - 1. */
  method FindPowerCentre(power: array<real>, sentinel: real, floor: real, linear: real -> real,
                         firstHz: real, binHz: real, low: int, high: int) returns (centre: real)
    requires low <= high
    ensures centre == PowerCentre(power[..], sentinel, floor, linear, firstHz, binHz, low, high)
  {
    hide BinHz;
    var weight, moment := 0.0, 0.0;
    var k := low;
    while k <= high
      invariant low <= k <= high + 1
      invariant weight == Weight(power[..], sentinel, floor, linear, low, k - low)
      invariant moment == Moment(power[..], sentinel, floor, linear, firstHz, binHz, low, k - low)
    {
      if 0 <= k < power.Length && power[k] > sentinel {
        var above := power[k] - floor;
        if above > 0.0 && linear(above) > 0.0 {
          weight := weight + linear(above);
          moment := moment + linear(above) * BinHz(firstHz, binHz, k);
        }
      }
      k := k + 1;
    }
    centre := if weight > 0.0 then moment / weight else (BinHz(firstHz, binHz, low) + BinHz(firstHz, binHz, high)) / 2.0;
  }

  // ---------------------------------------------------------- the whole survey

  datatype Carrier = Carrier(centreHz: real, powerCentreHz: real, lowerHz: real, upperHz: real, widthHz: real,
                             peak: real, floor: real, prominence: real, peaks: nat, strongest: nat)

  /** Lines 334-361: a group in hertz. */
  function CarrierOf(power: seq<real>, sentinel: real, linear: real -> real, firstHz: real, binHz: real, g: Group): Carrier
    requires g.low <= g.high
  {
    var lower, upper := BinHz(firstHz, binHz, g.low), BinHz(firstHz, binHz, g.high);
    Carrier((lower + upper) / 2.0, PowerCentre(power, sentinel, g.floor, linear, firstHz, binHz, g.low, g.high),
            lower, upper, (g.high - g.low + 1) as real * binHz, g.peak, g.floor, g.peak - g.floor, g.peaks, g.strongest)
  }

  /** Lines 187-190. */
  function NotchBins(binHz: real): nat {
    var bins := if binHz > 0.0 then (10000.0 / binHz).Floor else 1;
    if bins < 1 then 1 else bins
  }

  lemma ExtentsInOrder(s: Survey, peaks: seq<Peak>, n: nat, gs: seq<Group>, founders: seq<nat>, limit: nat)
    requires Grouped(s, peaks, n, gs, founders, limit)
    ensures forall k :: 0 <= k < |gs| ==> 0 <= gs[k].low <= gs[k].high < |s.power|
  {
    hide Edge, Reports, Holder;
    forall k | 0 <= k < |gs| ensures 0 <= gs[k].low <= gs[k].high < |s.power| {
      assert Settled(s, peaks, n, gs, k, founders[k]);
      var p := peaks[founders[k]];
      EdgeInside(s.power, s.sentinel, p.index, p.power, s.edgeDb, s.notch, -1);
      EdgeInside(s.power, s.sentinel, p.index, p.power, s.edgeDb, s.notch, 1);
    }
  }

  /** Lines 275-363. */
  method SurveyCarriers(power: array<real>, sentinel: real, linear: real -> real, firstHz: real, binHz: real, edgeDb: real,
                        peaks: seq<Peak>, out: array<Carrier>, max: int)
    returns (count: nat, ghost gs: seq<Group>, ghost founders: seq<nat>)
    requires out.Length >= max
    modifies out
    ensures power.Length == 0 || max <= 0 ==> count == 0 && out[..] == old(out[..])
    ensures power.Length > 0 && max > 0 ==>
      && Grouped(Survey(power[..], sentinel, edgeDb, NotchBins(binHz)), peaks, |peaks|, gs, founders,
                 if max > CARRIER_MAX then CARRIER_MAX else max)
      && count == |gs| <= out.Length
      && forall k | 0 <= k < count ::
           gs[k].low <= gs[k].high && out[k] == CarrierOf(power[..], sentinel, linear, firstHz, binHz, gs[k])
  {
    count, gs, founders := 0, [], [];
    if power.Length == 0 || max <= 0 {
      return;
    }
    hide Grouped, PowerCentre, BinHz;
    var notch := NotchBins(binHz);
    var limit := if max > CARRIER_MAX then CARRIER_MAX else max;
    var groups: seq<Group>;
    groups, founders := Gather(power, sentinel, edgeDb, notch, peaks, limit);
    gs := groups;
    ghost var s := Survey(power[..], sentinel, edgeDb, notch);
    ExtentsInOrder(s, peaks, |peaks|, groups, founders, limit);
    NoMoreThan(s, peaks, |peaks|, groups, founders, limit);
    var i: nat := 0;
    while i < |groups|
      invariant i <= |groups|
      invariant forall k | 0 <= k < i :: out[k] == CarrierOf(power[..], sentinel, linear, firstHz, binHz, groups[k])
    {
      var g := groups[i];
      var lower, upper := BinHz(firstHz, binHz, g.low), BinHz(firstHz, binHz, g.high);
      var centre := FindPowerCentre(power, sentinel, g.floor, linear, firstHz, binHz, g.low, g.high);
      out[i] := Carrier((lower + upper) / 2.0, centre, lower, upper, (g.high - g.low + 1) as real * binHz,
                        g.peak, g.floor, g.peak - g.floor, g.peaks, g.strongest);
      i := i + 1;
    }
    count := |groups|;
  }

  /**
    The finder leaves peaks strongest first, so a carrier is named by the peak it
    was founded on, which is its tallest, and a shoulder never names one.
   */
  lemma NamedByItsTallest(s: Survey, peaks: seq<Peak>, n: nat, gs: seq<Group>, founders: seq<nat>, limit: nat, k: nat)
    requires Grouped(s, peaks, n, gs, founders, limit) && Descending(peaks) && k < |gs|
    ensures founders[k] < |peaks| && gs[k].strongest == founders[k] && gs[k].peak == peaks[founders[k]].power
    ensures forall i <- Members(|s.power|, peaks, gs, n, k) :: founders[k] <= i && peaks[i].power <= gs[k].peak
  {
    hide Holder, Edge;
    assert Settled(s, peaks, n, gs, k, founders[k]);
    assert founders[k] in Members(|s.power|, peaks, gs, n, k);
  }

  lemma NoMoreThan(s: Survey, peaks: seq<Peak>, n: nat, gs: seq<Group>, founders: seq<nat>, limit: nat)
    requires Grouped(s, peaks, n, gs, founders, limit)
    ensures |gs| <= limit
  {}

  /** Lines 159-173: the narrowest carrier whose extent holds the frequency, the first of equals. */
  method CarrierHolding(carriers: seq<Carrier>, hz: real) returns (best: int)
    ensures -1 <= best < |carriers|
    ensures best == -1 <==> forall i | 0 <= i < |carriers| :: !(carriers[i].lowerHz <= hz <= carriers[i].upperHz)
    ensures best >= 0 ==> carriers[best].lowerHz <= hz <= carriers[best].upperHz
    ensures best >= 0 ==> forall i | 0 <= i < |carriers| && carriers[i].lowerHz <= hz <= carriers[i].upperHz ::
      if i < best then carriers[best].widthHz < carriers[i].widthHz else carriers[best].widthHz <= carriers[i].widthHz
  {
    best := -1;
    var i := 0;
    while i < |carriers|
      invariant 0 <= i <= |carriers| && -1 <= best < i
      invariant best == -1 <==> forall j | 0 <= j < i :: !(carriers[j].lowerHz <= hz <= carriers[j].upperHz)
      invariant best >= 0 ==> carriers[best].lowerHz <= hz <= carriers[best].upperHz
      invariant best >= 0 ==> forall j | 0 <= j < i && carriers[j].lowerHz <= hz <= carriers[j].upperHz ::
        if j < best then carriers[best].widthHz < carriers[j].widthHz else carriers[best].widthHz <= carriers[j].widthHz
    {
      if !(hz < carriers[i].lowerHz || hz > carriers[i].upperHz) {
        if best < 0 || carriers[i].widthHz < carriers[best].widthHz {
          best := i;
        }
      }
      i := i + 1;
    }
  }
}
