/**
  Burst segmentation, src/core/signal_probe.c:563-581, 622-638 and 717-774: a
  smoothed envelope, then one pass in which a hysteresis machine finds runs, a
  second machine merges runs closer than a gap, and each merged run is tallied
  as whole or as cut by an end of the buffer.
 */
module Bursts {
  import opened Basics

  const KEPT: nat := 4096

  datatype Run = Run(start: nat, end: nat)

  // ------------------------------------------------- the two-pass definition

  /** The first sample from n on that reaches the entry threshold. */
  function FirstReaching(env: seq<real>, n: nat, enter: real): (m: nat)
    requires n <= |env|
    ensures n <= m <= |env|
    ensures forall k :: n <= k < m ==> env[k] < enter
    ensures m < |env| ==> env[m] >= enter
    decreases |env| - n
  {
    if n == |env| || env[n] >= enter then n else FirstReaching(env, n + 1, enter)
  }

  /** The first sample from n on that falls below the exit threshold. */
  function FirstBelow(env: seq<real>, n: nat, leave: real): (m: nat)
    requires n <= |env|
    ensures n <= m <= |env|
    ensures forall k :: n <= k < m ==> env[k] >= leave
    ensures m < |env| ==> env[m] < leave
    decreases |env| - n
  {
    if n == |env| || env[n] < leave then n else FirstBelow(env, n + 1, leave)
  }

  function SampleAfter(env: seq<real>, b: nat): (n: nat)
    requires b <= |env|
    ensures b <= n <= |env|
  {
    if b < |env| then b + 1 else b
  }

  /** First pass: every hysteresis run from sample n on. */
  function RawRuns(env: seq<real>, n: nat, enter: real, leave: real): seq<Run>
    requires n <= |env|
    decreases |env| - n
  {
    var a := FirstReaching(env, n, enter);
    if a == |env| then []
    else
      var b := FirstBelow(env, a + 1, leave);
      [Run(a, b)] + RawRuns(env, SampleAfter(env, b), enter, leave)
  }

  /** The run entered at `start` and still open at sample n, and the runs after it. */
  function RunFrom(env: seq<real>, start: nat, n: nat, enter: real, leave: real): seq<Run>
    requires start < n <= |env|
  {
    var b := FirstBelow(env, n, leave);
    [Run(start, b)] + RawRuns(env, SampleAfter(env, b), enter, leave)
  }

  /** Second pass: neighbours closer than the gap become one run. */
  function Merge(runs: seq<Run>, minGap: nat): (r: seq<Run>)
    ensures runs != [] ==> r != [] && r[0].start == runs[0].start
    decreases |runs|
  {
    if |runs| < 2 then runs
    else if runs[1].start - runs[0].end < minGap then
      Merge([Run(runs[0].start, runs[1].end)] + runs[2..], minGap)
    else [runs[0]] + Merge(runs[1..], minGap)
  }

  // ------------------------------------------------------------- the tally

  /** A run touching either end was cut by the buffer and not by the transmitter. */
  predicate AtEdge(run: Run, count: nat) {
    run.start == 0 || run.end == count
  }

  datatype Tally = Tally(whole: nat, truncated: nat, busy: int, previousEnd: Option<nat>,
                         lengths: seq<int>, gaps: seq<int>)

  const EMPTY := Tally(0, 0, 0, None, [], [])

  function Keep(kept: seq<int>, x: int): (r: seq<int>) {
    if |kept| < KEPT then kept + [x] else kept
  }

  function Counted(t: Tally, run: Run, atEdge: bool): Tally {
    var busy := t.busy + run.end - run.start;
    if atEdge then t.(busy := busy, truncated := t.truncated + 1, previousEnd := Some(run.end))
    else Tally(t.whole + 1, t.truncated, busy, Some(run.end), Keep(t.lengths, run.end - run.start),
               if t.previousEnd.Some? then Keep(t.gaps, run.start - t.previousEnd.value) else t.gaps)
  }

  /** All runs tallied in order. */
  function TallyAll(t: Tally, runs: seq<Run>, count: nat): Tally
    decreases |runs|
  {
    if runs == [] then t else TallyAll(Counted(t, runs[0], AtEdge(runs[0], count)), runs[1..], count)
  }

  // ------------------------------------------------- the merging machine

  /** What the one-pass machine will have tallied, from the run it holds open and the runs still to come. */
  ghost function Finish(open: Option<Run>, runs: seq<Run>, minGap: nat, t: Tally, count: nat): Tally
    decreases |runs|
  {
    if runs == [] then
      if open.Some? then Counted(t, open.value, AtEdge(open.value, count)) else t
    else if open.Some? && runs[0].start - open.value.end < minGap then
      Finish(Some(Run(open.value.start, runs[0].end)), runs[1..], minGap, t, count)
    else
      Finish(Some(runs[0]), runs[1..], minGap,
             if open.Some? then Counted(t, open.value, AtEdge(open.value, count)) else t, count)
  }

  /** Merging as the runs arrive is merging them all and then tallying. */
  lemma {:induction false} FinishIsMergeThenTally(runs: seq<Run>, minGap: nat, t: Tally, count: nat)
    requires runs != []
    ensures Finish(Some(runs[0]), runs[1..], minGap, t, count) == TallyAll(t, Merge(runs, minGap), count)
    decreases |runs|
  {
    if |runs| == 1 {
      assert Merge(runs, minGap) == runs;
      assert TallyAll(t, runs, count) == Counted(t, runs[0], AtEdge(runs[0], count));
    } else if runs[1].start - runs[0].end < minGap {
      var joined := [Run(runs[0].start, runs[1].end)] + runs[2..];
      FinishIsMergeThenTally(joined, minGap, t, count);
      assert joined[1..] == runs[1..][1..];
    } else {
      var t' := Counted(t, runs[0], AtEdge(runs[0], count));
      FinishIsMergeThenTally(runs[1..], minGap, t', count);
      var merged := Merge(runs[1..], minGap);
      assert ([runs[0]] + merged)[1..] == merged;
    }
  }

  lemma OnePassIsTwoPass(runs: seq<Run>, minGap: nat, count: nat)
    ensures Finish(None, runs, minGap, EMPTY, count) == TallyAll(EMPTY, Merge(runs, minGap), count)
  {
    if runs != [] { FinishIsMergeThenTally(runs, minGap, EMPTY, count); }
  }

  // ------------------------------------------------------------ the pass

  /** `struct signal_bursts` together with the counters burst_emit is handed. */
  class BurstTally {
    var whole: nat
    var truncated: nat
    var busy: int
    var previousEnd: nat
    var havePrevious: bool
    var lengths: seq<int>
    var gaps: seq<int>

    constructor ()
      ensures Value() == EMPTY
    {
      whole, truncated, busy, previousEnd, havePrevious := 0, 0, 0, 0, false;
      lengths, gaps := [], [];
    }

    ghost function Value(): Tally
      reads this
    {
      Tally(whole, truncated, busy, if havePrevious then Some(previousEnd) else None, lengths, gaps)
    }

    /** Lines 622-638. */
    method Emit(start: nat, end: nat, atEdge: bool)
      modifies this
      ensures Value() == Counted(old(Value()), Run(start, end), atEdge)
    {
      busy := busy + end - start;
      if atEdge {
        truncated := truncated + 1;
      } else {
        whole := whole + 1;
        if |lengths| < KEPT {
          lengths := lengths + [end - start];
        }
        if havePrevious && |gaps| < KEPT {
          gaps := gaps + [start - previousEnd];
        }
      }
      previousEnd := end;
      havePrevious := true;
    }
  }

  /** What is still to come at sample n: the run being traversed, if any, and those after it. */
  ghost function Remaining(env: seq<real>, n: nat, inside: bool, runStart: nat, enter: real, leave: real): seq<Run>
    requires n <= |env| && (inside ==> runStart < n)
  {
    if inside then RunFrom(env, runStart, n, enter, leave) else RawRuns(env, n, enter, leave)
  }

  /** Lines 727-774. The single pass leaves exactly the tally of the two-pass definition. */
  method Segment(env: array<real>, enter: real, leave: real, minGap: nat) returns (out: BurstTally)
    ensures fresh(out)
    ensures out.Value() == TallyAll(EMPTY, Merge(RawRuns(env[..], 0, enter, leave), minGap), env.Length)
  {
    hide RawRuns, RunFrom, Finish, Merge, TallyAll, Counted;
    out := new BurstTally();
    ghost var e := env[..];
    var count := env.Length;
    var openStart: nat, openEnd: nat, runStart: nat := 0, 0, 0;
    var inside, open := false, false;
    var n: nat := 0;
    while n < count
      invariant n <= count && (inside ==> runStart < n)
      invariant open ==> openStart < openEnd < count && openEnd <= n
      invariant Finish(if open then Some(Run(openStart, openEnd)) else None,
                       Remaining(e, n, inside, runStart, enter, leave), minGap, out.Value(), count)
             == Finish(None, RawRuns(e, 0, enter, leave), minGap, EMPTY, count)
    {
      var p := env[n];
      assert e[n] == p;
      SampleOutside(e, n, enter, leave);
      if inside { SampleInside(e, runStart, n, enter, leave); }
      if !inside {
        if p >= enter {
          inside := true;
          runStart := n;
        }
      } else if p < leave {
        inside := false;
        NextRun(if open then Some(Run(openStart, openEnd)) else None, Run(runStart, n),
                RawRuns(e, n + 1, enter, leave), minGap, out.Value(), count);
        if open && runStart - openEnd < minGap {
          openEnd := n;
        } else {
          if open {
            out.Emit(openStart, openEnd, openStart == 0);
          }
          openStart := runStart;
          openEnd := n;
          open := true;
        }
      }
      n := n + 1;
    }
    BufferEnds(e, runStart, enter, leave);
    if inside {
      NextRun(if open then Some(Run(openStart, openEnd)) else None, Run(runStart, count), [], minGap, out.Value(), count);
      if open && runStart - openEnd < minGap {
        openEnd := count;
      } else {
        if open {
          out.Emit(openStart, openEnd, openStart == 0);
        }
        openStart := runStart;
        openEnd := count;
        open := true;
      }
    }
    NoMoreRuns(if open then Some(Run(openStart, openEnd)) else None, minGap, out.Value(), count);
    if open {
      out.Emit(openStart, openEnd, openStart == 0 || openEnd == count);
    }
    OnePassIsTwoPass(RawRuns(e, 0, enter, leave), minGap, count);
  }

  /** What one sample does to the runs still to come: outside a run, and inside one. */
  lemma SampleOutside(e: seq<real>, n: nat, enter: real, leave: real)
    requires n < |e|
    ensures RawRuns(e, n, enter, leave) ==
      if e[n] >= enter then RunFrom(e, n, n + 1, enter, leave) else RawRuns(e, n + 1, enter, leave)
  {
    hide FirstReaching, FirstBelow, RunFrom, RawRuns;
    SearchReaching(e, n, enter);
    if e[n] < enter {
      SameStart(e, n, n + 1, enter, leave);
    } else {
      RunStartsAt(e, n, enter, leave);
    }
  }

  lemma RunStartsAt(e: seq<real>, n: nat, enter: real, leave: real)
    requires n < |e| && FirstReaching(e, n, enter) == n
    ensures RawRuns(e, n, enter, leave) == RunFrom(e, n, n + 1, enter, leave)
  {
    hide FirstReaching, FirstBelow;
  }

  lemma SameStart(e: seq<real>, n: nat, m: nat, enter: real, leave: real)
    requires n <= |e| && m <= |e| && FirstReaching(e, n, enter) == FirstReaching(e, m, enter)
    ensures RawRuns(e, n, enter, leave) == RawRuns(e, m, enter, leave)
  {
    hide FirstReaching, FirstBelow;
  }

  lemma SampleInside(e: seq<real>, start: nat, n: nat, enter: real, leave: real)
    requires start < n < |e|
    ensures RunFrom(e, start, n, enter, leave) ==
      if e[n] >= leave then RunFrom(e, start, n + 1, enter, leave)
      else [Run(start, n)] + RawRuns(e, n + 1, enter, leave)
  {
    SearchBelow(e, n, leave);
    hide FirstBelow, RawRuns;
  }

  lemma SearchReaching(e: seq<real>, n: nat, enter: real)
    requires n < |e|
    ensures FirstReaching(e, n, enter) == if e[n] >= enter then n else FirstReaching(e, n + 1, enter)
  {}

  lemma SearchBelow(e: seq<real>, n: nat, leave: real)
    requires n < |e|
    ensures FirstBelow(e, n, leave) == if e[n] < leave then n else FirstBelow(e, n + 1, leave)
  {}

  lemma BufferEnds(e: seq<real>, start: nat, enter: real, leave: real)
    ensures RawRuns(e, |e|, enter, leave) == []
    ensures start < |e| ==> RunFrom(e, start, |e|, enter, leave) == [Run(start, |e|)] + []
  {}

  lemma NextRun(open: Option<Run>, run: Run, runs: seq<Run>, minGap: nat, t: Tally, count: nat)
    ensures Finish(open, [run] + runs, minGap, t, count) ==
      if open.Some? && run.start - open.value.end < minGap then
        Finish(Some(Run(open.value.start, run.end)), runs, minGap, t, count)
      else
        Finish(Some(run), runs, minGap,
               if open.Some? then Counted(t, open.value, AtEdge(open.value, count)) else t, count)
  {
    assert ([run] + runs)[1..] == runs;
  }

  lemma NoMoreRuns(open: Option<Run>, minGap: nat, t: Tally, count: nat)
    ensures Finish(open, [], minGap, t, count)
         == if open.Some? then Counted(t, open.value, AtEdge(open.value, count)) else t
  {}

  // ------------------------------------------- what the two passes find

  /** In time order, each run non-empty and inside [from, count], with at least one sample between neighbours. */
  ghost predicate Ordered(runs: seq<Run>, from: nat, count: nat) {
    && (forall i | 0 <= i < |runs| :: from <= runs[i].start < runs[i].end <= count)
    && (forall i, j | 0 <= i < j < |runs| :: runs[i].end < runs[j].start)
  }

  ghost predicate Covered(runs: seq<Run>, p: nat) {
    exists i :: 0 <= i < |runs| && runs[i].start <= p < runs[i].end
  }

  /** Sample p is busy: the threshold was entered at or before it and not left since. */
  ghost predicate Busy(env: seq<real>, from: nat, p: nat, enter: real, leave: real)
    requires p < |env|
  {
    exists m :: from <= m <= p && env[m] >= enter && forall k :: m < k <= p ==> env[k] >= leave
  }

  lemma CoveredCons(run: Run, runs: seq<Run>, p: nat)
    ensures Covered([run] + runs, p) <==> run.start <= p < run.end || Covered(runs, p)
  {
    var all := [run] + runs;
    if Covered(runs, p) {
      var i :| 0 <= i < |runs| && runs[i].start <= p < runs[i].end;
      assert all[i + 1] == runs[i];
    }
    if run.start <= p < run.end { assert all[0] == run; }
    if Covered(all, p) {
      var i :| 0 <= i < |all| && all[i].start <= p < all[i].end;
      if i > 0 { assert runs[i - 1] == all[i]; }
    }
  }

  lemma OrderedCons(run: Run, runs: seq<Run>, from: nat, count: nat)
    requires Ordered(runs, run.end + 1, count) && from <= run.start < run.end <= count
    ensures Ordered([run] + runs, from, count)
  {}

  /** The first raw run, and the rest of the buffer after it. */
  lemma FirstRun(env: seq<real>, n: nat, enter: real, leave: real) returns (a: nat, b: nat, rest: seq<Run>)
    requires n <= |env|
    ensures n <= a <= |env| && forall k :: n <= k < a ==> env[k] < enter
    ensures a == |env| ==> RawRuns(env, n, enter, leave) == []
    ensures a < |env| ==>
      && env[a] >= enter && a < b <= |env| && (forall k :: a < k < b ==> env[k] >= leave)
      && (b < |env| ==> env[b] < leave)
      && rest == RawRuns(env, SampleAfter(env, b), enter, leave)
      && RawRuns(env, n, enter, leave) == [Run(a, b)] + rest
  {
    hide FirstBelow, FirstReaching;
    a, b, rest := FirstReaching(env, n, enter), 0, [];
    if a < |env| {
      b := FirstBelow(env, a + 1, leave);
      rest := RawRuns(env, SampleAfter(env, b), enter, leave);
    }
  }

  lemma {:induction false} RawRunsOrdered(env: seq<real>, n: nat, enter: real, leave: real)
    requires n <= |env|
    ensures Ordered(RawRuns(env, n, enter, leave), n, |env|)
    decreases |env| - n
  {
    hide RawRuns;
    var a, b, rest := FirstRun(env, n, enter, leave);
    if a < |env| {
      BufferEnds(env, 0, enter, leave);
      if b < |env| { RawRunsOrdered(env, b + 1, enter, leave); }
      OrderedCons(Run(a, b), rest, n, |env|);
    }
  }

  lemma OrderedStart(runs: seq<Run>, from: nat, count: nat, p: nat)
    requires Ordered(runs, from, count) && p < from
    ensures !Covered(runs, p)
  {}

  lemma BusyAfterFall(env: seq<real>, n: nat, b: nat, p: nat, enter: real, leave: real)
    requires n <= b <= p < |env| && env[b] < leave <= enter
    ensures Busy(env, n, p, enter, leave) <==> p > b && Busy(env, b + 1, p, enter, leave)
  {
    if Busy(env, n, p, enter, leave) {
      var m :| n <= m <= p && env[m] >= enter && forall k :: m < k <= p ==> env[k] >= leave;
      assert m > b;
    }
  }

  /** The raw runs are exactly the busy samples. */
  lemma {:induction false} RawRunsAreBusySamples(env: seq<real>, n: nat, enter: real, leave: real, p: nat)
    requires n <= p < |env| && leave <= enter
    ensures Covered(RawRuns(env, n, enter, leave), p) <==> Busy(env, n, p, enter, leave)
    decreases |env| - n
  {
    hide RawRuns, Covered;
    var a, b, rest := FirstRun(env, n, enter, leave);
    if a == |env| {
      assert !Covered([], p) by { OrderedStart([], p + 1, p + 1, p); }
    } else {
      BufferEnds(env, 0, enter, leave);
      CoveredCons(Run(a, b), rest, p);
      if b < |env| {
        RawRunsOrdered(env, b + 1, enter, leave);
        if p <= b { OrderedStart(rest, b + 1, |env|, p); }
        if p >= b { BusyAfterFall(env, n, b, p, enter, leave); }
        if p > b { RawRunsAreBusySamples(env, b + 1, enter, leave, p); }
      } else {
        assert !Covered([], p) by { OrderedStart([], p + 1, p + 1, p); }
      }
    }
  }

  /** A silence between neighbouring runs that is shorter than the gap. */
  ghost predicate ShortSilence(runs: seq<Run>, minGap: nat, p: nat) {
    exists i :: 0 <= i < |runs| - 1 && runs[i].end <= p < runs[i + 1].start && runs[i + 1].start - runs[i].end < minGap
  }

  lemma ShortSilenceCons(run: Run, runs: seq<Run>, minGap: nat, p: nat)
    ensures ShortSilence([run] + runs, minGap, p) <==>
      || (runs != [] && run.end <= p < runs[0].start && runs[0].start - run.end < minGap)
      || ShortSilence(runs, minGap, p)
  {
    var all := [run] + runs;
    if ShortSilence(runs, minGap, p) {
      var i :| 0 <= i < |runs| - 1 && runs[i].end <= p < runs[i + 1].start && runs[i + 1].start - runs[i].end < minGap;
      assert all[i + 1] == runs[i] && all[i + 1 + 1] == runs[i + 1];
    }
    if runs != [] && run.end <= p < runs[0].start && runs[0].start - run.end < minGap {
      assert all[0] == run && all[0 + 1] == runs[0];
    }
    if ShortSilence(all, minGap, p) {
      var i :| 0 <= i < |all| - 1 && all[i].end <= p < all[i + 1].start && all[i + 1].start - all[i].end < minGap;
      if i > 0 { assert runs[i - 1] == all[i] && runs[i - 1 + 1] == all[i + 1]; }
    }
  }

  /** Merging keeps the order and leaves every remaining silence at least the gap; MergeCovers says what it fills. */
  lemma {:induction false} MergeCloses(runs: seq<Run>, minGap: nat, from: nat, count: nat)
    requires Ordered(runs, from, count)
    ensures var merged := Merge(runs, minGap);
      && Ordered(merged, from, count)
      && (forall i | 0 <= i < |merged| - 1 :: merged[i + 1].start - merged[i].end >= minGap)
    decreases |runs|
  {
    if |runs| < 2 {
    } else if runs[1].start - runs[0].end < minGap {
      MergeCloses([Run(runs[0].start, runs[1].end)] + runs[2..], minGap, from, count);
    } else {
      var rest := Merge(runs[1..], minGap);
      MergeCloses(runs[1..], minGap, runs[0].end + 1, count);
      OrderedCons(runs[0], rest, from, count);
      var merged := [runs[0]] + rest;
      assert Merge(runs, minGap) == merged;
      forall i | 0 <= i < |merged| - 1 ensures merged[i + 1].start - merged[i].end >= minGap {
        if i > 0 { assert merged[i] == rest[i - 1] && merged[i + 1] == rest[i - 1 + 1]; }
      }
    }
  }

  lemma JoinedOrder(a: Run, b: Run, rest: seq<Run>, from: nat, count: nat)
    requires Ordered([a, b] + rest, from, count)
    ensures a.start < a.end < b.start < b.end
    ensures rest != [] ==> b.end < rest[0].start
    ensures Ordered([Run(a.start, b.end)] + rest, from, count)
    ensures Ordered([b] + rest, from, count)
  {
    var all := [a, b] + rest;
    assert all[0] == a && all[1] == b;
    forall i | 0 <= i < |rest| ensures b.end < rest[i].start && from <= rest[i].start < rest[i].end <= count {
      assert all[i + 2] == rest[i];
    }
    forall i, j | 0 <= i < j < |rest| ensures rest[i].end < rest[j].start {
      assert all[i + 2] == rest[i] && all[j + 2] == rest[j];
    }
  }

  lemma NothingBetween(runs: seq<Run>, minGap: nat, p: nat)
    requires |runs| < 2
    ensures !ShortSilence(runs, minGap, p)
  {}

  /** Merged runs cover the runs and the silences too short to separate them, and nothing else. */
  lemma {:induction false} MergeCovers(runs: seq<Run>, minGap: nat, from: nat, count: nat, p: nat)
    requires Ordered(runs, from, count)
    ensures Covered(Merge(runs, minGap), p) <==> Covered(runs, p) || ShortSilence(runs, minGap, p)
    decreases |runs|
  {
    hide Covered, ShortSilence, Ordered;
    if |runs| < 2 {
      NothingBetween(runs, minGap, p);
    } else {
      var a, b, rest := runs[0], runs[1], runs[2..];
      assert runs == [a, b] + rest && runs == [a] + runs[1..] && runs[1..] == [b] + rest;
      JoinedOrder(a, b, rest, from, count);
      CoveredCons(a, runs[1..], p);
      CoveredCons(b, rest, p);
      ShortSilenceCons(a, runs[1..], minGap, p);
      ShortSilenceCons(b, rest, minGap, p);
      if b.start - a.end < minGap {
        var ab := Run(a.start, b.end);
        MergeCovers([ab] + rest, minGap, from, count, p);
        CoveredCons(ab, rest, p);
        ShortSilenceCons(ab, rest, minGap, p);
      } else {
        MergeCovers(runs[1..], minGap, from, count, p);
        CoveredCons(a, Merge(runs[1..], minGap), p);
      }
    }
  }

  // ------------------------------------------- what the tally reports

  function Whole(runs: seq<Run>, count: nat): seq<Run> {
    if runs == [] then []
    else (if AtEdge(runs[0], count) then [] else [runs[0]]) + Whole(runs[1..], count)
  }

  function Length(runs: seq<Run>): int {
    if runs == [] then 0 else runs[0].end - runs[0].start + Length(runs[1..])
  }

  /** Whole and truncated runs add up to all of them, and busy samples to their total length. */
  lemma {:induction false} TallyAddsUp(t: Tally, runs: seq<Run>, count: nat)
    ensures var r := TallyAll(t, runs, count);
      && r.whole == t.whole + |Whole(runs, count)|
      && r.whole + r.truncated == t.whole + t.truncated + |runs|
      && r.busy == t.busy + Length(runs)
    decreases |runs|
  {
    if runs != [] {
      TallyAddsUp(Counted(t, runs[0], AtEdge(runs[0], count)), runs[1..], count);
    }
  }

  function FirstOf(s: seq<int>): seq<int> { if |s| <= KEPT then s else s[..KEPT] }

  function Lengths(runs: seq<Run>): seq<int> {
    seq(|runs|, i requires 0 <= i < |runs| => runs[i].end - runs[i].start)
  }

  lemma KeepFirst(kept: seq<int>, x: int, more: seq<int>)
    requires |kept| <= KEPT
    ensures |Keep(kept, x)| <= KEPT
    ensures FirstOf(Keep(kept, x) + more) == FirstOf(kept + ([x] + more))
  {
    if |kept| < KEPT { assert kept + [x] + more == kept + ([x] + more); }
  }

  /** The kept lengths are those of the first whole runs. */
  lemma {:induction false} TallyKeepsLengths(t: Tally, runs: seq<Run>, count: nat)
    requires |t.lengths| <= KEPT
    ensures TallyAll(t, runs, count).lengths == FirstOf(t.lengths + Lengths(Whole(runs, count)))
    decreases |runs|
  {
    hide FirstOf, Keep;
    if runs == [] {
      assert t.lengths + Lengths([]) == t.lengths;
      NoMoreLengths(t.lengths);
    } else {
      var rest := Lengths(Whole(runs[1..], count));
      KeepFirst(t.lengths, runs[0].end - runs[0].start, rest);
      TallyKeepsLengths(Counted(t, runs[0], AtEdge(runs[0], count)), runs[1..], count);
      if AtEdge(runs[0], count) {
        assert [] + Whole(runs[1..], count) == Whole(runs[1..], count);
      } else {
        assert Lengths([runs[0]] + Whole(runs[1..], count)) == [runs[0].end - runs[0].start] + rest;
      }
    }
  }

  lemma NoMoreLengths(s: seq<int>)
    requires |s| <= KEPT
    ensures FirstOf(s) == s
  {}

  /** The silences before the whole runs from the i-th on, each from the run before it, whole or cut. */
  function GapsFrom(runs: seq<Run>, i: nat, count: nat): seq<int>
    requires i > 0
    decreases |runs| - i
  {
    if i >= |runs| then []
    else (if AtEdge(runs[i], count) then [] else [runs[i].start - runs[i - 1].end]) + GapsFrom(runs, i + 1, count)
  }

  lemma {:induction false} KeptGapsFrom(t: Tally, runs: seq<Run>, i: nat, count: nat)
    requires 0 < i <= |runs| && t.previousEnd == Some(runs[i - 1].end) && |t.gaps| <= KEPT
    ensures TallyAll(t, runs[i..], count).gaps == FirstOf(t.gaps + GapsFrom(runs, i, count))
    decreases |runs| - i
  {
    hide FirstOf, Keep;
    if i == |runs| {
      assert t.gaps + GapsFrom(runs, i, count) == t.gaps;
      NoMoreLengths(t.gaps);
    } else {
      var rest := GapsFrom(runs, i + 1, count);
      assert runs[i..][1..] == runs[i + 1..];
      KeepFirst(t.gaps, runs[i].start - runs[i - 1].end, rest);
      assert [] + rest == rest;
      KeptGapsFrom(Counted(t, runs[i], AtEdge(runs[i], count)), runs, i + 1, count);
    }
  }

  /** The kept gaps are the first of the silences before a whole run, whatever the run before it was. */
  lemma TallyKeepsGaps(runs: seq<Run>, count: nat)
    ensures TallyAll(EMPTY, runs, count).gaps == FirstOf(GapsFrom(runs, 1, count))
  {
    hide FirstOf, Keep;
    NoMoreLengths([]);
    if runs != [] {
      var t := Counted(EMPTY, runs[0], AtEdge(runs[0], count));
      KeptGapsFrom(t, runs, 1, count);
      assert [] + GapsFrom(runs, 1, count) == GapsFrom(runs, 1, count);
    }
  }

  lemma {:induction false} GapsAtLeast(runs: seq<Run>, i: nat, count: nat, minGap: nat)
    requires i > 0 && forall k | 0 <= k < |runs| - 1 :: runs[k + 1].start - runs[k].end >= minGap
    ensures forall g <- GapsFrom(runs, i, count) :: g >= minGap
    decreases |runs| - i
  {
    if i < |runs| {
      GapsAtLeast(runs, i + 1, count, minGap);
      var k := i - 1;
      assert runs[k + 1].start - runs[k].end >= minGap;
    }
  }

  lemma FirstAreSome(s: seq<int>, least: int)
    requires forall x <- s :: x >= least
    ensures forall x <- FirstOf(s) :: x >= least
  {
    forall x <- FirstOf(s) ensures x in s {
      var i :| 0 <= i < |FirstOf(s)| && FirstOf(s)[i] == x;
      assert s[i] == x;
    }
  }

  lemma {:induction false} OrderedLength(runs: seq<Run>, from: nat, count: nat)
    requires Ordered(runs, from, count) && from <= count
    ensures 0 <= Length(runs) <= count - from
    decreases |runs|
  {
    if runs != [] {
      if |runs| > 1 {
        assert runs[1].start < runs[1].end <= count;
        assert Ordered(runs[1..], runs[0].end + 1, count);
        OrderedLength(runs[1..], runs[0].end + 1, count);
      }
    }
  }

  /** In one statement: what Segment's tally says about any envelope. */
  lemma SegmentReports(env: seq<real>, enter: real, leave: real, minGap: nat)
    ensures
      var runs := Merge(RawRuns(env, 0, enter, leave), minGap);
      var r := TallyAll(EMPTY, runs, |env|);
      && Ordered(runs, 0, |env|)
      && (forall i | 0 <= i < |runs| - 1 :: runs[i + 1].start - runs[i].end >= minGap)
      && r.whole + r.truncated == |runs|
      && r.whole == |Whole(runs, |env|)|
      && 0 <= r.busy == Length(runs) <= |env|
      && r.lengths == FirstOf(Lengths(Whole(runs, |env|)))
      && r.gaps == FirstOf(GapsFrom(runs, 1, |env|)) && (forall g <- r.gaps :: g >= minGap)
      && (forall i | 0 <= i < |runs| && AtEdge(runs[i], |env|) :: i == 0 || i == |runs| - 1)
  {
    hide FirstOf, Lengths, Whole, Length, GapsFrom, TallyAll, Merge, RawRuns;
    var raw := RawRuns(env, 0, enter, leave);
    RawRunsOrdered(env, 0, enter, leave);
    MergeCloses(raw, minGap, 0, |env|);
    var runs := Merge(raw, minGap);
    TallyAddsUp(EMPTY, runs, |env|);
    TallyKeepsLengths(EMPTY, runs, |env|);
    assert [] + Lengths(Whole(runs, |env|)) == Lengths(Whole(runs, |env|));
    TallyKeepsGaps(runs, |env|);
    GapsAtLeast(runs, 1, |env|, minGap);
    FirstAreSome(GapsFrom(runs, 1, |env|), minGap);
    OrderedLength(runs, 0, |env|);
    forall i | 0 < i < |runs| - 1 ensures !AtEdge(runs[i], |env|) {
      assert runs[0].end < runs[i].start && runs[i].end < runs[|runs| - 1].start;
    }
  }

  // ---------------------------------------------------- the smoothed envelope

  ghost function Sum(power: seq<real>, lo: nat, hi: nat): real
    requires lo <= hi <= |power|
  {
    if lo == hi then 0.0 else Sum(power, lo, hi - 1) + power[hi - 1]
  }

  lemma {:induction false} SumDropsFirst(power: seq<real>, lo: nat, hi: nat)
    requires lo < hi <= |power|
    ensures Sum(power, lo, hi) == power[lo] + Sum(power, lo + 1, hi)
  {
    if lo + 1 < hi { SumDropsFirst(power, lo, hi - 1); }
  }

  function Power(i: real, q: real): real { i * i + q * q }

  ghost function Powers(i: seq<real>, q: seq<real>): (power: seq<real>)
    requires |i| == |q|
    ensures |power| == |i|
  {
    seq(|i|, k requires 0 <= k < |i| => Power(i[k], q[k]))
  }

  /** Lines 563-581: a running sum over the last `window` samples, or over as many as there are. */
  method SmoothedEnvelope(i: array<real>, q: array<real>, window: nat) returns (out: array<real>)
    requires i.Length == q.Length && window > 0
    ensures fresh(out) && out.Length == i.Length
    ensures
      var power := Powers(i[..], q[..]);
      forall n | 0 <= n < i.Length ::
        out[n] == if n >= window then Sum(power, n + 1 - window, n + 1) / window as real
                  else Sum(power, 0, n + 1) / (n + 1) as real
  {
    var count := i.Length;
    hide Power;
    out := new real[count];
    ghost var power := Powers(i[..], q[..]);
    var sum := 0.0;
    var n := 0;
    while n < count
      invariant 0 <= n <= count
      invariant sum == Sum(power, if n >= window then n - window else 0, n)
      invariant forall m | 0 <= m < n ::
        out[m] == if m >= window then Sum(power, m + 1 - window, m + 1) / window as real
                  else Sum(power, 0, m + 1) / (m + 1) as real
    {
      sum := sum + Power(i[n], q[n]);
      if n >= window {
        SumDropsFirst(power, n - window, n + 1);
        sum := sum - Power(i[n - window], q[n - window]);
        out[n] := sum / window as real;
      } else {
        out[n] := sum / (n + 1) as real;
      }
      n := n + 1;
    }
  }
}
