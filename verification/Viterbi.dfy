/**
  The joint convolutional and differential Viterbi decoder of
  scripts/gsm_chain_probe.c:215-281, for the GSM synchronisation burst (section
  4.7 of 3GPP TS 45.003 and section 2.3 of 3GPP TS 45.004).

  `cost(p, e, prev)` stands for sch_bit_cost(soft_im[p], e, prev, best_inv): how
  badly the soft observation at burst position p fits bit e following bit prev.
  Costs are exact reals of either sign, as that function returns (lines 408-412 of
  src/tech/gsm_dsp.c); SchBurst.SignedCost is that function.
 */
module Viterbi {
  type BitCost = (nat, bool, bool) -> real

  const STEPS: nat := 39
  const STATES: nat := 32
  const UNREACHED := 1000000000.0
  const PRUNE := 100000000.0

  ghost predicate NonNegative(cost: BitCost) {
    forall p, e, prev :: Fit(cost, p, e, prev) >= 0.0
  }

  /** No single decision costs more than b. */
  ghost predicate AtMost(cost: BitCost, b: real) {
    forall p, e, prev :: Fit(cost, p, e, prev) <= b
  }

  function Fit(cost: BitCost, p: nat, e: bool, prev: bool): real { cost(p, e, prev) }

  // ---------------------------------------------------------------- trellis

  function Xor(a: bool, b: bool): bool { a != b }

  /** Bit i of a shift register held as a number, for i in 0, 2 and 3. */
  function RegisterBit(conv: nat, i: nat): bool {
    if i == 0 then conv % 2 == 1 else if i == 2 then (conv / 4) % 2 == 1 else (conv / 8) % 2 == 1
  }

  function C0(conv: nat, input: bool): bool {
    Xor(Xor(input, RegisterBit(conv, 2)), RegisterBit(conv, 3))
  }

  function C1(conv: nat, input: bool): bool {
    Xor(Xor(Xor(input, RegisterBit(conv, 0)), RegisterBit(conv, 2)), RegisterBit(conv, 3))
  }

  function Value(b: bool): nat { if b then 1 else 0 }

  /** Four shift-register bits above the last emitted bit. */
  function Next(s: nat, input: bool): (t: nat)
    ensures t < STATES
  {
    2 * ((2 * (s / 2) + Value(input)) % 16) + Value(C1(s / 2, input))
  }

  /** Lines 241-256: what step k adds on the edge leaving s with this input. */
  function StepCost(cost: BitCost, training: seq<bool>, k: nat, s: nat, input: bool): (r: real)
    requires |training| == 64
    ensures NonNegative(cost) ==> r >= 0.0
  {
    var c0, c1, last := C0(s / 2, input), C1(s / 2, input), s % 2 == 1;
    FirstBitCost(cost, training, 2 * k, c0, c1, last) + SecondBitCost(cost, training, 2 * k + 1, c0, c1)
  }

  function FirstBitCost(cost: BitCost, training: seq<bool>, i0: nat, c0: bool, c1: bool, last: bool): (r: real)
    requires |training| == 64
    ensures NonNegative(cost) ==> r >= 0.0
  {
    if i0 < 39 then
      var prev := if i0 == 0 then false else last;
      if i0 == 38 then Fit(cost, 3 + i0, c0, prev) + Fit(cost, 42, training[0], c0) else Fit(cost, 3 + i0, c0, prev)
    else
      Fit(cost, 106 + i0 - 39, c0, if i0 == 39 then training[63] else last)
  }

  function SecondBitCost(cost: BitCost, training: seq<bool>, i1: nat, c0: bool, c1: bool): (r: real)
    requires |training| == 64
    ensures NonNegative(cost) ==> r >= 0.0
  {
    if i1 < 39 then
      if i1 == 38 then Fit(cost, 3 + i1, c1, c0) + Fit(cost, 42, training[0], c1) else Fit(cost, 3 + i1, c1, c0)
    else
      var prev := if i1 == 39 then training[63] else c0;
      if i1 == 77 then Fit(cost, 106 + i1 - 39, c1, prev) + Fit(cost, 145, false, c1) else Fit(cost, 106 + i1 - 39, c1, prev)
  }

  function StateAfter(u: seq<bool>): (s: nat)
    ensures s < STATES
  {
    if u == [] then 0 else Next(StateAfter(u[..|u| - 1]), u[|u| - 1])
  }

  function PathCost(cost: BitCost, training: seq<bool>, u: seq<bool>): (r: real)
    requires |training| == 64
    ensures NonNegative(cost) ==> r >= 0.0
  {
    if u == [] then 0.0
    else PathCost(cost, training, u[..|u| - 1])
         + StepCost(cost, training, |u| - 1, StateAfter(u[..|u| - 1]), u[|u| - 1])
  }

  /** A path of 39 inputs that leaves the shift register empty. */
  predicate IsCandidate(u: seq<bool>) {
    |u| == STEPS && StateAfter(u) / 2 == 0
  }

  lemma Extend(u: seq<bool>, b: bool)
    ensures (u + [b])[..|u|] == u && (u + [b])[|u|] == b
    ensures StateAfter(u + [b]) == Next(StateAfter(u), b)
  {
    assert (u + [b])[..|u|] == u;
  }

  function Shift(conv: nat, b: bool): nat { (2 * conv + Value(b)) % 16 }

  /** Four shifts push every older bit out of the register. */
  lemma FourShifts(r: nat, a: bool, b: bool, c: bool, d: bool)
    requires r < 16
    ensures Shift(Shift(Shift(Shift(r, a), b), c), d) == 8 * Value(a) + 4 * Value(b) + 2 * Value(c) + Value(d)
  {
    hide Shift;
    var x, y, z, w := Value(a), Value(b), Value(c), Value(d);
    var h1 := r % 8;
    var h2 := h1 % 4;
    var h3 := h2 % 2;
    ShiftDrops(r, a, r / 8, 2 * h1 + x);
    ShiftDrops(2 * h1 + x, b, h1 / 4, 4 * h2 + 2 * x + y);
    ShiftDrops(4 * h2 + 2 * x + y, c, h2 / 2, 8 * h3 + 4 * x + 2 * y + z);
    ShiftDrops(8 * h3 + 4 * x + 2 * y + z, d, h3, 8 * x + 4 * y + 2 * z + w);
  }

  lemma ShiftDrops(conv: nat, b: bool, q: nat, m: nat)
    requires 2 * conv + Value(b) == 16 * q + m && m < 16
    ensures Shift(conv, b) == m
  {}

  lemma RegisterAfter(u: seq<bool>)
    requires u != []
    ensures StateAfter(u) / 2 == Shift(StateAfter(u[..|u| - 1]) / 2, u[|u| - 1])
  {}

  /** The register is empty exactly when the last four inputs were zero. */
  lemma CandidateTail(u: seq<bool>)
    requires |u| == STEPS
    ensures IsCandidate(u) <==> !u[35] && !u[36] && !u[37] && !u[38]
  {
    hide Shift, StateAfter;
    var p1, p2, p3, p4 := u[..38], u[..37], u[..36], u[..35];
    assert p1[..37] == p2 && p2[..36] == p3 && p3[..35] == p4;
    RegisterAfter(u); RegisterAfter(p1); RegisterAfter(p2); RegisterAfter(p3);
    FourShifts(StateAfter(p4) / 2, u[35], u[36], u[37], u[38]);
  }

  // ------------------------------------------------------------ the pruning

  /**
    What the two constants let through: no state on the way costs more than the
    prune at line 235, and no total reaches the "unreached" mark.
   */
  predicate Survives(cost: BitCost, training: seq<bool>, u: seq<bool>)
    requires |training| == 64
  {
    u == [] || (&& Survives(cost, training, u[..|u| - 1])
                && PathCost(cost, training, u[..|u| - 1]) <= PRUNE
                && PathCost(cost, training, u) < UNREACHED)
  }

  /** When no cost is negative, costs only grow along a path, so a path that ends at or under the prune never meets it. */
  lemma {:induction false} CheapSurvives(cost: BitCost, training: seq<bool>, u: seq<bool>)
    requires |training| == 64 && NonNegative(cost)
    requires PathCost(cost, training, u) <= PRUNE
    ensures Survives(cost, training, u)
  {
    if u != [] {
      CheapSurvives(cost, training, u[..|u| - 1]);
    }
  }

  // -------------------------------------------------------------- one level

  datatype Best = None | Path(u: seq<bool>)

  /** Every finite metric is the cost of a recorded path into its state. */
  ghost predicate Recorded(cost: BitCost, training: seq<bool>, k: nat, metric: seq<real>, paths: seq<Best>)
    requires |training| == 64
  {
    && |metric| == |paths| == STATES
    && forall s | 0 <= s < STATES ::
         match paths[s]
         case None => metric[s] == UNREACHED
         case Path(u) =>
           && |u| == k && StateAfter(u) == s && Survives(cost, training, u)
           && PathCost(cost, training, u) == metric[s] < UNREACHED
  }

  /** No surviving path is cheaper than the metric of the state it ends in. */
  ghost predicate Minimal(cost: BitCost, training: seq<bool>, k: nat, metric: seq<real>)
    requires |training| == 64 && |metric| == STATES
  {
    forall v {:trigger Survives(cost, training, v)} ::
      |v| == k && Survives(cost, training, v) ==> metric[StateAfter(v)] <= PathCost(cost, training, v)
  }

  /** A back pointer: the previous state in the low byte, the input above it. */
  function Pack(s: nat, input: bool): nat { s + 256 * Value(input) }

  /** Every recorded path is its back pointer's path with that pointer's input appended. */
  ghost predicate Linked(row: seq<nat>, paths: seq<Best>, next: seq<Best>) {
    && |row| == |paths| == |next| == STATES
    && forall t | 0 <= t < STATES && next[t].Path? ::
         && row[t] % 256 < STATES && paths[row[t] % 256].Path?
         && next[t].u == paths[row[t] % 256].u + [(row[t] / 256) % 2 == 1]
  }

  /** The first q of the 64 edges leaving a level have been offered to the next one. */
  ghost predicate Offered(cost: BitCost, training: seq<bool>, k: nat, metric: seq<real>, next: seq<real>, q: nat)
    requires |training| == 64 && |metric| == |next| == STATES
  {
    forall e {:trigger Offer(e)} | 0 <= e < q && e / 2 < STATES && Offer(e) && metric[e / 2] <= PRUNE ::
      next[Next(e / 2, e % 2 == 1)] <= metric[e / 2] + StepCost(cost, training, k, e / 2, e % 2 == 1)
  }

  ghost predicate Offer(e: int) { true }

  /** Once all edges have been offered the next level is minimal too. */
  lemma OfferedIsMinimal(cost: BitCost, training: seq<bool>, k: nat, metric: seq<real>, next: seq<real>)
    requires |training| == 64 && |metric| == |next| == STATES
    requires Minimal(cost, training, k, metric)
    requires Offered(cost, training, k, metric, next, 2 * STATES)
    ensures Minimal(cost, training, k + 1, next)
  {
    forall v | |v| == k + 1 && Survives(cost, training, v)
      ensures next[StateAfter(v)] <= PathCost(cost, training, v)
    {
      var p, b := v[..k], v[k];
      assert Survives(cost, training, p);
      var e := 2 * StateAfter(p) + Value(b);
      assert Offer(e) && e / 2 == StateAfter(p) && (e % 2 == 1) == b;
    }
  }

  lemma PackRoundTrip(s: nat, input: bool)
    requires s < STATES
    ensures Pack(s, input) % 256 == s && ((Pack(s, input) / 256) % 2 == 1) == input
    ensures (2 * s + Value(input)) / 2 == s && ((2 * s + Value(input)) % 2 == 1) == input
  {}

  /** Lines 260-263 on values: an edge that improves on what its end state holds. */
  lemma TakeEdge(cost: BitCost, training: seq<bool>, k: nat, metric: seq<real>, paths: seq<Best>,
                 next: seq<real>, nextPaths: seq<Best>, row: seq<nat>, s: nat, input: bool, cand: real)
    requires |training| == 64 && s < STATES
    requires Recorded(cost, training, k, metric, paths) && Recorded(cost, training, k + 1, next, nextPaths)
    requires Linked(row, paths, nextPaths) && metric[s] <= PRUNE
    requires cand == metric[s] + StepCost(cost, training, k, s, input)
    requires cand < next[Next(s, input)]
    ensures
      var t := Next(s, input);
      && paths[s].Path?
      && Recorded(cost, training, k + 1, next[t := cand], nextPaths[t := Path(paths[s].u + [input])])
      && Linked(row[t := Pack(s, input)], paths, nextPaths[t := Path(paths[s].u + [input])])
  {
    hide StepCost, Next, Pack, Value;
    PackRoundTrip(s, input);
    ExtendedPath(cost, training, k, paths[s].u, input, cand);
  }

  lemma ExtendedPath(cost: BitCost, training: seq<bool>, k: nat, u: seq<bool>, input: bool, cand: real)
    requires |training| == 64 && |u| == k && Survives(cost, training, u)
    requires PathCost(cost, training, u) <= PRUNE && cand < UNREACHED
    requires cand == PathCost(cost, training, u) + StepCost(cost, training, k, StateAfter(u), input)
    ensures PathCost(cost, training, u + [input]) == cand && Survives(cost, training, u + [input])
    ensures StateAfter(u + [input]) == Next(StateAfter(u), input)
  {
    hide StepCost, Next;
    Extend(u, input);
  }

  /** Either way the edge has been offered, and nothing offered before is lost. */
  lemma EdgeOffered(cost: BitCost, training: seq<bool>, k: nat, metric: seq<real>, next: seq<real>, s: nat, input: bool,
                    cand: real)
    requires |training| == 64 && s < STATES && |metric| == |next| == STATES
    requires Offered(cost, training, k, metric, next, 2 * s + Value(input))
    requires cand == metric[s] + StepCost(cost, training, k, s, input)
    ensures var t := Next(s, input);
      Offered(cost, training, k, metric, if cand < next[t] then next[t := cand] else next, 2 * s + Value(input) + 1)
  {
    hide StepCost, Next, Value;
    PackRoundTrip(s, input);
  }

  lemma SkipState(cost: BitCost, training: seq<bool>, k: nat, metric: seq<real>, next: seq<real>, s: nat)
    requires |training| == 64 && |metric| == |next| == STATES && s < STATES
    requires metric[s] > PRUNE && Offered(cost, training, k, metric, next, 2 * s)
    ensures Offered(cost, training, k, metric, next, 2 * s + 2)
  {}

  // ------------------------------------------------------------ the decoder

  ghost function Unreached(): seq<real> { seq(STATES, _ => UNREACHED) }

  lemma FreshLevel(cost: BitCost, training: seq<bool>, k: nat, metric: seq<real>, paths: seq<Best>, row: seq<nat>)
    requires |training| == 64 && |metric| == |paths| == |row| == STATES
    ensures Recorded(cost, training, k, Unreached(), seq(STATES, _ => None))
    ensures Linked(row, paths, seq(STATES, _ => None))
    ensures Offered(cost, training, k, metric, Unreached(), 0)
  {}

  /** The row of back pointers level k writes. */
  ghost predicate RowIs(back: array2<nat>, k: int, row: seq<nat>)
    requires back.Length0 == STEPS && back.Length1 == STATES && 0 <= k < STEPS
    reads back
  {
    |row| == STATES && forall t | 0 <= t < STATES :: back[k, t] == row[t]
  }

  ghost function RowOf(back: array2<nat>, k: int): (row: seq<nat>)
    requires back.Length0 == STEPS && back.Length1 == STATES && 0 <= k < STEPS
    reads back
    ensures RowIs(back, k, row)
  {
    seq(STATES, t requires 0 <= t < STATES reads back => back[k, t])
  }

  /** Lines 233-266: one level, every live state offering both its edges. */
  method Advance(cost: BitCost, training: seq<bool>, k: nat, metric: array<real>, next: array<real>,
                 back: array2<nat>, ghost paths: seq<Best>) returns (ghost nextPaths: seq<Best>, ghost row: seq<nat>)
    requires |training| == 64 && k < STEPS
    requires metric != next && metric.Length == next.Length == STATES
    requires back.Length0 == STEPS && back.Length1 == STATES && |paths| == STATES
    requires Recorded(cost, training, k, metric[..], paths) && Minimal(cost, training, k, metric[..])
    modifies metric, next, back
    ensures Recorded(cost, training, k + 1, metric[..], nextPaths) && Minimal(cost, training, k + 1, metric[..])
    ensures |nextPaths| == STATES && RowIs(back, k, row) && Linked(row, paths, nextPaths)
    ensures forall j, t :: 0 <= j < STEPS && j != k && 0 <= t < STATES ==> back[j, t] == old(back[j, t])
  {
    hide StepCost, Next, Recorded, Minimal, Linked, Offered, Pack;
    ghost var m := metric[..];
    ResetMetrics(next);
    ghost var now := Unreached();
    nextPaths := seq(STATES, _ => None);
    row := RowOf(back, k);
    FreshLevel(cost, training, k + 1, m, paths, row);
    FreshLevel(cost, training, k, m, paths, row);
    var s := 0;
    while s < STATES
      invariant 0 <= s <= STATES
      invariant metric[..] == m && next[..] == now && RowIs(back, k, row)
      invariant Recorded(cost, training, k + 1, now, nextPaths) && Linked(row, paths, nextPaths)
      invariant |m| == |now| == |nextPaths| == |paths| == STATES && Offered(cost, training, k, m, now, 2 * s)
      invariant forall j, t :: 0 <= j < STEPS && j != k && 0 <= t < STATES ==> back[j, t] == old(back[j, t])
    {
      if metric[s] > PRUNE {
        SkipState(cost, training, k, m, now, s);
      } else {
        var input := 0;
        while input < 2
          invariant 0 <= input <= 2
          invariant metric[..] == m && next[..] == now && RowIs(back, k, row)
          invariant Recorded(cost, training, k + 1, now, nextPaths) && Linked(row, paths, nextPaths)
          invariant |now| == |nextPaths| == |paths| == STATES && Offered(cost, training, k, m, now, 2 * s + input)
          invariant forall j, t :: 0 <= j < STEPS && j != k && 0 <= t < STATES ==> back[j, t] == old(back[j, t])
        {
          var bit := input == 1;
          var nextState := Next(s, bit);
          var cand := metric[s] + StepCost(cost, training, k, s, bit);
          EdgeOffered(cost, training, k, m, now, s, bit, cand);
          if cand < next[nextState] {
            TakeEdge(cost, training, k, m, paths, now, nextPaths, row, s, bit, cand);
            next[nextState] := cand;
            back[k, nextState] := Pack(s, bit);
            now := now[nextState := cand];
            nextPaths := nextPaths[nextState := Path(paths[s].u + [bit])];
            row := row[nextState := Pack(s, bit)];
          }
          input := input + 1;
        }
      }
      s := s + 1;
    }
    OfferedIsMinimal(cost, training, k, m, now);
    forall t | 0 <= t < STATES { metric[t] := next[t]; }
    assert metric[..] == now;
  }

  method ResetMetrics(next: array<real>)
    requires next.Length == STATES
    modifies next
    ensures next[..] == Unreached()
  {
    var s := 0;
    while s < STATES
      invariant 0 <= s <= STATES
      invariant forall t :: 0 <= t < s ==> next[t] == UNREACHED
    {
      next[s] := UNREACHED;
      s := s + 1;
    }
  }

  /** What the traceback reads: the levels' recorded paths and the rows linking them. */
  ghost predicate History(back: array2<nat>, k: nat, levels: seq<seq<Best>>, rows: seq<seq<nat>>)
    requires back.Length0 == STEPS && back.Length1 == STATES && k <= STEPS
    reads back
  {
    && |levels| == k + 1 && |rows| == k
    && forall j | 0 <= j < k :: RowIs(back, j, rows[j]) && Linked(rows[j], levels[j], levels[j + 1])
  }

  lemma FirstLevel(cost: BitCost, training: seq<bool>)
    requires |training| == 64
    ensures Recorded(cost, training, 0, Unreached()[0 := 0.0], seq(STATES, _ => None)[0 := Path([])])
    ensures Minimal(cost, training, 0, Unreached()[0 := 0.0])
  {}

  /** Lines 268-273: the cheapest end state whose register is empty, or none. */
  method BestEnd(metric: array<real>) returns (found: bool, best: nat)
    requires metric.Length == STATES
    ensures found ==> best < STATES && best / 2 == 0 && metric[best] < UNREACHED
    ensures found ==> forall s :: 0 <= s < STATES && s / 2 == 0 ==> metric[best] <= metric[s]
    ensures !found ==> forall s :: 0 <= s < STATES && s / 2 == 0 ==> metric[s] >= UNREACHED
  {
    found, best := false, 0;
    var bestMetric := UNREACHED;
    var s := 0;
    while s < STATES
      invariant 0 <= s <= STATES
      invariant if found then best < s && best / 2 == 0 && metric[best] == bestMetric < UNREACHED
                else bestMetric == UNREACHED
      invariant forall t :: 0 <= t < s && t / 2 == 0 ==> bestMetric <= metric[t]
    {
      if s / 2 == 0 && metric[s] < bestMetric {
        bestMetric := metric[s];
        best := s;
        found := true;
      }
      s := s + 1;
    }
  }

  /** Lines 274-281: the inputs read off backwards are the path recorded for the end state. */
  method Traceback(u: array<bool>, back: array2<nat>, best: nat, ghost levels: seq<seq<Best>>, ghost rows: seq<seq<nat>>)
    requires u.Length == STEPS && best < STATES
    requires back.Length0 == STEPS && back.Length1 == STATES
    requires History(back, STEPS, levels, rows)
    requires forall j :: 0 <= j <= STEPS ==> |levels[j]| == STATES
    requires levels[STEPS][best].Path? && |levels[STEPS][best].u| == STEPS
    modifies u
    ensures u[..] == levels[STEPS][best].u
  {
    ghost var path := levels[STEPS][best].u;
    var s := best;
    var k := STEPS;
    while k > 0
      invariant 0 <= k <= STEPS && 0 <= s < STATES
      invariant levels[k][s].Path? && levels[k][s].u == path[..k]
      invariant u[k..] == path[k..]
    {
      k := k - 1;
      assert RowIs(back, k, rows[k]) && Linked(rows[k], levels[k], levels[k + 1]);
      var b := back[k, s];
      assert b == rows[k][s];
      var input := (b / 256) % 2 == 1;
      StepBack(path, k, levels[k][b % 256].u, input);
      u[k] := input;
      s := b % 256;
      assert u[k..] == [input] + u[k + 1..];
      assert path[k..] == [path[k]] + path[k + 1..];
    }
    assert path[..0] == [] && u[0..] == u[..] && path[0..] == path;
  }

  lemma StepBack(path: seq<bool>, k: nat, prefix: seq<bool>, input: bool)
    requires k < |path| && path[..k + 1] == prefix + [input]
    ensures prefix == path[..k] && input == path[k]
  {
    assert path[..k + 1] == path[..k] + [path[k]];
    assert path[..k + 1][k] == (prefix + [input])[k];
  }

  /**
    Lines 215-281. The decoder succeeds exactly when some path with an empty
    final register survives the two constants, and then returns the inputs of a
    cheapest such path; otherwise it leaves all zeros.
   */
  method Decode(cost: BitCost, training: seq<bool>) returns (u: array<bool>, found: bool)
    requires |training| == 64
    ensures u.Length == STEPS
    ensures found <==> exists v :: IsCandidate(v) && Survives(cost, training, v)
    ensures found ==> IsCandidate(u[..]) && Survives(cost, training, u[..])
    ensures found ==> forall v :: IsCandidate(v) && Survives(cost, training, v) ==>
      PathCost(cost, training, u[..]) <= PathCost(cost, training, v)
    ensures !found ==> forall k :: 0 <= k < STEPS ==> !u[k]
  {
    hide StepCost, Next, Recorded, Minimal, Linked;
    u := new bool[STEPS](_ => false);
    var metric, next := new real[STATES], new real[STATES];
    var back := new nat[STEPS, STATES];
    ResetMetrics(metric);
    metric[0] := 0.0;
    assert metric[..] == Unreached()[0 := 0.0];
    FirstLevel(cost, training);
    ghost var paths: seq<Best> := seq(STATES, _ => None)[0 := Path([])];
    ghost var levels: seq<seq<Best>>, rows: seq<seq<nat>> := [paths], [];
    var k := 0;
    while k < STEPS
      invariant 0 <= k <= STEPS
      invariant Recorded(cost, training, k, metric[..], paths) && Minimal(cost, training, k, metric[..])
      invariant History(back, k, levels, rows) && levels[k] == paths
      invariant forall j :: 0 <= j <= k ==> |levels[j]| == STATES
      invariant fresh(metric) && fresh(next) && fresh(back) && fresh(u)
      invariant forall j :: 0 <= j < STEPS ==> !u[j]
    {
      ghost var row;
      paths, row := Advance(cost, training, k, metric, next, back, paths);
      levels, rows := levels + [paths], rows + [row];
      k := k + 1;
    }
    var best;
    found, best := BestEnd(metric);
    EndStates(cost, training, metric[..], paths, found, best);
    if found {
      Traceback(u, back, best, levels, rows);
    }
  }

  /** What the chosen end state says about all candidate paths. */
  lemma EndStates(cost: BitCost, training: seq<bool>, metric: seq<real>, paths: seq<Best>, found: bool, best: nat)
    requires |training| == 64 && |metric| == STATES
    requires Recorded(cost, training, STEPS, metric, paths) && Minimal(cost, training, STEPS, metric)
    requires found ==> best < STATES && best / 2 == 0 && metric[best] < UNREACHED
    requires found ==> forall s :: 0 <= s < STATES && s / 2 == 0 ==> metric[best] <= metric[s]
    requires !found ==> forall s :: 0 <= s < STATES && s / 2 == 0 ==> metric[s] >= UNREACHED
    ensures |paths| == STATES
    ensures found ==> paths[best].Path? && IsCandidate(paths[best].u) && Survives(cost, training, paths[best].u)
    ensures found ==> forall v :: IsCandidate(v) && Survives(cost, training, v) ==>
      PathCost(cost, training, paths[best].u) <= PathCost(cost, training, v)
    ensures !found ==> forall v :: IsCandidate(v) ==> !Survives(cost, training, v)
  {
    hide PathCost, StateAfter;
    forall v | IsCandidate(v) && Survives(cost, training, v)
      ensures metric[StateAfter(v)] <= PathCost(cost, training, v) < UNREACHED && StateAfter(v) / 2 == 0
    {
    }
  }
}
