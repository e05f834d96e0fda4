/**
  The transmitter's side of the synchronisation burst, and what the decoder of
  Viterbi.dfy owes it. The coded bits come from the two generator polynomials
  1 + D^3 + D^4 and 1 + D + D^3 + D^4 (section 4.7 of 3GPP TS 45.003), are laid
  out around the training sequence, and reach the receiver as changes between
  neighbouring bits (section 2.3 of 3GPP TS 45.004).
 */
module SchBurst {
  import opened Viterbi

  /** The input k positions into u; zeros before the start. */
  function Tap(u: seq<bool>, k: int): bool
    requires k < |u|
  {
    if k < 0 then false else u[k]
  }

  /** Coded bit i: polynomial G0 at even i, G1 at odd i. */
  function CodedBit(u: seq<bool>, i: nat): bool
    requires i < 2 * |u|
  {
    var k: int := i / 2;
    var g0 := Xor(Xor(u[k], Tap(u, k - 3)), Tap(u, k - 4));
    if i % 2 == 0 then g0 else Xor(g0, Tap(u, k - 1))
  }

  /** Bit p of the 148-bit burst: tail, coded, training, coded, tail. */
  function BurstBit(u: seq<bool>, training: seq<bool>, p: nat): bool
    requires |u| == STEPS && |training| == 64
  {
    if p < 3 then false
    else if p < 42 then CodedBit(u, p - 3)
    else if p < 106 then training[p - 42]
    else if p < 145 then CodedBit(u, p - 106 + 39)
    else false
  }

  /** The positions whose change from the bit before carries coded bits. */
  predicate Informative(p: nat) {
    3 <= p <= 42 || 106 <= p <= 145
  }

  /** What the observations charge this input over burst positions [lo, hi). */
  function SpanCost(cost: BitCost, training: seq<bool>, u: seq<bool>, lo: nat, hi: nat): (r: real)
    requires |u| == STEPS && |training| == 64 && 0 < lo <= hi
  {
    if hi == lo then 0.0
    else SpanCost(cost, training, u, lo, hi - 1)
         + Fit(cost, hi - 1, BurstBit(u, training, hi - 1), BurstBit(u, training, hi - 2))
  }

  /** The cost of a whole burst carrying u. */
  function BurstCost(cost: BitCost, training: seq<bool>, u: seq<bool>): real
    requires |u| == STEPS && |training| == 64
  {
    SpanCost(cost, training, u, 3, 43) + SpanCost(cost, training, u, 106, 146)
  }

  // ------------------------------------------- the trellis computes the code

  ghost function Register(u: seq<bool>, k: nat): nat
    requires k <= |u|
  {
    8 * Value(Tap(u, k - 4)) + 4 * Value(Tap(u, k - 3)) + 2 * Value(Tap(u, k - 2)) + Value(Tap(u, k - 1))
  }

  /** The shift register always holds the last four inputs. */
  lemma {:induction false} RegisterHoldsInputs(u: seq<bool>, k: nat)
    requires k <= |u|
    ensures StateAfter(u[..k]) / 2 == Register(u, k)
  {
    if k != 0 {
      RegisterHoldsInputs(u, k - 1);
      assert u[..k][..k - 1] == u[..k - 1];
      RegisterAfter(u[..k]);
      ShiftDrops(Register(u, k - 1), u[k - 1], Value(Tap(u, k - 5)), Register(u, k));
    }
  }

  lemma RegisterBits(u: seq<bool>, k: nat)
    requires k <= |u|
    ensures RegisterBit(Register(u, k), 0) == Tap(u, k - 1)
    ensures RegisterBit(Register(u, k), 2) == Tap(u, k - 3)
    ensures RegisterBit(Register(u, k), 3) == Tap(u, k - 4)
  {}

  lemma EmittedFromTaps(u: seq<bool>, k: nat, conv: nat)
    requires k < |u| && conv == Register(u, k)
    ensures C0(conv, u[k]) == CodedBit(u, 2 * k)
    ensures C1(conv, u[k]) == CodedBit(u, 2 * k + 1)
  {
    hide Register, RegisterBit;
    RegisterBits(u, k);
    assert (2 * k) / 2 == k && (2 * k + 1) / 2 == k;
  }

  lemma PathStep(cost: BitCost, training: seq<bool>, u: seq<bool>, k: nat)
    requires k < |u| && |training| == 64
    ensures PathCost(cost, training, u[..k + 1])
         == PathCost(cost, training, u[..k]) + StepCost(cost, training, k, StateAfter(u[..k]), u[k])
    ensures StateAfter(u[..k + 1]) % 2 == Value(C1(StateAfter(u[..k]) / 2, u[k]))
  {
    hide StepCost, C1, Next;
    assert u[..k + 1][..k] == u[..k];
    LastEmitted(StateAfter(u[..k]), u[k]);
  }

  lemma LastEmitted(s: nat, input: bool)
    ensures Next(s, input) % 2 == Value(C1(s / 2, input))
  {
    hide C1;
    var conv, e := (2 * (s / 2) + Value(input)) % 16, Value(C1(s / 2, input));
    assert (2 * conv + e) % 2 == e;
  }

  /** Step k emits coded bits 2k and 2k + 1, and the state remembers the second. */
  lemma EmittedBits(u: seq<bool>, k: nat)
    requires k < |u|
    ensures var s := StateAfter(u[..k]);
      && C0(s / 2, u[k]) == CodedBit(u, 2 * k)
      && C1(s / 2, u[k]) == CodedBit(u, 2 * k + 1)
    ensures StateAfter(u[..k + 1]) % 2 == Value(CodedBit(u, 2 * k + 1))
  {
    hide StateAfter, Register, C0, C1, CodedBit, PathCost, StepCost;
    RegisterHoldsInputs(u, k);
    EmittedFromTaps(u, k, StateAfter(u[..k]) / 2);
    PathStep((p, e, prev) => 0.0, seq(64, _ => false), u, k);
  }

  /** The burst cost charged by the first k trellis steps. */
  ghost function Charged(cost: BitCost, training: seq<bool>, u: seq<bool>, k: nat): real
    requires |u| == STEPS && |training| == 64 && k <= STEPS
  {
    if k <= 19 then SpanCost(cost, training, u, 3, 3 + 2 * k)
    else SpanCost(cost, training, u, 3, 43)
         + SpanCost(cost, training, u, 106, if k == STEPS then 146 else 67 + 2 * k)
  }

  lemma TwoMore(cost: BitCost, training: seq<bool>, u: seq<bool>, lo: nat, hi: nat)
    requires |u| == STEPS && |training| == 64 && 0 < lo <= hi
    ensures SpanCost(cost, training, u, lo, hi + 1) == SpanCost(cost, training, u, lo, hi)
      + Fit(cost, hi, BurstBit(u, training, hi), BurstBit(u, training, hi - 1))
    ensures SpanCost(cost, training, u, lo, hi + 2) == SpanCost(cost, training, u, lo, hi)
      + Fit(cost, hi, BurstBit(u, training, hi), BurstBit(u, training, hi - 1))
      + Fit(cost, hi + 1, BurstBit(u, training, hi + 1), BurstBit(u, training, hi))
  {}

  lemma FirstHalfStep(cost: BitCost, training: seq<bool>, u: seq<bool>, k: nat)
    requires |u| == STEPS && |training| == 64 && k < 19
    ensures Charged(cost, training, u, k + 1)
         == Charged(cost, training, u, k) + StepCost(cost, training, k, StateAfter(u[..k]), u[k])
  {
    hide C0, C1, CodedBit, SpanCost, StateAfter;
    EmittedBits(u, k);
    if k > 0 {
      EmittedBits(u, k - 1);
    }
    TwoMore(cost, training, u, 3, 3 + 2 * k);
  }

  /** Step 19 ends the first coded half, charges the training bit, and starts the second half. */
  lemma MiddleStep(cost: BitCost, training: seq<bool>, u: seq<bool>, k: nat)
    requires |u| == STEPS && |training| == 64 && k == 19
    ensures Charged(cost, training, u, k + 1)
         == Charged(cost, training, u, k) + StepCost(cost, training, k, StateAfter(u[..k]), u[k])
  {
    hide C0, C1, CodedBit, SpanCost, StateAfter;
    EmittedBits(u, k);
    EmittedBits(u, k - 1);
    TwoMore(cost, training, u, 3, 41);
    TwoMore(cost, training, u, 106, 106);
    EmptySpan(cost, training, u);
  }

  lemma SecondHalfStep(cost: BitCost, training: seq<bool>, u: seq<bool>, k: nat)
    requires |u| == STEPS && |training| == 64 && 19 < k < STEPS
    ensures Charged(cost, training, u, k + 1)
         == Charged(cost, training, u, k) + StepCost(cost, training, k, StateAfter(u[..k]), u[k])
  {
    hide C0, C1, CodedBit, SpanCost, StateAfter;
    EmittedBits(u, k);
    EmittedBits(u, k - 1);
    TwoMore(cost, training, u, 106, 67 + 2 * k);
    if k == 38 { TwoMore(cost, training, u, 106, 145); }
  }

  lemma ChargedStep(cost: BitCost, training: seq<bool>, u: seq<bool>, k: nat)
    requires |u| == STEPS && |training| == 64 && k < STEPS
    ensures Charged(cost, training, u, k + 1)
         == Charged(cost, training, u, k) + StepCost(cost, training, k, StateAfter(u[..k]), u[k])
  {
    hide Charged, StepCost, StateAfter;
    if k < 19 {
      FirstHalfStep(cost, training, u, k);
    } else if k == 19 {
      MiddleStep(cost, training, u, k);
    } else {
      SecondHalfStep(cost, training, u, k);
    }
  }

  lemma EmptySpan(cost: BitCost, training: seq<bool>, u: seq<bool>)
    requires |u| == STEPS && |training| == 64
    ensures SpanCost(cost, training, u, 106, 106) == 0.0 == SpanCost(cost, training, u, 3, 3)
  {}

  lemma NothingCharged(cost: BitCost, training: seq<bool>, u: seq<bool>)
    requires |u| == STEPS && |training| == 64
    ensures PathCost(cost, training, u[..0]) == Charged(cost, training, u, 0) == 0.0
  {
    hide SpanCost;
    EmptySpan(cost, training, u);
  }

  lemma {:induction false} PrefixCharged(cost: BitCost, training: seq<bool>, u: seq<bool>, k: nat)
    requires |u| == STEPS && |training| == 64 && k <= STEPS
    ensures PathCost(cost, training, u[..k]) == Charged(cost, training, u, k)
  {
    hide StepCost, StateAfter, Charged, PathCost;
    if k == 0 {
      NothingCharged(cost, training, u);
    } else {
      PrefixCharged(cost, training, u, k - 1);
      ChargedStep(cost, training, u, k - 1);
      PathStep(cost, training, u, k - 1);
    }
  }

  /**
    What the trellis adds up edge by edge, boundary terms included, is the fit of
    the whole encoded burst to the observations.
   */
  lemma PathCostIsBurstCost(cost: BitCost, training: seq<bool>, u: seq<bool>)
    requires |u| == STEPS && |training| == 64
    ensures PathCost(cost, training, u) == BurstCost(cost, training, u)
  {
    assert u[..STEPS] == u;
    PrefixCharged(cost, training, u, STEPS);
  }

  // ------------------------------------------------- what the constants let through

  lemma {:induction false} SpanAtMost(cost: BitCost, b: real, training: seq<bool>, u: seq<bool>, lo: nat, hi: nat)
    requires |u| == STEPS && |training| == 64 && 0 < lo <= hi && AtMost(cost, b)
    ensures SpanCost(cost, training, u, lo, hi) <= (hi - lo) as real * b
    decreases hi
  {
    hide BurstBit;
    if hi > lo { SpanAtMost(cost, b, training, u, lo, hi - 1); }
  }

  /** How many decisions the first k steps charge: two a step, and one more at steps 19 and 38. */
  function Decisions(k: nat): (n: nat)
    ensures k < STEPS ==> n <= 77
    ensures k == STEPS ==> n == 80
  {
    if k <= 19 then 2 * k else if k < STEPS then 2 * k + 1 else 80
  }

  /** What n decisions of b come to. */
  function Charge(n: nat, b: real): real { n as real * b }

  lemma PrefixAtMost(cost: BitCost, b: real, training: seq<bool>, u: seq<bool>, k: nat)
    requires |u| == STEPS && |training| == 64 && k <= STEPS && AtMost(cost, b)
    ensures PathCost(cost, training, u[..k]) <= Charge(Decisions(k), b)
  {
    hide SpanCost, PathCost, AtMost;
    PrefixCharged(cost, training, u, k);
    if k <= 19 {
      SpanAtMost(cost, b, training, u, 3, 3 + 2 * k);
    } else {
      SpanAtMost(cost, b, training, u, 3, 43);
      SpanAtMost(cost, b, training, u, 106, if k == STEPS then 146 else 67 + 2 * k);
    }
  }

  /** A path whose every prefix stays under the constants survives. */
  lemma {:induction false} StaysUnder(cost: BitCost, training: seq<bool>, u: seq<bool>, k: nat)
    requires |u| == STEPS && |training| == 64 && k <= STEPS
    requires forall j :: 0 <= j < STEPS ==> PathCost(cost, training, u[..j]) <= PRUNE
    requires PathCost(cost, training, u[..STEPS]) < UNREACHED
    ensures Survives(cost, training, u[..k])
    decreases k
  {
    hide PathCost;
    if k > 0 {
      StaysUnder(cost, training, u, k - 1);
      assert u[..k][..k - 1] == u[..k - 1];
    }
  }

  lemma BoundedSurvives(cost: BitCost, b: real, training: seq<bool>, u: seq<bool>)
    requires |u| == STEPS && |training| == 64 && AtMost(cost, b) && b >= 0.0 && 77.0 * b <= PRUNE
    ensures Survives(cost, training, u)
  {
    hide PathCost, AtMost, Survives, Decisions, Charge;
    forall j | 0 <= j < STEPS ensures PathCost(cost, training, u[..j]) <= PRUNE {
      PrefixAtMost(cost, b, training, u, j);
      FewerCostLess(Decisions(j), b);
    }
    PrefixAtMost(cost, b, training, u, STEPS);
    FewerCostLess(0, b);
    StaysUnder(cost, training, u, STEPS);
    assert u[..STEPS] == u;
  }

  lemma FewerCostLess(n: nat, b: real)
    requires n <= 77 && b >= 0.0
    ensures Charge(n, b) <= 77.0 * b && Charge(80, b) == 80.0 * b
  {
    assert (77.0 - n as real) * b >= 0.0;
  }

  lemma ZerosAreACandidate()
    ensures IsCandidate(seq(STEPS, _ => false))
  {
    CandidateTail(seq(STEPS, _ => false));
  }

  // --------------------------------------------- decoding inverts encoding

  /** Whether bit e after prev makes the change that u's burst makes at position p. */
  predicate Agrees(training: seq<bool>, u: seq<bool>, p: nat, e: bool, prev: bool)
    requires |u| == STEPS && |training| == 64 && p > 0
  {
    Xor(e, prev) == Xor(BurstBit(u, training, p), BurstBit(u, training, p - 1))
  }

  /** What u's own decision costs at position p. */
  function OwnFit(cost: BitCost, training: seq<bool>, u: seq<bool>, p: nat): real
    requires |u| == STEPS && |training| == 64 && p > 0
  {
    Fit(cost, p, BurstBit(u, training, p), BurstBit(u, training, p - 1))
  }

  /**
    Observations that favour u at every informative position: every decision
    that agrees with u's burst costs the same there, and every other one more.
   */
  ghost predicate Favours(cost: BitCost, training: seq<bool>, u: seq<bool>)
    requires |u| == STEPS && |training| == 64
  {
    forall p: nat, e: bool, prev: bool {:trigger Fit(cost, p, e, prev)} | Informative(p) ::
      && Fit(cost, p, e, prev) >= OwnFit(cost, training, u, p)
      && (Fit(cost, p, e, prev) == OwnFit(cost, training, u, p)
          <==> Agrees(training, u, p, e, prev))
  }

  /** Over a span u costs least, and only a burst that makes u's changes costs as little. */
  lemma {:induction false} FavouredSpan(cost: BitCost, training: seq<bool>, u: seq<bool>, v: seq<bool>, lo: nat, hi: nat)
    requires |v| == STEPS && |u| == STEPS && |training| == 64
    requires 3 <= lo <= hi <= 43 || 106 <= lo <= hi <= 146
    requires Favours(cost, training, u)
    ensures SpanCost(cost, training, v, lo, hi) >= SpanCost(cost, training, u, lo, hi)
    ensures SpanCost(cost, training, v, lo, hi) == SpanCost(cost, training, u, lo, hi) <==>
      forall p :: lo <= p < hi ==>
        Xor(BurstBit(v, training, p), BurstBit(v, training, p - 1))
        == Xor(BurstBit(u, training, p), BurstBit(u, training, p - 1))
    decreases hi
  {
    hide BurstBit;
    if hi > lo {
      FavouredSpan(cost, training, u, v, lo, hi - 1);
      var p: nat := hi - 1;
      assert Informative(p);
      assert Fit(cost, p, BurstBit(v, training, p), BurstBit(v, training, p - 1))
          >= OwnFit(cost, training, u, p);
    }
  }

  /** Equal changes from equal starting points are equal bits. */
  lemma {:induction false} SameBits(training: seq<bool>, u: seq<bool>, v: seq<bool>, lo: nat, hi: nat)
    requires |u| == STEPS && |v| == STEPS && |training| == 64 && 0 < lo <= hi
    requires BurstBit(u, training, lo - 1) == BurstBit(v, training, lo - 1)
    requires forall p :: lo <= p < hi ==>
      Xor(BurstBit(v, training, p), BurstBit(v, training, p - 1))
      == Xor(BurstBit(u, training, p), BurstBit(u, training, p - 1))
    ensures forall p :: lo <= p < hi ==> BurstBit(u, training, p) == BurstBit(v, training, p)
  {
    hide BurstBit;
    if hi > lo {
      SameBits(training, u, v, lo, hi - 1);
      var q: nat := hi - 1;
      assert BurstBit(u, training, q - 1) == BurstBit(v, training, q - 1);
      assert Xor(BurstBit(v, training, q), BurstBit(v, training, q - 1))
          == Xor(BurstBit(u, training, q), BurstBit(u, training, q - 1));
    }
  }

  /** The code is injective: equal coded bits come from equal inputs. */
  lemma {:induction false} SameInputs(u: seq<bool>, v: seq<bool>, k: nat)
    requires |u| == |v| && k <= |u|
    requires forall i :: 0 <= i < 2 * |u| ==> CodedBit(u, i) == CodedBit(v, i)
    ensures u[..k] == v[..k]
  {
    if k > 0 {
      SameInputs(u, v, k - 1);
      assert Tap(u, k - 4) == Tap(v, k - 4) && Tap(u, k - 5) == Tap(v, k - 5) by {
        if k >= 4 { assert u[k - 4] == u[..k - 1][k - 4] && v[k - 4] == v[..k - 1][k - 4]; }
        if k >= 5 { assert u[k - 5] == u[..k - 1][k - 5] && v[k - 5] == v[..k - 1][k - 5]; }
      }
      assert CodedBit(u, 2 * (k - 1)) == CodedBit(v, 2 * (k - 1));
      assert (2 * (k - 1)) / 2 == k - 1;
      assert u[..k] == u[..k - 1] + [u[k - 1]] && v[..k] == v[..k - 1] + [v[k - 1]];
    }
  }

  /** On observations that favour u, u is the cheapest path and the only one so cheap. */
  lemma FavouredIsCheapest(cost: BitCost, training: seq<bool>, u: seq<bool>, v: seq<bool>)
    requires |u| == STEPS && |v| == STEPS && |training| == 64 && Favours(cost, training, u)
    ensures PathCost(cost, training, v) >= PathCost(cost, training, u)
    ensures PathCost(cost, training, v) == PathCost(cost, training, u) <==> v == u
  {
    hide BurstBit, CodedBit, SpanCost, PathCost, Favours;
    PathCostIsBurstCost(cost, training, v);
    PathCostIsBurstCost(cost, training, u);
    FavouredSpan(cost, training, u, v, 3, 43);
    FavouredSpan(cost, training, u, v, 106, 146);
    if PathCost(cost, training, v) == PathCost(cost, training, u) {
      BurstEnds(training, u, v);
      SameBits(training, u, v, 3, 43);
      SameBits(training, u, v, 106, 146);
      CodedFromBurst(training, u, v);
      SameInputs(u, v, STEPS);
      assert u[..STEPS] == u && v[..STEPS] == v;
    }
  }

  lemma BurstEnds(training: seq<bool>, u: seq<bool>, v: seq<bool>)
    requires |u| == STEPS && |v| == STEPS && |training| == 64
    ensures BurstBit(u, training, 2) == BurstBit(v, training, 2)
    ensures BurstBit(u, training, 105) == BurstBit(v, training, 105)
  {}

  lemma CodedFromBurst(training: seq<bool>, u: seq<bool>, v: seq<bool>)
    requires |u| == STEPS && |v| == STEPS && |training| == 64
    requires forall p :: 3 <= p < 43 ==> BurstBit(u, training, p) == BurstBit(v, training, p)
    requires forall p :: 106 <= p < 146 ==> BurstBit(u, training, p) == BurstBit(v, training, p)
    ensures forall i :: 0 <= i < 2 * STEPS ==> CodedBit(u, i) == CodedBit(v, i)
  {
    hide CodedBit;
    forall i: nat | i < 2 * STEPS ensures CodedBit(u, i) == CodedBit(v, i) {
      var p := if i < 39 then 3 + i else 106 + i - 39;
      assert BurstBit(u, training, p) == BurstBit(v, training, p);
    }
  }

  // ------------------------------------------------------- the receiver's own cost

  /** Which way the observed phase turns for a decision: lines 409-410 of src/tech/gsm_dsp.c. */
  function Sign(e: bool, prev: bool, invert: bool): real { if Xor(Xor(e, prev), invert) then -1.0 else 1.0 }

  /** sch_bit_cost, lines 408-412 of src/tech/gsm_dsp.c: what agrees is rewarded, what does not is charged. */
  function SignedCost(soft: seq<real>, invert: bool): BitCost {
    (p: nat, e: bool, prev: bool) => if p < |soft| then -soft[p] * Sign(e, prev, invert) else 0.0
  }

  /** Soft observations that turn, at every informative position, the way u's burst does. */
  ghost predicate TurnsAs(soft: seq<real>, invert: bool, training: seq<bool>, u: seq<bool>)
    requires |soft| == 148 && |u| == STEPS && |training| == 64
  {
    forall p: nat | Informative(p) ::
      soft[p] != 0.0 && (soft[p] > 0.0 <==> Sign(BurstBit(u, training, p), BurstBit(u, training, p - 1), invert) > 0.0)
  }

  ghost predicate NoLouderThan(soft: seq<real>, b: real) { forall s <- soft :: -b <= s <= b }

  lemma SignedFit(soft: seq<real>, invert: bool, p: nat, e: bool, prev: bool)
    requires |soft| == 148 && p < 148
    ensures Fit(SignedCost(soft, invert), p, e, prev) == if Xor(Xor(e, prev), invert) then soft[p] else -soft[p]
  {
    var sign := Sign(e, prev, invert);
    assert SignedCost(soft, invert)(p, e, prev) == -soft[p] * sign;
    if sign == 1.0 {
      assert -soft[p] * sign == -soft[p];
    } else {
      assert sign == -1.0 && -soft[p] * sign == soft[p];
    }
  }

  lemma TurnsFavour(soft: seq<real>, invert: bool, training: seq<bool>, u: seq<bool>)
    requires |soft| == 148 && |u| == STEPS && |training| == 64 && TurnsAs(soft, invert, training, u)
    ensures Favours(SignedCost(soft, invert), training, u)
    ensures forall p: nat | Informative(p) ::
              OwnFit(SignedCost(soft, invert), training, u, p) < 0.0
  {
    hide BurstBit;
    var cost := SignedCost(soft, invert);
    forall p: nat, e: bool, prev: bool | Informative(p)
      ensures Fit(cost, p, e, prev) >= OwnFit(cost, training, u, p)
      ensures Fit(cost, p, e, prev) == OwnFit(cost, training, u, p)
              <==> Agrees(training, u, p, e, prev)
      ensures OwnFit(cost, training, u, p) < 0.0
    {
      SignedFit(soft, invert, p, e, prev);
      SignedFit(soft, invert, p, BurstBit(u, training, p), BurstBit(u, training, p - 1));
    }
  }

  lemma {:induction false} RewardedSpan(cost: BitCost, training: seq<bool>, u: seq<bool>, lo: nat, hi: nat)
    requires |u| == STEPS && |training| == 64
    requires 3 <= lo <= hi <= 43 || 106 <= lo <= hi <= 146
    requires forall p: nat | Informative(p) :: OwnFit(cost, training, u, p) < 0.0
    ensures SpanCost(cost, training, u, lo, hi) <= 0.0
    decreases hi
  {
    hide BurstBit;
    if hi > lo {
      RewardedSpan(cost, training, u, lo, hi - 1);
      assert Informative(hi - 1);
    }
  }

  /** A path rewarded at every position is never pruned, however large the observations are. */
  lemma RewardedSurvives(cost: BitCost, training: seq<bool>, u: seq<bool>)
    requires |u| == STEPS && |training| == 64
    requires forall p: nat | Informative(p) :: OwnFit(cost, training, u, p) < 0.0
    ensures Survives(cost, training, u)
  {
    hide PathCost, BurstBit, SpanCost, Survives, Informative, Fit;
    forall j | 0 <= j <= STEPS ensures PathCost(cost, training, u[..j]) <= 0.0 {
      PrefixCharged(cost, training, u, j);
      if j <= 19 {
        RewardedSpan(cost, training, u, 3, 3 + 2 * j);
      } else {
        RewardedSpan(cost, training, u, 3, 43);
        RewardedSpan(cost, training, u, 106, if j == STEPS then 146 else 67 + 2 * j);
      }
    }
    StaysUnder(cost, training, u, STEPS);
    assert u[..STEPS] == u;
  }

  // ------------------------------------------------- how strong the noise may be

  lemma {:induction false} ChargedSpan(cost: BitCost, b: real, training: seq<bool>, u: seq<bool>, lo: nat, hi: nat)
    requires |u| == STEPS && |training| == 64
    requires 3 <= lo <= hi <= 43 || 106 <= lo <= hi <= 146
    requires forall p: nat | Informative(p) :: OwnFit(cost, training, u, p) == b
    ensures SpanCost(cost, training, u, lo, hi) == Charge(hi - lo, b)
    decreases hi
  {
    hide BurstBit;
    if hi > lo {
      ChargedSpan(cost, b, training, u, lo, hi - 1);
      assert Informative(hi - 1);
      OneMoreCharge(hi - 1 - lo, b);
    } else {
      OneMoreCharge(0, b);
    }
  }

  lemma OneMoreCharge(n: nat, b: real)
    ensures Charge(0, b) == 0.0 && Charge(n + 1, b) == Charge(n, b) + b
  {}

  /** A path charged b at every position is pruned as soon as 77 of them come to more than the prune. */
  lemma ChargedIsPruned(cost: BitCost, b: real, training: seq<bool>, u: seq<bool>)
    requires |u| == STEPS && |training| == 64 && 77.0 * b > PRUNE
    requires forall p: nat | Informative(p) :: OwnFit(cost, training, u, p) == b
    ensures !Survives(cost, training, u)
  {
    hide PathCost, SpanCost, BurstBit, Informative, Fit;
    PrefixCharged(cost, training, u, 38);
    ChargedSpan(cost, b, training, u, 3, 43);
    ChargedSpan(cost, b, training, u, 106, 143);
    assert Charge(40, b) + Charge(37, b) == 77.0 * b;
    assert u[..38] == u[..STEPS - 1];
  }

  /** Observations of strength b that turn the wrong way at every decision of u's burst. */
  function Against(b: real, invert: bool, training: seq<bool>, u: seq<bool>): (soft: seq<real>)
    requires |u| == STEPS && |training| == 64
    ensures |soft| == 148
  {
    seq(148, p requires 0 <= p < 148 =>
      if p == 0 then 0.0
      else if Xor(Xor(BurstBit(u, training, p), BurstBit(u, training, p - 1)), invert) then b else -b)
  }

  lemma AgainstCharges(b: real, invert: bool, training: seq<bool>, u: seq<bool>)
    requires |u| == STEPS && |training| == 64 && b >= 0.0
    ensures NoLouderThan(Against(b, invert, training, u), b)
    ensures forall p: nat | Informative(p) ::
              OwnFit(SignedCost(Against(b, invert, training, u), invert), training, u, p) == b
  {
    hide BurstBit;
    var soft := Against(b, invert, training, u);
    forall p: nat | Informative(p) ensures OwnFit(SignedCost(soft, invert), training, u, p) == b {
      SignedFit(soft, invert, p, BurstBit(u, training, p), BurstBit(u, training, p - 1));
    }
  }

  /** Whether observations no stronger than b are too weak for any candidate ever to be pruned. */
  ghost predicate NeverPrunes(b: real, invert: bool, training: seq<bool>)
    requires |training| == 64
  {
    forall soft, v {:trigger NoLouderThan(soft, b), Survives(SignedCost(soft, invert), training, v)} ::
      |soft| == 148 && NoLouderThan(soft, b) && IsCandidate(v) ==> Survives(SignedCost(soft, invert), training, v)
  }

  /**
    That is exactly when the 77 decisions before the last prune cannot add up to
    more than it, whatever the training sequence.
   */
  lemma NeverPrunesWhen(b: real, invert: bool, training: seq<bool>)
    requires b >= 0.0 && |training| == 64
    ensures NeverPrunes(b, invert, training) <==> 77.0 * b <= PRUNE
  {
    hide Survives, AtMost, NoLouderThan, IsCandidate, SignedCost, Against, OwnFit;
    if 77.0 * b <= PRUNE {
      forall soft, v | |soft| == 148 && NoLouderThan(soft, b) && IsCandidate(v)
        ensures Survives(SignedCost(soft, invert), training, v)
      {
        CandidateLength(v);
        SignedAtMost(soft, invert, b);
        BoundedSurvives(SignedCost(soft, invert), b, training, v);
      }
    } else {
      var v := seq(STEPS, _ => false);
      ZerosAreACandidate();
      var soft := Against(b, invert, training, v);
      AgainstCharges(b, invert, training, v);
      ChargedIsPruned(SignedCost(soft, invert), b, training, v);
      assert NoLouderThan(soft, b) && IsCandidate(v) && !Survives(SignedCost(soft, invert), training, v);
    }
  }

  // ------------------------------------------------------- costs that are not negative

  /** Observations of u under a cost that is zero on agreement and positive otherwise. */
  ghost predicate NoiseFree(cost: BitCost, training: seq<bool>, u: seq<bool>)
    requires |u| == STEPS && |training| == 64
  {
    && NonNegative(cost)
    && forall p: nat, e: bool, prev: bool {:trigger Fit(cost, p, e, prev)} | Informative(p) ::
         Fit(cost, p, e, prev) == 0.0 <==> Agrees(training, u, p, e, prev)
  }

  /** They favour u, which survives: the signed case with zero for a reward. */
  lemma NoiseFreeFavours(cost: BitCost, training: seq<bool>, u: seq<bool>)
    requires |u| == STEPS && |training| == 64 && NoiseFree(cost, training, u)
    ensures Favours(cost, training, u) && PathCost(cost, training, u) == 0.0 && Survives(cost, training, u)
  {
    hide BurstBit, PathCost, Survives;
    forall p: nat | Informative(p)
      ensures OwnFit(cost, training, u, p) == 0.0
    {
      assert Agrees(training, u, p, BurstBit(u, training, p), BurstBit(u, training, p - 1));
    }
    FreeSpan(cost, training, u, 3, 43);
    FreeSpan(cost, training, u, 106, 146);
    PathCostIsBurstCost(cost, training, u);
    CheapSurvives(cost, training, u);
  }

  lemma {:induction false} FreeSpan(cost: BitCost, training: seq<bool>, u: seq<bool>, lo: nat, hi: nat)
    requires |u| == STEPS && |training| == 64
    requires 3 <= lo <= hi <= 43 || 106 <= lo <= hi <= 146
    requires forall p: nat | Informative(p) :: OwnFit(cost, training, u, p) == 0.0
    ensures SpanCost(cost, training, u, lo, hi) == 0.0
    decreases hi
  {
    hide BurstBit;
    if hi > lo {
      FreeSpan(cost, training, u, lo, hi - 1);
      assert Informative(hi - 1);
    }
  }

  // ----------------------------------------------------------- the decoder

  /** u is a candidate no candidate undercuts. */
  ghost predicate CheapestOfAll(cost: BitCost, training: seq<bool>, u: seq<bool>)
    requires |training| == 64
  {
    IsCandidate(u) && forall v :: IsCandidate(v) ==> BurstCost(cost, training, u) <= BurstCost(cost, training, v)
  }

  lemma PathsCostTheirBursts(cost: BitCost, training: seq<bool>)
    requires |training| == 64
    ensures forall v :: IsCandidate(v) ==> PathCost(cost, training, v) == BurstCost(cost, training, v)
  {
    hide PathCost, BurstCost, StateAfter;
    forall v | IsCandidate(v) ensures PathCost(cost, training, v) == BurstCost(cost, training, v) {
      PathCostIsBurstCost(cost, training, v);
    }
  }

  /** What Decode promises of its answer. */
  ghost predicate Decoded(cost: BitCost, training: seq<bool>, w: seq<bool>, found: bool)
    requires |training| == 64
  {
    && (found <==> exists v :: IsCandidate(v) && Survives(cost, training, v))
    && (found ==> IsCandidate(w) && Survives(cost, training, w))
    && (found ==> forall v :: IsCandidate(v) && Survives(cost, training, v) ==>
                    PathCost(cost, training, w) <= PathCost(cost, training, v))
  }

  /** A cheapest candidate that survives is as good as the answer. */
  lemma CheapestSurvivor(cost: BitCost, training: seq<bool>, w: seq<bool>, found: bool, v: seq<bool>)
    requires |training| == 64 && Decoded(cost, training, w, found)
    requires CheapestOfAll(cost, training, v) && Survives(cost, training, v)
    ensures found && CheapestOfAll(cost, training, w)
  {
    hide PathCost, BurstCost, StateAfter, Survives;
    PathsCostTheirBursts(cost, training);
  }

  /** So is any candidate when all survive, or all that are as cheap. */
  lemma SurvivorsDecide(cost: BitCost, training: seq<bool>, w: seq<bool>, found: bool, v: seq<bool>)
    requires |training| == 64 && Decoded(cost, training, w, found) && IsCandidate(v)
    requires forall x :: IsCandidate(x) && PathCost(cost, training, x) <= PathCost(cost, training, v) ==>
               Survives(cost, training, x)
    ensures found && CheapestOfAll(cost, training, w)
  {
    hide PathCost, BurstCost, StateAfter, Survives;
    PathsCostTheirBursts(cost, training);
  }

  lemma CheapestExactly(cost: BitCost, training: seq<bool>, w: seq<bool>, found: bool)
    requires |training| == 64 && Decoded(cost, training, w, found)
    ensures found && CheapestOfAll(cost, training, w) <==>
              exists v :: CheapestOfAll(cost, training, v) && Survives(cost, training, v)
  {
    hide CheapestOfAll, Survives, PathCost, StateAfter;
    forall v | CheapestOfAll(cost, training, v) && Survives(cost, training, v)
      ensures found && CheapestOfAll(cost, training, w)
    {
      CheapestSurvivor(cost, training, w, found, v);
    }
  }

  lemma CheapAreDecoded(cost: BitCost, training: seq<bool>, w: seq<bool>, found: bool)
    requires |training| == 64 && Decoded(cost, training, w, found)
    ensures NonNegative(cost) && (exists v :: IsCandidate(v) && BurstCost(cost, training, v) <= PRUNE) ==>
              found && CheapestOfAll(cost, training, w)
  {
    hide CheapestOfAll, Survives, PathCost, BurstCost, NonNegative, Decoded;
    forall v | NonNegative(cost) && IsCandidate(v) && BurstCost(cost, training, v) <= PRUNE
      ensures found && CheapestOfAll(cost, training, w)
    {
      CandidateLength(v);
      hide StateAfter, IsCandidate;
      PathCostIsBurstCost(cost, training, v);
      CheapOnesSurvive(cost, training);
      SurvivorsDecide(cost, training, w, found, v);
    }
  }

  lemma BoundedDecodes(cost: BitCost, b: real, training: seq<bool>, w: seq<bool>, found: bool)
    requires |training| == 64 && Decoded(cost, training, w, found)
    requires b >= 0.0 && AtMost(cost, b) && 77.0 * b <= PRUNE
    ensures found && CheapestOfAll(cost, training, w)
  {
    hide CheapestOfAll, Survives, PathCost, AtMost, Decoded, IsCandidate;
    AllSurvive(cost, b, training);
    SurvivorsDecide(cost, training, w, found, seq(STEPS, _ => false));
  }

  lemma FavouredDecodes(cost: BitCost, training: seq<bool>, w: seq<bool>, found: bool, v: seq<bool>)
    requires |training| == 64 && |v| == STEPS && Decoded(cost, training, w, found)
    requires IsCandidate(v) && Survives(cost, training, v) && Favours(cost, training, v)
    ensures found && w == v
  {
    hide PathCost, StateAfter, Survives, Favours;
    FavouredIsCheapest(cost, training, v, w);
  }

  /**
    Decode, for costs of either sign. If some cheapest candidate survives the
    constants the answer is cheapest of all candidates, pruned ones included, and
    only then; that is so whenever no decision can cost more than a 77th of the
    prune. And observations that favour a surviving candidate decode to exactly it.
   */
  method DecodeBurst(cost: BitCost, training: seq<bool>) returns (u: array<bool>, found: bool)
    requires |training| == 64
    ensures u.Length == STEPS
    ensures found && CheapestOfAll(cost, training, u[..]) <==>
              exists v :: CheapestOfAll(cost, training, v) && Survives(cost, training, v)
    ensures forall b {:trigger AtMost(cost, b)} :: b >= 0.0 && AtMost(cost, b) && 77.0 * b <= PRUNE ==>
              found && CheapestOfAll(cost, training, u[..])
    ensures NonNegative(cost) && (exists v :: IsCandidate(v) && BurstCost(cost, training, v) <= PRUNE) ==>
              found && CheapestOfAll(cost, training, u[..])
    ensures forall v :: IsCandidate(v) && Survives(cost, training, v) && Favours(cost, training, v) ==>
              found && u[..] == v
    ensures forall v :: IsCandidate(v) && NoiseFree(cost, training, v) ==> found && u[..] == v
  {
    u, found := Decode(cost, training);
    ghost var w := u[..];
    hide NoiseFree, PathCost, BurstCost, Survives, StateAfter, Favours, NonNegative, AtMost, CheapestOfAll;
    assert Decoded(cost, training, w, found);
    CheapestExactly(cost, training, w, found);
    CheapAreDecoded(cost, training, w, found);
    hide Decoded;
    forall b | b >= 0.0 && AtMost(cost, b) && 77.0 * b <= PRUNE ensures found && CheapestOfAll(cost, training, w) {
      BoundedDecodes(cost, b, training, w, found);
    }
    forall v | IsCandidate(v) && Survives(cost, training, v) && Favours(cost, training, v) ensures found && w == v {
      FavouredDecodes(cost, training, w, found, v);
    }
    forall v | IsCandidate(v) && NoiseFree(cost, training, v) ensures found && w == v {
      NoiseFreeFavours(cost, training, v);
      FavouredDecodes(cost, training, w, found, v);
    }
  }

  /**
    What the receiver runs, on soft observations and its own signed cost: when
    they turn the way a candidate's burst does they decode to exactly it, at any
    amplitude; and below an amplitude of a 77th of the prune the answer is
    cheapest of all candidates, whatever the noise.
   */
  method DecodeSoft(soft: seq<real>, invert: bool, training: seq<bool>) returns (u: array<bool>, found: bool)
    requires |soft| == 148 && |training| == 64
    ensures u.Length == STEPS
    ensures forall v :: IsCandidate(v) && TurnsAs(soft, invert, training, v) ==> found && u[..] == v
    ensures forall b {:trigger NoLouderThan(soft, b)} :: b >= 0.0 && NoLouderThan(soft, b) && 77.0 * b <= PRUNE ==>
              found && CheapestOfAll(SignedCost(soft, invert), training, u[..])
  {
    var cost := SignedCost(soft, invert);
    u, found := DecodeBurst(cost, training);
    ghost var w := u[..];
    hide TurnsAs, Favours, Survives, StateAfter, PathCost, CheapestOfAll, AtMost, NoLouderThan;
    forall v | IsCandidate(v) && TurnsAs(soft, invert, training, v) ensures found && w == v {
      CandidateLength(v);
      TurnsFavour(soft, invert, training, v);
      RewardedSurvives(cost, training, v);
    }
    forall b | b >= 0.0 && NoLouderThan(soft, b) && 77.0 * b <= PRUNE
      ensures found && CheapestOfAll(cost, training, w)
    {
      SignedAtMost(soft, invert, b);
    }
  }

  lemma SignedAtMost(soft: seq<real>, invert: bool, b: real)
    requires |soft| == 148 && b >= 0.0 && NoLouderThan(soft, b)
    ensures AtMost(SignedCost(soft, invert), b)
  {
    var cost := SignedCost(soft, invert);
    forall p: nat, e: bool, prev: bool ensures Fit(cost, p, e, prev) <= b {
      if p < 148 {
        SignedFit(soft, invert, p, e, prev);
        assert soft[p] in soft;
      }
    }
  }

  lemma CandidateLength(v: seq<bool>)
    requires IsCandidate(v)
    ensures |v| == STEPS
  {}

  lemma AllSurvive(cost: BitCost, b: real, training: seq<bool>)
    requires |training| == 64 && b >= 0.0 && AtMost(cost, b) && 77.0 * b <= PRUNE
    ensures forall v :: IsCandidate(v) ==> Survives(cost, training, v)
    ensures IsCandidate(seq(STEPS, _ => false))
  {
    hide IsCandidate, Survives, AtMost;
    forall v | IsCandidate(v) ensures Survives(cost, training, v) {
      CandidateLength(v);
      BoundedSurvives(cost, b, training, v);
    }
    ZerosAreACandidate();
  }

  /** Without negative costs a pruned path cost more than the prune, so it cannot undercut a cheap one. */
  lemma CheapOnesSurvive(cost: BitCost, training: seq<bool>)
    requires |training| == 64 && NonNegative(cost)
    ensures forall v :: PathCost(cost, training, v) <= PRUNE ==> Survives(cost, training, v)
  {
    hide PathCost, Survives, NonNegative;
    forall v | PathCost(cost, training, v) <= PRUNE ensures Survives(cost, training, v) { CheapSurvives(cost, training, v); }
  }

  /** One observation strong enough, and the wrong way round, has every path pruned after a step. */
  lemma OneLoudObservationStopsIt(invert: bool, training: seq<bool>, v: seq<bool>)
    requires |training| == 64 && |v| == STEPS
    ensures var soft := seq(148, p => if p == 4 then (if invert then 200000000.0 else -200000000.0) else 0.0);
            PathCost(SignedCost(soft, invert), training, v[..1]) > PRUNE && !Survives(SignedCost(soft, invert), training, v)
  {
    var loud := if invert then 200000000.0 else -200000000.0;
    var soft := seq(148, p => if p == 4 then loud else 0.0);
    hide StepCost, Survives;
    var cost := SignedCost(soft, invert);
    SignedFit(soft, invert, 3, v[0], false);
    SignedFit(soft, invert, 4, v[0], v[0]);
    FirstStep(cost, training, v);
    FirstPruned(cost, training, v, STEPS);
    assert v[..STEPS] == v;
  }

  lemma FirstStep(cost: BitCost, training: seq<bool>, v: seq<bool>)
    requires |training| == 64 && |v| == STEPS
    ensures PathCost(cost, training, v[..1]) == Fit(cost, 3, v[0], false) + Fit(cost, 4, v[0], v[0])
  {
    assert v[..1][..0] == [];
    assert StateAfter([]) == 0 && C0(0, v[0]) == v[0] && C1(0, v[0]) == v[0];
  }

  lemma {:induction false} FirstPruned(cost: BitCost, training: seq<bool>, v: seq<bool>, k: nat)
    requires |training| == 64 && |v| == STEPS && 2 <= k <= STEPS && PathCost(cost, training, v[..1]) > PRUNE
    ensures !Survives(cost, training, v[..k])
    decreases k
  {
    hide PathCost;
    assert v[..k][..k - 1] == v[..k - 1];
    if k > 2 { FirstPruned(cost, training, v, k - 1); }
  }
}
