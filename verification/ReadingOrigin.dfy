/**
  Whose oscillator made a signal, from where its frequency reads:
  src/core/reading_origin.h:97-398, src/core/survey_suspect.h:63-98, 261-323,
  588-741 and src/core/clock_chain.h:97-113. The receiver's own error does not
  blur a reading, it displaces it, and the displacement is what is measured.
 */
module ReadingOrigin {
  import opened Basics

  const PPM := 0.000001

  /** The error of the receiver's own reference, and the correction in force, in parts per million. */
  datatype Clock = Clock(crystal: real, applied: real) {
    /** k of the model. */
    function K(): real { crystal * PPM }

    /** e of the model: what is left after the correction. */
    function E(): real { (crystal - applied) * PPM }

    /** A clock that runs forwards, before the correction and after it. */
    predicate Runs() { 1.0 + K() > 0.0 && 1.0 + E() > 0.0 }
  }

  function Times(a: real, b: real): real { a * b }

  function Over(a: real, b: real): real
    requires b != 0.0
  {
    a / b
  }

  lemma TimesOver(a: real, b: real)
    requires b != 0.0
    ensures Over(Times(a, b), b) == a && Times(Over(a, b), b) == a
  {}

  lemma OverSign(a: real, b: real)
    requires b > 0.0
    ensures Over(a, b) > 0.0 <==> a > 0.0
    ensures Over(a, b) == 0.0 <==> a == 0.0
  {
    assert a == Over(a, b) * b;
    if Over(a, b) > 0.0 { assert Over(a, b) * b > 0.0; }
    if Over(a, b) < 0.0 { assert -Over(a, b) * b > 0.0; }
  }

  lemma OverMinus(a: real, b: real, c: real)
    requires c != 0.0
    ensures Over(a, c) - Over(b, c) == Over(a - b, c)
  {}

  // ------------------------------------------------------------------- the model

  /** Where a tone of this true frequency is reported. */
  function FromTrue(hz: real, clock: Clock): real {
    if !(hz > 0.0) || clock.E() <= -1.0 then 0.0 else Over(hz, 1.0 + clock.E())
  }

  /** The true frequency a reading implies. */
  function TrueOf(reading: real, clock: Clock): real {
    if !(reading > 0.0) || clock.E() <= -1.0 then 0.0 else Times(reading, 1.0 + clock.E())
  }

  function External(hz: real, clock: Clock): real { FromTrue(hz, clock) }

  function Coherent(hz: real, clock: Clock): real {
    if !(hz > 0.0) then 0.0 else FromTrue(Times(hz, 1.0 + clock.K()), clock)
  }

  function Separation(hz: real, clock: Clock): real {
    var coherent, external := Coherent(hz, clock), External(hz, clock);
    if !(coherent > 0.0) || !(external > 0.0) then 0.0 else coherent - external
  }

  /** Reporting and inverting undo each other wherever there is a frequency and a clock. */
  lemma ReadingAndTruth(hz: real, clock: Clock)
    requires 1.0 + clock.E() > 0.0
    ensures TrueOf(FromTrue(hz, clock), clock) == FromTrue(TrueOf(hz, clock), clock) == if hz > 0.0 then hz else 0.0
  {
    hide Over, Times;
    if hz > 0.0 {
      OverSign(hz, 1.0 + clock.E());
      TimesOver(hz, 1.0 + clock.E());
      assert Times(hz, 1.0 + clock.E()) > 0.0 by { PositiveTimes(hz, 1.0 + clock.E()); }
    }
  }

  lemma PositiveTimes(a: real, b: real)
    requires a > 0.0
    ensures Times(a, b) > 0.0 <==> b > 0.0
  {
    if b < 0.0 { assert a * -b > 0.0; }
  }

  /** The two hypotheses of a frequency are hz*k/(1+e) apart, the correction scaling that and nothing else. */
  lemma SeparationIs(hz: real, clock: Clock)
    requires hz > 0.0
    ensures clock.Runs() ==> Separation(hz, clock) == Over(Times(hz, clock.K()), 1.0 + clock.E())
    ensures !clock.Runs() ==> Separation(hz, clock) == 0.0
  {
    hide Over, Times;
    PositiveTimes(hz, 1.0 + clock.K());
    if 1.0 + clock.E() > 0.0 {
      OverSign(hz, 1.0 + clock.E());
      OverSign(Times(hz, 1.0 + clock.K()), 1.0 + clock.E());
      OverMinus(Times(hz, 1.0 + clock.K()), hz, 1.0 + clock.E());
      assert Times(hz, 1.0 + clock.K()) - hz == Times(hz, clock.K()) by { OneMore(hz, clock.K()); }
    }
  }

  lemma OneMore(a: real, b: real)
    ensures Times(a, 1.0 + b) - a == Times(a, b)
  {}

  /** An unmeasured crystal separates nothing, and neither does a clock that runs backwards. */
  lemma NothingSeparates(hz: real, clock: Clock)
    requires hz > 0.0
    ensures Separation(hz, clock) == 0.0 <==> clock.crystal == 0.0 || !clock.Runs()
  {
    hide Over, Times;
    SeparationIs(hz, clock);
    if clock.Runs() {
      OverSign(Times(hz, clock.K()), 1.0 + clock.E());
      ZeroTimes(hz, clock.K());
    }
  }

  lemma ZeroTimes(a: real, b: real)
    requires a > 0.0
    ensures Times(a, b) == 0.0 <==> b == 0.0
  {
    if b > 0.0 { assert a * b > 0.0; }
    if b < 0.0 { assert a * -b > 0.0; }
  }

  /**
    The discriminator inverts rather than improving: uncorrected, the coherent
    tone is the one that reads its nominal; corrected to the crystal's own
    error, the external one is.
   */
  lemma CorrectionInverts(hz: real, clock: Clock)
    requires hz > 0.0 && clock.Runs()
    ensures Coherent(hz, clock) == hz <==> clock.applied == 0.0
    ensures External(hz, clock) == hz <==> clock.applied == clock.crystal
  {
    hide Over, Times;
    var n := 1.0 + clock.E();
    PositiveTimes(hz, 1.0 + clock.K());
    SameQuotient(Times(hz, 1.0 + clock.K()), n, hz);
    SameQuotient(hz, n, hz);
    SameFactor(hz, 1.0 + clock.K(), n);
    SameFactor(hz, 1.0, n);
    assert Times(hz, 1.0) == hz by { Unit(hz); }
  }

  lemma Unit(a: real)
    ensures Times(a, 1.0) == a
  {}

  lemma SameQuotient(a: real, b: real, c: real)
    requires b > 0.0
    ensures Over(a, b) == c <==> a == Times(c, b)
  {
    assert Over(a, b) * b == a;
    if a == Times(c, b) { assert Over(c * b, b) == c; }
  }

  lemma SameFactor(a: real, b: real, c: real)
    requires a > 0.0
    ensures Times(a, b) == Times(a, c) <==> b == c
  {
    ZeroTimes(a, b - c);
    assert Times(a, b - c) == Times(a, b) - Times(a, c);
  }

  // ---------------------------------------------------------------- the verdict

  datatype Origin = Unknown | Receiver | ExternalOne | Unexplained

  predicate Separable(nominal: real, clock: Clock, tolerance: real) {
    nominal > 0.0 && tolerance > 0.0 && Abs(Separation(nominal, clock)) > tolerance * 2.0
  }

  predicate Near(reading: real, hz: real, tolerance: real) { Abs(reading - hz) <= tolerance }

  function OriginFor(reading: real, nominal: real, clock: Clock, tolerance: real): Origin {
    if !(reading > 0.0) || !(nominal > 0.0) || !(tolerance > 0.0) then Unknown
    else if !Separable(nominal, clock, tolerance) then Unknown
    else if Near(reading, Coherent(nominal, clock), tolerance) then Receiver
    else if Near(reading, External(nominal, clock), tolerance) then ExternalOne
    else Unexplained
  }

  /** Where both hypotheses land somewhere, they are separable exactly when no reading fits both. */
  lemma SeparableMeansDisjoint(nominal: real, clock: Clock, tolerance: real)
    requires nominal > 0.0 && tolerance > 0.0 && clock.Runs()
    ensures Separable(nominal, clock, tolerance) <==>
              forall reading :: !(Near(reading, Coherent(nominal, clock), tolerance)
                                  && Near(reading, External(nominal, clock), tolerance))
  {
    hide Over, Times;
    Lands(nominal, clock);
    var c, e := Coherent(nominal, clock), External(nominal, clock);
    if !Separable(nominal, clock, tolerance) {
      var middle := (c + e) / 2.0;
      assert Near(middle, c, tolerance) && Near(middle, e, tolerance);
    }
  }

  lemma Lands(nominal: real, clock: Clock)
    requires nominal > 0.0 && clock.Runs()
    ensures Coherent(nominal, clock) > 0.0 && External(nominal, clock) > 0.0
  {
    hide Over, Times;
    PositiveTimes(nominal, 1.0 + clock.K());
    OverSign(nominal, 1.0 + clock.E());
    OverSign(Times(nominal, 1.0 + clock.K()), 1.0 + clock.E());
  }

  /**
    A tone measured within the tolerance is told apart by its clock: one of this
    receiver's reads as the receiver's and one of anybody else's as external.
   */
  lemma VerdictIsRight(reading: real, nominal: real, clock: Clock, tolerance: real)
    requires reading > 0.0 && Separable(nominal, clock, tolerance)
    ensures Near(reading, Coherent(nominal, clock), tolerance) <==> OriginFor(reading, nominal, clock, tolerance) == Receiver
    ensures Near(reading, External(nominal, clock), tolerance) <==> OriginFor(reading, nominal, clock, tolerance) == ExternalOne
    ensures OriginFor(reading, nominal, clock, tolerance) != Unknown
  {
    hide Over, Times;
    if clock.Runs() {
      SeparableMeansDisjoint(nominal, clock, tolerance);
    } else {
      NothingSeparates(nominal, clock);
    }
  }

  // ------------------------------------------------------------ the best of several

  function Rank(origin: Origin): nat {
    match origin
    case Receiver => 3
    case ExternalOne => 2
    case Unexplained => 1
    case Unknown => 0
  }

  function Best(a: Origin, b: Origin): Origin {
    if a == Receiver || b == Receiver then Receiver
    else if a == ExternalOne || b == ExternalOne then ExternalOne
    else if a == Unexplained || b == Unexplained then Unexplained
    else Unknown
  }

  /** Best is the higher of the two in the order of precedence, so grids may be asked in any order. */
  lemma BestIsHighest(a: Origin, b: Origin, c: Origin)
    ensures Best(a, b) == (if Rank(a) >= Rank(b) then a else b)
    ensures Best(a, b) == Best(b, a) && Best(a, a) == a && Best(a, Unknown) == a
    ensures Best(Best(a, b), c) == Best(a, Best(b, c))
  {}

  function BestOf(verdicts: seq<Origin>): Origin {
    if verdicts == [] then Unknown else Best(BestOf(verdicts[..|verdicts| - 1]), verdicts[|verdicts| - 1])
  }

  /** The best of many is one of them, or Unknown, and outranks all. */
  lemma {:induction false} BestOfIsHighest(verdicts: seq<Origin>)
    ensures BestOf(verdicts) == Unknown || BestOf(verdicts) in verdicts
    ensures forall v <- verdicts :: Rank(v) <= Rank(BestOf(verdicts))
    decreases |verdicts|
  {
    if verdicts != [] {
      BestOfIsHighest(verdicts[..|verdicts| - 1]);
      BestIsHighest(BestOf(verdicts[..|verdicts| - 1]), verdicts[|verdicts| - 1], Unknown);
      assert verdicts == verdicts[..|verdicts| - 1] + [verdicts[|verdicts| - 1]];
    }
  }

  // ---------------------------------------------------------------------- the grids

  /** The whole number nearest to x, halves going up. */
  function Nearest(x: real): int { (x + 0.5).Floor }

  function NearestMultiple(hz: real, spacing: real): real {
    if !(hz > 0.0) || !(spacing > 0.0) then 0.0
    else
      var n := Nearest(Over(hz, spacing));
      if n >= 1 then Times(n as real, spacing) else 0.0
  }

  function NearestChannel(hz: real, base: real, spacing: real): real {
    if !(hz > 0.0) || !(spacing > 0.0) || base < 0.0 then 0.0
    else
      var n := Nearest(Over(hz - base, spacing));
      if n < 0 then 0.0 else Channel(base, spacing, n)
  }

  function Channel(base: real, spacing: real, n: int): real { base + Times(n as real, spacing) }

  lemma NearestIs(x: real, n: int)
    ensures Nearest(x) == n <==> n as real - 0.5 <= x < n as real + 0.5
  {}

  /** x is within half a spacing of n spacings exactly when n is the nearest number of them. */
  lemma NearestOver(x: real, spacing: real, n: int)
    requires spacing > 0.0
    ensures Nearest(Over(x, spacing)) == n <==>
              Times(n as real, spacing) - spacing / 2.0 <= x < Times(n as real, spacing) + spacing / 2.0
  {
    var q := Over(x, spacing);
    NearestIs(q, n);
    ScaleOrder(n as real - 0.5, q, spacing);
    ScaleOrder(q, n as real + 0.5, spacing);
    ScaleOrder(n as real + 0.5, q, spacing);
    TimesOver(x, spacing);
    assert Times(n as real - 0.5, spacing) == Times(n as real, spacing) - spacing / 2.0;
    assert Times(n as real + 0.5, spacing) == Times(n as real, spacing) + spacing / 2.0;
  }

  lemma ScaleOrder(a: real, b: real, s: real)
    requires s > 0.0
    ensures a <= b <==> Times(a, s) <= Times(b, s)
  {
    if a <= b { assert (b - a) * s >= 0.0; } else { assert (a - b) * s > 0.0; }
  }

  /** No member of the grid lies nearer than the one named. */
  lemma NearestChannelIsNearest(hz: real, base: real, spacing: real, n: nat)
    requires hz > 0.0 && spacing > 0.0 && base >= 0.0 && Nearest(Over(hz - base, spacing)) >= 0
    ensures Abs(hz - NearestChannel(hz, base, spacing)) <= Abs(hz - Channel(base, spacing, n))
    ensures Abs(hz - NearestChannel(hz, base, spacing)) <= spacing / 2.0
  {
    hide Times, Over;
    var m := Nearest(Over(hz - base, spacing));
    NearestOver(hz - base, spacing, m);
    if n != m { Apart(n, m, spacing); }
  }

  lemma Apart(n: int, m: int, spacing: real)
    requires n != m && spacing > 0.0
    ensures n < m ==> Times(m as real, spacing) - Times(n as real, spacing) >= spacing
    ensures m < n ==> Times(n as real, spacing) - Times(m as real, spacing) >= spacing
  {
    var d := m as real - n as real;
    assert Times(m as real, spacing) - Times(n as real, spacing) == d * spacing;
    if n < m { assert (d - 1.0) * spacing >= 0.0; } else { assert (-d - 1.0) * spacing >= 0.0; }
  }

  /** The channel an external transmitter would be on: nearest to the inverted reading. */
  function ExternalChannel(reading: real, base: real, spacing: real, clock: Clock): real {
    NearestChannel(TrueOf(reading, clock), base, spacing)
  }

  function ExternalMultiple(reading: real, spacing: real, clock: Clock): real {
    NearestMultiple(TrueOf(reading, clock), spacing)
  }

  /** A frequency names channel n exactly when it is within half a spacing of it. */
  lemma NamesChannel(hz: real, base: real, spacing: real, n: nat)
    requires hz > 0.0 && spacing > 0.0 && base >= 0.0 && Channel(base, spacing, n) > 0.0
    ensures NearestChannel(hz, base, spacing) == Channel(base, spacing, n) <==>
              -spacing / 2.0 <= hz - Channel(base, spacing, n) < spacing / 2.0
  {
    hide Times, Over;
    var m := Nearest(Over(hz - base, spacing));
    NearestOver(hz - base, spacing, n);
    if m != n { Apart(m, n, spacing); }
  }

  ghost predicate Recovers(base: real, spacing: real, n: nat, clock: Clock, tolerance: real) {
    forall reading | reading > 0.0 && Near(reading, External(Channel(base, spacing, n), clock), tolerance) ::
      ExternalChannel(reading, base, spacing, clock) == Channel(base, spacing, n)
  }

  /** How far a reading's inversion is from the channel it was measured on. */
  lemma InvertedReading(reading: real, channel: real, clock: Clock)
    requires reading > 0.0 && channel > 0.0 && 1.0 + clock.E() > 0.0
    ensures TrueOf(reading, clock) > 0.0
    ensures TrueOf(reading, clock) - channel == Times(reading - External(channel, clock), 1.0 + clock.E())
  {
    hide Over;
    PositiveTimes(reading, 1.0 + clock.E());
    TimesOver(channel, 1.0 + clock.E());
  }

  /** Inverting a reading recovers its transmitter's channel exactly when the tolerance, inverted too, fits in half a spacing. */
  lemma InversionRecovers(base: real, spacing: real, n: nat, clock: Clock, tolerance: real)
    requires spacing > 0.0 && base >= 0.0 && tolerance > 0.0 && Channel(base, spacing, n) > 0.0
    requires 1.0 + clock.E() > 0.0
    ensures Recovers(base, spacing, n, clock, tolerance) <==> 2.0 * Times(tolerance, 1.0 + clock.E()) < spacing
  {
    hide Over, Times;
    var s := 1.0 + clock.E();
    var ch := Channel(base, spacing, n);
    if 2.0 * Times(tolerance, s) < spacing {
      forall reading | reading > 0.0 && Near(reading, External(ch, clock), tolerance)
        ensures ExternalChannel(reading, base, spacing, clock) == ch
      {
        InvertedReading(reading, ch, clock);
        WithinScaled(reading - External(ch, clock), tolerance, s);
        NamesChannel(TrueOf(reading, clock), base, spacing, n);
      }
    } else {
      var reading := External(ch, clock) + tolerance;
      OverSign(ch, s);
      InvertedReading(reading, ch, clock);
      NamesChannel(TrueOf(reading, clock), base, spacing, n);
      assert Near(reading, External(ch, clock), tolerance);
      assert ExternalChannel(reading, base, spacing, clock) != ch;
    }
  }

  lemma WithinScaled(d: real, t: real, s: real)
    requires s > 0.0 && Abs(d) <= t
    ensures Abs(Times(d, s)) <= Times(t, s)
  {
    ScaleOrder(d, t, s);
    ScaleOrder(-t, d, s);
    assert Times(-t, s) == -Times(t, s);
  }

  /** Asking the raw reading instead names the right channel only where the displacement is under half a spacing. */
  lemma RawReadingNames(base: real, spacing: real, n: nat, clock: Clock)
    requires spacing > 0.0 && base >= 0.0 && Channel(base, spacing, n) > 0.0 && 1.0 + clock.E() > 0.0
    ensures var ch := Channel(base, spacing, n); var displaced := External(ch, clock) - ch;
            NearestChannel(External(ch, clock), base, spacing) == ch <==> -spacing / 2.0 <= displaced < spacing / 2.0
  {
    hide Over, Times;
    OverSign(Channel(base, spacing, n), 1.0 + clock.E());
    NamesChannel(External(Channel(base, spacing, n), clock), base, spacing, n);
  }

  predicate Resolvable(spacing: real, tolerance: real) {
    spacing > 0.0 && tolerance > 0.0 && spacing > tolerance * 2.0
  }

  /**
    The guard the raster is asked under says nothing about the residual: a
    resolvable raster still loses its channel when the receiver runs fast.
   */
  lemma ResolvableIsNotEnough()
    ensures var clock, channel := Clock(100.0, 0.0), Channel(0.0, 2000.1, 50000);
            && Resolvable(2000.1, 1000.0) && channel == 100005000.0 && Separable(channel, clock, 1000.0)
            && !Recovers(0.0, 2000.1, 50000, clock, 1000.0)
  {
    hide Recovers, Separation;
    var clock := Clock(100.0, 0.0);
    assert clock.E() == 0.0001 && clock.K() == 0.0001;
    assert Channel(0.0, 2000.1, 50000) == 100005000.0;
    SeparationIs(100005000.0, clock);
    assert Over(Times(100005000.0, clock.K()), 1.0 + clock.E()) > 2000.0;
    InversionRecovers(0.0, 2000.1, 50000, clock, 1000.0);
  }

  /** On a receiver that does not run fast the guard is enough. */
  lemma ResolvableRecovers(base: real, spacing: real, n: nat, clock: Clock, tolerance: real)
    requires Resolvable(spacing, tolerance) && base >= 0.0 && Channel(base, spacing, n) > 0.0
    requires -1.0 < clock.E() <= 0.0
    ensures Recovers(base, spacing, n, clock, tolerance)
  {
    hide Recovers;
    InversionRecovers(base, spacing, n, clock, tolerance);
    ScaleOrder(1.0 + clock.E(), 1.0, tolerance);
    assert Times(tolerance, 1.0 + clock.E()) <= tolerance;
  }

  // ----------------------------------------------------------------- the two combs

  function CombSpacing(reference: real): real { if reference > 0.0 then reference / 2.0 else 0.0 }

  function FineSpacing(reference: real): real { if reference > 0.0 then reference / 18.0 else 0.0 }

  /** Which harmonic of a comb a frequency sits on, 0 for none or when the tolerance makes it chance. */
  function CombHarmonic(hz: real, spacing: real, tolerance: real): int {
    if !(hz > 0.0) || !(spacing > 0.0) || !(tolerance >= 0.0) then 0
    else if tolerance > spacing / 40.0 then 0
    else
      var h := Nearest(Over(hz, spacing));
      if h < 1 then 0 else if Abs(hz - Times(h as real, spacing)) > tolerance then 0 else h
  }

  /** Where the question may be asked, the harmonic found is the one and only harmonic within the tolerance. */
  lemma HarmonicIsUnique(hz: real, spacing: real, tolerance: real, h: int)
    requires hz > 0.0 && spacing > 0.0 && 0.0 <= tolerance <= spacing / 40.0 && h >= 1
    ensures CombHarmonic(hz, spacing, tolerance) == h <==> Near(hz, Times(h as real, spacing), tolerance)
  {
    hide Times, Over;
    NearestOver(hz, spacing, h);
  }

  // -------------------------------------------------------------- the octave chain

  function Octave(i: nat): real { if i == 0 then 1.0 else 2.0 * Octave(i - 1) }

  function Member(fundamental: real, i: nat): real { Times(fundamental, Octave(i)) }

  predicate Nearer(hz: real, a: real, b: real) { Abs(hz - a) < Abs(hz - b) }

  /** The nearest member of f, 2f, ... 256f; the smaller of two as near. */
  function NearestMember(hz: real, fundamental: real, upTo: nat): real {
    if upTo == 0 then Member(fundamental, 0)
    else
      var best := NearestMember(hz, fundamental, upTo - 1);
      if Nearer(hz, Member(fundamental, upTo), best) then Member(fundamental, upTo) else best
  }

  const MAX_OCTAVES: nat := 8

  function ChainNearest(hz: real, fundamental: real): real {
    if !(hz > 0.0) || !(fundamental > 0.0) then 0.0 else NearestMember(hz, fundamental, MAX_OCTAVES)
  }

  lemma {:induction false} NearestMemberIsNearest(hz: real, fundamental: real, upTo: nat)
    ensures exists i: nat :: i <= upTo && NearestMember(hz, fundamental, upTo) == Member(fundamental, i)
    ensures forall i: nat | i <= upTo :: !Nearer(hz, Member(fundamental, i), NearestMember(hz, fundamental, upTo))
    decreases upTo
  {
    hide Member;
    var start: nat := 0;
    assert upTo == 0 ==> start <= upTo && NearestMember(hz, fundamental, upTo) == Member(fundamental, start);
    if upTo > 0 { NearestMemberIsNearest(hz, fundamental, upTo - 1); }
  }

  lemma {:induction false} OctaveIsPositive(i: nat)
    ensures Octave(i) >= 1.0
  {
    if i > 0 { OctaveIsPositive(i - 1); }
  }

  /** Lines 97-113 of clock_chain.h. */
  method ClockChainNearest(hz: real, fundamental: real) returns (best: real)
    ensures best == ChainNearest(hz, fundamental)
  {
    hide Times;
    best := 0.0;
    var bestGap := 0.0;
    if !(hz > 0.0) || !(fundamental > 0.0) { return; }
    var octave, i := 1.0, 0;
    while i <= MAX_OCTAVES
      invariant 0 <= i <= MAX_OCTAVES + 1 && octave == Octave(i)
      invariant if i == 0 then best == 0.0
                else best > 0.0 && best == NearestMember(hz, fundamental, i - 1) && bestGap == Abs(hz - best)
    {
      var member := Times(fundamental, octave);
      OctaveIsPositive(i);
      PositiveTimes(fundamental, octave);
      var gap := Abs(hz - member);
      if best == 0.0 || gap < bestGap {
        best, bestGap := member, gap;
      }
      octave, i := octave * 2.0, i + 1;
    }
  }

  // ----------------------------------------------------------- every grid together

  datatype Raster = Raster(spacing: real, base: real)

  /** A service's grid answers the external hypothesis only, and only where there is one to answer. */
  function RasterVerdicts(hz: real, clock: Clock, tolerance: real, raster: Raster): seq<Origin> {
    if !Resolvable(raster.spacing, tolerance) then []
    else
      var channel := ExternalChannel(hz, raster.base, raster.spacing, clock);
      if !(channel > 0.0 && Separable(channel, clock, tolerance)) then []
      else [if Near(hz, External(channel, clock), tolerance) then ExternalOne else Unexplained]
  }

  /** The nominals of a comb the two hypotheses are asked about. */
  function CombVerdicts(hz: real, spacing: real, clock: Clock, tolerance: real): seq<Origin> {
    if !(spacing > 0.0) then []
    else [OriginFor(hz, NearestMultiple(hz, spacing), clock, tolerance),
          OriginFor(hz, ExternalMultiple(hz, spacing, clock), clock, tolerance)]
  }

  function ChainVerdicts(hz: real, clock: Clock, tolerance: real, fundamental: real): seq<Origin> {
    if !(fundamental > 0.0) then [] else [OriginFor(hz, ChainNearest(hz, fundamental), clock, tolerance)]
  }

  function Verdicts(reference: real, hz: real, clock: Clock, tolerance: real, raster: Raster, fundamental: real): seq<Origin> {
    CombVerdicts(hz, CombSpacing(reference), clock, tolerance)
    + CombVerdicts(hz, FineSpacing(reference), clock, tolerance)
    + ChainVerdicts(hz, clock, tolerance, fundamental)
    + RasterVerdicts(hz, clock, tolerance, raster)
  }

  function OriginAt(reference: real, hz: real, clock: Clock, tolerance: real, raster: Raster, fundamental: real): Origin {
    BestOf(Verdicts(reference, hz, clock, tolerance, raster, fundamental))
  }

  lemma {:induction false} BestOfConcat(a: seq<Origin>, b: seq<Origin>)
    ensures BestOf(a + b) == Best(BestOf(a), BestOf(b))
    decreases |b|
  {
    if b == [] {
      assert a + b == a;
    } else {
      assert (a + b)[..|a + b| - 1] == a + b[..|b| - 1];
      BestOfConcat(a, b[..|b| - 1]);
    }
  }

  lemma BestOfFew(a: Origin, b: Origin)
    ensures BestOf([]) == Unknown && BestOf([a]) == a && BestOf([a, b]) == Best(a, b)
  {
    assert [a][..0] == [] && [a, b][..1] == [a];
  }

  lemma OriginAtIs(reference: real, hz: real, clock: Clock, tolerance: real, raster: Raster, fundamental: real)
    ensures OriginAt(reference, hz, clock, tolerance, raster, fundamental)
         == Best(Best(Best(BestOf(CombVerdicts(hz, CombSpacing(reference), clock, tolerance)),
                           BestOf(CombVerdicts(hz, FineSpacing(reference), clock, tolerance))),
                      BestOf(ChainVerdicts(hz, clock, tolerance, fundamental))),
                 BestOf(RasterVerdicts(hz, clock, tolerance, raster)))
  {
    hide BestOf, CombVerdicts, ChainVerdicts, RasterVerdicts, Best;
    var coarse, fine := CombVerdicts(hz, CombSpacing(reference), clock, tolerance), CombVerdicts(hz, FineSpacing(reference), clock, tolerance);
    BestOfConcat(coarse + fine + ChainVerdicts(hz, clock, tolerance, fundamental), RasterVerdicts(hz, clock, tolerance, raster));
    BestOfConcat(coarse + fine, ChainVerdicts(hz, clock, tolerance, fundamental));
    BestOfConcat(coarse, fine);
  }

  /** Lines 588-695 of survey_suspect.h: the verdict is kept up as each grid is asked. */
  method SuspectOriginAt(reference: real, hz: real, clock: Clock, tolerance: real, raster: Raster, fundamental: real)
      returns (origin: Origin)
    ensures origin == OriginAt(reference, hz, clock, tolerance, raster, fundamental)
  {
    hide OriginFor, NearestMultiple, ExternalMultiple, ChainNearest, ExternalChannel, Separable, Near, External, Resolvable, OriginAt, BestOf;
    OriginAtIs(reference, hz, clock, tolerance, raster, fundamental);
    var coarse, fine := CombSpacing(reference), FineSpacing(reference);
    origin := Unknown;
    BestOfFew(Unknown, Unknown);
    if coarse > 0.0 {
      var near, far := OriginFor(hz, NearestMultiple(hz, coarse), clock, tolerance), OriginFor(hz, ExternalMultiple(hz, coarse, clock), clock, tolerance);
      BestOfFew(near, far);
      origin := Best(origin, near);
      origin := Best(origin, far);
    }
    if fine > 0.0 {
      var near, far := OriginFor(hz, NearestMultiple(hz, fine), clock, tolerance), OriginFor(hz, ExternalMultiple(hz, fine, clock), clock, tolerance);
      BestOfFew(near, far);
      origin := Best(origin, near);
      origin := Best(origin, far);
    }
    if fundamental > 0.0 {
      var member := ClockChainNearest(hz, fundamental);
      BestOfFew(OriginFor(hz, member, clock, tolerance), Unknown);
      origin := Best(origin, OriginFor(hz, member, clock, tolerance));
    }
    if Resolvable(raster.spacing, tolerance) {
      var channel := ExternalChannel(hz, raster.base, raster.spacing, clock);
      if channel > 0.0 && Separable(channel, clock, tolerance) {
        BestOfFew(if Near(hz, External(channel, clock), tolerance) then ExternalOne else Unexplained, Unknown);
        if Near(hz, External(channel, clock), tolerance) {
          origin := Best(origin, ExternalOne);
        } else {
          origin := Best(origin, Unexplained);
        }
      }
    }
  }

  lemma NoCrystalNoVerdict(hz: real, nominal: real, clock: Clock, tolerance: real)
    requires clock.crystal == 0.0 || !clock.Runs()
    ensures OriginFor(hz, nominal, clock, tolerance) == Unknown && !Separable(nominal, clock, tolerance)
  {
    if nominal > 0.0 { NothingSeparates(nominal, clock); }
  }

  /** A receiver nobody has measured gets no verdict, whatever grids are offered. */
  lemma UnmeasuredIsUnknown(reference: real, hz: real, clock: Clock, tolerance: real, raster: Raster, fundamental: real)
    requires clock.crystal == 0.0 || !clock.Runs()
    ensures OriginAt(reference, hz, clock, tolerance, raster, fundamental) == Unknown
  {
    hide OriginFor, Separable, NearestMultiple, ExternalMultiple, ChainNearest, ExternalChannel, OriginAt, BestOf;
    forall nominal ensures OriginFor(hz, nominal, clock, tolerance) == Unknown && !Separable(nominal, clock, tolerance) {
      NoCrystalNoVerdict(hz, nominal, clock, tolerance);
    }
    OriginAtIs(reference, hz, clock, tolerance, raster, fundamental);
    BestOfFew(Unknown, Unknown);
  }

  /** A receiver gets no verdict whatever it is asked exactly when nobody measured its crystal, or its clock cannot run. */
  lemma UnmeasuredOnly(clock: Clock)
    ensures (forall reference, hz, tolerance, raster, fundamental ::
               OriginAt(reference, hz, clock, tolerance, raster, fundamental) == Unknown)
       <==> clock.crystal == 0.0 || !clock.Runs()
  {
    hide OriginAt;
    if clock.crystal == 0.0 || !clock.Runs() {
      forall reference, hz, tolerance, raster, fundamental
        ensures OriginAt(reference, hz, clock, tolerance, raster, fundamental) == Unknown
      {
        UnmeasuredIsUnknown(reference, hz, clock, tolerance, raster, fundamental);
      }
    } else {
      MeasuredCanTell(clock);
    }
  }

  lemma MeasuredCanTell(clock: Clock)
    requires clock.crystal != 0.0 && clock.Runs()
    ensures OriginAt(0.0, 1.0, clock, Abs(Separation(ChainNearest(1.0, 1.0), clock)) / 3.0, Raster(0.0, 0.0), 1.0) != Unknown
  {
    hide Over, Times, OriginAt, BestOf, Separation, ChainNearest;
    var member := ChainNearest(1.0, 1.0);
    ChainIsPositive(1.0, 1.0);
    NothingSeparates(member, clock);
    var tolerance := Abs(Separation(member, clock)) / 3.0;
    OriginAtIs(0.0, 1.0, clock, tolerance, Raster(0.0, 0.0), 1.0);
    BestOfFew(OriginFor(1.0, member, clock, tolerance), Unknown);
  }

  lemma ChainIsPositive(hz: real, fundamental: real)
    requires hz > 0.0 && fundamental > 0.0
    ensures ChainNearest(hz, fundamental) > 0.0
  {
    hide Times;
    NearestMemberIsNearest(hz, fundamental, MAX_OCTAVES);
    var i: nat :| i <= MAX_OCTAVES && NearestMember(hz, fundamental, MAX_OCTAVES) == Member(fundamental, i);
    OctaveIsPositive(i);
    PositiveTimes(fundamental, Octave(i));
  }

  /** Asked for by a service's channels alone, nothing is ever called the receiver's. */
  lemma RasterNeverBlamesTheReceiver(hz: real, clock: Clock, tolerance: real, raster: Raster)
    ensures OriginAt(0.0, hz, clock, tolerance, raster, 0.0) != Receiver
    ensures OriginAt(0.0, hz, clock, tolerance, raster, 0.0) == ExternalOne <==>
              var channel := ExternalChannel(hz, raster.base, raster.spacing, clock);
              && Resolvable(raster.spacing, tolerance) && channel > 0.0 && Separable(channel, clock, tolerance)
              && Near(hz, External(channel, clock), tolerance)
  {
    hide OriginFor, Separable, NearestMultiple, ExternalMultiple, ChainNearest, ExternalChannel, OriginAt, BestOf, Resolvable, Near, External;
    OriginAtIs(0.0, hz, clock, tolerance, raster, 0.0);
    BestOfFew(ExternalOne, Unknown);
    BestOfFew(Unexplained, Unknown);
  }

  /** A transmitter on a channel, measured within the tolerance, is called external with its own channel named. */
  lemma TransmitterIsExternal(raster: Raster, n: nat, reading: real, clock: Clock, tolerance: real)
    requires raster.base >= 0.0 && Resolvable(raster.spacing, tolerance) && clock.Runs() && reading > 0.0
    requires var channel := Channel(raster.base, raster.spacing, n);
             && channel > 0.0 && Separable(channel, clock, tolerance) && Near(reading, External(channel, clock), tolerance)
    requires 2.0 * Times(tolerance, 1.0 + clock.E()) < raster.spacing
    ensures ExternalChannel(reading, raster.base, raster.spacing, clock) == Channel(raster.base, raster.spacing, n)
    ensures OriginAt(0.0, reading, clock, tolerance, raster, 0.0) == ExternalOne
  {
    hide OriginAt, ExternalChannel, Separable, Near, External, Channel, Times;
    InversionRecovers(raster.base, raster.spacing, n, clock, tolerance);
    RasterNeverBlamesTheReceiver(reading, clock, tolerance, raster);
  }

  // ------------------------------------------------------------------------ flags

  datatype Flag = NoFlag | ClockCoherent | Displaced | UnexplainedFlag

  /** Lines 705-741: the flag a verdict adds to the ones the frequency grids gave. */
  function SuspectOrigin(unresolved: bool, onReference: bool, noCarrier: bool, origin: Origin): Flag {
    match origin
    case Receiver => ClockCoherent
    case ExternalOne => Displaced
    case Unexplained => if unresolved && !onReference && !noCarrier then UnexplainedFlag else NoFlag
    case Unknown => NoFlag
  }

  /** An unmeasured receiver adds no flag. */
  lemma UnmeasuredAddsNothing(unresolved: bool, onReference: bool, noCarrier: bool, reference: real, hz: real,
                              clock: Clock, tolerance: real, raster: Raster, fundamental: real)
    requires clock.crystal == 0.0
    ensures SuspectOrigin(unresolved, onReference, noCarrier, OriginAt(reference, hz, clock, tolerance, raster, fundamental)) == NoFlag
  {
    UnmeasuredIsUnknown(reference, hz, clock, tolerance, raster, fundamental);
  }

  // ------------------------------------------------------------------ step centres

  /** How a sweep was stepped, lines 258-261 of survey_sweep.h. */
  datatype Plan = Plan(lower: real, stepSpan: real, stepCount: int)

  function StepCentre(plan: Plan, step: int): real { plan.lower + Times(step as real + 0.5, plan.stepSpan) }

  /** Whether any step at all was tuned within the tolerance. */
  ghost predicate TunedNear(plan: Plan, hz: real, tolerance: real) {
    exists s :: 0 <= s < plan.stepCount && Near(hz, StepCentre(plan, s), tolerance)
  }

  /** A step two or more away from the one a frequency is in is at least a step and a half away. */
  lemma FarSteps(plan: Plan, hz: real, s: int)
    requires plan.stepSpan > 0.0
    ensures var step := Over(hz - plan.lower, plan.stepSpan).Floor;
            s < step - 1 || s > step + 1 ==> Abs(hz - StepCentre(plan, s)) >= 1.5 * plan.stepSpan
  {
    var q := Over(hz - plan.lower, plan.stepSpan);
    var step := q.Floor;
    TimesOver(hz - plan.lower, plan.stepSpan);
    if s > step + 1 {
      ScaleOrder(q, s as real - 1.0, plan.stepSpan);
    } else if s < step - 1 {
      ScaleOrder(s as real + 2.0, q, plan.stepSpan);
    }
  }

  /** Lines 307-323 look at the step a frequency is in and the two beside it. */
  ghost predicate NearOfThree(plan: Plan, hz: real, tolerance: real)
    requires plan.stepSpan > 0.0
  {
    var step := Over(hz - plan.lower, plan.stepSpan).Floor;
    exists s :: step - 1 <= s <= step + 1 && 0 <= s < plan.stepCount && Near(hz, StepCentre(plan, s), tolerance)
  }

  /** Three steps are as good as all of them exactly for a tolerance under a step and a half. */
  lemma ThreeAreEnough(plan: Plan, tolerance: real)
    requires plan.stepSpan > 0.0 && plan.stepCount > 0
    ensures (forall hz :: NearOfThree(plan, hz, tolerance) <==> TunedNear(plan, hz, tolerance))
      <==> tolerance < 1.5 * plan.stepSpan
  {
    hide Times, Over, StepCentre;
    if tolerance < 1.5 * plan.stepSpan {
      forall hz ensures NearOfThree(plan, hz, tolerance) <==> TunedNear(plan, hz, tolerance) {
        forall s ensures Near(hz, StepCentre(plan, s), tolerance) ==>
            var step := Over(hz - plan.lower, plan.stepSpan).Floor; step - 1 <= s <= step + 1 {
          FarSteps(plan, hz, s);
        }
      }
    } else {
      var hz := plan.lower + Times(plan.stepCount as real + 1.0, plan.stepSpan);
      PastTheLast(plan, hz, tolerance);
      assert TunedNear(plan, hz, tolerance) && !NearOfThree(plan, hz, tolerance);
    }
  }

  /** One step past the end, the last step is a step and a half away and not one of the three. */
  lemma PastTheLast(plan: Plan, hz: real, tolerance: real)
    requires plan.stepSpan > 0.0 && plan.stepCount > 0 && tolerance >= 1.5 * plan.stepSpan
    requires hz == plan.lower + Times(plan.stepCount as real + 1.0, plan.stepSpan)
    ensures Over(hz - plan.lower, plan.stepSpan).Floor == plan.stepCount + 1
    ensures Near(hz, StepCentre(plan, plan.stepCount - 1), tolerance)
  {
    hide Over;
    TimesOver(plan.stepCount as real + 1.0, plan.stepSpan);
    assert Over(hz - plan.lower, plan.stepSpan) == plan.stepCount as real + 1.0;
  }

  /** Lines 307-323. */
  method AtStepCentre(plan: Plan, hz: real, tolerance: real) returns (found: bool)
    ensures found <==> plan.stepCount > 0 && plan.stepSpan > 0.0 && NearOfThree(plan, hz, tolerance)
  {
    hide Times, Over, StepCentre;
    if plan.stepCount <= 0 || !(plan.stepSpan > 0.0) { return false; }
    var step := Over(hz - plan.lower, plan.stepSpan).Floor;
    var s := step - 1;
    while s <= step + 1
      invariant step - 1 <= s <= step + 2
      invariant forall q :: step - 1 <= q < s && 0 <= q < plan.stepCount ==> !Near(hz, StepCentre(plan, q), tolerance)
    {
      if 0 <= s < plan.stepCount {
        if Near(hz, StepCentre(plan, s), tolerance) { return true; }
      }
      s := s + 1;
    }
    found := false;
  }
}
