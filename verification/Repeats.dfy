/**
  Does a stream repeat: the period search over decided symbols and the fold over
  samples, src/core/signal_probe.c:336-540. Thresholds are exact decimals.
 */
module Repeats {
  import opened Basics
  import opened Complex
  import Select

  const PROFILE_MAX: nat := 512
  const FOLD_SLOTS: nat := 512

  // ------------------------------------------------------------------- matching

  /** How many symbols before position n equal the one a lag earlier. */
  function Same(s: seq<int>, lag: nat, n: nat): (same: nat)
    requires n <= |s|
    ensures same <= if n > lag then n - lag else 0
  {
    if n <= lag then 0 else Same(s, lag, n - 1) + (if s[n - 1] == s[n - 1 - lag] then 1 else 0)
  }

  /** The fraction of the stream that repeats at a lag. */
  function Match(s: seq<int>, lag: nat): (m: real)
    ensures 0.0 <= m <= 1.0
  {
    if |s| > lag then Fraction(Same(s, lag, |s|), |s| - lag) else 0.0
  }

  function Fraction(part: nat, whole: nat): (f: real)
    requires 0 < whole && part <= whole
    ensures 0.0 <= f <= 1.0
    ensures f == 1.0 <==> part == whole
  {
    part as real / whole as real
  }

  /** Lines 336-345. */
  method PeriodMatch(s: seq<int>, lag: nat) returns (m: real)
    ensures m == Match(s, lag)
  {
    var same, total, k := 0, 0, lag;
    while k < |s|
      invariant lag <= k && (k <= |s| || k == lag)
      invariant k <= |s| ==> same == Same(s, lag, k) && total == k - lag
      invariant k > |s| ==> total == 0
    {
      if s[k] == s[k - lag] { same := same + 1; }
      total := total + 1;
      k := k + 1;
    }
    m := if total > 0 then Fraction(same, total) else 0.0;
  }

  ghost predicate Periodic(s: seq<int>, period: nat) {
    forall k | period <= k < |s| :: s[k] == s[k - period]
  }

  lemma {:induction false} AllSame(s: seq<int>, lag: nat, n: nat)
    requires lag <= n <= |s|
    ensures Same(s, lag, n) == n - lag <==> forall k | lag <= k < n :: s[k] == s[k - lag]
    decreases n
  {
    if n > lag { AllSame(s, lag, n - 1); }
  }

  /** A lag matches fully exactly when it is a period of the stream. */
  lemma FullMatchIsPeriodic(s: seq<int>, lag: nat)
    requires lag < |s|
    ensures Match(s, lag) == 1.0 <==> Periodic(s, lag)
  {
    AllSame(s, lag, |s|);
  }

  /** A multiple of a period is a period, so the strongest lag alone cannot name the fundamental. */
  lemma {:induction false} MultiplesRepeat(s: seq<int>, period: nat, times: nat)
    requires Periodic(s, period) && times > 0
    ensures Periodic(s, times * period)
    decreases times
  {
    if times > 1 {
      MultiplesRepeat(s, period, times - 1);
      var before := (times - 1) * period;
      assert times * period == before + period && before >= 0;
      forall k | times * period <= k < |s| ensures s[k] == s[k - times * period] {
        assert s[k] == s[k - before] == s[k - before - period];
      }
    } else {
      assert times * period == period;
    }
  }

  // ------------------------------------------------------------------ the search

  /** The best match over the lags from low up to but not including n. */
  function BestMatch(s: seq<int>, low: nat, n: nat): (best: real)
    ensures best >= 0.0
  {
    if n <= low then 0.0 else Max(Match(s, n - 1), BestMatch(s, low, n - 1))
  }

  /** The best match over the lags that are no multiple of the period. */
  function RunnerUp(s: seq<int>, period: nat, low: nat, n: nat): (best: real)
    requires period > 0
    ensures best >= 0.0
  {
    if n <= low then 0.0
    else if (n - 1) % period == 0 then RunnerUp(s, period, low, n - 1)
    else Max(Match(s, n - 1), RunnerUp(s, period, low, n - 1))
  }

  lemma {:induction false} BestMatchIsLargest(s: seq<int>, low: nat, n: nat)
    requires low < n
    ensures forall lag | low <= lag < n :: Match(s, lag) <= BestMatch(s, low, n)
    ensures exists lag :: low <= lag < n && Match(s, lag) == BestMatch(s, low, n)
    decreases n
  {
    hide Match;
    var last: nat := n - 1;
    if low < last {
      BestMatchIsLargest(s, low, last);
      if Match(s, last) > BestMatch(s, low, last) { assert Match(s, last) == BestMatch(s, low, n); }
    } else {
      assert BestMatch(s, low, last) == 0.0;
      assert Match(s, last) == BestMatch(s, low, n);
    }
  }

  lemma {:induction false} RunnerUpIsLargest(s: seq<int>, period: nat, low: nat, n: nat, lag: nat)
    requires period > 0 && low <= lag < n && lag % period != 0
    ensures Match(s, lag) <= RunnerUp(s, period, low, n)
    decreases n
  {
    hide Match;
    if lag < n - 1 { RunnerUpIsLargest(s, period, low, n - 1, lag); }
  }

  /** The smallest lag that matches as well as the best does, within a margin. */
  ghost predicate IsFundamental(s: seq<int>, low: nat, high: nat, period: nat) {
    var bar := BestMatch(s, low, high + 1) - 0.02;
    && low <= period <= high && Match(s, period) >= bar
    && forall lag | low <= lag < period :: Match(s, lag) < bar
  }

  /** The first lag from low on that matches at least that well. */
  function FirstMatching(s: seq<int>, bar: real, low: nat, high: nat): (lag: nat)
    requires exists l: nat :: low <= l <= high && Match(s, l) >= bar
    ensures low <= lag <= high && Match(s, lag) >= bar
    ensures forall l | low <= l < lag :: Match(s, l) < bar
    decreases high - low
  {
    if Match(s, low) >= bar then low else FirstMatching(s, bar, low + 1, high)
  }

  /** The fundamental: there is one, and one only. */
  function Fundamental(s: seq<int>, low: nat, high: nat): (period: nat)
    requires low <= high
    ensures IsFundamental(s, low, high, period)
  {
    BestMatchIsLargest(s, low, high + 1);
    FirstMatching(s, BestMatch(s, low, high + 1) - 0.02, low, high)
  }

  lemma FundamentalUnique(s: seq<int>, low: nat, high: nat, period: nat)
    requires low <= high
    ensures IsFundamental(s, low, high, period) <==> period == Fundamental(s, low, high)
  {
    hide Match, BestMatch, Fundamental;
  }

  /** Standing clear, not merely highest. */
  predicate StandsClear(best: real, runnerUp: real) { best >= 0.4 && best >= runnerUp * 1.4 }

  predicate Askable(count: nat, low: int, high: int) { count >= 4 * high && low >= 2 && high > low }

  datatype Repeat = Repeat(period: nat, repeat: real, runnerUp: real, profile: seq<real>, fixed: nat, varying: nat)

  /** Lines 360-370 and 385-390. */
  method FindPeriod(s: seq<int>, low: nat, high: nat) returns (period: nat)
    requires Askable(|s|, low, high)
    ensures period == Fundamental(s, low, high)
  {
    hide Match, Fundamental;
    var bestMatch, lag := 0.0, low;
    while lag <= high
      invariant low <= lag <= high + 1 && bestMatch == BestMatch(s, low, lag)
    {
      var m := PeriodMatch(s, lag);
      if m > bestMatch { bestMatch := m; }
      lag := lag + 1;
    }
    BestMatchIsLargest(s, low, high + 1);
    lag := low;
    while lag <= high
      invariant low <= lag <= high + 1
      invariant forall l | low <= l < lag :: Match(s, l) < bestMatch - 0.02
    {
      var m := PeriodMatch(s, lag);
      if m >= bestMatch - 0.02 {
        FundamentalUnique(s, low, high, lag);
        return lag;
      }
      lag := lag + 1;
    }
    assert false;
    period := low;
  }

  /** Lines 397-405. */
  method FindRunnerUp(s: seq<int>, period: nat, low: nat, high: nat) returns (runnerUp: real)
    requires period > 0 && low <= high
    ensures runnerUp == RunnerUp(s, period, low, high + 1)
  {
    hide Match;
    runnerUp := 0.0;
    var lag := low;
    while lag <= high
      invariant low <= lag <= high + 1 && runnerUp == RunnerUp(s, period, low, lag)
    {
      if lag % period != 0 {
        var m := PeriodMatch(s, lag);
        if m > runnerUp { runnerUp := m; }
      }
      lag := lag + 1;
    }
  }

  // ------------------------------------------------------------------ the profile

  /** How many positions from the period on fall on a slot, and how many of them repeat. */
  function SlotCount(period: nat, slot: nat, n: nat): nat
    requires period > 0
  {
    if n <= period then 0 else SlotCount(period, slot, n - 1) + (if (n - 1) % period == slot then 1 else 0)
  }

  function SlotHits(s: seq<int>, period: nat, slot: nat, n: nat): (hits: nat)
    requires period > 0 && n <= |s|
    ensures hits <= SlotCount(period, slot, n)
  {
    if n <= period then 0
    else SlotHits(s, period, slot, n - 1) + (if (n - 1) % period == slot && s[n - 1] == s[n - 1 - period] then 1 else 0)
  }

  function SlotShare(s: seq<int>, period: nat, slot: nat): real
    requires period > 0
  {
    if SlotCount(period, slot, |s|) > 0 then Fraction(SlotHits(s, period, slot, |s|), SlotCount(period, slot, |s|)) else 0.0
  }

  ghost function HitsUpTo(s: seq<int>, period: nat, slots: nat, n: nat): nat
    requires period > 0 && n <= |s|
  {
    if slots == 0 then 0 else HitsUpTo(s, period, slots - 1, n) + SlotHits(s, period, slots - 1, n)
  }

  ghost function CountUpTo(period: nat, slots: nat, n: nat): nat
    requires period > 0
  {
    if slots == 0 then 0 else CountUpTo(period, slots - 1, n) + SlotCount(period, slots - 1, n)
  }

  lemma {:induction false} OneMorePosition(s: seq<int>, period: nat, slots: nat, n: nat)
    requires period > 0 && period < n <= |s|
    ensures CountUpTo(period, slots, n) == CountUpTo(period, slots, n - 1) + (if (n - 1) % period < slots then 1 else 0)
    ensures HitsUpTo(s, period, slots, n) == HitsUpTo(s, period, slots, n - 1)
      + (if (n - 1) % period < slots && s[n - 1] == s[n - 1 - period] then 1 else 0)
    decreases slots
  {
    if slots > 0 { OneMorePosition(s, period, slots - 1, n); }
  }

  lemma {:induction false} NoPositions(s: seq<int>, period: nat, slots: nat, n: nat)
    requires period > 0 && n <= period && n <= |s|
    ensures CountUpTo(period, slots, n) == 0 && HitsUpTo(s, period, slots, n) == 0
    decreases slots
  {
    if slots > 0 { NoPositions(s, period, slots - 1, n); }
  }

  /** Every position past the first period is on one slot, and the slots' hits are the period's matches. */
  lemma {:induction false} ProfileAddsUp(s: seq<int>, period: nat, n: nat)
    requires period > 0 && n <= |s|
    ensures CountUpTo(period, period, n) == if n > period then n - period else 0
    ensures HitsUpTo(s, period, period, n) == Same(s, period, n)
    decreases n
  {
    if n <= period {
      NoPositions(s, period, period, n);
    } else {
      ProfileAddsUp(s, period, n - 1);
      OneMorePosition(s, period, period, n);
    }
  }

  ghost predicate IsProfile(s: seq<int>, period: nat, profile: seq<real>, fixed: nat, varying: nat)
    requires period > 0
  {
    && |profile| == period
    && (forall k | 0 <= k < period :: profile[k] == SlotShare(s, period, k))
    && fixed == |Above(profile)| && varying == |Below(profile)|
  }

  ghost function Above(profile: seq<real>): set<int> { set k | 0 <= k < |profile| && profile[k] > 0.9 }

  ghost function Below(profile: seq<real>): set<int> { set k | 0 <= k < |profile| && profile[k] < 0.4 }

  lemma OneMoreSlot(profile: seq<real>, k: nat)
    requires k < |profile|
    ensures |Above(profile[..k + 1])| == |Above(profile[..k])| + (if profile[k] > 0.9 then 1 else 0)
    ensures |Below(profile[..k + 1])| == |Below(profile[..k])| + (if profile[k] < 0.4 then 1 else 0)
  {
    var a, b := Above(profile[..k]), Below(profile[..k]);
    assert Above(profile[..k + 1]) == if profile[k] > 0.9 then a + {k} else a;
    assert Below(profile[..k + 1]) == if profile[k] < 0.4 then b + {k} else b;
  }

  /** Lines 424-445. */
  method Profile(s: seq<int>, period: nat) returns (profile: seq<real>, fixed: nat, varying: nat)
    requires period > 0
    ensures IsProfile(s, period, profile, fixed, varying)
  {
    hide SlotCount, SlotHits, Fraction;
    var counted, hit := new nat[period](_ => 0), new nat[period](_ => 0);
    NoSlots(s, period);
    var k := period;
    while k < |s|
      invariant period <= k && (k <= |s| || k == period)
      invariant forall slot :: 0 <= slot < period ==> counted[slot] == SlotCount(period, slot, Upto(k, |s|))
      invariant forall slot :: 0 <= slot < period ==> hit[slot] == SlotHits(s, period, slot, Upto(k, |s|))
    {
      var slot := k % period;
      SlotStep(s, period, k);
      counted[slot] := counted[slot] + 1;
      if s[k] == s[k - period] { hit[slot] := hit[slot] + 1; }
      k := k + 1;
    }
    assert Upto(k, |s|) == |s|;
    profile, fixed, varying := [], 0, 0;
    k := 0;
    while k < period
      invariant 0 <= k <= period && |profile| == k
      invariant forall slot :: 0 <= slot < period ==> counted[slot] == SlotCount(period, slot, |s|)
      invariant forall slot :: 0 <= slot < period ==> hit[slot] == SlotHits(s, period, slot, |s|)
      invariant forall slot :: 0 <= slot < k ==> profile[slot] == SlotShare(s, period, slot)
      invariant fixed == |Above(profile)| && varying == |Below(profile)|
    {
      ghost var before := profile;
      assert hit[k] <= counted[k];
      profile := profile + [if counted[k] > 0 then Fraction(hit[k], counted[k]) else 0.0];
      OneMoreSlot(profile, k);
      assert profile[..k] == before && profile[..k + 1] == profile;
      if profile[k] > 0.9 {
        fixed := fixed + 1;
      } else if profile[k] < 0.4 {
        varying := varying + 1;
      }
      k := k + 1;
    }
  }

  function Upto(k: nat, n: nat): nat { if k < n then k else n }

  lemma NoSlots(s: seq<int>, period: nat)
    requires period > 0
    ensures forall slot: nat :: SlotCount(period, slot, Upto(period, |s|)) == 0 && SlotHits(s, period, slot, Upto(period, |s|)) == 0
  {}

  lemma SlotStep(s: seq<int>, period: nat, k: nat)
    requires 0 < period <= k < |s|
    ensures forall slot: nat ::
              && SlotCount(period, slot, k + 1) == SlotCount(period, slot, k) + (if k % period == slot then 1 else 0)
              && SlotHits(s, period, slot, k + 1)
              == SlotHits(s, period, slot, k) + (if k % period == slot && s[k] == s[k - period] then 1 else 0)
  {}

  /** The whole of signal_repeat_find, lines 347-447. */
  method RepeatFind(s: seq<int>, low: int, high: int) returns (r: Option<Repeat>)
    ensures !Askable(|s|, low, high) ==> r == None
    ensures Askable(|s|, low, high) ==>
              var period := Fundamental(s, low, high);
              var runnerUp := RunnerUp(s, period, low, high + 1);
              && (r.Some? <==> StandsClear(Match(s, period), runnerUp))
              && (r.Some? ==>
                  && r.value.period == period && r.value.repeat == Match(s, period) && r.value.runnerUp == runnerUp
                  && if period <= PROFILE_MAX
                     then IsProfile(s, period, r.value.profile, r.value.fixed, r.value.varying)
                     else r.value.profile == [] && r.value.fixed == r.value.varying == 0)
  {
    hide Match, RunnerUp, IsProfile, Fundamental;
    if |s| < 4 * high || low < 2 || high <= low { return None; }
    var period := FindPeriod(s, low, high);
    var bestMatch := PeriodMatch(s, period);
    var runnerUp := FindRunnerUp(s, period, low, high);
    if bestMatch < 0.4 || bestMatch < runnerUp * 1.4 { return None; }
    var profile, fixed, varying := [], 0, 0;
    if period <= PROFILE_MAX {
      profile, fixed, varying := Profile(s, period);
    }
    r := Some(Repeat(period, bestMatch, runnerUp, profile, fixed, varying));
  }

  /**
    A stream with a period in the range is given the fundamental, never a
    harmonic: the period itself, unless a shorter lag matches to within the
    margin of a full match.
   */
  lemma PeriodIsFound(s: seq<int>, low: nat, high: nat, period: nat)
    requires Askable(|s|, low, high) && low <= period <= high && Periodic(s, period)
    ensures Fundamental(s, low, high) <= period
    ensures Fundamental(s, low, high) == period <==> forall lag | low <= lag < period :: Match(s, lag) < 0.98
  {
    hide Match, Fundamental;
    FundamentalUnique(s, low, high, period);
    FullMatchIsPeriodic(s, period);
    BestMatchIsLargest(s, low, high + 1);
    assert Match(s, period) == 1.0;
    var top: nat :| low <= top < high + 1 && Match(s, top) == BestMatch(s, low, high + 1);
    assert Match(s, top) <= 1.0;
    assert BestMatch(s, low, high + 1) == 1.0;
  }

  // ------------------------------------------------------- correlating over a lag

  function Conj(a: Cx): Cx { Cx(a.re, -a.im) }

  function Norm(a: Cx): real { a.re * a.re + a.im * a.im }

  /** The sum of each sample times the conjugate of the one a lag later. */
  ghost function LagSum(z: seq<Cx>, at: nat, lag: nat, n: nat): Cx
    requires at + lag + n <= |z|
  {
    if n == 0 then ZERO else Add(LagSum(z, at, lag, n - 1), Mul(z[at + n - 1], Conj(z[at + lag + n - 1])))
  }

  ghost function Energy(z: seq<Cx>, at: nat, n: nat): real
    requires at + n <= |z|
  {
    if n == 0 then 0.0 else Energy(z, at, n - 1) + Norm(z[at + n - 1])
  }

  /** The square of the correlation; the square root of it is what the source returns. */
  function Squared(sum: Cx, e1: real, e2: real): real {
    if e1 <= 0.0 || e2 <= 0.0 then 0.0 else Norm(sum) / (e1 * e2)
  }

  /** Lines 453-471. */
  method LagCorrelation(z: seq<Cx>, at: nat, lag: nat, window: nat) returns (squared: real)
    requires at + lag + window <= |z|
    ensures squared == Squared(LagSum(z, at, lag, window), Energy(z, at, window), Energy(z, at + lag, window))
  {
    hide Norm;
    var s, e1, e2, n := ZERO, 0.0, 0.0, 0;
    while n < window
      invariant 0 <= n <= window
      invariant s == LagSum(z, at, lag, n) && e1 == Energy(z, at, n) && e2 == Energy(z, at + lag, n)
    {
      var a, b := z[at + n], z[at + lag + n];
      s := Add(s, Mul(a, Conj(b)));
      e1, e2 := e1 + Norm(a), e2 + Norm(b);
      n := n + 1;
    }
    squared := Squared(s, e1, e2);
  }

  lemma NormMul(a: Cx, b: Cx)
    ensures Norm(Mul(a, b)) == Norm(a) * Norm(b)
  {}

  lemma NormConj(a: Cx)
    ensures Norm(Conj(a)) == Norm(a)
  {}

  lemma {:induction false} NormPow(w: Cx, k: nat)
    requires Norm(w) == 1.0
    ensures Norm(Pow(w, k)) == 1.0
    decreases k
  {
    hide Norm, Mul;
    if k > 0 {
      NormPow(w, k - 1);
      NormMul(Pow(w, k - 1), w);
    } else {
      NormOne();
    }
  }

  lemma NormOne()
    ensures Norm(ONE) == 1.0
  {}

  lemma Positive(a: real, b: real)
    requires a > 0.0 && b > 0.0
    ensures a * b > 0.0
  {}

  lemma SquareGrows(x: real, y: real)
    requires y >= 0.0
    ensures x > y ==> x * x > y * y
  {
    if x > y {
      Positive(x - y, x + y);
      assert (x - y) * (x + y) == x * x - y * y;
    }
  }

  /** Twice the inner product of two numbers, squared, is at most four times the product of their norms. */
  lemma InnerProduct(s: Cx, t: Cx)
    ensures var x := 2.0 * (s.re * t.re + s.im * t.im);
            x * x <= 4.0 * (Norm(s) * Norm(t)) && Norm(Add(s, t)) == Norm(s) + Norm(t) + x
  {
    var cross := s.re * t.im - s.im * t.re;
    var dot := s.re * t.re + s.im * t.im;
    assert Norm(s) * Norm(t) == dot * dot + cross * cross;
    SquareIsPositive(cross);
  }

  lemma ProductOrder(n: real, m: real, k: real)
    requires n <= m && k >= 0.0
    ensures n * k <= m * k
  {}

  lemma FourFactors(e1: real, e2: real, a: real, b: real)
    ensures e1 * e2 * (a * b) == e1 * b * (e2 * a)
  {
    assert e1 * e2 * (a * b) == e1 * (e2 * (a * b));
    assert e2 * (a * b) == b * (e2 * a);
    assert e1 * (b * (e2 * a)) == e1 * b * (e2 * a);
  }

  lemma SquareIsPositive(d: real)
    ensures d * d >= 0.0
  {}

  lemma SquareOfSum(p: real, q: real)
    ensures (p + q) * (p + q) == (p - q) * (p - q) + 4.0 * (p * q)
  {}

  lemma MeanSquares(p: real, q: real)
    ensures 4.0 * (p * q) <= (p + q) * (p + q)
  {
    SquareIsPositive(p - q);
    SquareOfSum(p, q);
  }

  /** A number whose square is under four times a product is under the sum of its factors. */
  lemma CrossBound(x: real, p: real, q: real, m: real)
    requires p >= 0.0 && q >= 0.0 && x * x <= 4.0 * m && m <= p * q
    ensures x <= p + q
  {
    MeanSquares(p, q);
    SquareGrows(x, p + q);
  }

  lemma ProductIsPositive(a: real, b: real)
    requires a >= 0.0 && b >= 0.0
    ensures a * b >= 0.0
  {}

  lemma ProductOfSums(e1: real, a: real, e2: real, b: real)
    ensures (e1 + a) * (e2 + b) == e1 * e2 + e1 * b + e2 * a + a * b
  {}

  lemma OneMoreTerm(ns: real, e1: real, e2: real, a: real, b: real, x: real)
    requires e1 >= 0.0 && e2 >= 0.0 && a >= 0.0 && b >= 0.0 && ns <= e1 * e2
    requires x * x <= 4.0 * (ns * (a * b))
    ensures ns + a * b + x <= (e1 + a) * (e2 + b)
  {
    ProductIsPositive(a, b);
    ProductIsPositive(e1, b);
    ProductIsPositive(e2, a);
    ProductOrder(ns, e1 * e2, a * b);
    FourFactors(e1, e2, a, b);
    CrossBound(x, e1 * b, e2 * a, ns * (a * b));
    ProductOfSums(e1, a, e2, b);
  }

  lemma NormIsPositive(a: Cx)
    ensures Norm(a) >= 0.0
  {}

  lemma {:induction false} SumBelowEnergies(z: seq<Cx>, at: nat, lag: nat, n: nat)
    requires at + lag + n <= |z|
    ensures Energy(z, at, n) >= 0.0 && Energy(z, at + lag, n) >= 0.0
    ensures Norm(LagSum(z, at, lag, n)) <= Energy(z, at, n) * Energy(z, at + lag, n)
    decreases n
  {
    hide Norm, Mul, Add;
    if n == 0 {
      NormZero();
    } else {
      SumBelowEnergies(z, at, lag, n - 1);
      var a, b := z[at + n - 1], z[at + lag + n - 1];
      var s, t := LagSum(z, at, lag, n - 1), Mul(a, Conj(b));
      NormMul(a, Conj(b));
      NormConj(b);
      NormIsPositive(a);
      NormIsPositive(b);
      InnerProduct(s, t);
      OneMoreTerm(Norm(s), Energy(z, at, n - 1), Energy(z, at + lag, n - 1), Norm(a), Norm(b),
                  2.0 * (s.re * t.re + s.im * t.im));
    }
  }

  lemma NormZero()
    ensures Norm(ZERO) == 0.0
  {}

  /** The correlation lies between nothing and a full match, and a stretch that repeats exactly is a full match. */
  lemma CorrelationInRange(z: seq<Cx>, at: nat, lag: nat, window: nat)
    requires at + lag + window <= |z|
    ensures 0.0 <= Squared(LagSum(z, at, lag, window), Energy(z, at, window), Energy(z, at + lag, window)) <= 1.0
    ensures z[at..at + window] == z[at + lag..at + lag + window] && Energy(z, at, window) > 0.0 ==>
              Squared(LagSum(z, at, lag, window), Energy(z, at, window), Energy(z, at + lag, window)) == 1.0
  {
    hide Norm, Mul, Add, LagSum, Energy, Squared;
    var s, e1, e2 := LagSum(z, at, lag, window), Energy(z, at, window), Energy(z, at + lag, window);
    SumBelowEnergies(z, at, lag, window);
    SquaredInRange(s, e1, e2);
    if z[at..at + window] == z[at + lag..at + lag + window] {
      ExactRepeat(z, at, lag, window);
      RealNorm(s, e1);
    }
  }

  lemma SquaredInRange(s: Cx, e1: real, e2: real)
    requires Norm(s) <= e1 * e2
    ensures 0.0 <= Squared(s, e1, e2) <= 1.0
  {
    hide Norm;
    NormIsPositive(s);
    if e1 > 0.0 && e2 > 0.0 { QuotientInRange(Norm(s), e1, e2); }
  }

  lemma QuotientInRange(n: real, e1: real, e2: real)
    requires e1 > 0.0 && e2 > 0.0 && 0.0 <= n <= e1 * e2
    ensures e1 * e2 > 0.0 && 0.0 <= n / (e1 * e2) <= 1.0
  {
    Positive(e1, e2);
    ShareInRange(n, e1 * e2);
  }

  lemma ShareInRange(n: real, d: real)
    requires d > 0.0 && 0.0 <= n <= d
    ensures 0.0 <= n / d <= 1.0
  {}

  lemma RealNorm(s: Cx, e: real)
    ensures s == Cx(e, 0.0) && e > 0.0 ==> Squared(s, e, e) == 1.0
  {
    if s == Cx(e, 0.0) && e > 0.0 {
      var d := e * e;
      PositiveSquare(e, d);
      assert Norm(s) == d;
      Whole(d);
    }
  }

  lemma PositiveSquare(e: real, d: real)
    requires e > 0.0 && d == e * e
    ensures d > 0.0
  {
    SquareGrows(e, 0.0);
  }

  lemma Whole(d: real)
    requires d > 0.0
    ensures d / d == 1.0
  {}

  lemma {:induction false} ExactRepeat(z: seq<Cx>, at: nat, lag: nat, n: nat)
    requires at + lag + n <= |z| && z[at..at + n] == z[at + lag..at + lag + n]
    ensures LagSum(z, at, lag, n) == Cx(Energy(z, at, n), 0.0) && Energy(z, at + lag, n) == Energy(z, at, n)
    decreases n
  {
    hide Norm, Mul;
    if n > 0 {
      var last: nat := n - 1;
      assert z[at..at + last] == z[at..at + n][..last] && z[at + lag..at + lag + last] == z[at + lag..at + lag + n][..last];
      ExactRepeat(z, at, lag, last);
      assert z[at..at + n][last] == z[at + lag..at + lag + n][last];
      SelfProduct(z[at + last]);
    }
  }

  lemma SelfProduct(a: Cx)
    ensures Mul(a, Conj(a)) == Cx(Norm(a), 0.0)
  {}

  /** A tuning error turns the samples by a constant step, which a lag correlation sees as one constant phase. */
  lemma RotatedTerm(a: Cx, b: Cx, p: Cx, l: Cx)
    requires Norm(p) == 1.0
    ensures Mul(Mul(a, p), Conj(Mul(b, Mul(p, l)))) == Mul(Mul(a, Conj(b)), Conj(l))
  {
    hide Norm, Mul;
    ConjMul(b, Mul(p, l));
    ConjMul(p, l);
    calc {
      Mul(Mul(a, p), Mul(Conj(b), Mul(Conj(p), Conj(l))));
      { Rearrange(a, p, Conj(b), Conj(p), Conj(l)); }
      Mul(Mul(Mul(a, Conj(b)), Conj(l)), Mul(p, Conj(p)));
      { TimesConj(p); }
      Mul(Mul(Mul(a, Conj(b)), Conj(l)), ONE);
      { MulUnits(Mul(Mul(a, Conj(b)), Conj(l))); }
      Mul(Mul(a, Conj(b)), Conj(l));
    }
  }

  lemma ConjMul(a: Cx, b: Cx)
    ensures Conj(Mul(a, b)) == Mul(Conj(a), Conj(b))
  {}

  lemma TimesConj(p: Cx)
    requires Norm(p) == 1.0
    ensures Mul(p, Conj(p)) == ONE
  {}

  lemma Swap(a: Cx, b: Cx)
    ensures Mul(a, b) == Mul(b, a)
  {}

  lemma Rearrange(a: Cx, p: Cx, b: Cx, q: Cx, l: Cx)
    ensures Mul(Mul(a, p), Mul(b, Mul(q, l))) == Mul(Mul(Mul(a, b), l), Mul(p, q))
  {
    hide Mul;
    MulAssoc(a, p, Mul(b, Mul(q, l)));
    Swap(p, Mul(b, Mul(q, l)));
    MulAssoc(b, Mul(q, l), p);
    Swap(q, l);
    MulAssoc(l, q, p);
    Swap(q, p);
    MulAssoc(b, l, Mul(p, q));
    MulAssoc(a, Mul(b, l), Mul(p, q));
    MulAssoc(a, b, l);
  }

  ghost predicate Turned(y: seq<Cx>, z: seq<Cx>, w: Cx) {
    |y| == |z| && forall n | 0 <= n < |z| :: y[n] == Mul(z[n], Pow(w, n))
  }

  lemma {:induction false} TurnedSums(y: seq<Cx>, z: seq<Cx>, w: Cx, at: nat, lag: nat, n: nat)
    requires Turned(y, z, w) && Norm(w) == 1.0 && at + lag + n <= |z|
    ensures LagSum(y, at, lag, n) == Mul(LagSum(z, at, lag, n), Conj(Pow(w, lag)))
    decreases n
  {
    hide Norm, Mul, Add, Pow;
    var c := Conj(Pow(w, lag));
    if n == 0 {
      ZeroTurned(c);
    } else {
      TurnedSums(y, z, w, at, lag, n - 1);
      var p: nat := at + n - 1;
      NormPow(w, p);
      PowAdd(w, p, lag);
      RotatedTerm(z[p], z[p + lag], Pow(w, p), Pow(w, lag));
      MulDistribute(c, LagSum(z, at, lag, n - 1), Mul(z[p], Conj(z[p + lag])));
      Swap(c, LagSum(z, at, lag, n));
      Swap(c, LagSum(z, at, lag, n - 1));
      Swap(c, Mul(z[p], Conj(z[p + lag])));
    }
  }

  lemma ZeroTurned(c: Cx)
    ensures Mul(ZERO, c) == ZERO
  {}

  lemma {:induction false} TurnedEnergy(y: seq<Cx>, z: seq<Cx>, w: Cx, at: nat, n: nat)
    requires Turned(y, z, w) && Norm(w) == 1.0 && at + n <= |z|
    ensures Energy(y, at, n) == Energy(z, at, n)
    decreases n
  {
    hide Norm, Mul, Pow;
    if n > 0 {
      TurnedEnergy(y, z, w, at, n - 1);
      NormPow(w, at + n - 1);
      NormMul(z[at + n - 1], Pow(w, at + n - 1));
    }
  }

  /** The correlation is immune to the receiver's tuning error: turning the samples does not change it. */
  lemma TuningErrorCancels(y: seq<Cx>, z: seq<Cx>, w: Cx, at: nat, lag: nat, window: nat)
    requires Turned(y, z, w) && Norm(w) == 1.0 && at + lag + window <= |z|
    ensures Squared(LagSum(y, at, lag, window), Energy(y, at, window), Energy(y, at + lag, window))
         == Squared(LagSum(z, at, lag, window), Energy(z, at, window), Energy(z, at + lag, window))
  {
    hide Norm, Mul, Pow, LagSum, Energy, Turned;
    TurnedSums(y, z, w, at, lag, window);
    TurnedEnergy(y, z, w, at, window);
    TurnedEnergy(y, z, w, at + lag, window);
    NormPow(w, lag);
    NormMul(LagSum(z, at, lag, window), Conj(Pow(w, lag)));
    NormConj(Pow(w, lag));
  }

  // ------------------------------------------------------------------------ the fold

  /** Where in the period a position falls. */
  function SlotOf(p: nat, lag: nat, slots: nat): (slot: nat)
    requires lag > 0
  {
    p % lag * slots / lag
  }

  lemma MonoTimes(a: int, b: int, c: nat)
    ensures a >= b ==> a * c >= b * c
    ensures a > b ==> a * c >= b * c + c
  {
    if a >= b { assert (a - b) * c >= 0; }
    if a > b { assert (a - b - 1) * c >= 0; }
  }

  /** q is the whole quotient of a by b. */
  lemma Quotient(a: nat, b: nat, q: nat)
    requires b > 0
    ensures a / b == q <==> q * b <= a < q * b + b
  {
    var r := a / b;
    assert a == r * b + a % b;
    MonoTimes(q, r, b);
    MonoTimes(r, q, b);
  }

  lemma RemainderIs(a: nat, b: nat, q: nat, r: nat)
    requires b > 0 && a == q * b + r && r < b
    ensures a % b == r && a / b == q
  {
    Quotient(a, b, q);
  }

  lemma SamePhase(p: nat, lag: nat)
    requires lag > 0
    ensures (p + lag) % lag == p % lag
  {
    RemainderIs(p + lag, lag, p / lag + 1, p % lag);
  }

  /** Positions a whole period apart fall on one slot, and every slot is one of those there are. */
  lemma SlotIsPeriodic(p: nat, lag: nat, slots: nat)
    requires lag > 0 && slots > 0
    ensures SlotOf(p + lag, lag, slots) == SlotOf(p, lag, slots) < slots
  {
    SamePhase(p, lag);
    BelowSlots(p % lag, lag, slots);
  }

  lemma BelowSlots(r: nat, lag: nat, slots: nat)
    requires r < lag && slots > 0
    ensures r * slots / lag < slots
  {
    var q := r * slots / lag;
    Quotient(r * slots, lag, q);
    MonoTimes(lag, r, slots);
    MonoTimes(q, slots, lag);
    assert slots * lag == lag * slots;
  }

  /** Position j of the fold, and the slot dividing by the step would give it. */
  function Naive(j: nat, slots: nat): nat
    requires slots > 0
  {
    j % slots
  }

  /** Counting steps instead of measuring inside the period agrees exactly when the steps fill the period. */
  lemma NaiveAgrees(lag: nat, step: nat, slots: nat)
    requires step > 0 && slots >= 4 && slots * step <= lag
    ensures lag > 0
    ensures (forall j: nat :: SlotOf(j * step, lag, slots) == Naive(j, slots)) <==> slots * step == lag
  {
    MonoTimes(slots, 4, step);
    if slots * step == lag {
      forall j: nat ensures SlotOf(j * step, lag, slots) == Naive(j, slots) {
        FullSteps(j, step, slots, lag);
      }
    } else {
      FirstStepDrifts(lag, step, slots);
      var one: nat := 1;
      assert one * step == step;
      assert SlotOf(one * step, lag, slots) != Naive(one, slots);
    }
  }

  lemma FirstStepDrifts(lag: nat, step: nat, slots: nat)
    requires step > 0 && slots >= 4 && slots * step < lag && step < lag
    ensures SlotOf(step, lag, slots) == 0 && Naive(1, slots) == 1
  {
    RemainderIs(step, lag, 0, step);
    Commutes(step, slots);
    RemainderIs(slots * step, lag, 0, slots * step);
  }

  lemma Commutes(a: nat, b: nat)
    ensures a * b == b * a && a * b >= 0
  {}

  lemma FullSteps(j: nat, step: nat, slots: nat, lag: nat)
    requires step > 0 && slots > 0 && slots * step == lag && lag > 0
    ensures SlotOf(j * step, lag, slots) == Naive(j, slots)
  {
    var q, r := j / slots, j % slots;
    StepsInPeriod(j, q, r, slots, step);
    MonoTimes(slots, r, step);
    RemainderIs(j * step, lag, q, r * step);
    Reorder(r, step, slots);
    RemainderIs(r * lag, lag, r, 0);
  }

  lemma StepsInPeriod(j: nat, q: nat, r: nat, slots: nat, step: nat)
    requires j == q * slots + r
    ensures j * step == q * (slots * step) + r * step
  {
    assert (q * slots + r) * step == q * slots * step + r * step;
    assert q * slots * step == q * (slots * step);
  }

  lemma Reorder(r: nat, step: nat, slots: nat)
    ensures r * step * slots == r * (slots * step)
  {
    assert r * step * slots == r * (step * slots);
  }

  /** Line 536: the phase reported for a slot. */
  function PhaseOf(slot: nat, lag: nat, slots: nat): nat
    requires slots > 0
  {
    slot * lag / slots
  }

  /**
    The phase reported for a slot lies in it exactly when the period's share of
    that slot starts on a whole sample; otherwise it is the sample just before.
   */
  lemma PhaseIsInSlot(slot: nat, lag: nat, slots: nat)
    requires 0 < slots <= lag && slot < slots
    ensures PhaseOf(slot, lag, slots) < lag
    ensures SlotOf(PhaseOf(slot, lag, slots), lag, slots) == slot <==> slot * lag % slots == 0
    ensures slot * lag % slots != 0 ==>
              slot > 0 && SlotOf(PhaseOf(slot, lag, slots), lag, slots) == slot - 1
              && SlotOf(PhaseOf(slot, lag, slots) + 1, lag, slots) == slot
  {
    hide SlotOf;
    var x, r := slot * lag / slots, slot * lag % slots;
    assert slot * lag == x * slots + r;
    PhaseInPeriod(slot, x, r, lag, slots);
    SlotStart(slot, x * slots, r, lag);
    SlotInside(x, lag, slots);
    if r != 0 {
      SlotAfter(slot, x, r, lag, slots);
      SlotInside(x + 1, lag, slots);
    }
  }

  lemma SlotInside(x: nat, lag: nat, slots: nat)
    requires x < lag
    ensures SlotOf(x, lag, slots) == x * slots / lag
  {
    assert x % lag == x by { RemainderIs(x, lag, 0, x); }
  }

  lemma SlotAfter(slot: nat, x: nat, r: nat, lag: nat, slots: nat)
    requires slot * lag == x * slots + r && 0 < r < slots <= lag
    ensures (x + 1) * slots / lag == slot
  {
    assert (x + 1) * slots == x * slots + slots;
    Quotient((x + 1) * slots, lag, slot);
  }

  lemma PhaseInPeriod(slot: nat, x: nat, r: nat, lag: nat, slots: nat)
    requires slot < slots <= lag && slot * lag == x * slots + r && r < slots
    ensures x < lag && (r != 0 ==> x + 1 < lag)
  {
    MonoTimes(slots, slot, lag);
    MonoTimes(x, lag, slots);
    MonoTimes(x + 1, lag, slots);
    assert slots * lag == lag * slots;
    assert (x + 1) * slots == x * slots + slots;
  }

  lemma SlotStart(slot: nat, start: nat, r: nat, lag: nat)
    requires slot * lag == start + r && r < lag
    ensures r == 0 ==> start / lag == slot
    ensures r != 0 ==> slot > 0 && start / lag == slot - 1
  {
    Quotient(start, lag, slot);
    if r != 0 {
      ZeroTimes(slot, lag);
      assert (slot - 1) * lag == slot * lag - lag;
      Quotient(start, lag, slot - 1);
    }
  }

  lemma ZeroTimes(a: nat, b: nat)
    ensures a == 0 ==> a * b == 0
  {}

  /** What the first n positions put on a slot: their correlations, and how many they are. */
  function FoldSum(corr: nat -> real, lag: nat, step: nat, slots: nat, n: nat, slot: nat): real
    requires lag > 0
  {
    if n == 0 then 0.0
    else FoldSum(corr, lag, step, slots, n - 1, slot)
         + (if SlotOf((n - 1) * step, lag, slots) == slot then corr((n - 1) * step) else 0.0)
  }

  function FoldHits(lag: nat, step: nat, slots: nat, n: nat, slot: nat): nat
    requires lag > 0
  {
    if n == 0 then 0
    else FoldHits(lag, step, slots, n - 1, slot) + (if SlotOf((n - 1) * step, lag, slots) == slot then 1 else 0)
  }

  function FoldMean(corr: nat -> real, lag: nat, step: nat, slots: nat, n: nat, slot: nat): real
    requires lag > 0
  {
    if FoldHits(lag, step, slots, n, slot) == 0 then 0.0
    else FoldSum(corr, lag, step, slots, n, slot) / FoldHits(lag, step, slots, n, slot) as real
  }

  function FoldMeans(corr: nat -> real, lag: nat, step: nat, slots: nat, n: nat): (means: seq<real>)
    requires lag > 0
    ensures |means| == slots && forall k | 0 <= k < slots :: means[k] == FoldMean(corr, lag, step, slots, n, k)
  {
    seq(slots, k requires 0 <= k < slots => FoldMean(corr, lag, step, slots, n, k))
  }

  datatype Fold = Fold(peak: real, floor: real, ratio: real, phase: nat, slots: nat, step: nat)

  function SlotsFor(lag: nat, step: nat): nat
    requires step > 0
  {
    if lag / step > FOLD_SLOTS then FOLD_SLOTS else lag / step
  }

  /**
    Whatever slot the peak falls on, the phase reported for it lies in it, exactly
    when the slots the period is divided into divide it evenly.
   */
  lemma PhasesAreInTheirSlots(lag: nat, step: nat)
    requires step > 0 && SlotsFor(lag, step) >= 4
    ensures lag > 0
    ensures var slots := SlotsFor(lag, step);
            (forall slot: nat | slot < slots :: SlotOf(PhaseOf(slot, lag, slots), lag, slots) == slot) <==> lag % slots == 0
  {
    hide SlotOf, PhaseOf;
    var slots := SlotsFor(lag, step);
    SlotsFit(lag, step);
    if lag % slots == 0 {
      forall slot: nat | slot < slots ensures SlotOf(PhaseOf(slot, lag, slots), lag, slots) == slot {
        StartsWhole(slot, lag, slots);
        PhaseIsInSlot(slot, lag, slots);
      }
    } else {
      var second: nat := 1;
      assert second * lag == lag;
      PhaseIsInSlot(second, lag, slots);
      assert SlotOf(PhaseOf(second, lag, slots), lag, slots) != second;
    }
  }

  lemma SlotsFit(lag: nat, step: nat)
    requires step > 0
    ensures SlotsFor(lag, step) <= lag
  {
    var q := lag / step;
    Quotient(lag, step, q);
    MonoTimes(step, 1, q);
    assert step * q == q * step;
  }

  lemma StartsWhole(slot: nat, lag: nat, slots: nat)
    requires slots > 0 && lag % slots == 0
    ensures slot * lag % slots == 0
  {
    var q := lag / slots;
    assert lag == q * slots;
    assert slot * lag == slot * q * slots;
    RemainderIs(slot * lag, slots, slot * q, 0);
  }

  /** Nine samples folded two apart make four slots: the second starts at two and a quarter, and is reported at two. */
  lemma PhaseBeforeItsSlot()
    ensures SlotsFor(9, 2) == 4 && PhaseOf(1, 9, 4) == 2 && SlotOf(2, 9, 4) == 0
  {
    RemainderIs(2, 9, 0, 2);
  }

  /** The loudest of the means, if any is above zero, and the first slot that has it. */
  ghost predicate IsPeak(means: seq<real>, peak: real, slot: nat) {
    && (forall m <- means :: m <= peak) && peak >= 0.0
    && (peak == 0.0 ==> slot == 0)
    && (peak > 0.0 ==> slot < |means| && means[slot] == peak && forall k | 0 <= k < slot :: means[k] < peak)
  }

  /** Lines 502-522: fold the correlations over the period. */
  method Gather(corr: nat -> real, pairCount: nat, lag: nat, window: nat, step: nat, slots: nat)
      returns (means: seq<real>)
    requires lag > 0 && step > 0 && slots > 0 && lag + window <= pairCount
    ensures means == FoldMeans(corr, lag, step, slots, Positions(pairCount, lag + window, step))
  {
    hide SlotOf;
    var acc, hits := new real[slots](_ => 0.0), new nat[slots](_ => 0);
    var p := 0;
    ghost var n := 0;
    while p + lag + window <= pairCount
      invariant p == n * step && n >= 0
      invariant n > 0 ==> (n - 1) * step + lag + window <= pairCount
      invariant forall k :: 0 <= k < slots ==> acc[k] == FoldSum(corr, lag, step, slots, n, k)
      invariant forall k :: 0 <= k < slots ==> hits[k] == FoldHits(lag, step, slots, n, k)
      decreases pairCount - p
    {
      var slot := SlotOf(p, lag, slots);
      SlotIsPeriodic(p, lag, slots);
      acc[slot] := acc[slot] + corr(p);
      hits[slot] := hits[slot] + 1;
      n := n + 1;
      assert (n - 1) * step == p;
      p := p + step;
      assert n * step == p;
    }
    LastPosition(n, step, lag + window, pairCount);
    means := [];
    var k := 0;
    while k < slots
      invariant 0 <= k <= slots && |means| == k
      invariant forall j | 0 <= j < k :: means[j] == FoldMean(corr, lag, step, slots, n, j)
    {
      means := means + [if hits[k] != 0 then acc[k] / hits[k] as real else 0.0];
      k := k + 1;
    }
  }

  /** How many positions, a step apart, leave room for the lag and the window. */
  function Positions(pairCount: nat, reach: nat, step: nat): nat
    requires reach <= pairCount && step > 0
  {
    (pairCount - reach) / step + 1
  }

  lemma LastPosition(n: nat, step: nat, reach: nat, pairCount: nat)
    requires step > 0 && reach <= pairCount && n * step + reach > pairCount
    requires n > 0 ==> (n - 1) * step + reach <= pairCount
    ensures n == Positions(pairCount, reach, step)
  {
    if n == 0 {
      ZeroTimes(n, step);
      assert false;
    }
    assert n * step == (n - 1) * step + step;
    Quotient(pairCount - reach, step, n - 1);
  }

  /** They are all the positions there are. */
  lemma AllPositions(pairCount: nat, reach: nat, step: nat, j: nat)
    requires reach <= pairCount && step > 0
    ensures j * step + reach <= pairCount <==> j < Positions(pairCount, reach, step)
  {
    var q := (pairCount - reach) / step;
    Quotient(pairCount - reach, step, q);
    MonoTimes(q, j, step);
    MonoTimes(j, q, step);
  }

  /** f is the fold of every position there is, with its peak in the slot. */
  ghost predicate IsFold(f: Fold, corr: nat -> real, pairCount: nat, lag: nat, window: nat, step: nat, slot: nat)
    requires lag > 0 && step > 0 && lag + window <= pairCount
  {
    && f.slots == SlotsFor(lag, step) >= 4 && f.step == step
    && var means := FoldMeans(corr, lag, step, f.slots, Positions(pairCount, lag + window, step));
       && IsPeak(means, f.peak, slot) && slot < f.slots && f.phase == PhaseOf(slot, lag, f.slots)
       && f.floor == Select.Sort(means)[f.slots / 2]
       && f.ratio == if f.floor > 0.0 then f.peak / f.floor else 0.0
  }

  lemma NoPeak(means: seq<real>)
    requires means == []
    ensures IsPeak(means, 0.0, 0)
  {}

  lemma PeakStep(means: seq<real>, peak: real, slot: nat, m: real)
    requires IsPeak(means, peak, slot)
    ensures if m > peak then IsPeak(means + [m], m, |means|) else IsPeak(means + [m], peak, slot)
  {
    forall k | 0 <= k < |means| ensures means[k] <= peak { assert means[k] in means; }
  }

  /** The whole of signal_fold_at, lines 473-540, over any correlation. */
  method FoldAt(corr: nat -> real, pairCount: nat, lag: nat, window: nat, step: nat) returns (r: Option<Fold>)
    ensures r.Some? <==> lag > 0 && window > 0 && step > 0 && lag + window <= pairCount && SlotsFor(lag, step) >= 4
    ensures r.Some? ==> exists slot: nat :: IsFold(r.value, corr, pairCount, lag, window, step, slot)
  {
    hide FoldMean, FoldMeans, Select.Sort, Select.Insert, IsPeak;
    if lag == 0 || window == 0 || step == 0 { return None; }
    if lag + window > pairCount { return None; }
    var slots := SlotsFor(lag, step);
    if slots < 4 { return None; }
    var means := Gather(corr, pairCount, lag, window, step, slots);
    var best, bestSlot, p := 0.0, 0, 0;
    NoPeak(means[..0]);
    while p < slots
      invariant 0 <= p <= slots && 0 <= bestSlot < slots
      invariant IsPeak(means[..p], best, bestSlot)
    {
      assert means[..p + 1] == means[..p] + [means[p]];
      PeakStep(means[..p], best, bestSlot, means[p]);
      if means[p] > best { best, bestSlot := means[p], p; }
      p := p + 1;
    }
    assert means[..slots] == means;
    var floor := Select.Sort(means)[slots / 2];
    var fold := Fold(best, floor, if floor > 0.0 then best / floor else 0.0, PhaseOf(bestSlot, lag, slots), slots, step);
    assert IsFold(fold, corr, pairCount, lag, window, step, bestSlot);
    r := Some(fold);
  }

  // ----------------------------------------------- what the fold shows of a correlation

  /** The correlation the source folds: the root of the squared one, at every position with room for it. */
  ghost predicate Correlates(corr: nat -> real, z: seq<Cx>, lag: nat, window: nat) {
    forall p: nat | p + lag + window <= |z| ::
      && corr(p) >= 0.0
      && corr(p) * corr(p) == Squared(LagSum(z, p, lag, window), Energy(z, p, window), Energy(z, p + lag, window))
  }

  lemma RootInRange(r: real)
    requires r >= 0.0 && r * r <= 1.0
    ensures r <= 1.0 && (r * r == 1.0 ==> r == 1.0)
  {
    SquareGrows(r, 1.0);
    SquareGrows(1.0, r);
  }

  /** No position correlates more than fully, and one whose stretch comes again a lag later does so fully. */
  lemma RepeatedIsFull(corr: nat -> real, z: seq<Cx>, lag: nat, window: nat, p: nat)
    requires Correlates(corr, z, lag, window) && p + lag + window <= |z|
    ensures 0.0 <= corr(p) <= 1.0
    ensures z[p..p + window] == z[p + lag..p + lag + window] && Energy(z, p, window) > 0.0 ==> corr(p) == 1.0
  {
    hide Squared, LagSum, Energy;
    CorrelationInRange(z, p, lag, window);
    RootInRange(corr(p));
  }

  /** Every one of the first n positions that falls on the slot correlates fully. */
  ghost predicate AllFull(corr: nat -> real, lag: nat, step: nat, slots: nat, n: nat, slot: nat)
    requires lag > 0
  {
    forall j: nat | j < n && SlotOf(j * step, lag, slots) == slot :: corr(j * step) == 1.0
  }

  lemma {:induction false} FoldBelowHits(corr: nat -> real, lag: nat, step: nat, slots: nat, n: nat, slot: nat)
    requires lag > 0 && forall j: nat | j < n :: corr(j * step) <= 1.0
    ensures FoldSum(corr, lag, step, slots, n, slot) <= FoldHits(lag, step, slots, n, slot) as real
    ensures FoldSum(corr, lag, step, slots, n, slot) == FoldHits(lag, step, slots, n, slot) as real
         <==> AllFull(corr, lag, step, slots, n, slot)
    decreases n
  {
    hide SlotOf;
    if n > 0 { FoldBelowHits(corr, lag, step, slots, n - 1, slot); }
  }

  lemma ShareOfHits(sum: real, hits: nat)
    requires hits > 0 && sum <= hits as real
    ensures sum / hits as real <= 1.0 && (sum / hits as real == 1.0 <==> sum == hits as real)
  {}

  /** A slot's mean is full exactly when some position falls on it and every one that does correlates fully. */
  lemma FullMean(corr: nat -> real, lag: nat, step: nat, slots: nat, n: nat, slot: nat)
    requires lag > 0 && forall j: nat | j < n :: corr(j * step) <= 1.0
    ensures FoldMean(corr, lag, step, slots, n, slot) <= 1.0
    ensures FoldMean(corr, lag, step, slots, n, slot) == 1.0
         <==> FoldHits(lag, step, slots, n, slot) > 0 && AllFull(corr, lag, step, slots, n, slot)
  {
    hide SlotOf, FoldSum, FoldHits, AllFull;
    FoldBelowHits(corr, lag, step, slots, n, slot);
    if FoldHits(lag, step, slots, n, slot) > 0 {
      ShareOfHits(FoldSum(corr, lag, step, slots, n, slot), FoldHits(lag, step, slots, n, slot));
    }
  }

  lemma {:induction false} StartIsHit(lag: nat, step: nat, slots: nat, n: nat)
    requires lag > 0 && n > 0
    ensures FoldHits(lag, step, slots, n, 0) > 0
    decreases n
  {
    if n > 1 {
      StartIsHit(lag, step, slots, n - 1);
    } else {
      ZeroTimes(0, step);
      ZeroTimes(0, slots);
      RemainderIs(0, lag, 0, 0);
    }
  }

  lemma SameStretch(z: seq<Cx>, lag: nat, p: nat, window: nat)
    requires p + lag + window <= |z| && forall n | lag <= n < |z| :: z[n] == z[n - lag]
    ensures z[p..p + window] == z[p + lag..p + lag + window]
  {
    var first, again := z[p..p + window], z[p + lag..p + lag + window];
    forall k | 0 <= k < window ensures first[k] == again[k] {
      assert z[p + lag + k] == z[p + lag + k - lag];
    }
  }

  /**
    Samples that repeat at the lag, with energy in every window, fold to a peak of
    exactly one at the start of the period: every slot reached has a full mean, so
    such a stream stands over its floor only by the slots nothing fell on.
   */
  lemma PeriodicFoldsFull(f: Fold, corr: nat -> real, z: seq<Cx>, lag: nat, window: nat, step: nat, slot: nat)
    requires lag > 0 && step > 0 && lag + window <= |z| && Correlates(corr, z, lag, window)
    requires forall n | lag <= n < |z| :: z[n] == z[n - lag]
    requires forall p: nat | p + lag + window <= |z| :: Energy(z, p, window) > 0.0
    requires IsFold(f, corr, |z|, lag, window, step, slot)
    ensures var n := Positions(|z|, lag + window, step);
            forall k: nat | k < f.slots ::
              FoldMean(corr, lag, step, f.slots, n, k) == if FoldHits(lag, step, f.slots, n, k) > 0 then 1.0 else 0.0
    ensures f.peak == 1.0 && f.phase == 0
  {
    hide Correlates, SlotOf, Positions, FoldHits, FoldSum, FoldMean, Energy;
    var n := Positions(|z|, lag + window, step);
    forall j: nat | j < n ensures corr(j * step) == 1.0 {
      AllPositions(|z|, lag + window, step, j);
      var p: nat := j * step;
      SameStretch(z, lag, p, window);
      RepeatedIsFull(corr, z, lag, window, p);
    }
    forall k: nat | k < f.slots
      ensures FoldMean(corr, lag, step, f.slots, n, k) == if FoldHits(lag, step, f.slots, n, k) > 0 then 1.0 else 0.0
    {
      FullMean(corr, lag, step, f.slots, n, k);
      if FoldHits(lag, step, f.slots, n, k) == 0 { EmptySlot(corr, lag, step, f.slots, n, k); }
    }
    assert n > 0 by { OnePosition(|z|, lag + window, step); }
    StartIsHit(lag, step, f.slots, n);
    FirstIsPeak(FoldMeans(corr, lag, step, f.slots, n), f.peak, slot);
    PhaseAtStart(lag, f.slots);
  }

  lemma EmptySlot(corr: nat -> real, lag: nat, step: nat, slots: nat, n: nat, slot: nat)
    requires lag > 0 && FoldHits(lag, step, slots, n, slot) == 0
    ensures FoldMean(corr, lag, step, slots, n, slot) == 0.0
  {}

  lemma OnePosition(pairCount: nat, reach: nat, step: nat)
    requires reach <= pairCount && step > 0
    ensures Positions(pairCount, reach, step) > 0
  {}

  lemma FirstIsPeak(means: seq<real>, peak: real, slot: nat)
    requires IsPeak(means, peak, slot) && |means| > 0 && means[0] == 1.0 && forall m <- means :: m <= 1.0
    ensures peak == 1.0 && slot == 0
  {
    assert means[0] in means;
    assert slot < |means| && means[slot] in means;
  }

  lemma PhaseAtStart(lag: nat, slots: nat)
    requires slots > 0
    ensures PhaseOf(0, lag, slots) == 0
  {
    ZeroTimes(0, lag);
    RemainderIs(0, slots, 0, 0);
  }
}
