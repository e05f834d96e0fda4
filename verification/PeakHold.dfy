/**
  The peak-hold state of one signal frame, src/core/signal_frame.c:6-132. Blocks
  arrive, the hold is raised to them, time fades it, and a change of transform
  size or an invalidation starts it again. What the hold then shows has a closed
  form over everything that happened since it was started.

  Converting bytes to samples and taking the spectrum are inputs here: a block is
  already centred I/Q, and `spectrum` is any function keeping SpectrumContract.
 */
module PeakHold {
  import opened Basics
  import opened Complex
  import Spectrum

  const PAIRS: nat := 131072
  const FFT_MAX: nat := 16384
  const FFT_DEFAULT: nat := 2048
  const DBFS_FLOOR := Spectrum.DBFS_FLOOR

  /** The strongest level of each bin over the whole windows of a block (lines 736-786 of sdr_dsp.c). */
  type LevelsOf = (seq<real>, seq<real>, nat) -> seq<real>

  /** Of whole windows a spectrum has one level for each bin, none under the floor (lines 776-785 of sdr_dsp.c). */
  ghost predicate SpectrumContract(spectrum: LevelsOf) {
    forall i: seq<real>, q: seq<real>, bins: nat {:trigger spectrum(i, q, bins)} ::
      Spectrum.SizeValid(bins) && |i| == |q| && |i| >= bins ==>
      |spectrum(i, q, bins)| == bins && forall l <- spectrum(i, q, bins) :: l >= DBFS_FLOOR
  }

  /** The weights of each size of transform, the full scale, the twiddles and the logarithm a frame measures with. */
  datatype Settings = Settings(hann: nat -> seq<real>, hannSum: nat -> real, fullScale: real,
                               step: nat -> (nat -> Cx), db: real -> real)

  ghost predicate Usable(s: Settings) {
    && s.fullScale != 0.0 && Spectrum.IsLevel(s.db)
    && forall size: nat | Spectrum.SizeValid(size) :: |s.hann(size)| == size && s.hannSum(size) != 0.0
  }

  /** The spectrum a frame is given: the largest levels sdr_dsp_spectrum writes. */
  ghost function SpectrumWith(s: Settings): LevelsOf
    requires Usable(s)
  {
    (i: seq<real>, q: seq<real>, bins: nat) =>
      if Spectrum.SizeValid(bins) && |i| == |q| && |i| >= bins
      then Spectrum.MaximumLevels(Spectrum.Block(i, q, s.hann(bins), s.hannSum(bins), s.fullScale), s.step(bins), s.db, bins)
      else []
  }

  lemma LevelsWith(s: Settings, i: seq<real>, q: seq<real>, bins: nat)
    requires Usable(s) && Spectrum.SizeValid(bins) && |i| == |q| && |i| >= bins
    ensures var levels := SpectrumWith(s)(i, q, bins); |levels| == bins && forall l <- levels :: l >= DBFS_FLOOR
  {
    hide Spectrum.SizeValid, Spectrum.MaximumLevels;
    Spectrum.LevelsAboveFloor(Spectrum.Block(i, q, s.hann(bins), s.hannSum(bins), s.fullScale), s.step(bins), s.db, bins);
  }

  /** It keeps the contract, so everything below holds of the receiver's own spectrum. */
  lemma SpectrumKeepsContract(s: Settings)
    requires Usable(s)
    ensures SpectrumContract(SpectrumWith(s))
  {
    hide Spectrum.SizeValid, SpectrumWith, Usable;
    forall i: seq<real>, q: seq<real>, bins: nat | Spectrum.SizeValid(bins) && |i| == |q| && |i| >= bins
      ensures |SpectrumWith(s)(i, q, bins)| == bins && forall l <- SpectrumWith(s)(i, q, bins) :: l >= DBFS_FLOOR
    {
      LevelsWith(s, i, q, bins);
    }
  }

  // -------------------------------------------------------------- closed form

  /** What happened to the hold since it was last started, and when. */
  datatype Event = Block(levels: seq<real>, at: real) | Fade(amount: real, at: real, rate: real)

  ghost function Faded(level: real, e: Event): real {
    if e.Fade? then Max(DBFS_FLOOR, level - e.amount) else level
  }

  /** What block j still contributes to a bin: its level, faded by every fade since. */
  ghost function Contribution(log: seq<Event>, j: nat, bin: nat): real
    requires j < |log| && log[j].Block? && bin < |log[j].levels|
    decreases |log|
  {
    var last := |log| - 1;
    if j == last then Max(DBFS_FLOOR, log[j].levels[bin]) else Faded(Contribution(log[..last], j, bin), log[last])
  }

  /** A history of one geometry: every block has this many bins, none under the floor. */
  ghost predicate OneGeometry(log: seq<Event>, bins: nat) {
    forall j | 0 <= j < |log| && log[j].Block? ::
      |log[j].levels| == bins && forall l <- log[j].levels :: l >= DBFS_FLOOR
  }

  /** v is the largest contribution any block still makes to the bin. */
  ghost predicate IsHold(log: seq<Event>, bins: nat, bin: nat, v: real)
    requires bin < bins && OneGeometry(log, bins)
  {
    && (forall j | 0 <= j < |log| && log[j].Block? :: Contribution(log, j, bin) <= v)
    && (exists j :: 0 <= j < |log| && log[j].Block? && Contribution(log, j, bin) == v)
  }

  lemma OneMoreEvent(log: seq<Event>, e: Event, j: nat, bin: nat)
    requires j < |log| && log[j].Block? && bin < |log[j].levels|
    ensures (log + [e])[j] == log[j] && Contribution(log + [e], j, bin) == Faded(Contribution(log, j, bin), e)
  {
    assert (log + [e])[..|log|] == log;
  }

  /** Lines 92-95: a block raises the hold to its own level. */
  lemma HoldAfterBlock(log: seq<Event>, bins: nat, bin: nat, v: real, e: Event)
    requires e.Block? && bin < bins == |e.levels| && OneGeometry(log, bins) && IsHold(log, bins, bin, v)
    requires forall l <- e.levels :: l >= DBFS_FLOOR
    ensures OneGeometry(log + [e], bins)
    ensures IsHold(log + [e], bins, bin, Max(e.levels[bin], v))
  {
    hide Contribution;
    var next := log + [e];
    forall j: nat | j < |log| && log[j].Block?
      ensures next[j] == log[j] && Contribution(next, j, bin) == Contribution(log, j, bin)
    {
      OneMoreEvent(log, e, j, bin);
    }
    assert e.levels[bin] in e.levels;
    LastContribution(next, bin);
    if e.levels[bin] > v {
      var last: nat := |log|;
      assert next[last].Block? && Contribution(next, last, bin) == e.levels[bin];
    } else {
      var j :| 0 <= j < |log| && log[j].Block? && Contribution(log, j, bin) == v;
      assert Contribution(next, j, bin) == v;
    }
  }

  lemma LastContribution(log: seq<Event>, bin: nat)
    requires log != [] && log[|log| - 1].Block? && bin < |log[|log| - 1].levels|
    ensures Contribution(log, |log| - 1, bin) == Max(DBFS_FLOOR, log[|log| - 1].levels[bin])
  {}

  lemma HoldOfFirstBlock(bins: nat, bin: nat, e: Event)
    requires e.Block? && bin < bins == |e.levels| && forall l <- e.levels :: l >= DBFS_FLOOR
    ensures OneGeometry([e], bins) && IsHold([e], bins, bin, e.levels[bin])
  {
    var log, first: nat := [e], 0;
    assert e.levels[bin] in e.levels;
    LastContribution(log, bin);
    assert log[first].Block? && Contribution(log, first, bin) == e.levels[bin];
  }

  /** Lines 128-130: fading the hold fades every block's contribution alike. */
  lemma HoldAfterFade(log: seq<Event>, bins: nat, bin: nat, v: real, e: Event)
    requires e.Fade? && bin < bins && OneGeometry(log, bins) && IsHold(log, bins, bin, v)
    ensures OneGeometry(log + [e], bins)
    ensures IsHold(log + [e], bins, bin, Max(DBFS_FLOOR, v - e.amount))
  {
    hide Contribution;
    var next := log + [e];
    forall j: nat | j < |log| && log[j].Block?
      ensures next[j] == log[j] && Contribution(next, j, bin) == Max(DBFS_FLOOR, Contribution(log, j, bin) - e.amount)
    {
      OneMoreEvent(log, e, j, bin);
    }
    var j :| 0 <= j < |log| && log[j].Block? && Contribution(log, j, bin) == v;
    assert Contribution(next, j, bin) == Max(DBFS_FLOOR, v - e.amount);
  }

  // ------------------------------------------------------------- fading by the clock

  /** How far the hold falls in a time that passed. */
  function Decay(elapsed: real, dbPerSecond: real): real { elapsed * dbPerSecond }

  /** How much the hold has been faded after event j. */
  ghost function FadedSince(log: seq<Event>, j: nat): real
    requires j < |log|
    decreases |log|
  {
    var last := |log| - 1;
    if j == last then 0.0 else FadedSince(log[..last], j) + (if log[last].Fade? then log[last].amount else 0.0)
  }

  /** Every fade is for the time since the event before it, at a rate that is the caller's. */
  ghost predicate Clocked(log: seq<Event>) {
    && (log != [] ==> log[0].Block?)
    && forall k | 0 < k < |log| && log[k].Fade? ::
         log[k].at > log[k - 1].at && log[k].amount == Decay(log[k].at - log[k - 1].at, log[k].rate)
  }

  ghost predicate AtRate(log: seq<Event>, rate: real) {
    forall k | 0 <= k < |log| && log[k].Fade? :: log[k].rate == rate
  }

  /** No block came with a clock behind the event before it. */
  ghost predicate Forward(log: seq<Event>) {
    forall k | 0 < k < |log| :: log[k - 1].at <= log[k].at
  }

  /** Since event j every block came at the very moment of the event before it. */
  ghost predicate Prompt(log: seq<Event>, j: nat) {
    forall k | j < k < |log| && log[k].Block? :: log[k].at == log[k - 1].at
  }

  lemma ForwardPrefix(log: seq<Event>, rate: real)
    requires log != [] && Clocked(log) && AtRate(log, rate) && Forward(log)
    ensures var p := log[..|log| - 1]; Clocked(p) && AtRate(p, rate) && Forward(p)
  {
    hide Decay;
  }

  lemma PromptPrefix(log: seq<Event>, j: nat)
    requires j + 1 < |log|
    ensures var last := |log| - 1;
            Prompt(log, j) <==> Prompt(log[..last], j) && (log[last].Block? ==> log[last].at == log[last - 1].at)
  {
    var last := |log| - 1;
    if Prompt(log[..last], j) && (log[last].Block? ==> log[last].at == log[last - 1].at) {
      forall k | j < k < |log| && log[k].Block? ensures log[k].at == log[k - 1].at {
        if k < last { assert log[..last][k] == log[k] && log[..last][k - 1] == log[k - 1]; }
      }
    }
    if Prompt(log, j) {
      forall k | j < k < last && log[..last][k].Block? ensures log[..last][k].at == log[..last][k - 1].at {
        assert log[k].at == log[k - 1].at;
      }
    }
  }

  /** The last event's part in it. */
  lemma DecayStep(log: seq<Event>, rate: real, j: nat)
    requires j + 1 < |log| && Clocked(log) && AtRate(log, rate) && Forward(log) && rate >= 0.0
    ensures var last := |log| - 1; var part := if log[last].Fade? then log[last].amount else 0.0;
            && part <= Decay(log[last].at - log[last - 1].at, rate)
            && (part == Decay(log[last].at - log[last - 1].at, rate) <==>
                  rate == 0.0 || (log[last].Block? ==> log[last].at == log[last - 1].at))
            && Decay(log[last].at - log[j].at, rate)
            == Decay(log[last].at - log[last - 1].at, rate) + Decay(log[last - 1].at - log[j].at, rate)
  {
    var last := |log| - 1;
    DecaySign(log[last].at - log[last - 1].at, rate);
    DecaySplits(log[last].at, log[last - 1].at, log[j].at, rate);
    hide Decay;
  }

  lemma DecaySign(elapsed: real, rate: real)
    requires elapsed >= 0.0 && rate >= 0.0
    ensures Decay(elapsed, rate) >= 0.0 && (Decay(elapsed, rate) == 0.0 <==> elapsed == 0.0 || rate == 0.0)
  {}

  lemma DecaySplits(a: real, b: real, c: real, rate: real)
    ensures Decay(a - c, rate) == Decay(a - b, rate) + Decay(b - c, rate)
  {}

  /**
    Line 99 moves the clock on without fading, so what a block was faded by is at
    most the rate times the time since it; and it is all of that exactly when no
    later block came between fades with time gone by.
   */
  lemma {:induction false} FadedAtMost(log: seq<Event>, rate: real, j: nat)
    requires j < |log| && Clocked(log) && AtRate(log, rate) && Forward(log) && rate >= 0.0
    ensures FadedSince(log, j) <= Decay(log[|log| - 1].at - log[j].at, rate)
    ensures FadedSince(log, j) == Decay(log[|log| - 1].at - log[j].at, rate) <==> rate == 0.0 || Prompt(log, j)
    decreases |log|
  {
    hide Clocked, AtRate, Forward, Prompt, Decay;
    var last := |log| - 1;
    if j == last {
      DecaySign(0.0, rate);
      NothingAfter(log, j);
    } else {
      ForwardPrefix(log, rate);
      FadedAtMost(log[..last], rate, j);
      DecayStep(log, rate, j);
      PromptPrefix(log, j);
    }
  }

  /** Two blocks a second apart with no fade between: at 20 dB a second the first should have fallen by 20, and has not. */
  lemma BlockSkipsItsFade(levels: seq<real>)
    ensures var log := [Block(levels, 0.0), Block(levels, 1.0)];
            && Clocked(log) && AtRate(log, 20.0) && Forward(log)
            && FadedSince(log, 0) == 0.0 && Decay(log[1].at - log[0].at, 20.0) == 20.0
  {
    var log := [Block(levels, 0.0), Block(levels, 1.0)];
    assert log[..1] == [Block(levels, 0.0)];
  }

  lemma NothingAfter(log: seq<Event>, j: nat)
    requires j + 1 == |log|
    ensures Prompt(log, j)
  {}

  /** With a rate that is not negative, the fades since a block simply add up. */
  lemma {:induction false} FadesAddUp(log: seq<Event>, j: nat, bin: nat)
    requires j < |log| && log[j].Block? && bin < |log[j].levels| && log[j].levels[bin] >= DBFS_FLOOR
    requires forall k | 0 <= k < |log| && log[k].Fade? :: log[k].amount >= 0.0
    ensures Contribution(log, j, bin) == Max(DBFS_FLOOR, log[j].levels[bin] - FadedSince(log, j))
    decreases |log|
  {
    var last := |log| - 1;
    if j < last {
      FadesAddUp(log[..last], j, bin);
    }
  }

  // --------------------------------------------------------------- removing DC

  ghost function Sum(s: seq<real>): real {
    if s == [] then 0.0 else Sum(s[..|s| - 1]) + s[|s| - 1]
  }

  function Share(sum: real, n: nat): real
    requires n > 0
  {
    sum / n as real
  }

  ghost function Centred(s: seq<real>): (c: seq<real>)
    ensures |c| == |s|
  {
    seq(|s|, n requires 0 <= n < |s| => s[n] - Share(Sum(s), |s|))
  }

  lemma {:induction false} SumShifted(s: seq<real>, t: seq<real>, m: real)
    requires |s| == |t| && forall n | 0 <= n < |s| :: t[n] == s[n] - m
    ensures Sum(t) == Sum(s) - |s| as real * m
  {
    if s != [] {
      SumShifted(s[..|s| - 1], t[..|t| - 1], m);
    }
  }

  /** What is left after removing DC has none. */
  lemma CentredHasNoDc(s: seq<real>)
    ensures Sum(Centred(s)) == 0.0
  {
    if s != [] {
      var m := Share(Sum(s), |s|);
      SumShifted(s, Centred(s), m);
    }
  }

  /** One channel of sdr_dsp_remove_dc, on the first n samples of a scratch copy. */
  method RemoveDc(samples: array<real>, n: nat)
    requires 0 < n <= samples.Length
    modifies samples
    ensures samples[..n] == Centred(old(samples[..n]))
    ensures forall k :: n <= k < samples.Length ==> samples[k] == old(samples[k])
  {
    hide Share;
    ghost var s := samples[..n];
    var sum := 0.0;
    var k := 0;
    while k < n
      invariant 0 <= k <= n && sum == Sum(s[..k])
    {
      assert s[..k + 1][..k] == s[..k];
      sum := sum + samples[k];
      k := k + 1;
    }
    assert s[..n] == s;
    var mean := Share(sum, n);
    k := 0;
    while k < n
      invariant 0 <= k <= n
      invariant forall j :: 0 <= j < k ==> samples[j] == s[j] - mean
      invariant forall j :: k <= j < n ==> samples[j] == s[j]
      invariant forall j :: n <= j < samples.Length ==> samples[j] == old(samples[j])
    {
      samples[k] := samples[k] - mean;
      k := k + 1;
    }
  }

  // ----------------------------------------------------------------- the frame

  /** held[b] is the hold of every live bin b. */
  ghost predicate Holds(log: seq<Event>, bins: nat, held: seq<real>) {
    && OneGeometry(log, bins)
    && bins <= |held|
    && forall b: nat | b < bins :: IsHold(log, bins, b, held[b])
  }

  lemma HoldsAfterBlock(log: seq<Event>, bins: nat, held: seq<real>, e: Event, next: seq<real>)
    requires e.Block? && |e.levels| == bins && forall l <- e.levels :: l >= DBFS_FLOOR
    requires bins <= |next|
    requires if log == [] then forall b | 0 <= b < bins :: next[b] == e.levels[b]
             else Holds(log, bins, held) && forall b | 0 <= b < bins :: next[b] == Max(e.levels[b], held[b])
    ensures Holds(log + [e], bins, next)
  {
    hide IsHold;
    if log == [] {
      assert log + [e] == [e];
    }
    forall b: nat | b < bins ensures IsHold(log + [e], bins, b, next[b]) {
      if log == [] { HoldOfFirstBlock(bins, b, e); } else { HoldAfterBlock(log, bins, b, held[b], e); }
    }
  }

  lemma HoldsAfterFade(log: seq<Event>, bins: nat, held: seq<real>, e: Event, next: seq<real>)
    requires Holds(log, bins, held) && e.Fade? && bins <= |next|
    requires forall b | 0 <= b < bins :: next[b] == Max(DBFS_FLOOR, held[b] - e.amount)
    ensures Holds(log + [e], bins, next)
  {
    hide IsHold;
    forall b: nat | b < bins ensures IsHold(log + [e], bins, b, next[b]) {
      HoldAfterFade(log, bins, b, held[b], e);
    }
  }

  lemma ClockedNext(log: seq<Event>, e: Event)
    requires Clocked(log)
    requires e.Fade? ==> log != [] && e.at > log[|log| - 1].at && e.amount == Decay(e.at - log[|log| - 1].at, e.rate)
    ensures Clocked(log + [e])
  {
    hide Decay;
  }

  /** How many whole transforms a block holds. */
  function WholeWindows(pairs: nat, size: nat): (windows: nat)
    requires size > 0
    ensures windows > 0 <==> pairs >= size
  {
    pairs / size
  }

  /** The transform size a request gets: itself when it can be had, otherwise the default. */
  function SizeUsed(fftSize: int): (size: nat)
    ensures Spectrum.SizeValid(size) && 0 < size <= FFT_MAX
  {
    if Spectrum.SizeValid(fftSize) then fftSize else FFT_DEFAULT
  }

  /** The levels a block of samples measures to, DC removed first when asked. */
  ghost function Measured(i: seq<real>, q: seq<real>, removeDc: bool, bins: nat, spectrum: LevelsOf): seq<real> {
    if removeDc then spectrum(Centred(i), Centred(q), bins) else spectrum(i, q, bins)
  }

  method CopyInto(dst: array<real>, src: seq<real>)
    requires |src| <= dst.Length
    modifies dst
    ensures dst[..|src|] == src
    ensures forall k :: |src| <= k < dst.Length ==> dst[k] == old(dst[k])
  {
    forall k | 0 <= k < |src| { dst[k] := src[k]; }
  }

  class SignalFrame {
    const iSamples: array<real>
    const qSamples: array<real>
    const spectrumI: array<real>
    const spectrumQ: array<real>
    const candidate: array<real>
    const peak: array<real>
    var pairCount: nat
    var haveSamples: bool
    var bins: nat
    var windows: nat
    var ready: bool
    var peakReady: bool
    var peakTime: real
    /** What the hold was made of: empty exactly while there is none. */
    ghost var log: seq<Event>
    /** The levels of the last block measured. */
    ghost var shown: seq<real>

    ghost predicate Valid()
      reads this, peak, candidate
    {
      && iSamples.Length == qSamples.Length == spectrumI.Length == spectrumQ.Length == PAIRS
      && candidate.Length == peak.Length == FFT_MAX
      && iSamples != qSamples && iSamples != spectrumI && iSamples != spectrumQ && iSamples != candidate
      && iSamples != peak && qSamples != spectrumI && qSamples != spectrumQ && qSamples != candidate
      && qSamples != peak && spectrumI != spectrumQ && spectrumI != candidate && spectrumI != peak
      && spectrumQ != candidate && spectrumQ != peak && candidate != peak
      && pairCount <= PAIRS && bins <= FFT_MAX
      && (peakReady <==> log != [])
      && (peakReady ==> Holds(log, bins, peak[..]))
      && Clocked(log) && (log != [] ==> log[|log| - 1].at == peakTime)
      && |shown| <= FFT_MAX && candidate[..|shown|] == shown
    }

    /** Levels called ready are those of the bins now in force. */
    ghost predicate ShownIsCurrent()
      reads this
    {
      ready ==> |shown| == bins
    }

    constructor ()
      ensures Valid() && !ready && !peakReady && !haveSamples && bins == 0
      ensures fresh(iSamples) && fresh(qSamples) && fresh(spectrumI) && fresh(spectrumQ) && fresh(candidate) && fresh(peak)
    {
      iSamples, qSamples := new real[PAIRS], new real[PAIRS];
      spectrumI, spectrumQ := new real[PAIRS], new real[PAIRS];
      candidate, peak := new real[FFT_MAX], new real[FFT_MAX];
      pairCount, bins, windows, peakTime, log, shown := 0, 0, 0, 0.0, [], [];
      haveSamples, ready, peakReady := false, false, false;
    }

    /** Lines 88-99: start the hold from the candidate, or raise it where the candidate is stronger. */
    method Raise(levels: seq<real>, now: real)
      requires Valid() && |levels| == bins && candidate[..bins] == levels
      requires bins > 0 && forall l <- levels :: l >= DBFS_FLOOR
      modifies this`peakReady, this`peakTime, this`log, peak
      ensures Valid() && peakReady && peakTime == now && log == old(log) + [Block(levels, now)]
    {
      hide IsHold, OneGeometry, Clocked;
      ghost var e := Block(levels, now);
      ghost var held := peak[..];
      if !peakReady {
        CopyInto(peak, candidate[..bins]);
        peakReady := true;
        assert forall b | 0 <= b < bins :: peak[..][b] == peak[..bins][b];
      } else {
        var bin := 0;
        while bin < bins
          invariant 0 <= bin <= bins && log == old(log) && peakReady
          invariant forall b :: 0 <= b < bin ==> peak[b] == Max(levels[b], held[b])
          invariant forall b :: bin <= b < peak.Length ==> peak[b] == held[b]
        {
          assert candidate[bin] == candidate[..bins][bin];
          if candidate[bin] > peak[bin] { peak[bin] := candidate[bin]; }
          bin := bin + 1;
        }
      }
      HoldsAfterBlock(log, bins, held, e, peak[..]);
      ClockedNext(log, e);
      log, peakTime := log + [e], now;
    }

    /** Lines 19-26: the block itself, which is all a decoder reads. */
    method Take(i: seq<real>, q: seq<real>)
      requires Valid() && |i| == |q| <= PAIRS
      modifies this`pairCount, this`haveSamples, iSamples, qSamples
      ensures Valid() && pairCount == |i| && haveSamples == (old(haveSamples) || |i| > 0)
      ensures iSamples[..|i|] == i && qSamples[..|i|] == q
    {
      hide Holds, Clocked;
      CopyInto(iSamples, i);
      CopyInto(qSamples, q);
      pairCount := |i|;
      if pairCount > 0 { haveSamples := true; }
    }

    /** Lines 69-76: a hold gathered at another size means nothing at this one. */
    method Resize(size: nat) returns (changed: bool)
      requires Valid() && size <= FFT_MAX
      modifies this`bins, this`peakReady, this`log
      ensures Valid() && bins == size
      ensures changed <==> size != old(bins)
      ensures if changed then log == [] else log == old(log) && peakReady == old(peakReady)
    {
      changed := size != bins;
      if changed {
        peakReady, bins, log := false, size, [];
      }
    }

    /** Lines 52-61: the copies the spectrum is taken from lose their DC, the decoder's samples do not. */
    method FilteredCopies() returns (levelsI: seq<real>, levelsQ: seq<real>)
      requires Valid() && pairCount > 0
      modifies spectrumI, spectrumQ
      ensures Valid()
      ensures levelsI == Centred(iSamples[..pairCount]) && levelsQ == Centred(qSamples[..pairCount])
    {
      hide Holds, Centred, Clocked;
      CopyInto(spectrumI, iSamples[..pairCount]);
      CopyInto(spectrumQ, qSamples[..pairCount]);
      RemoveDc(spectrumI, pairCount);
      RemoveDc(spectrumQ, pairCount);
      levelsI, levelsQ := spectrumI[..pairCount], spectrumQ[..pairCount];
    }

    /** Lines 78-101: measure the block, if it holds a whole window, and raise the hold to it. */
    method Measure(levelsI: seq<real>, levelsQ: seq<real>, now: real, spectrum: LevelsOf) returns (produced: bool)
      requires Valid() && Spectrum.SizeValid(bins) && |levelsI| == |levelsQ| == pairCount && SpectrumContract(spectrum)
      modifies this`windows, this`ready, this`peakReady, this`peakTime, this`log, this`shown, candidate, peak
      ensures Valid()
      ensures produced <==> pairCount >= bins
      ensures produced ==>
                && windows == WholeWindows(pairCount, bins) && ready && peakReady && peakTime == now
                && shown == candidate[..bins] == spectrum(levelsI, levelsQ, bins)
                && log == old(log) + [Block(spectrum(levelsI, levelsQ, bins), now)]
      ensures !produced ==>
                && log == old(log) && shown == old(shown)
                && windows == old(windows) && ready == old(ready) && peakTime == old(peakTime)
                && candidate[..] == old(candidate[..]) && peak[..] == old(peak[..])
    {
      hide Holds, SpectrumContract, WholeWindows, Clocked;
      var whole := WholeWindows(pairCount, bins);
      if whole == 0 { return false; }
      var levels := spectrum(levelsI, levelsQ, bins);
      LevelsKeepContract(spectrum, levelsI, levelsQ, bins);
      CopyInto(candidate, levels);
      shown := levels;
      Raise(levels, now);
      windows, ready, produced := whole, true, true;
    }

    /**
      One block. Nothing the decoder reads depends on removeDc; a new transform
      size empties the hold; only a block holding a whole window is measured.
     */
    method Process(i: seq<real>, q: seq<real>, removeDc: bool, fftSize: int, now: real, spectrum: LevelsOf)
        returns (produced: bool, geometryChanged: bool)
      requires Valid() && |i| == |q| <= PAIRS && SpectrumContract(spectrum)
      modifies this, iSamples, qSamples, spectrumI, spectrumQ, candidate, peak
      ensures Valid()
      ensures produced <==> |i| >= SizeUsed(fftSize)
      ensures pairCount == |i| && haveSamples == (old(haveSamples) || |i| > 0)
      ensures iSamples[..|i|] == i && qSamples[..|i|] == q
      ensures geometryChanged <==> |i| > 0 && SizeUsed(fftSize) != old(bins)
      ensures bins == if |i| > 0 then SizeUsed(fftSize) else old(bins)
      ensures shown == if produced then Measured(i, q, removeDc, bins, spectrum) else old(shown)
      ensures old(ShownIsCurrent()) ==>
                (ShownIsCurrent() <==> !(old(ready) && 0 < |i| < SizeUsed(fftSize) && SizeUsed(fftSize) != old(bins)))
      ensures produced ==>
                && windows == WholeWindows(|i|, bins) && ready && peakReady && peakTime == now
                && candidate[..bins] == Measured(i, q, removeDc, bins, spectrum)
                && log == (if geometryChanged then [] else old(log)) + [Block(Measured(i, q, removeDc, bins, spectrum), now)]
      ensures !produced ==>
                && log == (if geometryChanged then [] else old(log))
                && windows == old(windows) && ready == old(ready) && peakTime == old(peakTime)
                && candidate[..] == old(candidate[..]) && peak[..] == old(peak[..])
    {
      hide Holds, SpectrumContract, Spectrum.SizeValid, WholeWindows, Clocked;
      produced, geometryChanged := false, false;
      Take(i, q);
      if pairCount == 0 { return; }
      var levelsI, levelsQ := i, q;
      if removeDc { levelsI, levelsQ := FilteredCopies(); }
      geometryChanged := Resize(SizeUsed(fftSize));
      produced := Measure(levelsI, levelsQ, now, spectrum);
    }

    /** Lines 105-110: the spectrum and its hold go together, the samples stay. */
    method Invalidate()
      requires Valid()
      modifies this`ready, this`peakReady, this`log
      ensures Valid() && !ready && !peakReady && log == []
    {
      ready, peakReady, log := false, false, [];
    }

    /** Lines 112-132: time fades the hold, and a clock that did not move forward changes nothing. */
    method DecayPeak(now: real, dbPerSecond: real)
      requires Valid()
      modifies this`peakTime, this`log, peak
      ensures Valid()
      ensures peakReady && now > old(peakTime) ==>
                peakTime == now && log == old(log) + [Fade(Decay(now - old(peakTime), dbPerSecond), now, dbPerSecond)]
      ensures !(peakReady && now > old(peakTime)) ==> log == old(log) && peak[..] == old(peak[..])
      ensures peakTime == if peakReady && now <= old(peakTime) then old(peakTime) else now
    {
      hide IsHold, OneGeometry, Clocked, Decay;
      if !peakReady {
        peakTime := now;
        return;
      }
      var elapsed := now - peakTime;
      if elapsed <= 0.0 { return; }
      var decay := Decay(elapsed, dbPerSecond);
      ghost var held := peak[..];
      var bin := 0;
      while bin < bins
        invariant 0 <= bin <= bins && log == old(log) && peakTime == old(peakTime)
        invariant forall b :: 0 <= b < bin ==> peak[b] == Max(DBFS_FLOOR, held[b] - decay)
        invariant forall b :: bin <= b < peak.Length ==> peak[b] == held[b]
      {
        peak[bin] := Max(DBFS_FLOOR, peak[bin] - decay);
        bin := bin + 1;
      }
      ghost var e := Fade(decay, now, dbPerSecond);
      HoldsAfterFade(log, bins, held, e, peak[..]);
      ClockedNext(log, e);
      log, peakTime := log + [e], now;
    }
  }

  lemma LevelsKeepContract(spectrum: LevelsOf, i: seq<real>, q: seq<real>, bins: nat)
    requires SpectrumContract(spectrum) && Spectrum.SizeValid(bins) && |i| == |q| && |i| >= bins
    ensures |spectrum(i, q, bins)| == bins && forall l <- spectrum(i, q, bins) :: l >= DBFS_FLOOR
  {}

  /** A frame measured at one size and then given a short block at another shows the old size's levels as the new one's. */
  method StaleLevels(spectrum: LevelsOf) returns (frame: SignalFrame)
    requires SpectrumContract(spectrum)
    ensures frame.Valid() && frame.ready && !frame.ShownIsCurrent() && |frame.shown| == 2048 && frame.bins == 256
  {
    frame := new SignalFrame();
    var block, short := seq(2048, _ => 0.0), [0.0];
    var produced, changed := frame.Process(block, block, false, 2048, 0.0, spectrum);
    produced, changed := frame.Process(short, short, false, 256, 1.0, spectrum);
  }
}
