/**
  The spectrum of a block, sdr_dsp_spectrum in src/core/sdr_dsp.c:736-787: the
  block is cut into whole windows, each is weighted, transformed in place and
  turned into powers, and every bin keeps the mean and the largest of them, with
  the frequencies below the tuning in the lower half.

  The weights and their sum are inputs, and `db` stands for 10*log10.
 */
module Spectrum {
  import opened Complex
  import Fft

  const DBFS_FLOOR := -120.0
  const FLOOR_POWER := 0.000000000001

  predicate SizeValid(size: int) { size in {256, 512, 1024, 2048, 4096, 8192, 16384} }

  lemma ValidIsPow2(size: nat)
    requires SizeValid(size)
    ensures Fft.IsPow2(size) && size % 2 == 0
  {
    assert Fft.IsPow2(256) by {
      assert Fft.IsPow2(2) && Fft.IsPow2(4) && Fft.IsPow2(8) && Fft.IsPow2(16);
      assert Fft.IsPow2(32) && Fft.IsPow2(64) && Fft.IsPow2(128);
    }
    assert Fft.IsPow2(512) && Fft.IsPow2(1024) && Fft.IsPow2(2048);
    assert Fft.IsPow2(4096) && Fft.IsPow2(8192) && Fft.IsPow2(16384);
  }

  /** A logarithm as the levels use it: order kept, and the floor's power at the floor. */
  ghost predicate IsLevel(db: real -> real) {
    && db(FLOOR_POWER) == DBFS_FLOOR
    && forall p, q :: p <= q ==> db(p) <= db(q)
  }

  /** A block and how it is weighted. */
  datatype Block = Block(i: seq<real>, q: seq<real>, hann: seq<real>, hannSum: real, fullScale: real) {
    ghost predicate Fits(size: nat) {
      |i| == |q| && |hann| == size && hannSum != 0.0 && fullScale != 0.0
    }
  }

  // ------------------------------------------------------------- what a bin holds

  function Weighted(b: Block, at: nat, n: nat): Cx
    requires n < |b.hann| && at < |b.i| == |b.q| && b.fullScale != 0.0
  {
    var scale := b.hann[n] / b.fullScale;
    Cx(b.i[at] * scale, b.q[at] * scale)
  }

  /** The samples of one window, weighted. */
  ghost function Windowed(b: Block, size: nat, window: nat): (z: seq<Cx>)
    requires b.Fits(size) && (window + 1) * size <= |b.i|
    ensures |z| == size
  {
    seq(size, n requires 0 <= n < size => assert window * size + n < |b.i|; Weighted(b, window * size + n, n))
  }

  function Power(z: Cx, hannSum: real): real
    requires hannSum != 0.0
  {
    z.re / hannSum * (z.re / hannSum) + z.im / hannSum * (z.im / hannSum)
  }

  /** The power one window has at one frequency of the transform. */
  ghost function WindowPower(b: Block, step: nat -> Cx, size: nat, window: nat, k: nat): real
    requires b.Fits(size) && (window + 1) * size <= |b.i|
  {
    Power(Fft.Dft(Windowed(b, size, window), Fft.Root(step, size), k), b.hannSum)
  }

  ghost function Total(b: Block, step: nat -> Cx, size: nat, windows: nat, k: nat): real
    requires b.Fits(size) && windows * size <= |b.i|
  {
    if windows == 0 then 0.0
    else
      Smaller(windows, size, |b.i|);
      Total(b, step, size, windows - 1, k) + WindowPower(b, step, size, windows - 1, k)
  }

  ghost function Loudest(b: Block, step: nat -> Cx, size: nat, windows: nat, k: nat): real
    requires b.Fits(size) && windows * size <= |b.i|
  {
    if windows == 0 then 0.0
    else
      Smaller(windows, size, |b.i|);
      var power := WindowPower(b, step, size, windows - 1, k);
      var before := Loudest(b, step, size, windows - 1, k);
      if windows == 1 || power > before then power else before
  }

  lemma Smaller(windows: nat, size: nat, n: nat)
    requires windows > 0 && windows * size <= n
    ensures (windows - 1) * size <= n && (windows - 1 + 1) * size <= n
  {
    assert (windows - 1) * size == windows * size - size;
  }

  lemma Inside(window: nat, windows: nat, size: nat, n: nat)
    requires window < windows && windows * size <= n
    ensures (window + 1) * size <= n
  {
    assert (windows - window - 1) * size >= 0;
  }

  /** Loudest is one of the windows' powers and no window exceeds it. */
  lemma {:induction false} LoudestIsLargest(b: Block, step: nat -> Cx, size: nat, windows: nat, k: nat, window: nat)
    requires b.Fits(size) && windows * size <= |b.i| && window < windows
    requires (window + 1) * size <= |b.i|
    ensures WindowPower(b, step, size, window, k) <= Loudest(b, step, size, windows, k)
    decreases windows
  {
    hide WindowPower;
    Smaller(windows, size, |b.i|);
    if window < windows - 1 { LoudestIsLargest(b, step, size, windows - 1, k, window); }
  }

  lemma {:induction false} LoudestIsAttained(b: Block, step: nat -> Cx, size: nat, windows: nat, k: nat) returns (window: nat)
    requires b.Fits(size) && windows * size <= |b.i| && windows > 0
    ensures window < windows && (window + 1) * size <= |b.i|
    ensures WindowPower(b, step, size, window, k) == Loudest(b, step, size, windows, k)
    decreases windows
  {
    hide WindowPower;
    Smaller(windows, size, |b.i|);
    window := windows - 1;
    if windows > 1 {
      var before := LoudestIsAttained(b, step, size, windows - 1, k);
      if !(WindowPower(b, step, size, window, k) > Loudest(b, step, size, windows - 1, k)) { window := before; }
    }
  }

  // --------------------------------------------------------------- where a bin goes

  function Shifted(k: nat, size: nat): nat
    requires size > 0
  {
    (k + size / 2) % size
  }

  /** Which frequency a transform's index stands for: the upper half are the negative ones. */
  function Frequency(k: nat, size: nat): int { if k < size / 2 then k else k - size }

  /** The shift is its own inverse, and puts the slots in ascending order of frequency. */
  lemma ShiftOrders(k: nat, size: nat)
    requires size > 0 && size % 2 == 0 && k < size
    ensures Shifted(k, size) < size && Shifted(Shifted(k, size), size) == k
    ensures Shifted(k, size) == Frequency(k, size) + size / 2
  {
    var half := size / 2;
    assert size == half + half;
    Wrap(k + half, size);
    Wrap(Shifted(k, size) + half, size);
  }

  lemma Wrap(a: nat, size: nat)
    requires size > 0 && a < 2 * size
    ensures a % size == if a < size then a else a - size
  {
    var q, r := a / size, a % size;
    assert a == q * size + r && 0 <= r < size;
    Multiples(q, size);
  }

  lemma Multiples(q: nat, size: nat)
    ensures q >= 2 ==> q * size >= 2 * size
    ensures q >= 1 ==> q * size >= size
  {
    if q >= 2 { assert (q - 2) * size >= 0; }
  }

  // --------------------------------------------------------------------- the loops

  /** Lines 757-762: one window into the transform's arrays. */
  method FillWindow(b: Block, size: nat, window: nat, re: array<real>, im: array<real>)
    requires b.Fits(size) && (window + 1) * size <= |b.i|
    requires re != im && re.Length == im.Length == size
    modifies re, im
    ensures Fft.Signal(re[..], im[..]) == Windowed(b, size, window)
  {
    var offset := window * size;
    assert offset + size == (window + 1) * size;
    var n := 0;
    while n < size
      invariant 0 <= n <= size
      invariant forall m :: 0 <= m < n ==> Cx(re[m], im[m]) == Weighted(b, offset + m, m)
    {
      var scale := b.hann[n] / b.fullScale;
      re[n] := b.i[offset + n] * scale;
      im[n] := b.q[offset + n] * scale;
      n := n + 1;
    }
  }

  /** What the two accumulators hold after some windows. */
  ghost predicate Accumulated(average: seq<real>, maximum: seq<real>, b: Block, step: nat -> Cx, size: nat, windows: nat)
    requires b.Fits(size) && windows * size <= |b.i|
  {
    && size <= |average| && size <= |maximum| && size > 0
    && (forall j | 0 <= j < size :: average[j] == Total(b, step, size, windows, Shifted(j, size)))
    && (windows > 0 ==> forall j | 0 <= j < size :: maximum[j] == Loudest(b, step, size, windows, Shifted(j, size)))
  }

  /** What they hold when k frequencies of the next window are in as well. */
  ghost predicate PartWay(average: seq<real>, maximum: seq<real>, average0: seq<real>, maximum0: seq<real>,
                          z: seq<Cx>, hannSum: real, first: bool, size: nat, k: nat)
    requires hannSum != 0.0
  {
    && size <= |average| == |average0| && size <= |maximum| == |maximum0| && size == |z| > 0 && k <= size
    && (forall j: nat | j < size :: Shifted(j, size) < k ==> 
          && average[j] == average0[j] + Power(z[Shifted(j, size)], hannSum)
          && maximum[j] == Louder(Power(z[Shifted(j, size)], hannSum), maximum0[j], first))
    && (forall j: nat | j < size :: Shifted(j, size) >= k ==> average[j] == average0[j] && maximum[j] == maximum0[j])
  }

  function Louder(power: real, before: real, first: bool): real {
    if first || power > before then power else before
  }

  lemma PartWayStep(average: seq<real>, maximum: seq<real>, average0: seq<real>, maximum0: seq<real>,
                    z: seq<Cx>, hannSum: real, first: bool, size: nat, k: nat)
    requires hannSum != 0.0 && size % 2 == 0 && k < size
    requires PartWay(average, maximum, average0, maximum0, z, hannSum, first, size, k)
    ensures Shifted(k, size) < size
    ensures var s := Shifted(k, size); var power := Power(z[k], hannSum);
            PartWay(average[s := average[s] + power], maximum[s := Louder(power, maximum[s], first)],
                    average0, maximum0, z, hannSum, first, size, k + 1)
  {
    hide Shifted, Power, Louder;
    ShiftOrders(k, size);
    forall j: nat | j < size ensures Shifted(j, size) == k <==> j == Shifted(k, size) {
      ShiftOrders(j, size);
    }
  }

  /** Lines 765-773: one transformed window into the accumulators. */
  method Accumulate(re: array<real>, im: array<real>, hannSum: real, first: bool, size: nat,
                    average: array<real>, maximum: array<real>)
    requires hannSum != 0.0 && size > 0 && size % 2 == 0
    requires re.Length == im.Length == size && size <= average.Length && size <= maximum.Length
    requires average != maximum && re != average && re != maximum && im != average && im != maximum
    modifies average, maximum
    ensures PartWay(average[..], maximum[..], old(average[..]), old(maximum[..]),
                    Fft.Signal(re[..], im[..]), hannSum, first, size, size)
  {
    hide PartWay, Power;
    ghost var a0, m0, z := average[..], maximum[..], Fft.Signal(re[..], im[..]);
    ghost var a, m := a0, m0;
    NothingIn(a0, m0, z, hannSum, first, size);
    var k := 0;
    while k < size
      invariant 0 <= k <= size
      invariant average[..] == a && maximum[..] == m && |a| == |a0| && |m| == |m0|
      invariant re[..] == old(re[..]) && im[..] == old(im[..])
      invariant PartWay(a, m, a0, m0, z, hannSum, first, size, k)
    {
      var shifted := Shifted(k, size);
      PartWayStep(a, m, a0, m0, z, hannSum, first, size, k);
      assert z[k] == Cx(re[k], im[k]);
      var power := Power(Cx(re[k], im[k]), hannSum);
      average[shifted] := average[shifted] + power;
      if first || power > maximum[shifted] {
        maximum[shifted] := power;
      }
      a, m := a[shifted := a[shifted] + power], m[shifted := Louder(power, m[shifted], first)];
      k := k + 1;
    }
  }

  lemma NothingIn(a: seq<real>, m: seq<real>, z: seq<Cx>, hannSum: real, first: bool, size: nat)
    requires hannSum != 0.0 && size <= |a| && size <= |m| && size == |z| > 0
    ensures PartWay(a, m, a, m, z, hannSum, first, size, 0)
  {}

  /** A whole window in makes the accumulators those of one window more. */
  lemma WindowIn(a: seq<real>, m: seq<real>, a0: seq<real>, m0: seq<real>, z: seq<Cx>,
                 b: Block, step: nat -> Cx, size: nat, window: nat)
    requires b.Fits(size) && window * size <= |b.i| && (window + 1) * size <= |b.i| && size % 2 == 0
    requires Accumulated(a0, m0, b, step, size, window)
    requires PartWay(a, m, a0, m0, z, b.hannSum, window == 0, size, size)
    requires forall k :: 0 <= k < size ==> z[k] == Fft.Dft(Windowed(b, size, window), Fft.Root(step, size), k)
    ensures Accumulated(a, m, b, step, size, window + 1)
  {
    hide Shifted, Power;
    forall j: nat | j < size
      ensures a[j] == Total(b, step, size, window + 1, Shifted(j, size))
      ensures m[j] == Loudest(b, step, size, window + 1, Shifted(j, size))
    {
      ShiftOrders(j, size);
      assert Power(z[Shifted(j, size)], b.hannSum) == WindowPower(b, step, size, window, Shifted(j, size));
    }
  }

  /** A power's level, no lower than the floor. */
  function Level(db: real -> real, power: real): real { db(if power < FLOOR_POWER then FLOOR_POWER else power) }

  lemma LevelAboveFloor(db: real -> real, power: real)
    requires IsLevel(db)
    ensures Level(db, power) >= DBFS_FLOOR
  {}

  /** Lines 776-785. */
  method ToLevels(average: array<real>, maximum: array<real>, size: nat, windows: nat, db: real -> real)
    requires average != maximum && size <= average.Length && size <= maximum.Length && windows > 0
    modifies average, maximum
    ensures forall j :: 0 <= j < size ==> average[j] == Level(db, old(average[j]) / windows as real)
    ensures forall j :: 0 <= j < size ==> maximum[j] == Level(db, old(maximum[j]))
  {
    var k := 0;
    while k < size
      invariant 0 <= k <= size
      invariant forall j :: 0 <= j < k ==> average[j] == Level(db, old(average[j]) / windows as real)
      invariant forall j :: 0 <= j < k ==> maximum[j] == Level(db, old(maximum[j]))
      invariant forall j :: k <= j < size ==> average[j] == old(average[j]) && maximum[j] == old(maximum[j])
    {
      var averagePower := average[k] / windows as real;
      if averagePower < FLOOR_POWER { averagePower := FLOOR_POWER; }
      if maximum[k] < FLOOR_POWER { maximum[k] := FLOOR_POWER; }
      average[k] := db(averagePower);
      maximum[k] := db(maximum[k]);
      k := k + 1;
    }
  }

  /** Lines 756-774. */
  method Gather(b: Block, size: nat, windows: nat, step: nat -> Cx, average: array<real>, maximum: array<real>)
    requires SizeValid(size) && b.Fits(size) && windows * size <= |b.i| && windows > 0
    requires Fft.IsTwiddleTable(step, size)
    requires average != maximum && size <= average.Length && size <= maximum.Length
    requires forall j :: 0 <= j < size ==> average[j] == 0.0
    modifies average, maximum
    ensures Accumulated(average[..], maximum[..], b, step, size, windows)
  {
    hide PartWay, Accumulated, Fft.IsTwiddleTable, Fft.Dft, Fft.Root, Windowed, Fft.Signal, Fft.IsPow2;
    ValidIsPow2(size);
    var re, im := new real[size], new real[size];
    NoWindows(average[..], maximum[..], b, step, size);
    var window := 0;
    while window < windows
      invariant 0 <= window <= windows && window * size <= |b.i|
      invariant Accumulated(average[..], maximum[..], b, step, size, window)
    {
      Inside(window, windows, size, |b.i|);
      ghost var a0, m0 := average[..], maximum[..];
      FillWindow(b, size, window, re, im);
      Fft.FftForward(re, im, size, step);
      Accumulate(re, im, b.hannSum, window == 0, size, average, maximum);
      WindowIn(average[..], maximum[..], a0, m0, Fft.Signal(re[..], im[..]), b, step, size, window);
      window := window + 1;
    }
  }

  lemma NoWindows(average: seq<real>, maximum: seq<real>, b: Block, step: nat -> Cx, size: nat)
    requires b.Fits(size) && 0 < size <= |average| && size <= |maximum|
    requires forall j :: 0 <= j < size ==> average[j] == 0.0
    ensures Accumulated(average, maximum, b, step, size, 0)
  {}

  /** The loudest levels of a block that holds a whole window, slot by slot. */
  ghost function MaximumLevels(b: Block, step: nat -> Cx, db: real -> real, size: nat): (levels: seq<real>)
    requires SizeValid(size) && b.Fits(size) && |b.i| >= size
    ensures |levels| == size
  {
    WholeWindows(|b.i|, size);
    seq(size, j requires 0 <= j < size => Level(db, Loudest(b, step, size, |b.i| / size, Shifted(j, size))))
  }

  /** None of them is under the floor. */
  lemma LevelsAboveFloor(b: Block, step: nat -> Cx, db: real -> real, size: nat)
    requires SizeValid(size) && b.Fits(size) && |b.i| >= size && IsLevel(db)
    ensures forall l <- MaximumLevels(b, step, db, size) :: l >= DBFS_FLOOR
  {
    hide IsLevel, Level;
    WholeWindows(|b.i|, size);
    forall j: nat | j < size ensures MaximumLevels(b, step, db, size)[j] >= DBFS_FLOOR {
      LevelAboveFloor(db, Loudest(b, step, size, |b.i| / size, Shifted(j, size)));
    }
  }

  /**
    The whole of sdr_dsp_spectrum. Slot j stands for the frequency j - size/2 of
    the transform, whose mean and whose largest power over the whole windows it
    is given as levels; a block with no whole window is refused and writes nothing.
   */
  method SpectrumOf(b: Block, size: int, step: nat -> Cx, db: real -> real, average: array<real>, maximum: array<real>)
      returns (windows: nat)
    requires SizeValid(size) ==> b.Fits(size) && Fft.IsTwiddleTable(step, size)
    requires SizeValid(size) ==> size <= average.Length && size <= maximum.Length
    requires average != maximum
    modifies average, maximum
    ensures windows == if SizeValid(size) then |b.i| / size else 0
    ensures windows == 0 ==> average[..] == old(average[..]) && maximum[..] == old(maximum[..])
    ensures windows > 0 ==> windows * size <= |b.i| && forall j: nat | j < size ::
              && average[j] == Level(db, Total(b, step, size, windows, Shifted(j, size)) / windows as real)
              && maximum[j] == Level(db, Loudest(b, step, size, windows, Shifted(j, size)))
    ensures windows > 0 ==> size <= |b.i| && maximum[..size] == MaximumLevels(b, step, db, size)
  {
    hide Fft.IsTwiddleTable, Level;
    if !SizeValid(size) { return 0; }
    windows := |b.i| / size;
    if windows == 0 { return; }
    WholeWindows(|b.i|, size);
    forall k | 0 <= k < size { average[k] := 0.0; }
    forall k | 0 <= k < size { maximum[k] := 0.0; }
    Gather(b, size, windows, step, average, maximum);
    ghost var a, m := average[..], maximum[..];
    ToLevels(average, maximum, size, windows, db);
    forall j: nat | j < size
      ensures average[j] == Level(db, Total(b, step, size, windows, Shifted(j, size)) / windows as real)
      ensures maximum[j] == Level(db, Loudest(b, step, size, windows, Shifted(j, size)))
    {
      assert a[j] == Total(b, step, size, windows, Shifted(j, size));
      assert m[j] == Loudest(b, step, size, windows, Shifted(j, size));
    }
    assert size <= |b.i| by { WholeWindows(|b.i|, size); AtLeastOneWindow(|b.i|, size); }
  }

  lemma AtLeastOneWindow(n: nat, size: nat)
    requires size > 0 && n / size > 0
    ensures size <= n
  {}

  lemma WholeWindows(n: nat, size: nat)
    requires size > 0
    ensures n / size * size <= n
  {}
}
