/**
  The in-place radix-2 transform of src/core/sdr_dsp.c:9-52, over exact
  complex numbers: a bit-reversal permutation driven by a carry that runs from
  the top bit down, then butterfly stages of doubling length with the twiddle
  accumulated by repeated multiplication.

  `step(len)` stands for (cosf(-2*pi/len), sinf(-2*pi/len)); what the proof
  needs of it is collected in IsTwiddleTable.
 */
module Fft {
  import opened Complex

  ghost predicate IsPow2(n: nat) {
    n == 1 || (n > 1 && n % 2 == 0 && IsPow2(n / 2))
  }

  // ---------------------------------------------------------------- twiddles

  /**
    The half-angle facts that single out exp(-2*pi*i/len) for len = 2, 4, 8, ...:
    each entry squares to the one before it and, from 8 on, lies in the open
    fourth quadrant, so the choice of square root is the forward one.
   */
  ghost predicate IsTwiddleTable(step: nat -> Cx, n: nat) {
    && step(2) == MINUS_ONE
    && step(4) == Cx(0.0, -1.0)
    && (forall len: nat :: IsPow2(len) && 4 <= len <= n ==>
          Mul(step(len), step(len)) == step(len / 2))
    && (forall len: nat :: IsPow2(len) && 8 <= len <= n ==>
          step(len).re > 0.0 && step(len).im < 0.0)
  }

  /** The root a transform of length len uses; length one has no twiddle. */
  ghost function Root(step: nat -> Cx, len: nat): Cx {
    if len == 1 then ONE else step(len)
  }

  lemma RootSquared(step: nat -> Cx, n: nat, len: nat)
    requires IsTwiddleTable(step, n) && IsPow2(len) && 2 <= len <= n
    ensures IsPow2(len / 2)
    ensures Mul(Root(step, len), Root(step, len)) == Root(step, len / 2)
  {
  }

  lemma HalfTurnTwice(w: Cx, half: nat)
    requires Pow(w, half) == MINUS_ONE
    ensures Pow(w, 2 * half) == ONE
  {
    assert Mul(MINUS_ONE, MINUS_ONE) == ONE;
    hide Pow, Mul;
    PowAdd(w, half, half);
  }

  lemma SmallestRoot(step: nat -> Cx, n: nat)
    requires IsTwiddleTable(step, n)
    ensures Root(step, 2) == MINUS_ONE
  {}

  /** step(len) is a primitive len-th root of one: half way round it is -1. */
  lemma {:induction false} RootHalfTurn(step: nat -> Cx, n: nat, len: nat)
    requires IsTwiddleTable(step, n) && IsPow2(len) && 2 <= len <= n
    ensures Pow(Root(step, len), len / 2) == MINUS_ONE
    ensures Pow(Root(step, len), len) == ONE
    decreases len
  {
    hide Pow, Mul, Root;
    var w := Root(step, len);
    RootSquared(step, n, len);
    if len == 2 {
      assert w == MINUS_ONE by { SmallestRoot(step, n); }
      PowStep(w, 0);
    } else {
      RootHalfTurn(step, n, len / 2);
      PowSquare(w, len / 4);
    }
    HalfTurnTwice(w, len / 2);
  }

  lemma RootFullTurn(step: nat -> Cx, n: nat, len: nat)
    requires IsTwiddleTable(step, n) && IsPow2(len) && len <= n
    ensures Pow(Root(step, len), len) == ONE
  {
    if len == 1 { PowStep(ONE, 0); } else { RootHalfTurn(step, n, len); }
  }

  lemma ZeroFactor(x: real, y: real)
    requires x * y == 0.0 && y != 0.0
    ensures x == 0.0
  {}

  lemma SquarePositive(x: real, y: real)
    requires x > 0.0
    ensures x * x + y * y > 0.0
  {}

  lemma ProductByNorm(x: real, y: real, p: real, q: real)
    requires x * p == y * q && x * q == -(y * p)
    ensures (p * p + q * q) * x == 0.0
  {
    assert (x * p) * p + (x * q) * q == (y * q) * p - (y * p) * q;
  }

  /** A complex product vanishes only with its first factor when the second has p > 0. */
  lemma ProductVanishes(x: real, y: real, p: real, q: real)
    requires p > 0.0
    requires x * p == y * q && x * q == -(y * p)
    ensures x == 0.0 && y == 0.0
  {
    var norm := p * p + q * q;
    ProductByNorm(x, y, p, q);
    SquarePositive(p, q);
    if x != 0.0 {
      ZeroFactor(norm, x);
    }
    ZeroFactor(y, p);
  }

  /** Square roots with a positive real part are unique. */
  lemma SquareRootUnique(a: Cx, b: Cx)
    requires Mul(a, a) == Mul(b, b)
    requires a.re > 0.0 && b.re > 0.0
    ensures a == b
  {
    // (a - b)(a + b) == 0 and a + b has a positive real part
    ProductVanishes(a.re - b.re, a.im - b.im, a.re + b.re, a.im + b.im);
  }

  /** The table's conditions leave no freedom: two tables agree wherever they apply. */
  lemma {:induction false} TwiddlesAreUnique(s: nat -> Cx, t: nat -> Cx, n: nat, len: nat)
    requires IsTwiddleTable(s, n) && IsTwiddleTable(t, n)
    requires IsPow2(len) && 2 <= len <= n
    ensures s(len) == t(len)
    decreases len
  {
    if len >= 8 {
      TwiddlesAreUnique(s, t, n, len / 2);
      assert s(len) == t(len) by {
        assert Mul(s(len), s(len)) == Mul(t(len), t(len));
        SquareRootUnique(s(len), t(len));
      }
    } else {
      assert len % 2 == 0 && IsPow2(len / 2);
    }
  }

  // ------------------------------------------------------------ the DFT sum

  ghost function At(x: seq<Cx>, i: nat): Cx {
    if i < |x| then x[i] else ZERO
  }

  /** One term, x[r + j*s] * w^(k*j). */
  ghost function Term(x: seq<Cx>, w: Cx, r: nat, s: nat, k: nat, j: nat): Cx {
    Mul(Pow(w, k * j), At(x, r + j * s))
  }

  /** The sum of the first m terms. */
  ghost function DftSum(x: seq<Cx>, w: Cx, r: nat, s: nat, k: nat, m: nat): Cx {
    if m == 0 then ZERO else Add(DftSum(x, w, r, s, k, m - 1), Term(x, w, r, s, k, m - 1))
  }

  /** Slot k of the discrete Fourier transform of x with root w. */
  ghost function Dft(x: seq<Cx>, w: Cx, k: nat): Cx {
    DftSum(x, w, 0, 1, k, |x|)
  }

  lemma Regroup(wk: Cx, e: Cx, o: Cx, te: Cx, to: Cx)
    ensures Add(Add(Add(e, Mul(wk, o)), te), Mul(wk, to)) == Add(Add(e, te), Mul(wk, Add(o, to)))
  {
    MulDistribute(wk, o, to);
  }

  lemma EvenOddTerms(x: seq<Cx>, w: Cx, r: nat, s: nat, k: nat, j: nat)
    ensures Term(x, w, r, s, k, 2 * j) == Term(x, Mul(w, w), r, 2 * s, k, j)
    ensures Term(x, w, r, s, k, 2 * j + 1) == Mul(Pow(w, k), Term(x, Mul(w, w), r + s, 2 * s, k, j))
  {
    hide Pow, Mul, At, Term;
    var e: nat, i: nat := k * j, r + j * (2 * s);
    TermIs(x, w, r, s, k, 2 * j, 2 * e, i);
    TermIs(x, w, r, s, k, 2 * j + 1, k + 2 * e, i + s);
    TermIs(x, Mul(w, w), r, 2 * s, k, j, e, i);
    TermIs(x, Mul(w, w), r + s, 2 * s, k, j, e, i + s);
    PowSquare(w, e);
    PowAdd(w, k, 2 * e);
    MulAssoc(Pow(w, k), Pow(Mul(w, w), e), At(x, i + s));
  }

  lemma TermIs(x: seq<Cx>, w: Cx, r: nat, s: nat, k: nat, j: nat, e: nat, i: nat)
    requires e == k * j && i == r + j * s
    ensures Term(x, w, r, s, k, j) == Mul(Pow(w, e), At(x, i))
  {}

  lemma SumEmpty(x: seq<Cx>, w: Cx, r: nat, s: nat, k: nat)
    ensures DftSum(x, w, r, s, k, 0)
         == Add(DftSum(x, Mul(w, w), r, 2 * s, k, 0),
                Mul(Pow(w, k), DftSum(x, Mul(w, w), r + s, 2 * s, k, 0)))
  {}

  /** Decimation in time: the even- and odd-indexed halves, transformed separately. */
  lemma {:induction false} SplitSum(x: seq<Cx>, w: Cx, r: nat, s: nat, k: nat, m: nat)
    ensures DftSum(x, w, r, s, k, 2 * m)
         == Add(DftSum(x, Mul(w, w), r, 2 * s, k, m),
                Mul(Pow(w, k), DftSum(x, Mul(w, w), r + s, 2 * s, k, m)))
  {
    hide Pow, Mul, Add, Term;
    if m == 0 {
      SumEmpty(x, w, r, s, k);
    } else {
      var j: nat := m - 1;
      SplitSum(x, w, r, s, k, j);
      EvenOddTerms(x, w, r, s, k, j);
      Regroup(Pow(w, k), DftSum(x, Mul(w, w), r, 2 * s, k, j), DftSum(x, Mul(w, w), r + s, 2 * s, k, j),
              Term(x, Mul(w, w), r, 2 * s, k, j), Term(x, Mul(w, w), r + s, 2 * s, k, j));
      assert DftSum(x, w, r, s, k, 2 * j + 1) == Add(DftSum(x, w, r, s, k, 2 * j), Term(x, w, r, s, k, 2 * j));
    }
  }

  /** Raising the slot by the root's order changes nothing. */
  lemma {:induction false} SumPeriod(x: seq<Cx>, w: Cx, l: nat, r: nat, s: nat, k: nat, m: nat)
    requires Pow(w, l) == ONE
    ensures DftSum(x, w, r, s, k + l, m) == DftSum(x, w, r, s, k, m)
  {
    hide Pow, Mul, Add, Term;
    if m != 0 {
      SumPeriod(x, w, l, r, s, k, m - 1);
      TermPeriod(x, w, l, r, s, k, m - 1);
    }
  }

  lemma TermPeriod(x: seq<Cx>, w: Cx, l: nat, r: nat, s: nat, k: nat, j: nat)
    requires Pow(w, l) == ONE
    ensures Term(x, w, r, s, k + l, j) == Term(x, w, r, s, k, j)
  {
    hide Pow, Mul, At;
    assert (k + l) * j == k * j + l * j;
    PowPeriod(w, l, k * j, j);
  }

  /**
    One butterfly: slots k and k + half of the length-len transform at (r, s)
    from slot k of the two half-length transforms at (r, 2s) and (r + s, 2s).
   */
  lemma Butterfly(x: seq<Cx>, step: nat -> Cx, n: nat, len: nat, r: nat, s: nat, k: nat)
    requires IsTwiddleTable(step, n) && IsPow2(len) && 2 <= len <= n
    ensures
      var half, w := len / 2, Root(step, len);
      var even := DftSum(x, Root(step, half), r, 2 * s, k, half);
      var odd := Mul(Pow(w, k), DftSum(x, Root(step, half), r + s, 2 * s, k, half));
      && DftSum(x, w, r, s, k, len) == Add(even, odd)
      && DftSum(x, w, r, s, k + half, len) == Sub(even, odd)
  {
    hide Pow, Mul, Add, Sub, DftSum;
    var half, w, v := len / 2, Root(step, len), Root(step, len / 2);
    RootSquared(step, n, len);
    RootHalfTurn(step, n, len);
    RootFullTurn(step, n, half);
    SplitSum(x, w, r, s, k, half);
    SplitSum(x, w, r, s, k + half, half);
    SumPeriod(x, v, half, r, 2 * s, k, half);
    SumPeriod(x, v, half, r + s, 2 * s, k, half);
    var o := DftSum(x, v, r + s, 2 * s, k, half);
    var e := DftSum(x, v, r, 2 * s, k, half);
    assert Add(e, Mul(Pow(w, k + half), o)) == Sub(e, Mul(Pow(w, k), o)) by {
      NegatedTwiddle(w, k, half, o);
      AddNegated(e, Mul(Pow(w, k), o));
    }
  }

  lemma AddNegated(e: Cx, o: Cx)
    ensures Add(e, Sub(ZERO, o)) == Sub(e, o)
  {}

  lemma NegatedTwiddle(w: Cx, k: nat, half: nat, o: Cx)
    requires Pow(w, half) == MINUS_ONE
    ensures Mul(Pow(w, k + half), o) == Sub(ZERO, Mul(Pow(w, k), o))
  {
    hide Pow;
    PowAdd(w, k, half);
    MulUnits(Pow(w, k));
  }

  // ------------------------------------------------------------ bit reversal

  /** The reversal of i's log2(n) bits. */
  ghost function Rev(n: nat, i: nat): nat {
    if n <= 1 then 0 else Rev(n / 2, i / 2) + (if i % 2 == 1 then n / 2 else 0)
  }

  lemma {:induction false} RevBound(n: nat, i: nat)
    requires IsPow2(n)
    ensures Rev(n, i) < n
  {
    if n > 1 { RevBound(n / 2, i / 2); }
  }

  /** Read from the other end: the top bit of the index becomes the lowest. */
  lemma {:induction false} RevTopBit(n: nat, j: nat, top: bool)
    requires IsPow2(n) && n > 1 && j < n / 2
    ensures Rev(n, if top then j + n / 2 else j) == 2 * Rev(n / 2, j) + (if top then 1 else 0)
  {
    if n == 2 {
      assert Rev(1, 0) == 0;
    } else {
      assert n % 2 == 0 && (n / 2) % 2 == 0;
      var i := if top then j + n / 2 else j;
      assert i / 2 == (if top then j / 2 + n / 4 else j / 2) && i % 2 == j % 2;
      RevTopBit(n / 2, j / 2, top);
    }
  }

  /** Reversing twice is the identity, so the swaps below pair every index off. */
  lemma {:induction false} RevInvolution(n: nat, i: nat)
    requires IsPow2(n) && i < n
    ensures Rev(n, i) < n && Rev(n, Rev(n, i)) == i
  {
    RevBound(n, i);
    if n > 1 {
      RevInvolution(n / 2, i / 2);
      RevBound(n / 2, i / 2);
      RevTopBit(n, Rev(n / 2, i / 2), i % 2 == 1);
    }
  }

  /** `j ^= bit` for a bit that is a power of two and j below twice that bit. */
  function FlipBit(j: nat, bit: nat): nat {
    if bit > 0 && (j / bit) % 2 == 1 then j - bit else j + bit
  }

  /** What the carry loop leaves: set bits cleared from `bit` downwards, the next one set. */
  ghost function Carry(j: nat, bit: nat): nat {
    if bit > 0 && (j / bit) % 2 == 1 then Carry(FlipBit(j, bit), bit / 2) else FlipBit(j, bit)
  }

  lemma TestTopBit(j: nat, bit: nat)
    requires j < 2 * bit
    ensures (j / bit) % 2 == 1 <==> j >= bit
  {
    if j >= bit { assert j / bit == 1; } else { assert j / bit == 0; }
  }

  /** The carry turns the reversal of i into the reversal of i + 1. */
  lemma {:induction false} CarryIsIncrement(n: nat, i: nat)
    requires IsPow2(n) && i + 1 < n
    ensures Carry(Rev(n, i), n / 2) == Rev(n, i + 1)
  {
    var bit := n / 2;
    RevBound(bit, i / 2);
    TestTopBit(Rev(n, i), bit);
    if i % 2 == 1 {
      assert (i + 1) / 2 == i / 2 + 1;
      CarryIsIncrement(bit, i / 2);
    } else {
      assert (i + 1) / 2 == i / 2;
    }
  }

  // ------------------------------------------------- the array as a sequence

  ghost function Signal(re: seq<real>, im: seq<real>): (z: seq<Cx>)
    requires |re| == |im|
    ensures |z| == |re|
  {
    seq(|re|, i requires 0 <= i < |re| => Cx(re[i], im[i]))
  }

  method Swap(re: array<real>, im: array<real>, i: nat, j: nat)
    requires re != im && i < re.Length == im.Length && j < re.Length
    modifies re, im
    ensures Signal(re[..], im[..])
         == old(Signal(re[..], im[..]))[i := old(Signal(re[..], im[..]))[j]][j := old(Signal(re[..], im[..]))[i]]
  {
    re[i], re[j] := re[j], re[i];
    im[i], im[j] := im[j], im[i];
  }

  /** After the swaps for indices below i: pairs already met are exchanged, the rest untouched. */
  ghost predicate Exchanged(z: seq<Cx>, x: seq<Cx>, i: nat) {
    && |z| == |x|
    && forall p {:trigger z[p]} | 0 <= p < |x| ::
         && Rev(|x|, p) < |x|
         && z[p] == if p < i || Rev(|x|, p) < i then x[Rev(|x|, p)] else x[p]
  }

  lemma ExchangeNext(z: seq<Cx>, x: seq<Cx>, i: nat, j: nat)
    requires IsPow2(|x|) && Exchanged(z, x, i)
    requires i < |x| && j == Rev(|x|, i) && j < |x|
    ensures Exchanged(if i < j then z[i := z[j]][j := z[i]] else z, x, i + 1)
  {
    var n := |x|;
    RevInvolution(n, i);
    var z' := if i < j then z[i := z[j]][j := z[i]] else z;
    forall p | 0 <= p < n
      ensures Rev(n, p) < n
      ensures z'[p] == if p < i + 1 || Rev(n, p) < i + 1 then x[Rev(n, p)] else x[p]
    {
      RevInvolution(n, p);
      assert z[p] == z[p] && z[i] == z[i] && z[j] == z[j];
    }
  }

  /** Lines 11-24: after it, slot p holds what was at the reversal of p. */
  method BitReversePermute(re: array<real>, im: array<real>, n: nat)
    requires re != im && re.Length == im.Length == n && IsPow2(n)
    modifies re, im
    ensures forall p :: 0 <= p < n ==>
      Rev(n, p) < n && Signal(re[..], im[..])[p] == old(Signal(re[..], im[..]))[Rev(n, p)]
  {
    hide Exchanged, Signal, Carry;
    ghost var x := Signal(re[..], im[..]);
    ghost var now := x;
    var i, j := 1, 0;
    RevZero(n);
    FirstExchange(x);
    while i < n
      invariant 1 <= i <= n && j == Rev(n, i - 1)
      invariant Signal(re[..], im[..]) == now && |now| == n
      invariant Exchanged(now, x, i)
    {
      CarryIsIncrement(n, i - 1);
      RevBound(n, i);
      j := CarryDown(j, n / 2);
      ExchangeNext(now, x, i, j);
      if i < j {
        Swap(re, im, i, j);
        now := now[i := now[j]][j := now[i]];
      }
      i := i + 1;
    }
    AllExchanged(now, x);
  }

  lemma FirstExchange(x: seq<Cx>)
    requires IsPow2(|x|)
    ensures Exchanged(x, x, 1)
  {
    OnlyZeroReversesToZero(|x|);
    forall p | 0 <= p < |x|
      ensures Rev(|x|, p) < |x| && (p < 1 || Rev(|x|, p) < 1 ==> x[Rev(|x|, p)] == x[p])
    {
      RevZero(|x|);
    }
  }

  lemma AllExchanged(z: seq<Cx>, x: seq<Cx>)
    requires Exchanged(z, x, |x|)
    ensures |z| == |x| && forall p :: 0 <= p < |x| ==> Rev(|x|, p) < |x| && z[p] == x[Rev(|x|, p)]
  {
    forall p | 0 <= p < |x| ensures Rev(|x|, p) < |x| && z[p] == x[Rev(|x|, p)] { assert z[p] == z[p]; }
  }

  lemma OnlyZeroReversesToZero(n: nat)
    requires IsPow2(n)
    ensures forall p :: 0 <= p < n ==> Rev(n, p) < n && (Rev(n, p) < 1 ==> p == 0)
  {
    RevZero(n);
    forall p | 0 <= p < n ensures Rev(n, p) < n && (Rev(n, p) < 1 ==> p == 0) { RevInvolution(n, p); }
  }

  lemma {:induction false} RevZero(n: nat)
    ensures Rev(n, 0) == 0
  {
    if n > 1 { RevZero(n / 2); }
  }

  /** Lines 12-15, the loop that ripples the carry from the top bit down. */
  method CarryDown(j0: nat, top: nat) returns (j: nat)
    ensures j == Carry(j0, top)
  {
    j := j0;
    var bit := top;
    while bit > 0 && (j / bit) % 2 == 1
      invariant Carry(j, bit) == Carry(j0, top)
      decreases bit
    {
      j := FlipBit(j, bit);
      bit := bit / 2;
    }
    j := FlipBit(j, bit);
  }

  // ----------------------------------------------------------------- stages

  /**
    What slot i holds once all blocks have length len, with s == |x| / len: the
    length-len transform of every s-th sample, starting at the reversal of the
    block's number.
   */
  ghost function Slot(x: seq<Cx>, step: nat -> Cx, s: nat, len: nat, i: nat): Cx
    requires len > 0
  {
    DftSum(x, Root(step, len), Rev(s, i / len), s, i % len, len)
  }

  lemma AtLeastOne(d: int, len: nat)
    ensures d >= 1 ==> d * len >= len
    ensures d <= -1 ==> d * len <= -(len as int)
  {
    if d >= 1 {
      assert (d - 1) * len >= 0;
    } else if d <= -1 {
      assert (-1 - d) * len >= 0;
    }
  }

  lemma Division(a: nat, len: nat, q: nat, r: nat)
    requires r < len && a == q * len + r
    ensures a / len == q && a % len == r
  {
    var d := a / len - q;
    assert a == (a / len) * len + a % len;
    assert d * len == r - a % len;
    AtLeastOne(d, len);
  }

  lemma PairPositions(s: nat, half: nat, c: nat, base: nat, j: nat)
    requires j < half && base == c * (2 * half)
    ensures
      var len, even, odd := 2 * half, base + j, base + j + half;
      && even / half == 2 * c && even % half == j && odd / half == 2 * c + 1 && odd % half == j
      && even / len == c && even % len == j && odd / len == c && odd % len == j + half
    ensures Rev(2 * s, 2 * c) == Rev(s, c) || s == 0
    ensures Rev(2 * s, 2 * c + 1) == Rev(s, c) + s || s == 0
  {
    var even, odd := base + j, base + j + half;
    assert base == (2 * c) * half && base + half == (2 * c + 1) * half;
    Division(even, half, 2 * c, j);
    Division(odd, half, 2 * c + 1, j);
    Division(even, 2 * half, c, j);
    Division(odd, 2 * half, c, j + half);
  }

  /** One butterfly of one block turns half-length slots into full-length ones. */
  lemma MergeSlots(x: seq<Cx>, step: nat -> Cx, s: nat, half: nat, c: nat, base: nat, j: nat)
    requires IsPow2(|x|) && IsTwiddleTable(step, |x|)
    requires IsPow2(half) && 2 * half <= |x| && s > 0 && j < half && base == c * (2 * half)
    ensures
      var even := Slot(x, step, 2 * s, half, base + j);
      var odd := Mul(Pow(Root(step, 2 * half), j), Slot(x, step, 2 * s, half, base + j + half));
      && Slot(x, step, s, 2 * half, base + j) == Add(even, odd)
      && Slot(x, step, s, 2 * half, base + j + half) == Sub(even, odd)
  {
    hide Pow, Mul, Add, Sub, DftSum, Rev, IsTwiddleTable, Root;
    PairPositions(s, half, c, base, j);
    assert IsPow2(2 * half);
    Butterfly(x, step, |x|, 2 * half, Rev(s, c), s, j);
  }

  /** Lines 34-44, one pair of slots. */
  method Combine(re: array<real>, im: array<real>, even: nat, odd: nat, w: Cx)
    requires re != im && even < odd < re.Length == im.Length
    modifies re, im
    ensures
      var z := old(Signal(re[..], im[..]));
      Signal(re[..], im[..])
        == z[even := Add(z[even], Mul(z[odd], w))][odd := Sub(z[even], Mul(z[odd], w))]
  {
    ghost var z := Signal(re[..], im[..]);
    var oddRe := re[odd] * w.re - im[odd] * w.im;
    var oddIm := re[odd] * w.im + im[odd] * w.re;
    var evenRe := re[even];
    var evenIm := im[even];
    re[even] := evenRe + oddRe;
    im[even] := evenIm + oddIm;
    re[odd] := evenRe - oddRe;
    im[odd] := evenIm - oddIm;
    assert Signal(re[..], im[..])[even] == Add(z[even], Mul(z[odd], w));
    assert Signal(re[..], im[..])[odd] == Sub(z[even], Mul(z[odd], w));
  }

  /** The slot values of a stage in progress: done below `base`, and in a block's first j pairs. */
  ghost predicate StageAt(z: seq<Cx>, x: seq<Cx>, step: nat -> Cx, s: nat, half: nat, base: nat, j: nat)
    requires half > 0
  {
    && |z| == |x|
    && forall i {:trigger z[i]} | 0 <= i < |x| ::
         z[i] == if i < base || base <= i < base + j || base + half <= i < base + half + j
                 then Slot(x, step, s, 2 * half, i) else Slot(x, step, 2 * s, half, i)
  }

  lemma StageStep(z: seq<Cx>, x: seq<Cx>, step: nat -> Cx, s: nat, half: nat, c: nat,
                  base: nat, j: nat, w: Cx)
    requires IsPow2(|x|) && IsTwiddleTable(step, |x|)
    requires IsPow2(half) && s > 0 && base == c * (2 * half) && j < half && base + 2 * half <= |x|
    requires w == Pow(Root(step, 2 * half), j)
    requires StageAt(z, x, step, s, half, base, j)
    ensures
      var even, odd := base + j, base + j + half;
      StageAt(z[even := Add(z[even], Mul(z[odd], w))][odd := Sub(z[even], Mul(z[odd], w))],
              x, step, s, half, base, j + 1)
  {
    hide Pow, Mul, Add, Sub, Slot, IsPow2, IsTwiddleTable, Root;
    MergeSlots(x, step, s, half, c, base, j);
    MulComm(w, z[base + j + half]);
    assert z[base + j] == Slot(x, step, 2 * s, half, base + j);
    assert z[base + j + half] == Slot(x, step, 2 * s, half, base + j + half);
  }

  lemma MulComm(a: Cx, b: Cx)
    ensures Mul(a, b) == Mul(b, a)
  {}

  /** Lines 31-49: one block, its twiddle accumulated by repeated multiplication. */
  method CombineBlock(re: array<real>, im: array<real>, ghost x: seq<Cx>, step: nat -> Cx,
                      ghost s: nat, half: nat, base: nat, ghost c: nat)
    requires re != im && re.Length == im.Length == |x|
    requires IsPow2(|x|) && IsTwiddleTable(step, |x|)
    requires IsPow2(half) && s > 0 && base == c * (2 * half)
    requires base + 2 * half <= |x|
    requires StageAt(Signal(re[..], im[..]), x, step, s, half, base, 0)
    modifies re, im
    ensures StageAt(Signal(re[..], im[..]), x, step, s, half, base, half)
  {
    hide Pow, Mul, Add, Sub, StageAt;
    var w := ONE;
    var root := step(2 * half);
    PowStep(root, 0);
    var j := 0;
    while j < half
      invariant 0 <= j <= half
      invariant w == Pow(root, j)
      invariant StageAt(Signal(re[..], im[..]), x, step, s, half, base, j)
    {
      StageStep(Signal(re[..], im[..]), x, step, s, half, c, base, j, w);
      Combine(re, im, base + j, base + j + half, w);
      PowStep(root, j);
      w := Mul(w, root);
      j := j + 1;
    }
  }

  lemma NextBlock(z: seq<Cx>, x: seq<Cx>, step: nat -> Cx, s: nat, half: nat, base: nat)
    requires half > 0 && StageAt(z, x, step, s, half, base, half)
    ensures StageAt(z, x, step, s, half, base + 2 * half, 0)
  {}

  /** A block starting inside the array also ends inside it. */
  lemma BlockFits(s: nat, len: nat, c: nat)
    requires len > 0
    ensures c * len < s * len ==> c * len + len <= s * len
    ensures (c + 1) * len == c * len + len
  {
    AtLeastOne(s - c, len);
    assert (s - c) * len == s * len - c * len;
    if s <= c { assert (c - s) * len >= 0; }
  }

  /** Lines 30-50: every block of one length. */
  method Stage(re: array<real>, im: array<real>, ghost x: seq<Cx>, step: nat -> Cx,
               ghost s: nat, half: nat)
    requires re != im && re.Length == im.Length == |x|
    requires IsPow2(|x|) && IsTwiddleTable(step, |x|)
    requires IsPow2(half) && s * (2 * half) == |x|
    requires StageAt(Signal(re[..], im[..]), x, step, s, half, 0, 0)
    modifies re, im
    ensures StageAt(Signal(re[..], im[..]), x, step, s, half, |x|, 0)
  {
    hide StageAt, IsTwiddleTable, Signal;
    var base := 0;
    ghost var c := 0;
    assert s > 0 by { if s == 0 { assert |x| == 0; } }
    while base < re.Length
      invariant base == c * (2 * half) && base <= re.Length
      invariant StageAt(Signal(re[..], im[..]), x, step, s, half, base, 0)
    {
      BlockFits(s, 2 * half, c);
      CombineBlock(re, im, x, step, s, half, base, c);
      NextBlock(Signal(re[..], im[..]), x, step, s, half, base);
      base := base + 2 * half;
      c := c + 1;
    }
  }

  /**
    The whole transform: in exact arithmetic slot k ends with the DFT of the
    input at k, for every power-of-two length.
   */
  method FftForward(re: array<real>, im: array<real>, n: nat, step: nat -> Cx)
    requires re != im && re.Length == im.Length == n
    requires IsPow2(n) && IsTwiddleTable(step, n)
    modifies re, im
    ensures
      var x, z := old(Signal(re[..], im[..])), Signal(re[..], im[..]);
      forall k :: 0 <= k < n ==> z[k] == Dft(x, Root(step, n), k)
  {
    hide AllBlocks, StageAt, IsTwiddleTable, Dft, Root, Strides, Signal, Rev;
    ghost var x := Signal(re[..], im[..]);
    BitReversePermute(re, im, n);
    FirstStage(Signal(re[..], im[..]), x, step);
    var len := 2;
    ghost var half: nat := 1;
    ghost var s: nat := n;
    StartStrides(n);
    while len <= n
      invariant len == 2 * half && half > 0 && Strides(s, half, n)
      invariant AllBlocks(Signal(re[..], im[..]), x, step, s, half)
      decreases n - half
    {
      HalveStride(s, half, n);
      s := s / 2;
      StartStage(Signal(re[..], im[..]), x, step, s, half);
      Stage(re, im, x, step, s, len / 2);
      EndStage(Signal(re[..], im[..]), x, step, s, half);
      half := len;
      len := len * 2;
    }
    LastStride(s, half, n);
    LastStage(Signal(re[..], im[..]), x, step);
  }

  /** n split into `s` interleaved subsequences, each already transformed in blocks of `half`. */
  ghost predicate Strides(s: nat, half: nat, n: nat) {
    IsPow2(s) && IsPow2(half) && s * half == n
  }

  lemma StartStrides(n: nat)
    requires IsPow2(n)
    ensures Strides(n, 1, n)
  {}

  ghost predicate AllBlocks(z: seq<Cx>, x: seq<Cx>, step: nat -> Cx, s: nat, len: nat) {
    |z| == |x| && len > 0 && forall i {:trigger z[i]} | 0 <= i < |x| :: z[i] == Slot(x, step, s, len, i)
  }

  lemma FirstStage(z: seq<Cx>, x: seq<Cx>, step: nat -> Cx)
    requires |z| == |x| && forall p :: 0 <= p < |x| ==> Rev(|x|, p) < |x| && z[p] == x[Rev(|x|, p)]
    ensures AllBlocks(z, x, step, |x|, 1)
  {
    forall i | 0 <= i < |x| ensures z[i] == Slot(x, step, |x|, 1, i) {
      var r := Rev(|x|, i);
      assert i / 1 == i && i % 1 == 0;
      TermIs(x, ONE, r, |x|, 0, 0, 0, r);
      SingleSample(x, r, |x|);
    }
  }

  lemma SingleSample(x: seq<Cx>, r: nat, s: nat)
    requires r < |x|
    ensures DftSum(x, ONE, r, s, 0, 1) == x[r]
  {
    hide Term, Pow, Mul;
    TermIs(x, ONE, r, s, 0, 0, 0, r);
    PowStep(ONE, 0);
    MulUnits(x[r]);
    assert DftSum(x, ONE, r, s, 0, 1) == Add(DftSum(x, ONE, r, s, 0, 0), Term(x, ONE, r, s, 0, 0));
  }

  lemma HalveStride(s: nat, half: nat, n: nat)
    requires Strides(s, half, n) && 2 * half <= n && half > 0
    ensures s % 2 == 0 && s / 2 > 0 && IsPow2(half) && IsPow2(2 * half)
    ensures (s / 2) * (2 * half) == n && Strides(s / 2, 2 * half, n)
  {
    assert s != 1;
    Halve(s, half);
  }

  lemma Halve(s: nat, half: nat)
    requires s % 2 == 0
    ensures (s / 2) * (2 * half) == s * half
  {
    var t := s / 2;
    assert s == 2 * t;
    assert (2 * t) * half == t * (2 * half);
  }

  lemma LastStride(s: nat, half: nat, n: nat)
    requires Strides(s, half, n) && half > 0 && 2 * half > n
    ensures s == 1 && half == n
  {
    AtLeastOne(s - 1, half);
    assert (s - 1) * half == n - half;
  }

  lemma StartStage(z: seq<Cx>, x: seq<Cx>, step: nat -> Cx, s: nat, half: nat)
    requires half > 0 && AllBlocks(z, x, step, 2 * s, half)
    ensures StageAt(z, x, step, s, half, 0, 0)
  {}

  lemma EndStage(z: seq<Cx>, x: seq<Cx>, step: nat -> Cx, s: nat, half: nat)
    requires half > 0 && StageAt(z, x, step, s, half, |x|, 0)
    ensures AllBlocks(z, x, step, s, 2 * half)
  {}

  lemma LastStage(z: seq<Cx>, x: seq<Cx>, step: nat -> Cx)
    requires AllBlocks(z, x, step, 1, |x|)
    ensures forall k :: 0 <= k < |x| ==> z[k] == Dft(x, Root(step, |x|), k)
  {
    forall k | 0 <= k < |x| ensures z[k] == Dft(x, Root(step, |x|), k) {
      assert k / |x| == 0 && k % |x| == k && Rev(1, 0) == 0;
    }
  }
}
