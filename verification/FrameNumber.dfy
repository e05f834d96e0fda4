/**
  The frame number of the synchronisation channel, scripts/gsm_chain_probe.c:57-59
  and 302-306: (T1, T2, T3) are FN div 1326, FN mod 26 and FN mod 51 (section
  3.3.2.2 of 3GPP TS 45.002), and the formula puts the number back together.
 */
module FrameNumber {
  const HYPERFRAME := 2715648

  /** C's remainder: it takes the sign of the dividend. */
  function CRem(a: int, b: int): int
    requires b > 0
  {
    if a >= 0 then a % b else -((-a) % b)
  }

  function Frame(t1: int, t2: int, t3: int): int {
    51 * CRem((t3 + 26) - t2, 26) + t3 + 51 * 26 * t1
  }

  /** The fields a frame number is broadcast as. */
  function Fields(fn: nat): (int, int, int) {
    (fn / 1326, fn % 26, fn % 51)
  }

  /** 51 and 26 are coprime with 51 = -1 (mod 26): the remainders fix the residue. */
  lemma Residue(t2: int, t3: int)
    requires 0 <= t2 < 26 && 0 <= t3 < 51
    ensures var r := Frame(0, t2, t3);
            && 0 <= r < 1326 && r % 26 == t2 && r % 51 == t3
            && forall x :: 0 <= x < 1326 && x % 26 == t2 && x % 51 == t3 ==> x == r
  {
    var d, q := (t3 + 26 - t2) % 26, (t3 + 26 - t2) / 26;
    assert Frame(0, t2, t3) == 51 * d + t3 && 0 <= d < 26;
    hide Frame, CRem;
    // 51*d + t3 = 52*d - d + t3, and t3 - d differs from t2 by a multiple of 26
    RemainderIs26(51 * d + t3, 2 * d + q - 1, t2);
    RemainderIs51(51 * d + t3, d, t3);
    forall x | 0 <= x < 1326 && x % 26 == t2 && x % 51 == t3 ensures x == Frame(0, t2, t3) {
      SameResidue(x, Frame(0, t2, t3));
    }
  }

  lemma RemainderIs26(a: int, k: int, t: int)
    requires a == 26 * k + t && 0 <= t < 26
    ensures a % 26 == t
  {}

  lemma RemainderIs51(a: int, k: int, t: int)
    requires a == 51 * k + t && 0 <= t < 51
    ensures a % 51 == t
  {}

  lemma SameResidue(a: int, b: int)
    requires 0 <= a < 1326 && 0 <= b < 1326 && a % 26 == b % 26 && a % 51 == b % 51
    ensures a == b
  {
    var x, y := a / 51, b / 51;
    assert a - b == 51 * (x - y) && -26 < x - y < 26;
    var u, v := a / 26, b / 26;
    assert 51 * (x - y) == 26 * (u - v);
    assert x - y == 26 * (2 * (x - y) - (u - v));
  }

  /** Every frame number survives being broadcast as its fields. */
  lemma FrameOfFields(fn: nat)
    ensures var f := Fields(fn); Frame(f.0, f.1, f.2) == fn
  {
    var r := fn % 1326;
    assert r % 26 == fn % 26 && r % 51 == fn % 51 by {
      var q := fn / 1326;
      assert fn == 26 * (51 * q) + r && fn == 51 * (26 * q) + r;
      RemainderOf(fn, 26, 51 * q, r);
      RemainderOf(fn, 51, 26 * q, r);
    }
    Residue(fn % 26, fn % 51);
    SameResidue(Frame(0, fn % 26, fn % 51), r);
  }

  lemma RemainderOf(n: nat, m: nat, q: nat, r: nat)
    requires m > 0 && n == m * q + r
    ensures n % m == r % m
  {
    assert n == m * (q + r / m) + r % m;
    var d := n / m - (q + r / m);
    assert m * d == r % m - n % m;
    AtLeastOne(m, d);
  }

  lemma AtLeastOne(m: nat, d: int)
    ensures d >= 1 ==> m * d >= m
    ensures d <= -1 ==> m * d <= -1 * m
  {
    if d >= 1 {
      assert m * (d - 1) >= 0;
    } else if d <= -1 {
      assert m * (-1 - d) >= 0;
    }
  }

  /**
    The fields the burst can carry (five bits of T2, three of T3') name a frame
    that decomposes back into them exactly when the decoder's timing check at
    line 303 accepts them; an accepted frame lies in the hyperframe.
   */
  lemma FieldsOfFrame(t1: nat, t2: nat, t3p: nat)
    requires t1 < 2048 && t2 < 32 && t3p < 8
    ensures
      var fn := Frame(t1, t2, 10 * t3p + 1);
      (t2 <= 25 && t3p <= 4) <==> fn >= 0 && Fields(fn) == (t1, t2, 10 * t3p + 1)
    ensures t2 <= 25 && t3p <= 4 ==> 0 <= Frame(t1, t2, 10 * t3p + 1) < HYPERFRAME
  {
    hide Frame, CRem;
    if t2 <= 25 && t3p <= 4 {
      var r := Frame(0, t2, 10 * t3p + 1);
      Residue(t2, 10 * t3p + 1);
      var fn := Frame(t1, t2, 10 * t3p + 1);
      FrameSplits(t1, t2, 10 * t3p + 1);
      RemainderOf(fn, 26, 51 * t1, r);
      RemainderOf(fn, 51, 26 * t1, r);
      QuotientOf(fn, t1, r);
    }
  }

  lemma FrameSplits(t1: nat, t2: int, t3: int)
    ensures Frame(t1, t2, t3) == 1326 * t1 + Frame(0, t2, t3)
  {
    hide CRem;
  }

  lemma QuotientOf(fn: nat, t1: nat, r: nat)
    requires fn == 1326 * t1 + r && r < 1326
    ensures fn / 1326 == t1
  {}

  // ------------------------------------------------------- gaps between bursts

  /** A frame that carries a synchronisation burst: T3 is 10*T3' + 1 with T3' at most 4. */
  predicate IsSync(fn: nat) {
    fn % 51 % 10 == 1 && fn % 51 <= 41
  }

  /** The frame after fn that carries the next burst. */
  function NextSync(fn: nat): nat
    requires IsSync(fn)
  {
    if fn % 51 == 41 then fn + 11 else fn + 10
  }

  lemma NextSyncIsNext(fn: nat)
    requires IsSync(fn)
    ensures IsSync(NextSync(fn)) && NextSync(fn) - fn in {10, 11}
    ensures forall f :: fn < f < NextSync(fn) ==> !IsSync(f)
  {
    forall f: nat | fn < f < NextSync(fn) ensures !IsSync(f) { Later(fn, f - fn); }
    Later(fn, NextSync(fn) - fn);
  }

  /** The remainder a few frames on. */
  lemma Later(fn: nat, d: nat)
    requires d <= 51
    ensures (fn + d) % 51 == if fn % 51 + d < 51 then fn % 51 + d else fn % 51 + d - 51
  {
    var q, r := fn / 51, fn % 51;
    if r + d < 51 { RemainderIs51(fn + d, q, r + d); } else { RemainderIs51(fn + d, q + 1, r + d - 51); }
  }

  ghost function Total(gaps: seq<nat>): nat {
    if gaps == [] then 0 else gaps[0] + Total(gaps[1..])
  }

  /**
    Two frames with bursts are apart by a sum of tens and elevens, one gap for
    each burst passed; neighbours are apart by exactly one.
   */
  lemma {:induction false} LegalGaps(from: nat, to: nat) returns (gaps: seq<nat>)
    requires IsSync(from) && IsSync(to) && from <= to
    ensures Total(gaps) == to - from && forall g <- gaps :: g == 10 || g == 11
    ensures |gaps| == |set f | from < f <= to && IsSync(f)|
    decreases if from <= to then to - from else 0
  {
    var bursts := set f | from < f <= to && IsSync(f);
    if from == to {
      gaps := [];
      assert bursts == {};
    } else {
      var n := NextSync(from);
      NextSyncIsNext(from);
      assert n <= to;
      var rest := LegalGaps(n, to);
      gaps := [n - from] + rest;
      assert gaps[1..] == rest;
      assert bursts == {n} + set f | n < f <= to && IsSync(f);
    }
  }
}
