/**
  The ring of recent I/Q bytes, src/core/iq_ring.c:44-273. The wrapping buffer is
  proved to hold exactly the newest bytes of the plain history it stands for, and
  both ways of taking a slice out of it to return the same stretch of that
  history. Every operation runs under the ring's mutex, so each is one step here.
 */
module IqRing {
  import opened Basics

  // --------------------------------------------------- positions in the ring

  /** A position that may have run past the end once. */
  function Wrap(x: int, n: int): (r: int)
    requires 0 <= x < 2 * n
    ensures 0 <= r < n
  {
    if x < n then x else x - n
  }

  lemma RemainderIsWrap(x: int, n: int)
    requires 0 <= x < 2 * n
    ensures x % n == Wrap(x, n)
  {
    if x < n { SmallRemainder(x, n); } else { SmallRemainder(x - n, n); OneTurn(x - n, n); }
  }

  lemma SmallRemainder(x: int, n: int)
    requires 0 <= x < n
    ensures x % n == x
  {}

  lemma OneTurn(x: int, n: int)
    requires 0 <= x < n
    ensures (x + n) % n == x
  {
    assert (x + n) / n == x / n + 1 && x / n == 0;
  }

  /** The byte d places behind the write position. */
  ghost function Behind(b: seq<byte>, head: int, d: int): byte
    requires 0 <= head < |b| && 1 <= d <= |b|
  {
    b[Wrap(head + |b| - d, |b|)]
  }

  /** The newest `filled` bytes, oldest first. */
  ghost function Held(b: seq<byte>, head: int, filled: int): (h: seq<byte>)
    requires 0 <= head < |b| && 0 <= filled <= |b|
    ensures |h| == filled
  {
    seq(filled, i requires 0 <= i < filled => Behind(b, head, filled - i))
  }

  ghost function Newest(history: seq<byte>, n: nat): (r: seq<byte>)
    ensures |r| == if |history| < n then |history| else n
  {
    if |history| <= n then history else history[|history| - n..]
  }

  lemma NewestTwice(history: seq<byte>, data: seq<byte>, n: nat)
    ensures Newest(Newest(history, n) + data, n) == Newest(history + data, n)
  {
    var kept := Newest(history, n);
    if |history| > n {
      assert (history + data)[|history| - n..] == kept + data;
      var cut := |kept| + |data| - n;
      assert (history + data)[|history| + |data| - n..] == (history + data)[|history| - n..][cut..];
    }
  }

  /** Bytes written from the head on, wrapping once at most. */
  ghost predicate Written(b: seq<byte>, w: seq<byte>, head: int, data: seq<byte>)
    requires 0 <= head < |b| && |w| == |b| && |data| < |b|
  {
    && (forall i :: 0 <= i < |data| ==> w[Wrap(head + i, |b|)] == data[i])
    && (forall p :: 0 <= p < |b| && !(head <= p < head + |data|) && !(p + |b| < head + |data|) ==> w[p] == b[p])
  }

  lemma BehindAfterWrite(b: seq<byte>, w: seq<byte>, head: int, data: seq<byte>, d: int)
    requires 0 <= head < |b| && |w| == |b| && |data| < |b| && Written(b, w, head, data)
    requires 1 <= d <= |b|
    ensures Behind(w, Wrap(head + |data|, |b|), d)
         == if d <= |data| then data[|data| - d] else Behind(b, head, d - |data|)
  {
    var n := |b|;
    var next := Wrap(head + |data|, n);
    var p := Wrap(next + n - d, n);
    if d <= |data| {
      assert p == Wrap(head + (|data| - d), n);
    } else {
      assert p == Wrap(head + n - (d - |data|), n);
    }
  }

  /** Writing at the head and moving it past what was written appends to what is held. */
  lemma PushAppends(b: seq<byte>, w: seq<byte>, head: int, filled: int, data: seq<byte>)
    requires 0 <= head < |b| && 0 <= filled <= |b| && |w| == |b| && |data| < |b|
    requires Written(b, w, head, data)
    ensures
      var next := if filled + |data| > |b| then |b| else filled + |data|;
      Held(w, Wrap(head + |data|, |b|), next) == Newest(Held(b, head, filled) + data, |b|)
  {
    hide Behind, Written;
    var next := if filled + |data| > |b| then |b| else filled + |data|;
    var all := Held(b, head, filled) + data;
    var held := Held(w, Wrap(head + |data|, |b|), next);
    forall j | 0 <= j < next ensures held[j] == all[|all| - next + j] {
      BehindAfterWrite(b, w, head, data, next - j);
    }
  }

  // ------------------------------------------------------------- the slices

  /** C's round() of a non-negative value. */
  function Round(x: real): int { (x + 0.5).Floor }

  function AlignDown(x: nat, pair: nat): (r: nat)
    requires pair > 0
    ensures r <= x
  {
    x - x % pair
  }

  /** How far behind the newest byte the stretch begins, and how long it is. */
  datatype Request = Request(back: nat, length: nat)

  /** A span of time in bytes, in whole pairs. */
  function ByteCount(seconds: real, sampleRate: nat, pair: nat): nat
    requires pair > 0
  {
    AlignDown(Clamp(Round(seconds * (sampleRate * pair) as real)), pair)
  }

  /** Lines 150-172 and 224-244, without the caller's limit. */
  function Requested(age: real, duration: real, sampleRate: nat, pair: nat, filled: nat): (r: Request)
    requires duration > 0.0 && pair > 0
    ensures r.length <= r.back <= filled
  {
    var half := duration / 2.0;
    var ageStart := if age - half < 0.0 then duration else age + half;
    var offsetBack := ByteCount(ageStart, sampleRate, pair);
    var back := if offsetBack > filled then filled else offsetBack;
    var asked := ByteCount(duration, sampleRate, pair);
    Request(back, if asked > back then back else asked)
  }

  function Clamp(x: int): nat { if x < 0 then 0 else x }

  lemma AlignedDown(x: nat, pair: nat)
    requires pair in {2, 4, 8}
    ensures AlignDown(x, pair) % pair == 0
  {
    if pair == 2 { Down2(x); } else if pair == 4 { Down4(x); } else { Down8(x); }
  }

  lemma Down2(x: nat)
    ensures (x - x % 2) % 2 == 0
  {}

  lemma Down4(x: nat)
    ensures (x - x % 4) % 4 == 0
  {}

  lemma Down8(x: nat)
    ensures (x - x % 8) % 8 == 0
  {}

  lemma SumAligned(x: nat, y: nat, pair: nat)
    requires pair in {2, 4, 8} && x % pair == 0 && y % pair == 0
    ensures (x + y) % pair == 0
    ensures x >= y ==> (x - y) % pair == 0
  {
    if pair == 2 { Sum2(x, y); } else if pair == 4 { Sum4(x, y); } else { Sum8(x, y); }
  }

  lemma Sum2(x: nat, y: nat)
    requires x % 2 == 0 && y % 2 == 0
    ensures (x + y) % 2 == 0 && (x - y) % 2 == 0
  {}

  lemma Sum4(x: nat, y: nat)
    requires x % 4 == 0 && y % 4 == 0
    ensures (x + y) % 4 == 0 && (x - y) % 4 == 0
  {}

  lemma Sum8(x: nat, y: nat)
    requires x % 8 == 0 && y % 8 == 0
    ensures (x + y) % 8 == 0 && (x - y) % 8 == 0
  {}

  /** Both ends of a request fall between pairs, and so does what a caller's limit leaves of it. */
  lemma RequestAligned(age: real, duration: real, sampleRate: nat, pair: nat, filled: nat, maxBytes: nat)
    requires duration > 0.0 && pair in {2, 4, 8} && filled % pair == 0
    ensures var r := Requested(age, duration, sampleRate, pair, filled);
      r.back % pair == 0 && r.length % pair == 0 && Limited(r.length, maxBytes, pair) % pair == 0
  {
    hide ByteCount;
    AlignedDown(maxBytes, pair);
    ByteCountAligned(if age - duration / 2.0 < 0.0 then duration else age + duration / 2.0, sampleRate, pair);
    ByteCountAligned(duration, sampleRate, pair);
  }

  lemma ByteCountAligned(seconds: real, sampleRate: nat, pair: nat)
    requires pair in {2, 4, 8}
    ensures ByteCount(seconds, sampleRate, pair) % pair == 0
  {
    hide AlignDown;
    AlignedDown(Clamp(Round(seconds * (sampleRate * pair) as real)), pair);
  }

  /** Lines 173-174: no more than the caller has room for, in whole pairs. */
  function Limited(length: nat, maxBytes: nat, pair: nat): (n: nat)
    requires pair > 0
    ensures n <= length && n <= maxBytes
  {
    if length > maxBytes then AlignDown(maxBytes, pair) else length
  }

  /** The first n of the held bytes from `back` behind the newest. */
  ghost function Stretch(held: seq<byte>, back: nat, n: nat): (s: seq<byte>)
    requires n <= back <= |held|
    ensures |s| == n
  {
    held[|held| - back..][..n]
  }

  lemma StretchFromRing(b: seq<byte>, head: int, filled: int, back: int, length: int)
    requires 0 <= head < |b| && 0 <= filled <= |b| && 0 < length <= back <= filled
    ensures
      var start := Wrap(head + |b| - back, |b|);
      Held(b, head, filled)[filled - back..][..length]
        == if length <= |b| - start then b[start..start + length] else b[start..] + b[..length - (|b| - start)]
  {
    var n := |b|;
    var start := Wrap(head + n - back, n);
    var taken := if length <= n - start then b[start..start + length] else b[start..] + b[..length - (n - start)];
    var held := Held(b, head, filled);
    forall i | 0 <= i < length ensures taken[i] == held[filled - back..][..length][i] {
      assert held[filled - back + i] == Behind(b, head, back - i);
    }
  }

  // ----------------------------------------------------------------- the ring

  class Ring {
    var buffer: array<byte>
    var head: nat
    var filled: nat
    var sampleRate: nat
    var pair: nat
    const durationSeconds: real
    /** Everything pushed since the last configure. */
    ghost var history: seq<byte>

    constructor (durationSeconds: real)
      ensures Valid() && fresh(buffer) && history == [] && buffer.Length == 0
    {
      this.durationSeconds := if durationSeconds > 0.0 then durationSeconds else 30.0;
      buffer := new byte[0];
      head, filled, sampleRate, pair := 0, 0, 0, 2;
      history := [];
    }

    /** The ring holds the newest bytes of the history, as many as it has room for. */
    ghost predicate Valid()
      reads this, buffer
    {
      && pair in {2, 4, 8}
      && filled <= buffer.Length
      && (buffer.Length == 0 ==> head == 0 && history == [])
      && (buffer.Length > 0 ==> head < buffer.Length && Contents() == Newest(history, buffer.Length))
    }

    ghost function Contents(): seq<byte>
      requires filled <= buffer.Length && (buffer.Length > 0 ==> head < buffer.Length)
      reads this, buffer
    {
      if buffer.Length == 0 then [] else Held(buffer[..], head, filled)
    }

    /** Whole pairs went in and the ring holds a whole number of them. */
    ghost predicate Aligned()
      reads this, buffer
    {
      && pair in {2, 4, 8}
      && buffer.Length % pair == 0
      && |history| % pair == 0
    }

    /**
      Lines 44-89, given the container's bytes per pair (0 when the format has
      none). A failed allocation leaves the old buffer and an empty history.
     */
    method Configure(sampleRate: nat, bytesPerPair: nat, haveMemory: bool) returns (ok: bool)
      requires Valid() && bytesPerPair in {0, 2, 4, 8}
      requires sampleRate > 0 && buffer.Length > 0 ==>
                 CapacityFor(durationSeconds, sampleRate, if bytesPerPair == 0 then 2 else bytesPerPair) > 0
      modifies this
      ensures Valid() && (buffer == old(buffer) || fresh(buffer))
      ensures sampleRate == 0 ==> !ok && history == old(history) && buffer == old(buffer)
      ensures sampleRate > 0 ==>
        && history == [] && filled == 0 && this.sampleRate == sampleRate
        && pair == (if bytesPerPair == 0 then 2 else bytesPerPair)
      ensures ok ==> buffer.Length == CapacityFor(durationSeconds, sampleRate, pair) && Aligned()
      ensures ok <==> sampleRate > 0 && (haveMemory || CapacityFor(durationSeconds, sampleRate, pair) == old(buffer.Length))
    {
      if sampleRate == 0 {
        return false;
      }
      this.sampleRate := sampleRate;
      pair := if bytesPerPair == 0 then 2 else bytesPerPair;
      head, filled, history := 0, 0, [];
      var needed := CapacityFor(durationSeconds, sampleRate, pair);
      AlignedDown(Clamp((durationSeconds * sampleRate as real * pair as real).Floor), pair);
      if needed != buffer.Length {
        if !haveMemory {
          return false;
        }
        buffer := new byte[needed];
      }
      ok := true;
    }

    /** Lines 91-120. */
    method Push(data: seq<byte>)
      requires Valid()
      modifies this, buffer
      ensures Valid() && buffer == old(buffer) && pair == old(pair) && sampleRate == old(sampleRate)
      ensures history == if buffer.Length == 0 then [] else old(history) + data
      ensures old(Aligned()) && |data| % pair == 0 ==> Aligned()
    {
      if buffer.Length == 0 || data == [] {
        // nothing to do, and nothing pushed
        assert old(history) + [] == old(history);
        return;
      }
      hide Held, Newest;
      if old(Aligned()) && |data| % pair == 0 { SumAligned(|history|, |data|, pair); }
      NewestTwice(history, data, buffer.Length);
      head, filled := WriteBytes(buffer, head, filled, data);
      history := history + data;
    }

    /**
      Lines 134-209. Up to maxBytes of the stretch asked for, from its oldest end;
      the caller's buffer beyond them is untouched.
     */
    method ExtractSlice(age: real, duration: real, out: array<byte>, maxBytes: nat) returns (ok: bool, actual: nat)
      requires Valid() && out != buffer && maxBytes <= out.Length
      modifies out
      ensures ok <==> duration > 0.0 && sampleRate > 0 && Limited(Asked(age, duration).length, maxBytes, pair) > 0
      ensures ok ==>
        && actual == Limited(Asked(age, duration).length, maxBytes, pair) <= out.Length
        && out[..actual] == Stretch(Contents(), Asked(age, duration).back, actual)
        && (Aligned() ==> IsPiece(history, out[..actual], Asked(age, duration).back, pair))
      ensures forall i :: (if ok then actual else 0) <= i < out.Length ==> out[i] == old(out[i])
    {
      ok, actual := false, 0;
      if maxBytes == 0 || duration <= 0.0 || filled == 0 || sampleRate == 0 {
        return;
      }
      var r := Requested(age, duration, sampleRate, pair, filled);
      var req := r.length;
      if req > maxBytes {
        req := AlignDown(maxBytes, pair);
      }
      if req == 0 {
        return;
      }
      CopyOut(buffer, head, filled, r.back, req, out);
      if Aligned() { TakenIsPiece(age, duration, maxBytes); }
      return true, req;
    }

    /** Lines 211-293: the whole stretch asked for, in a buffer of its own. */
    method ExtractSnapshot(age: real, duration: real) returns (snap: array?<byte>)
      requires Valid()
      ensures snap != null <==> duration > 0.0 && sampleRate > 0 && Asked(age, duration).length > 0
      ensures snap != null ==>
        && fresh(snap) && snap[..] == Stretch(Contents(), Asked(age, duration).back, Asked(age, duration).length)
        && (Aligned() ==> IsPiece(history, snap[..], Asked(age, duration).back, pair))
    {
      hide Held, Newest, IsPiece;
      if duration <= 0.0 || filled == 0 || sampleRate == 0 {
        return null;
      }
      var r := Requested(age, duration, sampleRate, pair, filled);
      if r.length == 0 {
        return null;
      }
      var data := new byte[r.length](_ => 0);
      CopyOut(buffer, head, filled, r.back, r.length, data);
      assert data[..] == data[..r.length];
      if Aligned() { TakenIsPiece(age, duration, r.length); }
      return data;
    }

    /** Whatever limit it is taken under, a stretch asked of whole pairs is a piece of what was pushed. */
    lemma TakenIsPiece(age: real, duration: real, maxBytes: nat)
      requires Valid() && Aligned() && duration > 0.0
      ensures var r := Asked(age, duration);
              IsPiece(history, Stretch(Contents(), r.back, Limited(r.length, maxBytes, pair)), r.back, pair)
    {
      hide Requested, Newest, IsPiece, Stretch, Held, Limited;
      NewestAligned(history, buffer.Length, pair);
      RequestAligned(age, duration, sampleRate, pair, filled, maxBytes);
      NothingNewest(history);
      StretchOfHistory(history, buffer.Length, pair, Asked(age, duration), Limited(Asked(age, duration).length, maxBytes, pair));
    }

    /** The stretch named by an age and a duration, given what the ring holds now. */
    ghost function Asked(age: real, duration: real): (r: Request)
      requires Valid()
      reads this, buffer
      ensures r.length <= r.back <= |Contents()|
    {
      if duration <= 0.0 then Request(0, 0) else Requested(age, duration, sampleRate, pair, filled)
    }
  }

  /** Lines 185-194: memcpy out of the ring, in two pieces if the stretch wraps. */
  method CopyOut(buffer: array<byte>, head: nat, filled: nat, back: nat, length: nat, out: array<byte>)
    requires buffer != out && head < buffer.Length && filled <= buffer.Length
    requires 0 < length <= back <= filled && length <= out.Length
    modifies out
    ensures out[..length] == Held(buffer[..], head, filled)[filled - back..][..length]
    ensures forall i :: length <= i < out.Length ==> out[i] == old(out[i])
  {
    hide Held;
    var capacity := buffer.Length;
    var start := (head + capacity - back) % capacity;
    RemainderIsWrap(head + capacity - back, capacity);
    StretchFromRing(buffer[..], head, filled, back, length);
    var first := capacity - start;
    if length <= first {
      Store(out, 0, buffer[start..start + length]);
      assert out[..length] == buffer[start..start + length];
    } else {
      Store(out, 0, buffer[start..]);
      Store(out, first, buffer[..length - first]);
      assert out[..length] == buffer[start..] + buffer[..length - first];
    }
  }

  /** Lines 98-117: what a push does to the buffer, the head and the fill. */
  method WriteBytes(buffer: array<byte>, head: nat, filled: nat, data: seq<byte>) returns (nextHead: nat, nextFilled: nat)
    requires head < buffer.Length && filled <= buffer.Length
    modifies buffer
    ensures nextHead < buffer.Length && nextFilled <= buffer.Length
    ensures Held(buffer[..], nextHead, nextFilled)
         == Newest(Held(old(buffer[..]), head, filled) + data, buffer.Length)
  {
    hide Held, Newest, Written;
    ghost var before := buffer[..];
    var capacity := buffer.Length;
    if |data| >= capacity {
      Store(buffer, 0, data[|data| - capacity..]);
      NewestOfLong(Held(before, head, filled), buffer[..], data);
      return 0, capacity;
    }
    nextHead := WriteAtHead(buffer, head, data);
    PushAppends(before, buffer[..], head, filled, data);
    nextFilled := filled + |data|;
    if nextFilled > capacity {
      nextFilled := capacity;
    }
  }

  /** Lines 105-113: write at the head, wrapping if need be; returns the new head. */
  method WriteAtHead(buffer: array<byte>, head: nat, data: seq<byte>) returns (next: nat)
    requires head < buffer.Length && |data| < buffer.Length
    modifies buffer
    ensures Written(old(buffer[..]), buffer[..], head, data)
    ensures next == Wrap(head + |data|, buffer.Length)
  {
    var first := buffer.Length - head;
    if |data| <= first {
      Store(buffer, head, data);
      next := (head + |data|) % buffer.Length;
      RemainderIsWrap(head + |data|, buffer.Length);
    } else {
      Store(buffer, head, data[..first]);
      Store(buffer, 0, data[first..]);
      next := |data| - first;
    }
  }

  lemma NewestOfLong(held: seq<byte>, b: seq<byte>, data: seq<byte>)
    requires 0 < |b| <= |data| && b == data[|data| - |b|..]
    ensures Held(b, 0, |b|) == Newest(held + data, |b|)
  {
    forall i | 0 <= i < |b| ensures Held(b, 0, |b|)[i] == b[i] {
      var d := |b| - i;
      assert Held(b, 0, |b|)[i] == Behind(b, 0, d);
      assert Wrap(0 + |b| - d, |b|) == i;
    }
    assert Held(b, 0, |b|) == b;
    assert (held + data)[|held| + |data| - |b|..] == data[|data| - |b|..];
    if |held + data| <= |b| { assert held + data == data; }
  }

  function CapacityFor(duration: real, sampleRate: nat, pair: nat): nat
    requires pair > 0
  {
    AlignDown(Clamp((duration * sampleRate as real * pair as real).Floor), pair)
  }

  /** memcpy into the buffer. */
  method Store(buffer: array<byte>, at: nat, data: seq<byte>)
    requires at + |data| <= buffer.Length
    modifies buffer
    ensures forall i :: at <= i < at + |data| ==> buffer[i] == data[i - at]
    ensures forall i :: 0 <= i < buffer.Length && !(at <= i < at + |data|) ==> buffer[i] == old(buffer[i])
  {
    forall i | 0 <= i < |data| { buffer[at + i] := data[i]; }
  }

  // -------------------------------------------------- what the slices are

  /** n bytes of the history from `back` behind its end, both ends of them between pairs. */
  ghost predicate IsPiece(history: seq<byte>, piece: seq<byte>, back: nat, pair: nat)
    requires pair > 0
  {
    && |piece| <= back <= |history|
    && piece == history[|history| - back..|history| - back + |piece|]
    && (|history| - back) % pair == 0 && (|history| - back + |piece|) % pair == 0
  }

  /** What is held of whole pairs in a ring of whole pairs is whole pairs. */
  lemma NewestAligned(history: seq<byte>, capacity: nat, pair: nat)
    requires pair > 0 && |history| % pair == 0 && capacity % pair == 0
    ensures |Newest(history, capacity)| % pair == 0
  {}

  /** A slice is a contiguous piece of everything pushed, and its two ends fall between pairs. */
  lemma StretchOfHistory(history: seq<byte>, capacity: nat, pair: nat, r: Request, n: nat)
    requires pair in {2, 4, 8} && |history| % pair == 0 && capacity % pair == 0
    requires n <= r.length <= r.back <= |Newest(history, capacity)|
    requires r.back % pair == 0 && n % pair == 0
    ensures IsPiece(history, Stretch(Newest(history, capacity), r.back, n), r.back, pair)
  {
    hide Stretch, Newest;
    StretchOfNewest(history, capacity, r.back, n);
    var from := |history| - r.back;
    SumAligned(|history|, r.back, pair);
    SumAligned(from, n, pair);
  }

  lemma NothingNewest(history: seq<byte>)
    ensures Newest(history, 0) == []
  {}

  lemma StretchOfNewest(history: seq<byte>, capacity: nat, back: nat, n: nat)
    requires n <= back <= |Newest(history, capacity)|
    ensures back <= |history| && Stretch(Newest(history, capacity), back, n) == history[|history| - back..|history| - back + n]
  {
    var held := Newest(history, capacity);
    assert held[|held| - back..] == history[|history| - back..];
    assert history[|history| - back..][..n] == history[|history| - back..|history| - back + n];
  }

  /** The two extractions return the same bytes, the limited one as many of them as fit. */
  lemma SliceIsSnapshotPrefix(held: seq<byte>, r: Request, maxBytes: nat, pair: nat)
    requires pair in {2, 4, 8} && r.length <= r.back <= |held|
    ensures
      var n := Limited(r.length, maxBytes, pair);
      && Stretch(held, r.back, n) <= Stretch(held, r.back, r.length)
      && (r.length <= maxBytes ==> Stretch(held, r.back, n) == Stretch(held, r.back, r.length))
      && (r.length > maxBytes ==> maxBytes - pair < n <= maxBytes)
  {}
}
