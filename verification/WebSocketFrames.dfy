/**
  The Viewer link's WebSocket framing: the client's frame writer, its incremental
  frame parser over a growing buffer and its receive loops over whatever chunks
  the socket delivers, scripts/viewer_client.py:170-246, and the frame writer of
  the server it talks to, src/server/websocket.c:391-421 (sections 5.2 and 5.3 of
  RFC 6455).
 */
module WebSocketFrames {
  import opened Basics

  type Mask = m: seq<byte> | |m| == 4 witness [0, 0, 0, 0]

  const TEXT: nat := 1
  const CLOSE: nat := 8
  const PING: nat := 9
  const PONG: nat := 10

  datatype Frame = Frame(opcode: nat, payload: seq<byte>)

  datatype Parsed = Incomplete | Complete(frame: Frame, rest: seq<byte>)

  // ------------------------------------------------------------- arithmetic

  /** Bitwise exclusive or of two n-bit numbers. */
  function XorBits(a: nat, b: nat, n: nat): (r: nat) {
    if n == 0 then 0 else 2 * XorBits(a / 2, b / 2, n - 1) + (if a % 2 == b % 2 then 0 else 1)
  }

  /** Masking twice with the same byte restores it. */
  lemma {:induction false} XorTwice(a: nat, b: nat, n: nat)
    requires a < Power2(n)
    ensures XorBits(a, b, n) < Power2(n)
    ensures XorBits(XorBits(a, b, n), b, n) == a
  {
    if n != 0 {
      XorTwice(a / 2, b / 2, n - 1);
      var x := XorBits(a / 2, b / 2, n - 1);
      assert XorBits(a, b, n) / 2 == x;
    }
  }

  function XorByte(a: byte, b: byte): (r: byte) {
    assert XorBits(a as nat, b as nat, 8) < 256 by { Power2Is256(); XorTwice(a as nat, b as nat, 8); }
    XorBits(a as nat, b as nat, 8) as byte
  }

  lemma Power2Is256()
    ensures Power2(8) == 256
  {
    assert Power2(4) == 16;
  }

  /** `bytes(c ^ key[i % 4] for i, c in enumerate(payload))`. */
  function Masked(payload: seq<byte>, key: Mask): (r: seq<byte>)
    ensures |r| == |payload|
  {
    seq(|payload|, i requires 0 <= i < |payload| => XorByte(payload[i], key[i % 4]))
  }

  lemma MaskedTwice(payload: seq<byte>, key: Mask)
    ensures Masked(Masked(payload, key), key) == payload
  {
    Power2Is256();
    forall i | 0 <= i < |payload|
      ensures XorByte(XorByte(payload[i], key[i % 4]), key[i % 4]) == payload[i]
    {
      XorTwice(payload[i] as nat, key[i % 4] as nat, 8);
    }
  }

  /** struct.pack(">H") and (">Q"): n bytes, most significant first. */
  function BigEndian(n: nat, v: nat): (r: seq<byte>)
    ensures |r| == n
  {
    if n == 0 then [] else BigEndian(n - 1, v / 256) + [(v % 256) as byte]
  }

  function FromBigEndian(s: seq<byte>): nat {
    if s == [] then 0 else 256 * FromBigEndian(s[..|s| - 1]) + s[|s| - 1] as nat
  }

  function Power256(n: nat): (p: nat)
    ensures p > 0
  {
    if n == 0 then 1 else 256 * Power256(n - 1)
  }

  lemma {:induction false} BigEndianRoundTrip(n: nat, v: nat)
    requires v < Power256(n)
    ensures FromBigEndian(BigEndian(n, v)) == v
  {
    if n != 0 {
      BigEndianRoundTrip(n - 1, v / 256);
      assert BigEndian(n, v)[..n - 1] == BigEndian(n - 1, v / 256);
    }
  }

  lemma WidthLimits()
    ensures Power256(2) == 0x1_0000 && Power256(8) == 0x1_0000_0000_0000_0000
  {
    assert Power256(1) == 256 && Power256(2) == 0x1_0000;
    assert Power256(3) == 0x100_0000 && Power256(4) == 0x1_0000_0000;
    assert Power256(5) == 0x100_0000_0000 && Power256(6) == 0x1_0000_0000_0000;
    assert Power256(7) == 0x100_0000_0000_0000;
  }

  // ---------------------------------------------------------------- writing

  /** What `_send_frame` can write: four opcode bits, and a length eight bytes hold. */
  predicate Sendable(f: Frame) {
    f.opcode < 16 && |f.payload| < 0x1_0000_0000_0000_0000
  }

  /** The top bit of the second byte says whether a key follows the length. */
  function MaskBit(key: Option<Mask>): nat { if key.Some? then 128 else 0 }

  /** How many bytes an extended length takes. */
  function Width(length: nat): nat { if length <= 125 then 0 else if length <= 0xFFFF then 2 else 8 }

  /**
    A whole frame. The client masks every payload with a key of its own, lines
    171-181; the server never does, lines 396-421 of websocket.c.
   */
  function Encode(f: Frame, key: Option<Mask>): (r: seq<byte>)
    requires Sendable(f)
  {
    var length := |f.payload|;
    var first := (128 + f.opcode) as byte;
    var header :=
      if length <= 125 then [first, (MaskBit(key) + length) as byte]
      else if length <= 0xFFFF then [first, (MaskBit(key) + 126) as byte] + BigEndian(2, length)
      else [first, (MaskBit(key) + 127) as byte] + BigEndian(8, length);
    match key
    case Some(mask) => header + mask + Masked(f.payload, mask)
    case None => header + f.payload
  }

  // ---------------------------------------------------------------- parsing

  /** How many extended-length bytes follow the second header byte. */
  function LengthBytes(b1: byte): (n: nat)
    ensures n <= 8
  {
    if b1 % 128 == 126 then 2 else if b1 % 128 == 127 then 8 else 0
  }

  function MaskBytes(b1: byte): (n: nat)
    ensures n <= 4
  {
    if b1 >= 128 then 4 else 0
  }

  /** Whether the buffer reaches past its first frame's length field. */
  predicate HasLength(buf: seq<byte>) {
    |buf| >= 2 && |buf| >= 2 + LengthBytes(buf[1])
  }

  function PayloadLength(buf: seq<byte>): nat
    requires HasLength(buf)
  {
    var n := LengthBytes(buf[1]);
    if n == 0 then (buf[1] % 128) as nat else FromBigEndian(buf[2..2 + n])
  }

  function PayloadStart(buf: seq<byte>): nat
    requires HasLength(buf)
  {
    2 + LengthBytes(buf[1]) + MaskBytes(buf[1])
  }

  /** The first frame of the buffer, once all of it is there. */
  function Parse(buf: seq<byte>): Parsed {
    if !HasLength(buf) then Incomplete
    else
      var start := PayloadStart(buf);
      var end := start + PayloadLength(buf);
      if |buf| < end then Incomplete
      else Complete(Frame((buf[0] % 16) as nat, Payload(buf, start, end, MaskBytes(buf[1]) == 4)), buf[end..])
  }

  /** The payload between its ends, unmasked with the four bytes before it. */
  function Payload(buf: seq<byte>, start: nat, end: nat, masked: bool): seq<byte>
    requires start <= end <= |buf| && (masked ==> start >= 4)
  {
    if masked then Masked(buf[start..end], buf[start - 4..start]) else buf[start..end]
  }

  lemma PayloadExtends(buf: seq<byte>, more: seq<byte>, start: nat, end: nat, masked: bool)
    requires start <= end <= |buf| && (masked ==> start >= 4)
    ensures Payload(buf + more, start, end, masked) == Payload(buf, start, end, masked)
  {
    hide Masked;
    SliceExtends(buf, more, start, end);
    if masked { SliceExtends(buf, more, start - 4, start); }
  }

  lemma SliceExtends<T>(s: seq<T>, t: seq<T>, a: nat, b: nat)
    requires a <= b <= |s|
    ensures (s + t)[a..b] == s[a..b] && (s + t)[b..] == s[b..] + t
  {}

  lemma HeaderExtends(buf: seq<byte>, more: seq<byte>)
    requires HasLength(buf)
    ensures var whole := buf + more;
      && whole[0] == buf[0] && whole[1] == buf[1]
      && HasLength(whole) && PayloadLength(whole) == PayloadLength(buf) && PayloadStart(whole) == PayloadStart(buf)
  {
    SliceExtends(buf, more, 2, 2 + LengthBytes(buf[1]));
  }

  /** What follows a complete frame never changes how it parses. */
  lemma ParseExtends(buf: seq<byte>, more: seq<byte>)
    requires Parse(buf).Complete?
    ensures Parse(buf + more) == Complete(Parse(buf).frame, Parse(buf).rest + more)
    ensures |Parse(buf).rest| < |buf|
  {
    HeaderExtends(buf, more);
    var start := PayloadStart(buf);
    var end := start + PayloadLength(buf);
    assert start >= 2 + MaskBytes(buf[1]);
    hide HasLength, PayloadLength, PayloadStart, MaskBytes, Payload;
    SliceExtends(buf, more, start, end);
    PayloadExtends(buf, more, start, end, MaskBytes(buf[1]) == 4);
  }

  /** The bytes before the payload, and what the payload is written as. */
  lemma EncodedParts(f: Frame, key: Option<Mask>)
    requires Sendable(f)
    ensures var e, n := Encode(f, key), Width(|f.payload|);
      && |e| >= 2 + n && LengthBytes(e[1]) == n && MaskBytes(e[1]) == MaskBit(key) / 32
      && (e[0] % 16) as nat == f.opcode
      && (n == 0 ==> (e[1] % 128) as nat == |f.payload|) && (n > 0 ==> e[2..2 + n] == BigEndian(n, |f.payload|))
      && e[2 + n..] == (match key case Some(mask) => mask + Masked(f.payload, mask) case None => f.payload)
  {
    var e, length, n := Encode(f, key), |f.payload|, Width(|f.payload|);
    var tail := match key case Some(mask) => mask + Masked(f.payload, mask) case None => f.payload;
    var first, bit := (128 + f.opcode) as byte, MaskBit(key);
    hide BigEndian, Masked;
    var header := if n == 0 then [first, (bit + length) as byte]
                  else [first, (bit + (if n == 2 then 126 else 127)) as byte] + BigEndian(n, length);
    assert e == header + tail;
  }

  lemma EncodedHeader(f: Frame, key: Option<Mask>)
    requires Sendable(f)
    ensures var e := Encode(f, key);
      && HasLength(e) && PayloadLength(e) == |f.payload| && |e| == PayloadStart(e) + |f.payload|
  {
    hide Encode, BigEndian, FromBigEndian, Masked;
    WidthLimits();
    EncodedParts(f, key);
    var n := Width(|f.payload|);
    if n > 0 { BigEndianRoundTrip(n, |f.payload|); }
  }

  lemma EncodedPayload(f: Frame, key: Option<Mask>)
    requires Sendable(f)
    ensures var e := Encode(f, key); var end := |e|;
      && HasLength(e) && PayloadStart(e) <= end && (MaskBytes(e[1]) == 4 ==> PayloadStart(e) >= 4)
      && Payload(e, PayloadStart(e), end, MaskBytes(e[1]) == 4) == f.payload
  {
    hide Encode, BigEndian, FromBigEndian, Masked, Sendable, PayloadLength, Width;
    EncodedParts(f, key);
    EncodedHeader(f, key);
    var e, a := Encode(f, key), 2 + Width(|f.payload|);
    match key {
      case Some(mask) =>
        KeyAndRest(e, a, mask, Masked(f.payload, mask));
        MaskedTwice(f.payload, mask);
      case None =>
        assert e[a..|e|] == e[a..];
    }
  }

  lemma KeyAndRest(e: seq<byte>, a: nat, mask: Mask, m: seq<byte>)
    requires a <= |e| && e[a..] == mask + m
    ensures a + 4 <= |e| && e[a..a + 4] == mask && e[a + 4..|e|] == m
  {
    assert e[a..a + 4] == e[a..][..4] && e[a + 4..|e|] == e[a..][4..];
  }

  lemma EncodedAlone(f: Frame, key: Option<Mask>)
    requires Sendable(f)
    ensures Parse(Encode(f, key)) == Complete(f, [])
  {
    hide Encode, HasLength, PayloadLength, PayloadStart, MaskBytes, Payload, Sendable;
    var e := Encode(f, key);
    EncodedParts(f, key);
    EncodedHeader(f, key);
    EncodedPayload(f, key);
    assert e[|e|..] == [];
  }

  /** A written frame, whatever follows it, parses back to itself. */
  lemma EncodeParses(f: Frame, key: Option<Mask>, rest: seq<byte>)
    requires Sendable(f)
    ensures Parse(Encode(f, key) + rest) == Complete(f, rest)
  {
    hide Encode, Parse;
    EncodedAlone(f, key);
    ParseExtends(Encode(f, key), rest);
    assert [] + rest == rest;
  }

  /** No strict prefix of a written frame parses as anything. */
  lemma PrefixIncomplete(f: Frame, key: Option<Mask>, cut: nat)
    requires Sendable(f) && cut < |Encode(f, key)|
    ensures Parse(Encode(f, key)[..cut]) == Incomplete
  {
    var e := Encode(f, key);
    hide Encode, Parse;
    if Parse(e[..cut]).Complete? {
      ParseExtends(e[..cut], e[cut..]);
      assert e[..cut] + e[cut..] == e;
      EncodedAlone(f, key);
    }
  }

  // ---------------------------------------------------------- whole streams

  /** Everything written, in order. */
  function EncodeAll(fs: seq<Frame>, keys: seq<Option<Mask>>): seq<byte>
    requires |fs| == |keys| && forall f <- fs :: Sendable(f)
  {
    if fs == [] then [] else Encode(fs[0], keys[0]) + EncodeAll(fs[1..], keys[1..])
  }

  /** What the socket still has to deliver; an empty chunk means the peer closed. */
  function Flatten(chunks: seq<seq<byte>>): seq<byte> {
    if chunks == [] || chunks[0] == [] then [] else chunks[0] + Flatten(chunks[1..])
  }

  /** The frames of a byte stream, taken greedily from the front. */
  function Frames(stream: seq<byte>): seq<Frame>
    decreases |stream|
  {
    match Parse(stream)
    case Incomplete => []
    case Complete(f, rest) =>
      assert |rest| < |stream| by { ParseExtends(stream, []); }
      [f] + Frames(rest)
  }

  /** Written frames come out of the stream as they went in. */
  lemma {:induction false} StreamRoundTrip(fs: seq<Frame>, keys: seq<Option<Mask>>)
    requires |fs| == |keys| && forall f <- fs :: Sendable(f)
    ensures Frames(EncodeAll(fs, keys)) == fs
  {
    hide Encode, Parse;
    if fs == [] {
      EmptyIncomplete();
    } else {
      EncodeParses(fs[0], keys[0], EncodeAll(fs[1..], keys[1..]));
      StreamRoundTrip(fs[1..], keys[1..]);
      assert fs == [fs[0]] + fs[1..];
    }
  }

  lemma EmptyIncomplete()
    ensures Parse([]) == Incomplete
  {}

  /** What `recv_message` makes of a stream. */
  datatype Received =
    | Message(frame: Frame, pongs: seq<seq<byte>>, rest: seq<byte>)
    | PeerClosed(pongs: seq<seq<byte>>, rest: seq<byte>)
    | LinkEnded(pongs: seq<seq<byte>>, rest: seq<byte>)

  /**
    The first frame that is not a ping or a pong, with the payloads of the pings
    before it; or the close frame, or the end of the stream, met instead.
   */
  function NextMessage(stream: seq<byte>): Received
    decreases |stream|
  {
    match Parse(stream)
    case Incomplete => LinkEnded([], stream)
    case Complete(f, rest) =>
      assert |rest| < |stream| by { ParseExtends(stream, []); }
      if f.opcode == PING then Prepend([f.payload], NextMessage(rest))
      else if f.opcode == PONG then NextMessage(rest)
      else if f.opcode == CLOSE then PeerClosed([], rest)
      else Message(f, [], rest)
  }

  /** The same outcome after more pings to answer. */
  function Prepend(pongs: seq<seq<byte>>, r: Received): Received {
    r.(pongs := pongs + r.pongs)
  }

  /** The payloads of the pings among fs, in order. */
  function Pings(fs: seq<Frame>): seq<seq<byte>> {
    if fs == [] then []
    else (if fs[0].opcode == PING then [fs[0].payload] else []) + Pings(fs[1..])
  }

  /** Keepalives written before a data frame are answered and skipped, and that frame is delivered. */
  lemma {:induction false} MessageAfterKeepalives(fs: seq<Frame>, keys: seq<Option<Mask>>, f: Frame, key: Option<Mask>, rest: seq<byte>)
    requires |fs| == |keys| && Sendable(f) && forall g <- fs :: Sendable(g)
    requires forall g <- fs :: g.opcode == PING || g.opcode == PONG
    requires f.opcode !in {PING, PONG, CLOSE}
    ensures NextMessage(EncodeAll(fs, keys) + Encode(f, key) + rest) == Message(f, Pings(fs), rest)
  {
    hide Encode, Parse;
    if fs == [] {
      assert [] + Encode(f, key) + rest == Encode(f, key) + rest;
      EncodeParses(f, key, rest);
    } else {
      var tail := EncodeAll(fs[1..], keys[1..]) + Encode(f, key) + rest;
      assert EncodeAll(fs, keys) + Encode(f, key) + rest == Encode(fs[0], keys[0]) + tail;
      EncodeParses(fs[0], keys[0], tail);
      MessageAfterKeepalives(fs[1..], keys[1..], f, key, rest);
    }
  }

  // --------------------------------------------------------------- the server

  /** A frame with its first bit, which says that a message ends with it, as asked. */
  function Marked(e: seq<byte>, fin: bool): (r: seq<byte>)
    requires e != [] && e[0] >= 128
    ensures |r| == |e|
  {
    if fin then e else e[0 := e[0] - 128]
  }

  lemma EncodedStarts(f: Frame)
    requires Sendable(f)
    ensures var e := Encode(f, None); |e| == 2 + Width(|f.payload|) + |f.payload| && e[0] == (128 + f.opcode) as byte
  {
    EncodedParts(f, None);
  }

  /** The client reads a frame alike whether a message ends with it or not. */
  lemma MarkedParses(f: Frame, fin: bool, rest: seq<byte>)
    requires Sendable(f)
    ensures var e := Encode(f, None); e != [] && e[0] >= 128 && Parse(Marked(e, fin) + rest) == Complete(f, rest)
  {
    hide Encode, Parse;
    EncodedStarts(f);
    EncodeParses(f, None, rest);
    SameButFirst(Encode(f, None) + rest, Marked(Encode(f, None), fin) + rest);
  }

  lemma SameButFirst(a: seq<byte>, b: seq<byte>)
    requires |a| == |b| && |a| >= 2 && a[1..] == b[1..] && a[0] % 16 == b[0] % 16
    ensures Parse(a) == Parse(b)
  {
    hide Masked, FromBigEndian, LengthBytes, MaskBytes;
    assert a[1] == a[1..][0] == b[1];
    if HasLength(a) {
      SameSlice(a, b, 2, 2 + LengthBytes(a[1]));
      var start := PayloadStart(a);
      var end := start + PayloadLength(a);
      if end <= |a| {
        SameSlice(a, b, start, end);
        SameSlice(a, b, end, |a|);
        if MaskBytes(a[1]) == 4 { SameSlice(a, b, start - 4, start); }
      }
    }
  }

  lemma SameSlice(a: seq<byte>, b: seq<byte>, lo: nat, hi: nat)
    requires |a| == |b| && 1 <= lo <= hi <= |a| && a[1..] == b[1..]
    ensures a[lo..hi] == b[lo..hi] && a[lo..] == b[lo..]
  {
    DropTwice(a, lo, hi);
    DropTwice(b, lo, hi);
  }

  lemma DropTwice(a: seq<byte>, lo: nat, hi: nat)
    requires 1 <= lo <= hi <= |a|
    ensures a[lo..] == a[1..][lo - 1..] && a[lo..hi] == a[lo..][..hi - lo]
  {}

  /** Byte i of a length is what shifting the bytes after it away leaves. */
  lemma {:induction false} BigEndianAt(n: nat, v: nat, i: nat)
    requires i < n
    ensures BigEndian(n, v)[i] as nat == v / Power256(n - 1 - i) % 256
    decreases n
  {
    if i < n - 1 {
      BigEndianAt(n - 1, v / 256, i);
      DividedTwice(v, Power256(n - 2 - i));
    }
  }

  lemma DividedTwice(v: nat, d: nat)
    requires d > 0
    ensures v / (256 * d) == v / 256 / d
  {
    var q := v / 256;
    var t, r, u := q / d, q % d, v % 256;
    assert q == t * d + r;
    assert v == t * (256 * d) + (256 * r + u);
    QuotientIs(v, 256 * d, t, 256 * r + u);
  }

  lemma QuotientIs(a: nat, b: nat, q: nat, r: nat)
    requires a == q * b + r && r < b
    ensures a / b == q
  {
    var t := a / b;
    assert a == t * b + a % b;
    if t > q { Apart(t, q, b); }
    if t < q { Apart(q, t, b); }
  }

  lemma Apart(x: nat, y: nat, b: nat)
    requires x > y
    ensures x * b >= y * b + b
  {
    Gap(x - y - 1, b);
    assert (x - y - 1) * b == x * b - y * b - b;
  }

  lemma Gap(x: nat, b: nat)
    ensures x * b >= 0
  {}

  /** websocket_frame_encode: the frame in the caller's buffer, or nothing at all when it does not fit. */
  method FrameEncode(out: array<byte>, fin: bool, opcode: int, payload: seq<byte>) returns (n: nat)
    requires Sendable(Frame(opcode % 16, payload))
    modifies out
    ensures var e := Encode(Frame(opcode % 16, payload), None);
      && e != [] && e[0] >= 128
      && (|e| <= out.Length ==> n == |e| && out[..n] == Marked(e, fin))
      && (|e| > out.Length ==> n == 0)
    ensures forall k :: n <= k < out.Length ==> out[k] == old(out[k])
  {
    var length := |payload|;
    EncodedStarts(Frame(opcode % 16, payload));
    hide Encode, BigEndian, Sendable;
    var headerLen := 2 + Width(length);
    if out.Length < headerLen + length { return 0; }
    out[0] := ((if fin then 128 else 0) + opcode % 16) as byte;
    if length <= 125 {
      out[1] := length as byte;
    } else {
      out[1] := if length <= 0xFFFF then 126 else 127;
      WriteLength(out, length, headerLen - 2);
    }
    forall k | 0 <= k < length { out[headerLen + k] := payload[k]; }
    n := headerLen + length;
    FrameWritten(out[..], Frame(opcode % 16, payload), fin);
  }

  /** The bytes written are the frame. */
  lemma FrameWritten(o: seq<byte>, f: Frame, fin: bool)
    requires Sendable(f) && |o| >= 2 + Width(|f.payload|) + |f.payload|
    requires o[0] == ((if fin then 128 else 0) + f.opcode) as byte
    requires o[1] == if |f.payload| <= 125 then |f.payload| as byte else if |f.payload| <= 0xFFFF then 126 else 127
    requires var h := 2 + Width(|f.payload|);
             && (h > 2 ==> o[2..h] == BigEndian(h - 2, |f.payload|))
             && forall k :: 0 <= k < |f.payload| ==> o[h + k] == f.payload[k]
    ensures var e := Encode(f, None);
            e != [] && e[0] >= 128 && |e| <= |o| && o[..|e|] == Marked(e, fin)
  {
    var e, h := Encode(f, None), 2 + Width(|f.payload|);
    EncodedParts(f, None);
    EncodedStarts(f);
    SecondByte(f);
    hide Encode, BigEndian, Sendable, Width;
    assert o[h..|e|] == f.payload;
    Parts(o, h, |e|);
    var m := Marked(e, fin);
    assert m[2..h] == e[2..h] && m[h..] == e[h..];
    if h == 2 { assert e[2..h] == o[2..h] == []; }
    Assembled(o[..|e|], m, h);
  }

  lemma SecondByte(f: Frame)
    requires Sendable(f)
    ensures var e := Encode(f, None);
            |e| > 1 && e[1] == if |f.payload| <= 125 then |f.payload| as byte else if |f.payload| <= 0xFFFF then 126 else 127
  {}

  lemma Parts(o: seq<byte>, h: nat, n: nat)
    requires 2 <= h <= n <= |o|
    ensures o[..n][2..h] == o[2..h] && o[..n][h..] == o[h..n]
  {}

  lemma Assembled(a: seq<byte>, b: seq<byte>, h: nat)
    requires |a| == |b| && 2 <= h <= |a|
    requires a[0] == b[0] && a[1] == b[1] && a[2..h] == b[2..h] && a[h..] == b[h..]
    ensures a == b
  {
    assert a == [a[0], a[1]] + a[2..h] + a[h..] && b == [b[0], b[1]] + b[2..h] + b[h..];
  }

  /** Lines 408-417: the length after the first two bytes, most significant byte first. */
  method WriteLength(out: array<byte>, length: nat, width: nat)
    requires 2 + width <= out.Length
    modifies out
    ensures out[2..2 + width] == BigEndian(width, length)
    ensures forall k :: 0 <= k < out.Length && !(2 <= k < 2 + width) ==> out[k] == old(out[k])
  {
    hide BigEndian, Power256;
    var i := 0;
    while i < width
      invariant 0 <= i <= width
      invariant forall k :: 0 <= k < i ==> out[2 + k] == BigEndian(width, length)[k]
      invariant forall k :: 0 <= k < out.Length && !(2 <= k < 2 + i) ==> out[k] == old(out[k])
    {
      BigEndianAt(width, length, i);
      out[2 + i] := (length / Power256(width - 1 - i) % 256) as byte;
      i := i + 1;
    }
  }

  // --------------------------------------------------------------- the client

  /** What a caller of `recv_message` sees: a message, or one of its two ConnectionErrors. */
  datatype Outcome = Data(frame: Frame) | CloseReceived | Ended

  class ViewerClient {
    var buf: seq<byte>
    /** What the socket will deliver, one `recv` at a time. */
    var incoming: seq<seq<byte>>
    /** What has been written to the socket. */
    var outgoing: seq<byte>
    /** `os.urandom(4)`, the n-th time it is asked. */
    const random: nat -> Mask
    var drawn: nat

    constructor (incoming: seq<seq<byte>>, random: nat -> Mask)
      ensures buf == [] && outgoing == [] && drawn == 0
      ensures this.incoming == incoming && this.random == random
    {
      buf, outgoing, drawn := [], [], 0;
      this.incoming, this.random := incoming, random;
    }

    /** The bytes received and not yet consumed, and those still to come. */
    ghost function Stream(): seq<byte>
      reads this
    {
      buf + Flatten(incoming)
    }

    method SendFrame(opcode: nat, payload: seq<byte>)
      requires Sendable(Frame(opcode, payload))
      modifies this`outgoing, this`drawn
      ensures outgoing == old(outgoing) + Encode(Frame(opcode, payload), Some(random(old(drawn))))
      ensures drawn == old(drawn) + 1
    {
      var mask := random(drawn);
      drawn := drawn + 1;
      outgoing := outgoing + Encode(Frame(opcode, payload), Some(mask));
    }

    /** Lines 216-246, the offset advanced field by field. */
    method TryParseOneFrame() returns (frame: Parsed)
      modifies this`buf
      ensures frame.Complete? <==> Parse(old(buf)).Complete?
      ensures frame.Complete? ==> frame.frame == Parse(old(buf)).frame && buf == Parse(old(buf)).rest
      ensures frame.Incomplete? ==> buf == old(buf)
    {
      if |buf| < 2 {
        return Incomplete;
      }
      var b0, b1 := buf[0], buf[1];
      var opcode := (b0 % 16) as nat;
      var masked := b1 >= 128;
      var length := (b1 % 128) as nat;
      var offset: nat := 2;
      if length == 126 {
        if |buf| < offset + 2 {
          return Incomplete;
        }
        length := FromBigEndian(buf[offset..offset + 2]);
        offset := offset + 2;
      } else if length == 127 {
        if |buf| < offset + 8 {
          return Incomplete;
        }
        length := FromBigEndian(buf[offset..offset + 8]);
        offset := offset + 8;
      }
      assert HasLength(buf) && length == PayloadLength(buf);
      var maskKey: Mask := [0, 0, 0, 0];
      if masked {
        if |buf| < offset + 4 {
          return Incomplete;
        }
        maskKey := buf[offset..offset + 4];
        offset := offset + 4;
      }
      assert offset == PayloadStart(buf);
      if |buf| < offset + length {
        return Incomplete;
      }
      var payload := buf[offset..offset + length];
      if masked {
        payload := Masked(payload, maskKey);
      }
      var rest := buf[offset + length..];
      frame := Complete(Frame(opcode, payload), rest);
      buf := rest;
    }

    /**
      Lines 205-213. However the bytes are cut into chunks, the result is the
      first frame of the stream and the rest of the stream is kept; without a
      whole frame the stream is left as it was.
     */
    method RecvFrame() returns (frame: Parsed)
      modifies this`buf, this`incoming
      ensures frame.Complete? <==> Parse(old(Stream())).Complete?
      ensures frame.Complete? ==> frame.frame == Parse(old(Stream())).frame && Stream() == Parse(old(Stream())).rest
      ensures frame.Incomplete? ==> Stream() == old(Stream())
      ensures Frames(old(Stream())) == if frame.Complete? then [frame.frame] + Frames(Stream()) else []
    {
      hide Parse;
      ghost var stream := Stream();
      while true
        invariant Stream() == stream
        decreases |incoming|
      {
        ghost var before := buf;
        frame := TryParseOneFrame();
        if frame.Complete? {
          ParseExtends(before, Flatten(incoming));
          return;
        }
        if incoming == [] || incoming[0] == [] {
          assert before + [] == before;
          return;
        }
        assert buf + Flatten(incoming) == (buf + incoming[0]) + Flatten(incoming[1..]);
        buf := buf + incoming[0];
        incoming := incoming[1..];
      }
    }

    /**
      Lines 183-203. The outcome is the stream's next message, and what goes out
      is one pong for each ping before it, in order, each with its payload.
     */
    method RecvMessage() returns (outcome: Outcome, ghost pongs: seq<seq<byte>>)
      modifies this
      ensures NextMessage(old(Stream())) ==
        match outcome
        case Data(f) => Message(f, pongs, Stream())
        case CloseReceived => PeerClosed(pongs, Stream())
        case Ended => LinkEnded(pongs, Stream())
      ensures drawn == old(drawn) + |pongs|
      ensures forall p <- pongs :: Sendable(Frame(PONG, p))
      ensures outgoing == old(outgoing) + EncodeAll(PongFrames(pongs), Draws(random, old(drawn), |pongs|))
    {
      hide Parse, Encode, Sendable, EncodeAll, PongFrames, Draws, Flatten, NextMessage, Prepend, Frames;
      ghost var stream, out, from := Stream(), outgoing, drawn;
      pongs := [];
      PrependNothing(NextMessage(stream));
      NoPongs(random, from);
      assert out == out + [];
      while true
        invariant NextMessage(stream) == Prepend(pongs, NextMessage(Stream()))
        invariant drawn == from + |pongs|
        invariant forall p <- pongs :: Sendable(Frame(PONG, p))
        invariant outgoing == out + EncodeAll(PongFrames(pongs), Draws(random, from, |pongs|))
        decreases |Stream()|
      {
        ghost var before := Stream();
        var frame := RecvFrame();
        NextMessageStep(before);
        PrependEnds(pongs, Stream());
        if frame.Incomplete? {
          return Ended, pongs;
        }
        ParseExtends(before, []);
        var f := frame.frame;
        PrependMessage(pongs, f, Stream());
        if f.opcode == PING {
          PongSendable(before);
          OneMorePong(pongs, f.payload, random, from);
          SendFrame(PONG, f.payload);
          PrependTwice(pongs, f.payload, NextMessage(Stream()));
          pongs := pongs + [f.payload];
        } else if f.opcode == PONG {
        } else if f.opcode == CLOSE {
          return CloseReceived, pongs;
        } else {
          return Data(f), pongs;
        }
      }
    }
  }

  function PongFrames(pongs: seq<seq<byte>>): (fs: seq<Frame>)
    ensures |fs| == |pongs|
    ensures (forall p <- pongs :: Sendable(Frame(PONG, p))) ==> forall f <- fs :: Sendable(f)
  {
    seq(|pongs|, i requires 0 <= i < |pongs| => Frame(PONG, pongs[i]))
  }

  function Draws(random: nat -> Mask, from: nat, count: nat): (keys: seq<Option<Mask>>)
    ensures |keys| == count
  {
    seq(count, i requires 0 <= i < count => Some(random(from + i)))
  }

  lemma NoPongs(random: nat -> Mask, from: nat)
    ensures EncodeAll(PongFrames([]), Draws(random, from, 0)) == []
  {}

  lemma NextMessageStep(stream: seq<byte>)
    ensures NextMessage(stream) == match Parse(stream)
      case Incomplete => LinkEnded([], stream)
      case Complete(f, rest) =>
        if f.opcode == PING then Prepend([f.payload], NextMessage(rest))
        else if f.opcode == PONG then NextMessage(rest)
        else if f.opcode == CLOSE then PeerClosed([], rest)
        else Message(f, [], rest)
  {
    hide Parse;
  }

  lemma PrependNothing(r: Received)
    ensures Prepend([], r) == r
  {
    assert [] + r.pongs == r.pongs;
  }

  lemma PrependEnds(pongs: seq<seq<byte>>, rest: seq<byte>)
    ensures Prepend(pongs, LinkEnded([], rest)) == LinkEnded(pongs, rest)
    ensures Prepend(pongs, PeerClosed([], rest)) == PeerClosed(pongs, rest)
  {
    assert pongs + [] == pongs;
  }

  lemma PrependMessage(pongs: seq<seq<byte>>, f: Frame, rest: seq<byte>)
    ensures Prepend(pongs, Message(f, [], rest)) == Message(f, pongs, rest)
  {
    assert pongs + [] == pongs;
  }

  lemma PrependTwice(pongs: seq<seq<byte>>, p: seq<byte>, r: Received)
    ensures Prepend(pongs + [p], r) == Prepend(pongs, Prepend([p], r))
  {
    assert pongs + [p] + r.pongs == pongs + ([p] + r.pongs);
  }

  lemma {:induction false} EncodeOneMore(fs: seq<Frame>, keys: seq<Option<Mask>>, f: Frame, key: Option<Mask>)
    requires |fs| == |keys| && Sendable(f) && forall g <- fs :: Sendable(g)
    ensures forall g <- fs + [f] :: Sendable(g)
    ensures EncodeAll(fs + [f], keys + [key]) == EncodeAll(fs, keys) + Encode(f, key)
  {
    hide Encode, Sendable;
    if fs == [] {
      assert EncodeAll([], []) == [];
    } else {
      assert (fs + [f])[1..] == fs[1..] + [f] && (keys + [key])[1..] == keys[1..] + [key];
      EncodeOneMore(fs[1..], keys[1..], f, key);
    }
  }

  lemma OneMorePong(pongs: seq<seq<byte>>, p: seq<byte>, random: nat -> Mask, from: nat)
    requires Sendable(Frame(PONG, p)) && forall q <- pongs :: Sendable(Frame(PONG, q))
    ensures forall q <- pongs + [p] :: Sendable(Frame(PONG, q))
    ensures EncodeAll(PongFrames(pongs + [p]), Draws(random, from, |pongs| + 1))
         == EncodeAll(PongFrames(pongs), Draws(random, from, |pongs|)) + Encode(Frame(PONG, p), Some(random(from + |pongs|)))
  {
    hide Encode, Sendable;
    EncodeOneMore(PongFrames(pongs), Draws(random, from, |pongs|), Frame(PONG, p), Some(random(from + |pongs|)));
    assert PongFrames(pongs + [p]) == PongFrames(pongs) + [Frame(PONG, p)];
    assert Draws(random, from, |pongs| + 1) == Draws(random, from, |pongs|) + [Some(random(from + |pongs|))];
  }

  lemma {:induction false} FromBigEndianBound(s: seq<byte>)
    ensures FromBigEndian(s) < Power256(|s|)
  {
    if s != [] { FromBigEndianBound(s[..|s| - 1]); }
  }

  /** A parsed payload is never too long to send back. */
  lemma PongSendable(buf: seq<byte>)
    requires Parse(buf).Complete?
    ensures Sendable(Frame(PONG, Parse(buf).frame.payload))
  {
    WidthLimits();
    var n := LengthBytes(buf[1]);
    FromBigEndianBound(buf[2..2 + n]);
    assert Power256(0) == 1;
  }
}
