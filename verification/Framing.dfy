/** The wire format and its reference parser.

    `Encode` is the frame layout both encoders emit. The reference parser keeps nothing but
    the bytes of the frame in progress; it cuts the input into noise bytes, accepted frames
    and rejected frames. Both byte-wise state machines (Parsers.dfy) are proved to refine it,
    and the theorems here say that cutting and concatenating are inverse to each other. */
module Framing {
  import opened Wrappers
  import opened Crc

  const START: byte := 0xAA
  const MAX_PAYLOAD: nat := 256

  /** Longest tail of a frame after its START byte: TYPE, LEN(2), SEQ, payload, CRC(2). */
  const LONGEST_TAIL: nat := 262

  datatype Frame = Frame(ftype: byte, seqno: byte, payload: seq<byte>)

  datatype Event =
    | Good(frame: Frame)
    | TooLarge(ftype: byte)
    | Mismatch(ftype: byte, seqno: byte)

  // ---------------------------------------------------------------- layout

  function Len16(lo: byte, hi: byte): nat {
    lo as int + 256 * (hi as int)
  }

  function LenLo(n: nat): byte { (n % 256) as byte }

  function LenHi(n: nat): byte
    requires n < 0x1_0000
  {
    (n / 256) as byte
  }

  function CrcLo(c: bv16): byte { (((c & 0xFF) as bv8) as int) as byte }

  function CrcHi(c: bv16): byte { (((c >> 8) as bv8) as int) as byte }

  function Join(lo: byte, hi: byte): bv16 {
    Wide(lo) | (Wide(hi) << 8)
  }

  predicate Fits(f: Frame) { |f.payload| <= MAX_PAYLOAD }

  /** TYPE + LEN(2) + SEQ + PAYLOAD: the bytes the CRC covers. */
  function Covered(f: Frame): seq<byte>
    requires |f.payload| < 0x1_0000
  {
    [f.ftype, LenLo(|f.payload|), LenHi(|f.payload|), f.seqno] + f.payload
  }

  function FrameCrc(f: Frame): bv16
    requires |f.payload| < 0x1_0000
  {
    Crc16(CRC16_INIT, Covered(f))
  }

  function Encode(f: Frame): seq<byte>
    requires |f.payload| < 0x1_0000
  {
    [START] + Covered(f) + [CrcLo(FrameCrc(f)), CrcHi(FrameCrc(f))]
  }

  lemma LenRoundTrip(n: nat)
    requires n < 0x1_0000
    ensures Len16(LenLo(n), LenHi(n)) == n
  {}

  lemma LenBytesUnique(lo: byte, hi: byte)
    ensures Len16(lo, hi) < 0x1_0000
    ensures LenLo(Len16(lo, hi)) == lo && LenHi(Len16(lo, hi)) == hi
  {}

  lemma RawIsByte(x: bv8)
    ensures 0 <= x as int < 256 && (x as int) as bv8 == x
  {}

  lemma JoinSplitsRaw(c: bv16)
    ensures (((c & 0xFF) as bv8) as bv16) | ((((c >> 8) as bv8) as bv16) << 8) == c
  {}

  lemma SplitJoinsRaw(lo: bv8, hi: bv8)
    ensures (((lo as bv16) | ((hi as bv16) << 8)) & 0xFF) as bv8 == lo
    ensures (((lo as bv16) | ((hi as bv16) << 8)) >> 8) as bv8 == hi
  {}

  lemma JoinSplits(c: bv16)
    ensures Join(CrcLo(c), CrcHi(c)) == c
  {
    RawIsByte((c & 0xFF) as bv8);
    RawIsByte((c >> 8) as bv8);
    JoinSplitsRaw(c);
  }

  lemma SplitJoins(lo: byte, hi: byte)
    ensures CrcLo(Join(lo, hi)) == lo && CrcHi(Join(lo, hi)) == hi
  {
    SplitJoinsRaw(Raw(lo), Raw(hi));
    RawRoundTrip(lo as nat);
    RawRoundTrip(hi as nat);
  }

  lemma CrcRoundTrip(c: bv16, lo: byte, hi: byte)
    ensures Join(lo, hi) == c <==> lo == CrcLo(c) && hi == CrcHi(c)
  {
    hide Join, CrcLo, CrcHi;
    JoinSplits(c);
    SplitJoins(lo, hi);
  }

  // ---------------------------------------------------------------- reference parser

  lemma WideIsLow(x: bv8)
    ensures (x as bv16) & 0xFF00 == 0
  {}

  lemma Merge(l: bv16, h: bv16)
    requires l & 0xFF00 == 0
    ensures Xor(h << 8, l) == l | (h << 8)
  {}

  lemma HalvesMeet(lo: byte, hi: byte)
    ensures Xor(High(hi), Wide(lo)) == Join(lo, hi)
  {
    WideIsLow(Raw(lo));
    assert Wide(lo) & 0xFF00 == 0 by { hide Raw; }
    hide Wide, Xor;
    Merge(Wide(lo), Wide(hi));
  }

  /** The CRC run on over two trailing bytes is zero exactly if they are the frame's CRC, high
      byte first. On the wire the low byte comes first, so over a whole frame the residue is zero
      if and only if the two bytes happen to be equal. */
  lemma FrameResidue(f: Frame, b1: byte, b2: byte)
    requires |f.payload| < 0x1_0000
    ensures Crc16(CRC16_INIT, Covered(f) + [b1, b2]) == 0 <==> b1 == CrcHi(FrameCrc(f)) && b2 == CrcLo(FrameCrc(f))
    ensures Crc16(CRC16_INIT, Encode(f)[1..]) == 0 <==> CrcLo(FrameCrc(f)) == CrcHi(FrameCrc(f))
  {
    hide Crc16, CrcLo, CrcHi, Join, High, Wide, Xor;
    var c := FrameCrc(f);
    CrcConcat(CRC16_INIT, Covered(f), [b1, b2]);
    TwoByteResidue(c, b1, b2);
    HalvesMeet(b2, b1);
    CrcRoundTrip(c, b2, b1);
    assert Encode(f)[1..] == Covered(f) + [CrcLo(c), CrcHi(c)];
    CrcConcat(CRC16_INIT, Covered(f), [CrcLo(c), CrcHi(c)]);
    TwoByteResidue(c, CrcLo(c), CrcHi(c));
    HalvesMeet(CrcHi(c), CrcLo(c));
    CrcRoundTrip(c, CrcHi(c), CrcLo(c));
  }

  /** The frame of CMD_SYNC with sequence number 0: its CRC is 0x3885, and its residue is not 0. */
  lemma SyncFrameResidue()
    ensures var f := Frame(0x05, 0, []);
      FrameCrc(f) == 0x3885 && Crc16(CRC16_INIT, Encode(f)[1..]) != 0
  {
    var f := Frame(0x05, 0, []);
    SyncCrc();
    assert Covered(f) == [0x05, 0, 0, 0];
    FrameResidue(f, 0, 0);
    assert CrcLo(0x3885) == 0x85 && CrcHi(0x3885) == 0x38 by { LiteralHalves(); }
  }

  lemma LiteralHalves()
    ensures CrcLo(0x3885) == 0x85 && CrcHi(0x3885) == 0x38
  {}

  lemma LiteralByte(c: bv16, b: byte)
    ensures Crc16(c, [b]) == Shift(Shift(Shift(Shift(Shift(Shift(Shift(Shift(Xor(c, High(b))))))))))
  {
    hide Shift, Xor, High;
    ByteStep(c, b);
    EightClocks(Xor(c, High(b)));
  }

  lemma LiteralHigh()
    ensures High(0x05) == 0x0500 && High(0) == 0
  {}

  lemma SyncCrc()
    ensures Crc16(CRC16_INIT, [0x05, 0, 0, 0]) == 0x3885
  {
    LiteralHigh();
    hide High, Crc16;
    LiteralByte(0xFFFF, 0x05);
    LiteralByte(0xB155, 0);
    LiteralByte(0xE2FA, 0);
    LiteralByte(0x276C, 0);
    assert Crc16(0xFFFF, [0x05]) == 0xB155;
    assert Crc16(0xB155, [0]) == 0xE2FA;
    assert Crc16(0xE2FA, [0]) == 0x276C;
    assert Crc16(0x276C, [0]) == 0x3885;
    CrcConcat(0xFFFF, [0x05], [0]);
    CrcConcat(0xFFFF, [0x05] + [0], [0]);
    CrcConcat(0xFFFF, [0x05] + [0] + [0], [0]);
    assert [0x05, 0, 0, 0] == [0x05] + [0] + [0] + [0];
  }

  /** Declared payload length of a frame whose header has arrived. */
  function Declared(p: seq<byte>): nat
    requires |p| >= 4
  {
    Len16(p[2], p[3])
  }

  /** A frame in progress: START, and neither complete nor over-long. */
  predicate Partial(p: seq<byte>) {
    p == [] ||
    (p[0] == START && (|p| >= 4 ==> Declared(p) <= MAX_PAYLOAD && |p| < 7 + Declared(p)))
  }

  /** The verdict on a complete frame. */
  function Verdict(p: seq<byte>): Event
    requires |p| >= 7
  {
    var body := p[5..|p| - 2];
    if Join(p[|p| - 2], p[|p| - 1]) == Crc16(CRC16_INIT, p[1..|p| - 2])
    then Good(Frame(p[1], p[4], body))
    else Mismatch(p[1], p[4])
  }

  /** One byte: the frame in progress afterwards, and the event if a frame ended. */
  function Next(p: seq<byte>, b: byte): (r: (seq<byte>, Option<Event>)) {
    var q := p + [b];
    if p == [] then (if b == START then q else [], None)
    else if |q| < 4 then (q, None)
    else if Declared(q) > MAX_PAYLOAD then ([], Some(TooLarge(q[1])))
    else if |q| < 7 + Declared(q) then (q, None)
    else ([], Some(Verdict(q)))
  }

  /** A stretch of input the parser is done with: one noise byte, or a whole frame. */
  datatype Cut = Cut(bytes: seq<byte>, event: Option<Event>)

  function Cuts(p: seq<byte>, s: seq<byte>): seq<Cut>
    decreases |s|
  {
    if s == [] then []
    else
      var (q, e) := Next(p, s[0]);
      if q == [] then [Cut(p + [s[0]], e)] + Cuts([], s[1..]) else Cuts(q, s[1..])
  }

  /** The frame in progress after the input. */
  function Rest(p: seq<byte>, s: seq<byte>): seq<byte>
    decreases |s|
  {
    if s == [] then p else Rest(Next(p, s[0]).0, s[1..])
  }

  function Events(cuts: seq<Cut>): seq<Event> {
    if cuts == [] then []
    else (if cuts[0].event.Some? then [cuts[0].event.value] else []) + Events(cuts[1..])
  }

  function Bytes(cuts: seq<Cut>): seq<byte> {
    if cuts == [] then [] else cuts[0].bytes + Bytes(cuts[1..])
  }

  /** What a cut may look like. An accepted frame is exactly what the encoder emits. */
  predicate Legal(c: Cut) {
    match c.event
    case None => |c.bytes| == 1 && c.bytes[0] != START
    case Some(Good(f)) => Fits(f) && c.bytes == Encode(f)
    case Some(TooLarge(t)) =>
      |c.bytes| == 4 && c.bytes[0] == START && c.bytes[1] == t && Declared(c.bytes) > MAX_PAYLOAD
    case Some(Mismatch(t, n)) =>
      |c.bytes| >= 7 && c.bytes[0] == START && c.bytes[1] == t && c.bytes[4] == n &&
      Declared(c.bytes) <= MAX_PAYLOAD && |c.bytes| == 7 + Declared(c.bytes) &&
      var f := Frame(t, n, c.bytes[5..|c.bytes| - 2]);
      c.bytes[..|c.bytes| - 2] == Encode(f)[..|c.bytes| - 2] && c.bytes != Encode(f)
  }

  ghost predicate AllLegal(cuts: seq<Cut>) {
    forall i :: 0 <= i < |cuts| ==> Legal(cuts[i])
  }

  // ---------------------------------------------------------------- chunking

  lemma {:induction false} CutsConcat(p: seq<byte>, s: seq<byte>, t: seq<byte>)
    ensures Rest(p, s + t) == Rest(Rest(p, s), t)
    ensures Cuts(p, s + t) == Cuts(p, s) + Cuts(Rest(p, s), t)
    decreases |s|
  {
    hide Crc16, Verdict;
    if s == [] {
      assert s + t == t;
    } else {
      assert (s + t)[0] == s[0] && (s + t)[1..] == s[1..] + t;
      CutsConcat(Next(p, s[0]).0, s[1..], t);
    }
  }

  lemma {:induction false} EventsConcat(a: seq<Cut>, b: seq<Cut>)
    ensures Events(a + b) == Events(a) + Events(b)
    decreases |a|
  {
    if a == [] {
      assert a + b == b;
    } else {
      assert (a + b)[0] == a[0] && (a + b)[1..] == a[1..] + b;
      EventsConcat(a[1..], b);
    }
  }

  // ---------------------------------------------------------------- soundness

  /** A complete frame is either the encoding of its contents or differs from it only in
      the two CRC bytes. */
  lemma VerdictIsLegal(q: seq<byte>)
    requires |q| >= 7 && q[0] == START && Declared(q) <= MAX_PAYLOAD && |q| == 7 + Declared(q)
    ensures Legal(Cut(q, Some(Verdict(q))))
  {
    hide Crc16, Join, CrcLo, CrcHi, LenLo, LenHi, Len16;
    var f := Frame(q[1], q[4], q[5..|q| - 2]);
    LenBytesUnique(q[2], q[3]);
    assert Covered(f) == q[1..|q| - 2];
    var c := FrameCrc(f);
    CrcRoundTrip(c, q[|q| - 2], q[|q| - 1]);
    assert q == [START] + q[1..|q| - 2] + [q[|q| - 2], q[|q| - 1]];
    assert q[..|q| - 2] == [START] + Covered(f) == Encode(f)[..|q| - 2];
    if Verdict(q).Mismatch? {
      assert Encode(f)[|q| - 2] == CrcLo(c) && Encode(f)[|q| - 1] == CrcHi(c);
    }
  }

  lemma NextIsLegal(p: seq<byte>, b: byte)
    requires Partial(p)
    ensures Partial(Next(p, b).0)
    ensures Next(p, b).0 == [] ==> Legal(Cut(p + [b], Next(p, b).1))
    ensures Next(p, b).0 != [] ==> Next(p, b).0 == p + [b]
  {
    hide Crc16, Verdict, Len16;
    var q := p + [b];
    if p != [] && |q| >= 4 {
      if |p| >= 4 { assert Declared(q) == Declared(p); }
      if Declared(q) <= MAX_PAYLOAD && |q| >= 7 + Declared(q) {
        VerdictIsLegal(q);
        assert Cut(q, Next(p, b).1) == Cut(q, Some(Verdict(q)));
      }
    }
  }

  /** Soundness: the input is the cuts in order followed by the frame in progress, so every
      reported frame is a contiguous slice equal to its encoding and no two slices overlap. */
  lemma {:induction false} InputIsItsCuts(p: seq<byte>, s: seq<byte>)
    requires Partial(p)
    ensures p + s == Bytes(Cuts(p, s)) + Rest(p, s)
    ensures AllLegal(Cuts(p, s)) && Partial(Rest(p, s))
    decreases |s|
  {
    hide Crc16, Next, Partial, Legal;
    if s == [] {
      assert p + s == p;
    } else {
      NextIsLegal(p, s[0]);
      var (q, e) := Next(p, s[0]);
      assert p + s == (p + [s[0]]) + s[1..];
      EmptyIsPartial();
      if q == [] {
        InputIsItsCuts([], s[1..]);
        var rest := Cuts([], s[1..]);
        var head := Cut(p + [s[0]], e);
        assert Cuts(p, s) == [head] + rest && ([head] + rest)[1..] == rest;
        assert [] + s[1..] == s[1..];
      } else {
        InputIsItsCuts(q, s[1..]);
      }
    }
  }

  lemma EmptyIsPartial()
    ensures Partial([])
  {}

  // ---------------------------------------------------------------- completeness

  /** Bytes that keep a frame in progress produce no cut. */
  lemma {:induction false} StillInProgress(p: seq<byte>, s: seq<byte>)
    requires p != [] && p[0] == START
    requires |p + s| >= 4 ==> Declared(p + s) <= MAX_PAYLOAD && |p + s| < 7 + Declared(p + s)
    ensures Rest(p, s) == p + s && Cuts(p, s) == []
    decreases |s|
  {
    hide Crc16, Verdict, Len16;
    if s == [] {
      assert p + s == p;
    } else {
      var q := p + [s[0]];
      assert q + s[1..] == p + s;
      if |q| >= 4 { assert Declared(q) == Declared(p + s); }
      StillInProgress(q, s[1..]);
    }
  }

  lemma GoodVerdict(f: Frame)
    requires Fits(f)
    ensures Declared(Encode(f)) == |f.payload| && Verdict(Encode(f)) == Good(f)
  {
    hide Crc16, Len16, LenLo, LenHi, CrcLo, CrcHi, Join;
    var q := Encode(f);
    LenRoundTrip(|f.payload|);
    assert q[1..|q| - 2] == Covered(f);
    assert q[5..|q| - 2] == f.payload;
    CrcRoundTrip(FrameCrc(f), q[|q| - 2], q[|q| - 1]);
  }

  lemma MismatchVerdict(q: seq<byte>, t: byte, n: byte)
    requires Legal(Cut(q, Some(Mismatch(t, n))))
    ensures Verdict(q) == Mismatch(t, n)
  {
    hide Crc16, Len16, LenLo, LenHi, CrcLo, CrcHi, Join;
    var k := |q| - 2;
    var f := Frame(t, n, q[5..k]);
    var e := Encode(f);
    assert e[1..k] == Covered(f);
    assert q[1..k] == q[..k][1..] == e[..k][1..] == Covered(f);
    CrcRoundTrip(FrameCrc(f), q[k], q[k + 1]);
    assert q == q[..k] + [q[k], q[k + 1]];
    assert e == e[..k] + [CrcLo(FrameCrc(f)), CrcHi(FrameCrc(f))];
  }

  lemma LegalShape(c: Cut)
    requires Legal(c) && c.event.Some?
    ensures |c.bytes| >= 4 && c.bytes[0] == START
    ensures c.event.value.TooLarge? ==> |c.bytes| == 4 && Declared(c.bytes) > MAX_PAYLOAD
    ensures !c.event.value.TooLarge? ==> Declared(c.bytes) <= MAX_PAYLOAD && |c.bytes| == 7 + Declared(c.bytes)
    ensures !c.event.value.TooLarge? ==> Verdict(c.bytes) == c.event.value
    ensures c.event.value.TooLarge? ==> c.event.value.ftype == c.bytes[1]
  {
    hide Crc16, Len16, LenLo, LenHi, CrcLo, CrcHi, Join, Verdict;
    match c.event.value
    case TooLarge(_) =>
    case Good(f) => GoodVerdict(f);
    case Mismatch(t, n) => MismatchVerdict(c.bytes, t, n);
  }

  /** From an idle parser a legal cut is recognised as such, and leaves the parser idle. */
  lemma OneCut(c: Cut)
    requires Legal(c)
    ensures Rest([], c.bytes) == [] && Cuts([], c.bytes) == [c]
  {
    hide Crc16, Verdict, Len16;
    var q := c.bytes;
    if c.event.None? {
      assert q == [q[0]] && q[1..] == [] && [] + [q[0]] == q;
      assert Next([], q[0]) == ([], None);
    } else {
      LegalShape(c);
      var init, last := q[..|q| - 1], q[|q| - 1];
      assert q == init + [last];
      assert init == [START] + init[1..];
      assert Next([], START).0 == [START] && init[0] == START;
      StillInProgress([START], init[1..]);
      assert Rest([], init) == Rest([START], init[1..]) && Cuts([], init) == Cuts([START], init[1..]);
      CutsConcat([], init, [last]);
      assert Next(init, last) == ([], c.event);
      assert Rest(init, [last]) == Rest([], [last][1..]);
      assert Cuts(init, [last]) == [Cut(q, c.event)] + Cuts([], [last][1..]);
    }
  }

  /** Completeness: any sequence of legal stretches is cut back into exactly itself. */
  lemma {:induction false} CutsOfBytes(cuts: seq<Cut>)
    requires AllLegal(cuts)
    ensures Rest([], Bytes(cuts)) == [] && Cuts([], Bytes(cuts)) == cuts
    decreases |cuts|
  {
    hide Crc16, Next, Legal;
    if cuts == [] {
    } else {
      OneCut(cuts[0]);
      CutsOfBytes(cuts[1..]);
      CutsConcat([], cuts[0].bytes, Bytes(cuts[1..]));
      assert cuts == [cuts[0]] + cuts[1..];
    }
  }

  /** What a sender puts on an idle line: frames, with non-START bytes between them. */
  datatype Sent = Noise(b: byte) | Packet(frame: Frame)

  predicate Clean(sent: seq<Sent>) {
    forall i :: 0 <= i < |sent| ==>
      match sent[i] case Noise(b) => b != START case Packet(f) => Fits(f)
  }

  function Line(sent: seq<Sent>): seq<byte>
    requires Clean(sent)
  {
    if sent == [] then []
    else
      (match sent[0] case Noise(b) => [b] case Packet(f) => Encode(f)) + Line(sent[1..])
  }

  function Packets(sent: seq<Sent>): seq<Event> {
    if sent == [] then []
    else (match sent[0] case Noise(_) => [] case Packet(f) => [Good(f)]) + Packets(sent[1..])
  }

  /** Frames mixed with noise are delivered exactly, in order, with no other event. */
  lemma {:induction false} CleanLineDelivered(sent: seq<Sent>)
    requires Clean(sent)
    ensures Rest([], Line(sent)) == [] && Events(Cuts([], Line(sent))) == Packets(sent)
    decreases |sent|
  {
    hide Crc16, Next;
    if sent == [] {
    } else {
      var c := match sent[0]
        case Noise(b) => Cut([b], None)
        case Packet(f) => Cut(Encode(f), Some(Good(f)));
      OneCut(c);
      CleanLineDelivered(sent[1..]);
      CutsConcat([], c.bytes, Line(sent[1..]));
      EventsConcat([c], Cuts([], Line(sent[1..])));
      assert Events([c]) == if c.event.Some? then [c.event.value] else [] by {
        assert [c][1..] == [];
      }
    }
  }

  // ---------------------------------------------------------------- resynchronisation

  /** Bytes until the frame in progress must have ended, whatever they are. */
  function Left(p: seq<byte>): nat
    requires Partial(p)
  {
    if p == [] then 0
    else if |p| < 4 then LONGEST_TAIL + 1 - |p|
    else 7 + Declared(p) - |p|
  }

  /** From any frame in progress the parser is idle again after at most 262 more bytes. */
  lemma {:induction false} BackToIdle(p: seq<byte>, s: seq<byte>) returns (k: nat)
    requires Partial(p) && |s| >= Left(p)
    ensures k <= Left(p) <= LONGEST_TAIL && Rest(p, s[..k]) == []
    decreases |s|
  {
    hide Crc16, Verdict, Len16;
    if p == [] {
      k := 0;
    } else {
      var q := Next(p, s[0]).0;
      NextIsLegal(p, s[0]);
      if |p| >= 4 && q != [] { assert Declared(q) == Declared(p); }
      var j := BackToIdle(q, s[1..]);
      k := j + 1;
      assert s[..k] == [s[0]] + s[1..][..j];
      assert s[..k][1..] == s[1..][..j];
    }
  }

  lemma {:induction false} NoiseKeepsIdle(s: seq<byte>)
    requires START !in s
    ensures Rest([], s) == [] && Events(Cuts([], s)) == []
    decreases |s|
  {
    hide Crc16;
    if s == [] {
    } else {
      NoiseKeepsIdle(s[1..]);
      var rest := Cuts([], s[1..]);
      assert Cuts([], s) == [Cut([] + [s[0]], None)] + rest;
      assert ([Cut([] + [s[0]], None)] + rest)[1..] == rest;
    }
  }

  /** After arbitrary garbage and 262 bytes that are not START, every later frame arrives. */
  lemma QuietLineResynchronises(p: seq<byte>, garbage: seq<byte>, quiet: seq<byte>, sent: seq<Sent>)
    requires Partial(p) && |quiet| == LONGEST_TAIL && START !in quiet && Clean(sent)
    ensures Rest(p, garbage + quiet) == []
    ensures Rest(p, garbage + quiet + Line(sent)) == []
    ensures Events(Cuts(p, garbage + quiet + Line(sent))) == Events(Cuts(p, garbage + quiet)) + Packets(sent)
  {
    hide Crc16, Next;
    InputIsItsCuts(p, garbage);
    var mid := Rest(p, garbage);
    LeftBound(mid);
    var k := BackToIdle(mid, quiet);
    assert quiet == quiet[..k] + quiet[k..];
    CutsConcat(mid, quiet[..k], quiet[k..]);
    NoiseKeepsIdle(quiet[k..]);
    CutsConcat(p, garbage, quiet);
    CutsConcat(p, garbage + quiet, Line(sent));
    CleanLineDelivered(sent);
    EventsConcat(Cuts(p, garbage + quiet), Cuts([], Line(sent)));
  }

  lemma LeftBound(p: seq<byte>)
    requires Partial(p)
    ensures Left(p) <= LONGEST_TAIL
  {}

  // ---------------------------------------------------------------- corrupted frames

  /** The frame on the wire with its covered bytes replaced by `m`; START and CRC intact. */
  function Damaged(f: Frame, m: seq<byte>): seq<byte>
    requires Fits(f)
  {
    [START] + m + [CrcLo(FrameCrc(f)), CrcHi(FrameCrc(f))]
  }

  /** A frame damaged by a burst of at most 16 bits, or in an odd number of bits, is rejected
      with a CRC mismatch as long as its START, LEN and CRC bytes arrive intact. */
  lemma DamageIsDetected(f: Frame, m: seq<byte>)
    requires Fits(f) && |m| == |Covered(f)| && m[1..3] == Covered(f)[1..3]
    requires BurstDiffer(Covered(f), m) || OddDiffer(Covered(f), m)
    ensures Rest([], Damaged(f, m)) == []
    ensures Cuts([], Damaged(f, m)) == [Cut(Damaged(f, m), Some(Mismatch(m[0], m[3])))]
  {
    hide Crc16, Join, CrcLo, CrcHi, LenLo, LenHi, Len16, Bits, Verdict, Legal;
    var q := Damaged(f, m);
    if BurstDiffer(Covered(f), m) {
      BurstChangesCrc(CRC16_INIT, Covered(f), m);
    } else {
      OddFlipChangesCrc(CRC16_INIT, Covered(f), m);
    }
    LenRoundTrip(|f.payload|);
    assert q[2] == m[1..3][0] && q[3] == m[1..3][1];
    assert q[1..|q| - 2] == m;
    CrcRoundTrip(FrameCrc(f), q[|q| - 2], q[|q| - 1]);
    VerdictIsLegal(q);
    DamagedVerdict(q);
    OneCut(Cut(q, Some(Verdict(q))));
  }

  lemma DamagedVerdict(q: seq<byte>)
    requires |q| >= 7 && Join(q[|q| - 2], q[|q| - 1]) != Crc16(CRC16_INIT, q[1..|q| - 2])
    ensures Verdict(q) == Mismatch(q[1], q[4])
  {}
}
