/** The two byte-wise parsers and the two encoders, proved against the wire format. */
module Parsers {
  import opened Wrappers
  import opened Crc
  import opened Framing

  datatype State = WaitStart | ReadType | ReadLenLo | ReadLenHi | ReadSeq | ReadPayload | ReadCrcLo | ReadCrcHi

  /** The state the machine must be in when the bytes `p` of a frame have arrived. */
  ghost function StateAfter(p: seq<byte>): State
    requires Partial(p)
  {
    if p == [] then WaitStart
    else if |p| == 1 then ReadType
    else if |p| == 2 then ReadLenLo
    else if |p| == 3 then ReadLenHi
    else if |p| == 4 then ReadSeq
    else if |p| < 5 + Declared(p) then ReadPayload
    else if |p| == 5 + Declared(p) then ReadCrcLo
    else ReadCrcHi
  }

  /** The CRC of the covered bytes among `p`. */
  ghost function RunningCrc(p: seq<byte>): bv16
    requires Partial(p) && p != []
  {
    Crc16(CRC16_INIT, if |p| >= 4 && |p| > 5 + Declared(p) then p[1..5 + Declared(p)] else p[1..])
  }

  lemma RunningCrcStep(p: seq<byte>, b: byte)
    requires Partial(p) && Partial(p + [b]) && p != []
    requires |p| >= 4 ==> |p| < 5 + Declared(p)
    ensures RunningCrc(p + [b]) == Crc16(RunningCrc(p), [b])
  {
    hide Crc16, Len16;
    CrcConcat(CRC16_INIT, p[1..], [b]);
    assert (p + [b])[1..] == p[1..] + [b];
  }

  lemma EmptyCrc()
    ensures Crc16(CRC16_INIT, []) == CRC16_INIT
  {}

  lemma LenIsSum(q: seq<byte>)
    requires |q| >= 4
    ensures Declared(q) == q[2] as int + 256 * (q[3] as int)
  {}

  /** A byte ORed into the high half of the received CRC. */
  function OrHigh(c: bv16, b: byte): bv16 { c | (Wide(b) << 8) }

  lemma JoinIsOr(lo: byte, hi: byte)
    ensures Join(lo, hi) == OrHigh(Wide(lo), hi)
  {}

  // ---------------------------------------------------------------- the shared state machine

  /** The registers both parsers keep; `body` is the payload received so far. */
  datatype Regs = Regs(state: State, expectedLen: nat, crc: bv16, crcRecv: bv16,
                       ftype: byte, seqno: byte, body: seq<byte>)

  /** The registers hold what the bytes `p` of the frame in progress determine. */
  ghost predicate Tracks(r: Regs, p: seq<byte>) {
    && Partial(p)
    && r.state == StateAfter(p)
    && (|p| >= 1 ==> r.crc == RunningCrc(p))
    && (|p| >= 2 ==> r.ftype == p[1])
    && (|p| == 3 ==> r.expectedLen == p[2] as int)
    && (|p| >= 4 ==> r.expectedLen == Declared(p))
    && (|p| >= 5 ==>
          && r.seqno == p[4]
          && r.body == if |p| < 5 + r.expectedLen then p[5..] else p[5..5 + r.expectedLen])
    && (|p| >= 6 && |p| == 6 + r.expectedLen ==> r.crcRecv == Wide(p[|p| - 1]))
  }

  lemma WhenIdle(b: byte)
    ensures Next([], b) == (if b == START then [START] else [], None)
  {
    assert [] + [b] == [b];
  }

  lemma OnStart(r: Regs)
    requires r.state == ReadType && r.crc == CRC16_INIT
    ensures Tracks(r, [START])
  {
    hide Crc16;
    EmptyCrc();
    assert [START][1..] == [];
  }

  lemma OnType(r: Regs, p: seq<byte>, b: byte)
    requires Tracks(r, p) && r.state == ReadType
    ensures Next(p, b) == (p + [b], None)
    ensures Tracks(r.(state := ReadLenLo, ftype := b, crc := Crc16(r.crc, [b])), p + [b])
  {
    hide Crc16, Len16, Verdict;
    RunningCrcStep(p, b);
  }

  lemma OnLenLo(r: Regs, p: seq<byte>, b: byte)
    requires Tracks(r, p) && r.state == ReadLenLo
    ensures Next(p, b) == (p + [b], None)
    ensures Tracks(r.(state := ReadLenHi, expectedLen := b as int, crc := Crc16(r.crc, [b])), p + [b])
  {
    hide Crc16, Len16, Verdict;
    RunningCrcStep(p, b);
  }

  lemma OnLenHi(r: Regs, p: seq<byte>, b: byte)
    requires Tracks(r, p) && r.state == ReadLenHi
    ensures r.expectedLen + 256 * (b as int) > MAX_PAYLOAD ==> Next(p, b) == ([], Some(TooLarge(r.ftype)))
    ensures r.expectedLen + 256 * (b as int) <= MAX_PAYLOAD ==>
              && Next(p, b) == (p + [b], None)
              && Tracks(r.(state := ReadSeq, expectedLen := r.expectedLen + 256 * (b as int),
                           crc := Crc16(r.crc, [b])), p + [b])
  {
    hide Crc16, Len16, Verdict;
    LenIsSum(p + [b]);
    if r.expectedLen + 256 * (b as int) <= MAX_PAYLOAD {
      RunningCrcStep(p, b);
    }
  }

  lemma OnSeq(r: Regs, p: seq<byte>, b: byte)
    requires Tracks(r, p) && r.state == ReadSeq
    ensures Next(p, b) == (p + [b], None)
    ensures Tracks(r.(state := if r.expectedLen == 0 then ReadCrcLo else ReadPayload, seqno := b,
                      crc := Crc16(r.crc, [b]), body := []), p + [b])
  {
    hide Crc16, Len16, Verdict;
    assert Declared(p + [b]) == Declared(p);
    RunningCrcStep(p, b);
  }

  /** The overflow guard of READ_PAYLOAD never fires: the payload is shorter than declared. */
  lemma OnPayload(r: Regs, p: seq<byte>, b: byte)
    requires Tracks(r, p) && r.state == ReadPayload
    ensures |r.body| < r.expectedLen <= MAX_PAYLOAD
    ensures Next(p, b) == (p + [b], None)
    ensures Tracks(r.(state := if |r.body| + 1 >= r.expectedLen then ReadCrcLo else ReadPayload,
                      crc := Crc16(r.crc, [b]), body := r.body + [b]), p + [b])
  {
    hide Crc16, Len16, Verdict;
    var q := p + [b];
    assert Declared(q) == Declared(p);
    RunningCrcStep(p, b);
    assert q[5..] == p[5..] + [b];
    assert |q| == 5 + r.expectedLen ==> q[5..5 + r.expectedLen] == q[5..];
  }

  lemma OnCrcLo(r: Regs, p: seq<byte>, b: byte)
    requires Tracks(r, p) && r.state == ReadCrcLo
    ensures Next(p, b) == (p + [b], None)
    ensures Tracks(r.(state := ReadCrcHi, crcRecv := Wide(b)), p + [b])
  {
    hide Crc16, Len16, Verdict;
    var q := p + [b];
    assert Declared(q) == Declared(p);
    assert q[1..5 + Declared(q)] == p[1..];
    assert q[5..5 + r.expectedLen] == p[5..];
  }

  lemma OnCrcHi(r: Regs, p: seq<byte>, b: byte)
    requires Tracks(r, p) && r.state == ReadCrcHi
    ensures |r.body| == r.expectedLen
    ensures Next(p, b) == ([], Some(if OrHigh(r.crcRecv, b) == r.crc
                                    then Good(Frame(r.ftype, r.seqno, r.body))
                                    else Mismatch(r.ftype, r.seqno)))
  {
    hide Crc16, Len16, Join, Wide, OrHigh;
    var q := p + [b];
    assert Declared(q) == Declared(p);
    assert q[1..|q| - 2] == p[1..5 + Declared(p)];
    assert q[5..|q| - 2] == p[5..5 + Declared(p)];
    JoinIsOr(p[|p| - 1], b);
  }

  // ================================================================ protocol_parser.c

  class CParser {
    var state: State
    var payloadIdx: nat
    var expectedLen: nat
    var crcRunning: bv16
    var crcRecv: bv16
    // the frame assembled in place
    var ftype: byte
    var len: nat
    var seqno: byte
    const payload: array<byte>

    /** The bytes of the frame in progress. */
    ghost var partial: seq<byte>

    ghost function Registers(): Regs
      requires payloadIdx <= payload.Length
      reads this, payload
    {
      Regs(state, expectedLen, crcRunning, crcRecv, ftype, seqno, payload[..payloadIdx])
    }

    ghost predicate Valid()
      reads this, payload
    {
      && payload.Length == MAX_PAYLOAD
      && payloadIdx <= MAX_PAYLOAD
      && Tracks(Registers(), partial)
      && (|partial| >= 4 ==> len == expectedLen)
    }

    constructor ()
      ensures Valid() && partial == [] && fresh(payload)
    {
      payload := new byte[MAX_PAYLOAD](_ => 0);
      partial := [];
      state, payloadIdx, expectedLen, crcRunning, crcRecv := WaitStart, 0, 0, CRC16_INIT, 0;
      ftype, len, seqno := 0, 0, 0;
    }

    method Reset()
      requires payload.Length == MAX_PAYLOAD
      modifies this
      ensures Valid() && partial == []
      ensures ftype == old(ftype) && len == old(len) && seqno == old(seqno)
    {
      state, payloadIdx, expectedLen, crcRunning, crcRecv := WaitStart, 0, 0, CRC16_INIT, 0;
      partial := [];
    }

    /** The frame `Feed` has just completed. */
    function CurrentFrame(): Frame
      requires len <= payload.Length
      reads this, payload
    {
      Frame(ftype, seqno, payload[..len])
    }

    method CrcEat(b: byte)
      modifies this`crcRunning
      ensures crcRunning == Crc16(old(crcRunning), [b])
    {
      crcRunning := Update(crcRunning, [b]);
    }

    /** Consumes one byte exactly as the reference parser does; `ok` tells whether it
        completed a frame with a valid CRC, which is then the current frame. */
    method Feed(b: byte) returns (ok: bool)
      requires Valid()
      modifies this, payload
      ensures Valid()
      ensures partial == Next(old(partial), b).0
      ensures ok <==> Next(old(partial), b).1.Some? && Next(old(partial), b).1.value.Good?
      ensures ok ==> len <= MAX_PAYLOAD && Next(old(partial), b).1 == Some(Good(CurrentFrame()))
    {
      hide Crc16, Join, Len16, Tracks, Verdict, Partial, Next, Wide, OrHigh;
      ghost var p, r := partial, Registers();
      StateKnown(r, p);
      WhenIdle(b);
      ok := false;
      match state
      case WaitStart =>
        if b == START {
          crcRunning := CRC16_INIT;
          state := ReadType;
          partial := [START];
          OnStart(Registers());
        }
      case ReadType =>
        OnType(r, p, b);
        ftype := b;
        CrcEat(b);
        state := ReadLenLo;
        partial := p + [b];
      case ReadLenLo =>
        OnLenLo(r, p, b);
        expectedLen := b as int;
        CrcEat(b);
        state := ReadLenHi;
        partial := p + [b];
      case ReadLenHi =>
        OnLenHi(r, p, b);
        expectedLen := expectedLen + 256 * (b as int);
        CrcEat(b);
        if expectedLen > MAX_PAYLOAD {
          Reset();
          return;
        }
        len := expectedLen;
        state := ReadSeq;
        partial := p + [b];
      case ReadSeq =>
        OnSeq(r, p, b);
        seqno := b;
        CrcEat(b);
        payloadIdx := 0;
        state := if expectedLen == 0 then ReadCrcLo else ReadPayload;
        partial := p + [b];
      case ReadPayload =>
        OnPayload(r, p, b);
        if payloadIdx >= MAX_PAYLOAD {
          assert false;
        }
        payload[payloadIdx] := b;
        payloadIdx := payloadIdx + 1;
        CrcEat(b);
        if payloadIdx >= expectedLen {
          state := ReadCrcLo;
        }
        partial := p + [b];
        assert payload[..payloadIdx] == r.body + [b];
      case ReadCrcLo =>
        OnCrcLo(r, p, b);
        crcRecv := Wide(b);
        state := ReadCrcHi;
        partial := p + [b];
      case ReadCrcHi =>
        OnCrcHi(r, p, b);
        crcRecv := OrHigh(crcRecv, b);
        ok := crcRecv == crcRunning;
        Reset();
    }
  }

  /** What the state alone says about the frame in progress. */
  lemma StateKnown(r: Regs, p: seq<byte>)
    requires Tracks(r, p)
    ensures r.state == WaitStart <==> p == []
    ensures r.state == ReadType <==> |p| == 1
    ensures r.state == ReadLenLo <==> |p| == 2
    ensures r.state == ReadLenHi <==> |p| == 3
    ensures r.state == ReadSeq <==> |p| == 4
  {}

  // ================================================================ parser.py

  class PyParser {
    var state: State
    var ftype: byte
    var expectedLen: nat
    var seqno: byte
    var payload: seq<byte>
    var payloadIdx: nat
    var crcRunning: bv16
    var crcRecv: bv16

    /** The bytes of the frame in progress. */
    ghost var partial: seq<byte>

    ghost function Registers(): Regs
      requires payloadIdx <= |payload|
      reads this
    {
      Regs(state, expectedLen, crcRunning, crcRecv, ftype, seqno, payload[..payloadIdx])
    }

    ghost predicate Valid()
      reads this
    {
      && payloadIdx <= |payload|
      && Tracks(Registers(), partial)
      && (|partial| >= 5 ==> |payload| == expectedLen)
    }

    constructor ()
      ensures Valid() && partial == []
    {
      state, ftype, expectedLen, seqno, payload, payloadIdx := WaitStart, 0, 0, 0, [], 0;
      crcRunning, crcRecv, partial := CRC16_INIT, 0, [];
    }

    method Reset()
      modifies this
      ensures Valid() && partial == []
    {
      state, ftype, expectedLen, seqno, payload, payloadIdx := WaitStart, 0, 0, 0, [], 0;
      crcRunning, crcRecv, partial := CRC16_INIT, 0, [];
    }

    /** Consumes one byte and reports exactly the reference parser's event. */
    method Feed(b: byte) returns (event: Option<Event>)
      requires Valid()
      modifies this
      ensures Valid()
      ensures partial == Next(old(partial), b).0
      ensures event == Next(old(partial), b).1
    {
      hide Crc16, Join, Len16, Tracks, Verdict, Partial, Next, Wide, OrHigh;
      ghost var p, r := partial, Registers();
      StateKnown(r, p);
      WhenIdle(b);
      event := None;
      match state
      case WaitStart =>
        if b == START {
          crcRunning := CRC16_INIT;
          state := ReadType;
          partial := [START];
          OnStart(Registers());
        }
      case ReadType =>
        OnType(r, p, b);
        ftype := b;
        crcRunning := Step(crcRunning, b);
        state := ReadLenLo;
        partial := p + [b];
      case ReadLenLo =>
        OnLenLo(r, p, b);
        expectedLen := b as int;
        crcRunning := Step(crcRunning, b);
        state := ReadLenHi;
        partial := p + [b];
      case ReadLenHi =>
        OnLenHi(r, p, b);
        expectedLen := expectedLen + 256 * (b as int);
        crcRunning := Step(crcRunning, b);
        if expectedLen > MAX_PAYLOAD {
          event := Some(TooLarge(ftype));
          Reset();
          return;
        }
        state := ReadSeq;
        partial := p + [b];
      case ReadSeq =>
        OnSeq(r, p, b);
        seqno := b;
        crcRunning := Step(crcRunning, b);
        payload := seq(expectedLen, _ => 0);
        payloadIdx := 0;
        state := if expectedLen == 0 then ReadCrcLo else ReadPayload;
        partial := p + [b];
      case ReadPayload =>
        OnPayload(r, p, b);
        if payloadIdx >= MAX_PAYLOAD {
          assert false;
        }
        payload := payload[payloadIdx := b];
        payloadIdx := payloadIdx + 1;
        crcRunning := Step(crcRunning, b);
        if payloadIdx >= expectedLen {
          state := ReadCrcLo;
        }
        partial := p + [b];
        assert payload[..payloadIdx] == r.body + [b];
      case ReadCrcLo =>
        OnCrcLo(r, p, b);
        crcRecv := Wide(b);
        state := ReadCrcHi;
        partial := p + [b];
      case ReadCrcHi =>
        OnCrcHi(r, p, b);
        crcRecv := OrHigh(crcRecv, b);
        assert payload[..payloadIdx] == payload;
        event := Some(if crcRecv == crcRunning then Good(Frame(ftype, seqno, payload)) else Mismatch(ftype, seqno));
        Reset();
    }

    /** A chunk yields the events of its cuts, whatever the chunk boundaries are. */
    method FeedBytes(data: seq<byte>) returns (events: seq<Event>)
      requires Valid()
      modifies this
      ensures Valid()
      ensures partial == Rest(old(partial), data)
      ensures events == Events(Cuts(old(partial), data))
    {
      hide Crc16, Next, Partial;
      ghost var p := partial;
      events := [];
      for i := 0 to |data|
        invariant Valid()
        invariant partial == Rest(p, data[..i])
        invariant events == Events(Cuts(p, data[..i]))
      {
        ghost var before := partial;
        var event := Feed(data[i]);
        if event.Some? {
          events := events + [event.value];
        }
        OneByteCut(before, data[i]);
        CutsConcat(p, data[..i], [data[i]]);
        EventsConcat(Cuts(p, data[..i]), Cuts(before, [data[i]]));
        assert data[..i + 1] == data[..i] + [data[i]];
      }
      assert data[..|data|] == data;
    }
  }

  lemma OneByteCut(p: seq<byte>, b: byte)
    requires Partial(p)
    ensures Rest(p, [b]) == Next(p, b).0
    ensures Events(Cuts(p, [b])) == if Next(p, b).1.Some? then [Next(p, b).1.value] else []
  {
    hide Crc16, Verdict, Len16;
    assert [b][1..] == [];
  }

  /** The firmware parser and the Python parser, fed the same bytes from the same point,
      report frames on the same bytes and with the same contents. */
  method Lockstep(c: CParser, py: PyParser, data: seq<byte>) returns (fromC: seq<Frame>, fromPy: seq<Frame>)
    requires c.Valid() && py.Valid() && c.partial == py.partial
    modifies c, c.payload, py
    ensures c.Valid() && py.Valid() && c.partial == py.partial
    ensures fromC == fromPy
  {
    hide Crc16, Next, Partial;
    fromC, fromPy := [], [];
    for i := 0 to |data|
      invariant c.Valid() && py.Valid() && c.partial == py.partial
      invariant fromC == fromPy
    {
      var ok := c.Feed(data[i]);
      var event := py.Feed(data[i]);
      if ok {
        fromC := fromC + [c.CurrentFrame()];
      }
      if event.Some? && event.value.Good? {
        fromPy := fromPy + [event.value.frame];
      }
    }
  }

  // ================================================================ protocol_encoder.c

  /** Writes the encoding of the frame at the front of `out` and nothing else. */
  method BuildFrame(out: array<byte>, ftype: byte, seqno: byte, payload: seq<byte>) returns (n: nat)
    requires |payload| < 0x1_0000 && out.Length >= 7 + |payload|
    modifies out
    ensures n == 7 + |payload|
    ensures out[..n] == Encode(Frame(ftype, seqno, payload))
    ensures out[n..] == old(out[n..])
  {
    hide Crc16, CrcLo, CrcHi, LenLo, LenHi, Encode, Covered;
    ghost var f := Frame(ftype, seqno, payload);
    Layout(f);
    out[0] := START;
    out[1] := ftype;
    out[2] := LenLo(|payload|);
    out[3] := LenHi(|payload|);
    out[4] := seqno;
    for i := 0 to |payload|
      invariant forall j :: 0 <= j < 5 + i ==> out[j] == Encode(f)[j]
      invariant forall j :: 5 + i <= j < out.Length ==> out[j] == old(out[j])
    {
      out[5 + i] := payload[i];
    }
    var k := 5 + |payload|;
    assert out[1..k] == Encode(f)[1..k];
    var crc := Update(CRC16_INIT, out[1..k]);
    out[k] := CrcLo(crc);
    out[k + 1] := CrcHi(crc);
    n := 7 + |payload|;
  }

  /** Where each byte of an encoded frame sits. */
  lemma Layout(f: Frame)
    requires |f.payload| < 0x1_0000
    ensures var e, k := Encode(f), 5 + |f.payload|;
      && |e| == k + 2
      && e[0] == START && e[1] == f.ftype && e[4] == f.seqno
      && e[2] == LenLo(|f.payload|) && e[3] == LenHi(|f.payload|)
      && (forall j :: 5 <= j < k ==> e[j] == f.payload[j - 5])
      && e[1..k] == Covered(f)
      && e[k] == CrcLo(Crc16(CRC16_INIT, Covered(f))) && e[k + 1] == CrcHi(Crc16(CRC16_INIT, Covered(f)))
  {
    hide Crc16, CrcLo, CrcHi, LenLo, LenHi;
  }

  // ================================================================ encoder.py

  datatype ValueError = UnknownFrameType | SeqOutOfRange | PayloadTooLong

  predicate KnownType(t: int) {
    t in {0x01, 0x02, 0x03, 0x04, 0x05, 0x10, 0x11, 0x20}
  }

  /** Builds the wire frame, or raises for the first bad argument. */
  method EncodeFrame(ftype: int, seqno: int, payload: seq<byte>) returns (r: Result<seq<byte>, ValueError>)
    ensures r.Err? <==> !KnownType(ftype) || !(0 <= seqno <= 0xFF) || |payload| > MAX_PAYLOAD
    ensures !KnownType(ftype) ==> r == Err(UnknownFrameType)
    ensures r.Ok? ==> r.value == Encode(Frame(ftype as byte, seqno as byte, payload))
    ensures r.Ok? ==> Cuts([], r.value) == [Cut(r.value, Some(Good(Frame(ftype as byte, seqno as byte, payload))))]
  {
    hide Crc16, CrcLo, CrcHi, LenLo, LenHi, Next;
    if !KnownType(ftype) {
      return Err(UnknownFrameType);
    }
    if !(0 <= seqno <= 0xFF) {
      return Err(SeqOutOfRange);
    }
    if |payload| > MAX_PAYLOAD {
      return Err(PayloadTooLong);
    }
    var header := [START, ftype as byte, LenLo(|payload|), LenHi(|payload|), seqno as byte];
    var f := Frame(ftype as byte, seqno as byte, payload);
    assert header[1..] + payload == Covered(f);
    var crc := Bulk(header[1..] + payload, CRC16_INIT);
    var wire := header + payload + [CrcLo(crc), CrcHi(crc)];
    assert header == [START] + header[1..];
    assert wire == Encode(f);
    OneCut(Cut(wire, Some(Good(f))));
    r := Ok(wire);
  }
}
