/** The firmware from bytes to bytes: parser, dispatcher and encoder in one loop (app_init.c,
    dispatcher.c, protocol_encoder.c). */
module Session {
  import opened Wrappers
  import opened Framing
  import opened Parsers
  import Uart
  import Wire
  import B = Bench
  import Dispatcher

  lemma {:induction false} LineConcat(a: seq<Sent>, b: seq<Sent>)
    requires Clean(a) && Clean(b)
    ensures Clean(a + b) && Line(a + b) == Line(a) + Line(b)
    decreases |a|
  {
    hide Encode;
    if a == [] {
      assert a + b == b;
    } else {
      assert (a + b)[0] == a[0] && (a + b)[1..] == a[1..] + b;
      LineConcat(a[1..], b);
    }
  }

  /** The commands in the bytes received so far. */
  function Commands(input: seq<byte>): seq<Frame> {
    Uart.Delivered(Cuts([], input))
  }

  /** What the firmware has done after some commands: its state, and the bytes sent. */
  ghost predicate Answered(b0: B.Bench, cmds: seq<Frame>, envs: seq<B.Env>, b: B.Bench, out: seq<byte>) {
    && B.Inv(b0) && |cmds| <= |envs|
    && b == B.Served(b0, cmds, envs[..|cmds|])
    && Clean(B.Serve(b0, cmds, envs[..|cmds|])) && out == Line(B.Serve(b0, cmds, envs[..|cmds|]))
  }

  lemma NothingYet(b0: B.Bench, envs: seq<B.Env>)
    requires B.Inv(b0)
    ensures Answered(b0, [], envs, b0, [])
  {
    hide B.Inv, B.Handle;
    assert envs[..0] == [];
  }

  lemma OneMore(b0: B.Bench, cmds: seq<Frame>, envs: seq<B.Env>, b: B.Bench, out: seq<byte>, f: Frame)
    requires Answered(b0, cmds, envs, b, out) && |cmds| < |envs|
    ensures B.Inv(b) && B.Handle(b, f, envs[|cmds|]).1.id <= 255
    ensures var (b', r) := B.Handle(b, f, envs[|cmds|]);
      Answered(b0, cmds + [f], envs, b', out + Encode(B.AckFrame(r)))
  {
    hide B.Inv, B.Handle, Encode;
    var n := |cmds|;
    B.ServeOneMore(b0, cmds, envs[..n], f, envs[n]);
    assert envs[..n + 1] == envs[..n] + [envs[n]];
    var ack := Packet(B.AckFrame(B.Handle(b, f, envs[n]).1));
    LineConcat(B.Serve(b0, cmds, envs[..n]), [ack]);
    assert [ack][1..] == [] && Line([]) == [];
    assert Line([ack]) == Encode(ack.frame);
  }

  /** protocol_send_ack up to the ring: the frame bytes of a reply. */
  method SendAck(r: B.Reply) returns (bytes: seq<byte>)
    requires r.id <= 255
    ensures bytes == Encode(B.AckFrame(r))
  {
    var frame := new byte[10];
    var n := BuildFrame(frame, B.RSP_ACK, r.seqno, [r.cmd, Wire.Code(r.err), r.id as byte]);
    bytes := frame[..n];
  }

  /** The frame a byte completes, if it does. */
  function Completed(p: seq<byte>, b: byte): Option<Frame> {
    var e := Next(p, b).1;
    if e.Some? && e.value.Good? then Some(e.value.frame) else None
  }

  lemma CommandCount(input: seq<byte>, b: byte)
    ensures Rest([], input + [b]) == Next(Rest([], input), b).0
    ensures var f := Completed(Rest([], input), b);
      Commands(input + [b]) == if f.Some? then Commands(input) + [f.value] else Commands(input)
  {
    hide Next, Cuts;
    Uart.DeliverOne([], input, b);
  }

  /** Feeding the parser leaves the engine alone. */
  method FeedOne(fw: Dispatcher.Firmware, parser: CParser, b: byte) returns (frame: Option<Frame>)
    requires fw.Valid() && parser.Valid() && parser.payload !in fw.i2c.blocks
    modifies parser, parser.payload
    ensures fw.Valid() && fw.State() == old(fw.State()) && parser.Valid()
    ensures parser.partial == Next(old(parser.partial), b).0
    ensures frame == Completed(old(parser.partial), b)
  {
    hide B.Inv, Dispatcher.Firmware.Valid, Dispatcher.Firmware.State, Next;
    frame := None;
    var complete := parser.Feed(b);
    if complete {
      frame := Some(parser.CurrentFrame());
    }
  }

  /** dispatcher_handle, and the bytes of the reply. */
  method Reply(fw: Dispatcher.Firmware, f: Frame, env: B.Env) returns (bytes: seq<byte>)
    requires fw.Valid()
    modifies fw.mgr, fw.mgr.slots, fw.pwm, fw.tim.timers, fw.tim.ccr, fw.pwm.cells, fw.pwm.pins
    modifies fw.dac, fw.dac.chips, fw.dac.cells, fw.dac.sems, fw.spi.claims, fw.spi.masterOn, fw.spi.slaves, fw.slave.cells
    modifies fw.i2c, fw.i2c.devices, fw.i2c.states, fw.i2c.blocks, fw.dig, fw.dig.cells, fw.dig.pins
    ensures fw.Valid() && fresh(fw.i2c.blocks - old(fw.i2c.blocks))
    ensures var (v, r) := B.Handle(old(fw.State()), f, env);
      fw.State() == v && r.id <= 255 && bytes == Encode(B.AckFrame(r))
  {
    hide *;
    fw.StateInv();
    B.ReplyEchoes(fw.State(), f, env);
    var r := fw.Handle(f, env);
    bytes := SendAck(r);
  }

  /** Handling a frame leaves the parser alone. */
  method Answer(fw: Dispatcher.Firmware, parser: CParser, f: Frame, env: B.Env) returns (bytes: seq<byte>)
    requires fw.Valid() && parser.Valid() && parser.payload !in fw.i2c.blocks
    modifies fw.mgr, fw.mgr.slots, fw.pwm, fw.tim.timers, fw.tim.ccr, fw.pwm.cells, fw.pwm.pins
    modifies fw.dac, fw.dac.chips, fw.dac.cells, fw.dac.sems, fw.spi.claims, fw.spi.masterOn, fw.spi.slaves, fw.slave.cells
    modifies fw.i2c, fw.i2c.devices, fw.i2c.states, fw.i2c.blocks, fw.dig, fw.dig.cells, fw.dig.pins
    ensures fw.Valid() && parser.Valid() && parser.partial == old(parser.partial)
    ensures parser.payload !in fw.i2c.blocks && fresh(fw.i2c.blocks - old(fw.i2c.blocks))
    ensures var (v, r) := B.Handle(old(fw.State()), f, env);
      fw.State() == v && r.id <= 255 && bytes == Encode(B.AckFrame(r))
  {
    hide *;
    bytes := Reply(fw, f, env);
  }

  /** One byte from the ring: parse it and, if it completes a frame, handle and answer that. */
  method OnByte(fw: Dispatcher.Firmware, parser: CParser, seen: seq<byte>, b: byte, envs: seq<B.Env>,
                ghost b0: B.Bench, sent: seq<byte>) returns (out: seq<byte>)
    requires fw.Valid() && parser.Valid() && parser.payload !in fw.i2c.blocks
    requires parser.partial == Rest([], seen) && |Commands(seen)| < |envs|
    requires Answered(b0, Commands(seen), envs, fw.State(), sent)
    modifies parser, parser.payload, fw.mgr, fw.mgr.slots, fw.pwm, fw.tim.timers, fw.tim.ccr, fw.pwm.cells, fw.pwm.pins
    modifies fw.dac, fw.dac.chips, fw.dac.cells, fw.dac.sems, fw.spi.claims, fw.spi.masterOn, fw.spi.slaves, fw.slave.cells
    modifies fw.i2c, fw.i2c.devices, fw.i2c.states, fw.i2c.blocks, fw.dig, fw.dig.cells, fw.dig.pins
    ensures fw.Valid() && parser.Valid() && parser.payload !in fw.i2c.blocks && fresh(fw.i2c.blocks - old(fw.i2c.blocks))
    ensures parser.partial == Rest([], seen + [b]) && |Commands(seen + [b])| <= |Commands(seen)| + 1
    ensures Answered(b0, Commands(seen + [b]), envs, fw.State(), out)
  {
    hide *;
    CommandCount(seen, b);
    fw.StateInv();
    ghost var v := fw.State();
    out := sent;
    var frame := FeedOne(fw, parser, b);
    if frame.Some? {
      OneMore(b0, Commands(seen), envs, v, sent, frame.value);
      var bytes := Answer(fw, parser, frame.value, envs[|Commands(seen)|]);
      out := sent + bytes;
    }
  }

  /** Whatever bytes arrive and whatever the environment decides, the bytes sent are the encoded
      replies to exactly the frames contained in the input, in order. */
  method Run(fw: Dispatcher.Firmware, parser: CParser, input: seq<byte>, envs: seq<B.Env>) returns (out: seq<byte>)
    requires fw.Valid() && parser.Valid() && parser.partial == [] && parser.payload !in fw.i2c.blocks
    requires |envs| >= |input|
    modifies parser, parser.payload, fw.mgr, fw.mgr.slots, fw.pwm, fw.tim.timers, fw.tim.ccr, fw.pwm.cells, fw.pwm.pins
    modifies fw.dac, fw.dac.chips, fw.dac.cells, fw.dac.sems, fw.spi.claims, fw.spi.masterOn, fw.spi.slaves, fw.slave.cells
    modifies fw.i2c, fw.i2c.devices, fw.i2c.states, fw.i2c.blocks, fw.dig, fw.dig.cells, fw.dig.pins
    ensures fw.Valid() && parser.Valid() && parser.partial == Rest([], input)
    ensures Answered(old(fw.State()), Commands(input), envs, fw.State(), out)
  {
    hide *;
    out := [];
    fw.StateInv();
    ghost var b0 := fw.State();
    NothingYet(b0, envs);
    NoInput();
    assert input[..0] == [];
    for i := 0 to |input|
      invariant fw.Valid() && parser.Valid() && parser.payload !in fw.i2c.blocks && fresh(fw.i2c.blocks - old(fw.i2c.blocks))
      invariant parser.partial == Rest([], input[..i]) && |Commands(input[..i])| <= i
      invariant Answered(b0, Commands(input[..i]), envs, fw.State(), out)
    {
      assert input[..i + 1] == input[..i] + [input[i]];
      out := OnByte(fw, parser, input[..i], input[i], envs, b0, out);
    }
    assert input[..|input|] == input;
  }

  lemma NoInput()
    ensures Commands([]) == [] && Rest([], []) == []
  {}
}
