/** Error codes (err_codes.h), protocol ids (protocol.h), little-endian readers (helpers.h),
    pins, and the shape of a setup result. */
module Wire {
  import opened Wrappers
  import opened Sensors

  datatype Err =
    | Success | UnknownCmd | MalformedPayload | Unsupported | OutOfResources
    | InvalidSensorId | InvalidParameter | PeripheralBusy | PinConflict | NotImplemented | Internal
    | I2cNoFreePeripheral | I2cClockUnsupported | I2cAddrReserved | I2cRegmapTooLarge
    | I2cBadAddrMode | I2cRegisterOob | I2cSmbusRequired
    | PwmFreqConflict | PwmChannelInUse
    | DacPinMismatch | DacClockMismatch | DacChannelInUse

  function Code(e: Err): byte {
    match e
    case Success => 0x00 case UnknownCmd => 0x01 case MalformedPayload => 0x02
    case Unsupported => 0x04 case OutOfResources => 0x05 case InvalidSensorId => 0x06
    case InvalidParameter => 0x07 case PeripheralBusy => 0x08 case PinConflict => 0x09
    case NotImplemented => 0x0A case Internal => 0x0B
    case I2cNoFreePeripheral => 0x40 case I2cClockUnsupported => 0x41 case I2cAddrReserved => 0x43
    case I2cRegmapTooLarge => 0x44 case I2cBadAddrMode => 0x45 case I2cRegisterOob => 0x46
    case I2cSmbusRequired => 0x48
    case PwmFreqConflict => 0x60 case PwmChannelInUse => 0x61
    case DacPinMismatch => 0x80 case DacClockMismatch => 0x81 case DacChannelInUse => 0x82
  }

  const ID_I2C: nat := 0x01
  const ID_SPI: nat := 0x02
  const ID_DIGITAL_OUT: nat := 0x03
  const ID_DAC: nat := 0x05
  const ID_PWM: nat := 0x06

  const PORT_MAX: nat := 5
  const PIN_MAX: nat := 15
  const AF_MAX: nat := 15

  /** No port: what the firmware stores, as a null handle, for a disabled optional pin. */
  const NO_PORT: nat := 0xFF

  datatype Pin = Pin(port: nat, num: nat)

  predicate GoodPin(p: Pin) { p.port <= PORT_MAX && p.num <= PIN_MAX }

  predicate GoodAf(af: nat) { 1 <= af <= AF_MAX }

  function Read8(c: seq<byte>, i: nat): nat
    requires i < |c|
  {
    c[i] as nat
  }

  function Read16(c: seq<byte>, i: nat): (r: nat)
    requires i + 1 < |c|
    ensures r <= 0xFFFF
  {
    Read8(c, i) + 0x100 * Read8(c, i + 1)
  }

  function Read32(c: seq<byte>, i: nat): (r: nat)
    requires i + 3 < |c|
    ensures r <= 0xFFFF_FFFF
  {
    Read16(c, i) + 0x1_0000 * Read16(c, i + 2)
  }

  /** A 16-bit sum as C computes it. */
  function Wrap16(n: nat): nat { n % 0x1_0000 }

  function PinAt(c: seq<byte>, i: nat): Pin
    requires i + 1 < |c|
  {
    Pin(Read8(c, i), Read8(c, i + 1))
  }

  /** What a setup leaves behind: the backend's live sensors, the table, the answer. */
  datatype SetupResult<L> = SetupResult(live: L, table: Table, err: Err, id: nat)

  function Refused<L>(live: L, table: Table, err: Err): SetupResult<L> {
    SetupResult(live, table, err, 0)
  }

  /** The last stage of every setup: register, or give up because the table is full. */
  function Admit<L>(before: L, after: L, table: Table, proto: nat, idx: nat): SetupResult<L>
    requires ValidTable(table)
  {
    if |table.live| >= SLOTS then Refused(before, table, OutOfResources)
    else
      var (t, id) := Registered(table, Entry(proto, idx));
      SetupResult(after, t, Success, id)
  }

  // ---------------------------------------------------------------- bitmaps

  /** `1 << n` in a 16-bit word. */
  function Bit(n: nat): bv16
    requires n < 16
  {
    match n
    case 0 => 0x0001 case 1 => 0x0002 case 2 => 0x0004 case 3 => 0x0008
    case 4 => 0x0010 case 5 => 0x0020 case 6 => 0x0040 case 7 => 0x0080
    case 8 => 0x0100 case 9 => 0x0200 case 10 => 0x0400 case 11 => 0x0800
    case 12 => 0x1000 case 13 => 0x2000 case 14 => 0x4000 case _ => 0x8000
  }

  function And(a: bv16, b: bv16): bv16 { a & b }

  predicate HasBit(m: bv16, n: nat)
    requires n < 16
  {
    And(m, Bit(n)) != 0
  }

  function Or(m: bv16, a: bv16): bv16 { m | a }

  function AndNot(m: bv16, a: bv16): bv16 { m & !a }

  function SetBit(m: bv16, n: nat): bv16
    requires n < 16
  {
    Or(m, Bit(n))
  }

  function ClearBit(m: bv16, n: nat): bv16
    requires n < 16
  {
    AndNot(m, Bit(n))
  }

  lemma BitsDisjoint(n: nat, k: nat)
    requires n < 16 && k < 16
    ensures n != k ==> And(Bit(n), Bit(k)) == 0
    ensures Bit(n) != 0
  {}

  lemma OrElsewhere(m: bv16, a: bv16, b: bv16)
    requires And(a, b) == 0
    ensures And(Or(m, a), b) == And(m, b)
  {}

  lemma AndNotElsewhere(m: bv16, a: bv16, b: bv16)
    requires And(a, b) == 0
    ensures And(AndNot(m, a), b) == And(m, b)
  {}

  lemma MaskHere(m: bv16, a: bv16)
    ensures And(Or(m, a), a) == a
    ensures And(AndNot(m, a), a) == 0
  {}

  lemma SetBitIs(m: bv16, n: nat, k: nat)
    requires n < 16 && k < 16
    ensures HasBit(SetBit(m, n), k) <==> k == n || HasBit(m, k)
  {
    hide Bit, And, Or, AndNot;
    BitsDisjoint(n, k);
    MaskHere(m, Bit(n));
    if n != k { OrElsewhere(m, Bit(n), Bit(k)); }
  }

  lemma ClearBitIs(m: bv16, n: nat, k: nat)
    requires n < 16 && k < 16
    ensures HasBit(ClearBit(m, n), k) <==> k != n && HasBit(m, k)
  {
    hide Bit, And, Or, AndNot;
    BitsDisjoint(n, k);
    MaskHere(m, Bit(n));
    if n != k { AndNotElsewhere(m, Bit(n), Bit(k)); }
  }

  lemma NoBits(m: bv16)
    ensures (forall n :: 0 <= n < 16 ==> !HasBit(m, n)) <==> m == 0
  {
    if forall n :: 0 <= n < 16 ==> !HasBit(m, n) {
      assert !HasBit(m, 0) && !HasBit(m, 1) && !HasBit(m, 2) && !HasBit(m, 3);
      assert !HasBit(m, 4) && !HasBit(m, 5) && !HasBit(m, 6) && !HasBit(m, 7);
      assert !HasBit(m, 8) && !HasBit(m, 9) && !HasBit(m, 10) && !HasBit(m, 11);
      assert !HasBit(m, 12) && !HasBit(m, 13) && !HasBit(m, 14) && !HasBit(m, 15);
    }
  }

  function Differ(a: bv16, b: bv16): bv16 { a ^ b }

  lemma DifferHere(a: bv16, b: bv16, m: bv16)
    requires And(a, m) == And(b, m)
    ensures And(Differ(a, b), m) == 0
  {}

  lemma OneBit(a: bv16, n: nat)
    requires n < 16
    ensures And(a, Bit(n)) == 0 || And(a, Bit(n)) == Bit(n)
  {}

  lemma NoDifference(a: bv16, b: bv16)
    requires Differ(a, b) == 0
    ensures a == b
  {}

  lemma SameBits(a: bv16, b: bv16)
    requires forall n :: 0 <= n < 16 ==> HasBit(a, n) == HasBit(b, n)
    ensures a == b
  {
    hide Bit, And, Differ;
    forall n | 0 <= n < 16
      ensures !HasBit(Differ(a, b), n)
    {
      OneBit(a, n);
      OneBit(b, n);
      assert HasBit(a, n) == HasBit(b, n);
      DifferHere(a, b, Bit(n));
    }
    NoBits(Differ(a, b));
    NoDifference(a, b);
  }

  // ---------------------------------------------------------------- pin bitmaps, one word per port

  /** One port's word of a bitmap. */
  datatype PortBits = PortBits(bits: bv16)

  /** The bitmap has exactly the bits of the owned pins. */
  ghost predicate BitmapIs(pins: seq<PortBits>, owned: set<Pin>) {
    |pins| == PORT_MAX + 1 &&
    forall port, num :: 0 <= port <= PORT_MAX && 0 <= num <= PIN_MAX ==>
      (HasBit(pins[port].bits, num) <==> Pin(port, num) in owned)
  }

  function Marked(pins: seq<PortBits>, pin: Pin): (r: seq<PortBits>)
    requires |pins| == PORT_MAX + 1 && GoodPin(pin)
    ensures |r| == |pins|
  {
    pins[pin.port := PortBits(SetBit(pins[pin.port].bits, pin.num))]
  }

  function Unmarked(pins: seq<PortBits>, pin: Pin): (r: seq<PortBits>)
    requires |pins| == PORT_MAX + 1 && GoodPin(pin)
    ensures |r| == |pins|
  {
    pins[pin.port := PortBits(ClearBit(pins[pin.port].bits, pin.num))]
  }

  lemma MarkPin(pins: seq<PortBits>, owned: set<Pin>, pin: Pin)
    requires BitmapIs(pins, owned) && GoodPin(pin)
    ensures |pins| == PORT_MAX + 1
    ensures BitmapIs(Marked(pins, pin), owned + {pin})
    ensures BitmapIs(Unmarked(pins, pin), owned - {pin})
    ensures HasBit(pins[pin.port].bits, pin.num) <==> pin in owned
  {
    hide HasBit, SetBit, ClearBit;
    assert pin == Pin(pin.port, pin.num);
    forall port, num | 0 <= port <= PORT_MAX && 0 <= num <= PIN_MAX
      ensures HasBit(Marked(pins, pin)[port].bits, num) <==> Pin(port, num) in owned + {pin}
      ensures HasBit(Unmarked(pins, pin)[port].bits, num) <==> Pin(port, num) in owned - {pin}
    {
      SetBitIs(pins[port].bits, pin.num, num);
      ClearBitIs(pins[port].bits, pin.num, num);
    }
  }

  lemma SameBitmap(pins: seq<PortBits>, pins': seq<PortBits>, owned: set<Pin>)
    requires BitmapIs(pins, owned) && BitmapIs(pins', owned)
    ensures pins == pins'
  {
    hide HasBit;
    forall port | 0 <= port <= PORT_MAX
      ensures pins[port] == pins'[port]
    {
      assert forall n :: 0 <= n < 16 ==> HasBit(pins[port].bits, n) == HasBit(pins'[port].bits, n);
      SameBits(pins[port].bits, pins'[port].bits);
    }
  }

  lemma BlankBitmap(pins: seq<PortBits>)
    requires |pins| == PORT_MAX + 1 && forall i :: 0 <= i < |pins| ==> pins[i] == PortBits(0)
    ensures BitmapIs(pins, {})
  {}
}
