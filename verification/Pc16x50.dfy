/** The PC16x50 UART: register file, transmit FIFO and shift register, and the driver functions of
    `pc16cx50.c` that work on it through register writes. */
module Pc16x50 {
  import opened Octets

  const FIFO_SIZE := 16
  const REG_THR := 0
  const REG_DLL := 0
  const REG_IER := 1
  const REG_DLM := 1
  const REG_FCR := 2
  const REG_LCR := 3
  const REG_MCR := 4
  const LCR_DLAB: bv8 := 0x80
  const LCR_STB: bv8 := 0x04
  const LCR_FORMAT_MASK: bv8 := 0x3F
  const MCR_DTR: bv8 := 0x01
  const MCR_RTS: bv8 := 0x02
  const MCR_OUT1: bv8 := 0x04
  const MCR_OUT2: bv8 := 0x08
  const MCR_LOOP: bv8 := 0x08
  const IER_RX: bv8 := 0x01
  const IER_THRE: bv8 := 0x02
  const FCR_RX_RESET: bv8 := 0x02

  /** Everything that decides how an octet looks on the wire, plus the interrupt enables. */
  datatype Config = Config(divisor: nat, lcr: bv8, mcr: bv8, ier: bv8) {
    predicate Rts() {
      mcr & MCR_RTS == MCR_RTS
    }
  }

  datatype Format = Format(databits: int, parity: char, stopbits: int)

  // ----- line format -------------------------------------------------------------------------------

  function WordLength(databits: int): bv8 {
    match (databits - 5) % 4
    case 0 => 0
    case 1 => 1
    case 2 => 2
    case _ => 3
  }

  function ParityBits(parity: char): bv8 {
    if parity == 'e' then 0x18 else if parity == 'o' then 0x08 else if parity == '1' then 0x28
    else if parity == '0' then 0x38 else 0
  }

  function UpdateFormatBits(lcr: bv8, f: Format): bv8 {
    (lcr & !LCR_FORMAT_MASK) | WordLength(f.databits) | (if f.stopbits > 1 then LCR_STB else 0) | ParityBits(f.parity)
  }

  function DecodeFormat(lcr: bv8): Format {
    Format(if lcr & 3 == 0 then 5 else if lcr & 3 == 1 then 6 else if lcr & 3 == 2 then 7 else 8,
           if lcr & 0x38 == 0x38 then '0' else if lcr & 0x38 == 0x28 then '1' else if lcr & 0x38 == 0x18 then 'e'
           else if lcr & 0x38 == 0x08 then 'o' else 'n',
           if lcr & LCR_STB != 0 then 2 else 1)
  }

  predicate Supported(f: Format) {
    5 <= f.databits <= 8 && f.parity in ['n', 'e', 'o', '0', '1'] && 1 <= f.stopbits <= 2
  }

  /** A supported format is read back as it was set, and break and DLAB bits are left alone. */
  lemma FormatRoundTrip(lcr: bv8, f: Format)
    ensures UpdateFormatBits(lcr, f) & 0xC0 == lcr & 0xC0
    ensures Supported(f) ==> DecodeFormat(UpdateFormatBits(lcr, f)) == f
  {
  }

  /** What the bits of the line control register mean: word length minus five, a second stop bit, and parity
      enabled, even and stuck; break and DLAB are not touched. */
  lemma FormatBits(lcr: bv8, f: Format)
    requires Supported(f)
    ensures var r := UpdateFormatBits(lcr, f);
            && (r & 0x03) as int == f.databits - 5 && (r & 0x04 != 0 <==> f.stopbits == 2)
            && (r & 0x08 != 0 <==> f.parity != 'n')
            && (r & 0x10 != 0 <==> f.parity == 'e' || f.parity == '0')
            && (r & 0x20 != 0 <==> f.parity == '0' || f.parity == '1')
            && r & 0xC0 == lcr & 0xC0
  {
  }

  // ----- the chip ----------------------------------------------------------------------------------

  /** Something an observer of the line sees: an octet that has completely left the shift register,
      with the settings when it entered and when it left, or an action of the driver. */
  datatype Obs<A> = Sent(octet: Octet, start: Config, finish: Config) | Acted(action: A)

  datatype Shifting = Shifting(octet: Octet, start: Config)

  class Chip<A> {
    var lcr: bv8
    var mcr: bv8
    var ier: bv8
    var dll: Octet
    var dlm: Octet
    var fifo: seq<Octet>
    var shift: Option<Shifting>
    ghost var trace: seq<Obs<A>>

    constructor ()
      ensures Valid() && Empty() && trace == []
    {
      lcr, mcr, ier, dll, dlm, fifo, shift, trace := 0, 0, 0, 1, 0, [], None, [];
    }

    predicate Dlab()
      reads this`lcr
    {
      lcr & LCR_DLAB != 0
    }

    function Divisor(): nat
      reads this`dll, this`dlm
    {
      dll as int + 256 * dlm as int
    }

    function Settings(): Config
      reads this`dll, this`dlm, this`lcr, this`mcr, this`ier
    {
      Config(Divisor(), lcr, mcr, ier)
    }

    /** LSR.THRE: the transmit FIFO is empty. */
    predicate Thre()
      reads this`fifo
    {
      fifo == []
    }

    /** LSR.TEMT: FIFO and shift register are both empty. */
    predicate Empty()
      reads this`fifo, this`shift
    {
      fifo == [] && shift.None?
    }

    function Occupancy(): nat
      reads this`fifo, this`shift
    {
      |fifo| + if shift.Some? then 1 else 0
    }

    /** The FIFO only fills behind a busy shift register, and nothing is written past its end. */
    ghost predicate Valid()
      reads this
    {
      |fifo| <= FIFO_SIZE && (fifo != [] ==> shift.Some?) && !Dlab()
    }

    ghost function InChip(): seq<Octet>
      reads this`fifo, this`shift
    {
      (if shift.Some? then [shift.value.octet] else []) + fifo
    }

    /** A register write; registers 0 and 1 are the divisor latch while DLAB is set. */
    method WriteReg(reg: nat, v: Octet)
      requires reg == REG_THR && !Dlab() ==> Occupancy() <= FIFO_SIZE && (fifo != [] ==> shift.Some?)
      modifies this
      ensures trace == old(trace)
      ensures reg == REG_THR && !old(Dlab()) ==> InChip() == old(InChip()) + [v] && (fifo != [] ==> shift.Some?)
      ensures reg == REG_THR && !old(Dlab()) && old(shift).None? ==> shift == Some(Shifting(v, Settings()))
      ensures !(reg == REG_THR && !old(Dlab()) && old(shift).None?) ==> shift == old(shift)
      ensures reg != REG_THR || old(Dlab()) ==> fifo == old(fifo)
      ensures dll == if reg == REG_DLL && old(Dlab()) then v else old(dll)
      ensures dlm == if reg == REG_DLM && old(Dlab()) then v else old(dlm)
      ensures ier == if reg == REG_IER && !old(Dlab()) then Bits(v) else old(ier)
      ensures lcr == if reg == REG_LCR then Bits(v) else old(lcr)
      ensures mcr == if reg == REG_MCR then Bits(v) else old(mcr)
    {
      if reg == REG_THR {
        if Dlab() {
          dll := v;
        } else if shift.None? {
          shift := Some(Shifting(v, Settings()));
        } else {
          fifo := fifo + [v];
        }
      } else if reg == REG_IER {
        if Dlab() {
          dlm := v;
        } else {
          ier := Bits(v);
        }
      } else if reg == REG_LCR {
        lcr := Bits(v);
      } else if reg == REG_MCR {
        mcr := Bits(v);
      }
    }

    /** A register read; registers 0 and 1 are the divisor latch while DLAB is set. What has been received is not
        part of the model. */
    method ReadReg(reg: nat) returns (v: Octet)
      ensures reg == REG_DLL && Dlab() ==> v == dll
      ensures reg == REG_DLM && Dlab() ==> v == dlm
      ensures reg == REG_IER && !Dlab() ==> Bits(v) == ier
      ensures reg == REG_LCR ==> Bits(v) == lcr
      ensures reg == REG_MCR ==> Bits(v) == mcr
    {
      BitsValue(ier);
      BitsValue(lcr);
      BitsValue(mcr);
      v := *;
      if reg == REG_DLL && Dlab() {
        v := dll;
      } else if reg == REG_DLM {
        v := if Dlab() then dlm else Value(ier);
      } else if reg == REG_LCR {
        v := Value(lcr);
      } else if reg == REG_MCR {
        v := Value(mcr);
      }
    }

    /** The hardware finishes an octet, if there is one, and loads the next. */
    method ShiftOut()
      requires Valid()
      modifies this`fifo, this`shift, this`trace
      ensures Valid()
      ensures old(shift).None? ==> trace == old(trace) && fifo == old(fifo) && shift == old(shift)
      ensures old(shift).Some? ==>
                && trace == old(trace) + [Sent(old(shift).value.octet, old(shift).value.start, Settings())]
                && old(InChip()) == [old(shift).value.octet] + InChip()
                && (shift.Some? ==> shift.value.start == Settings())
    {
      if shift.Some? {
        trace := trace + [Sent(shift.value.octet, shift.value.start, Settings())];
        if fifo == [] {
          shift := None;
        } else {
          shift := Some(Shifting(fifo[0], Settings()));
          fifo := fifo[1..];
        }
      }
    }

    // ----- pc16cx50.c ----------------------------------------------------------------------------------

    method WriteThr(v: Octet)
      requires Valid() && Occupancy() <= FIFO_SIZE
      modifies this
      ensures Valid() && trace == old(trace) && Settings() == old(Settings())
      ensures InChip() == old(InChip()) + [v]
      ensures shift == if old(shift).None? then Some(Shifting(v, Settings())) else old(shift)
    {
      WriteReg(REG_THR, v);
    }

    /** Programs the divisor through the DLAB window; line format, interrupt enables, modem lines and the
        transmit FIFO come out unchanged. */
    method SetBaudrateDivisor(divisor: nat)
      requires !Dlab() && divisor < 0x1_0000
      modifies this
      ensures Settings() == old(Settings()).(divisor := divisor)
      ensures fifo == old(fifo) && shift == old(shift) && trace == old(trace)
    {
      var saved := lcr;
      DlabBit(saved);
      BitsValue(saved | LCR_DLAB);
      BitsValue(saved);
      WriteReg(REG_LCR, Value(saved | LCR_DLAB));
      WriteReg(REG_DLL, divisor % 256);
      WriteReg(REG_DLM, divisor / 256);
      WriteReg(REG_LCR, Value(saved));
    }

    method GetBaudrateDivisor() returns (divisor: nat)
      requires !Dlab()
      modifies this
      ensures divisor == Divisor() && Settings() == old(Settings())
      ensures fifo == old(fifo) && shift == old(shift) && trace == old(trace)
    {
      var saved := lcr;
      DlabBit(saved);
      BitsValue(saved | LCR_DLAB);
      BitsValue(saved);
      WriteReg(REG_LCR, Value(saved | LCR_DLAB));
      var low := ReadReg(REG_DLL);
      divisor := low;
      var high := ReadReg(REG_DLM);
      divisor := divisor + high as int * 256;
      WriteReg(REG_LCR, Value(saved));
    }

    method SetFormat(f: Format)
      requires !Dlab()
      modifies this
      ensures Settings() == old(Settings()).(lcr := UpdateFormatBits(old(lcr), f)) && !Dlab()
      ensures fifo == old(fifo) && shift == old(shift) && trace == old(trace)
    {
      FormatKeepsDlab(lcr, f);
      BitsValue(UpdateFormatBits(lcr, f));
      WriteReg(REG_LCR, Value(UpdateFormatBits(lcr, f)));
    }

    method GetFormat() returns (f: Format)
      ensures f == DecodeFormat(Settings().lcr)
    {
      f := DecodeFormat(lcr);
    }

    method WriteMcr(v: bv8)
      modifies this
      ensures Settings() == old(Settings()).(mcr := v)
      ensures fifo == old(fifo) && shift == old(shift) && trace == old(trace)
    {
      BitsValue(v);
      WriteReg(REG_MCR, Value(v));
    }

    method SetIerBits(bits: bv8)
      requires !Dlab()
      modifies this
      ensures Settings() == old(Settings()).(ier := old(ier) | bits)
      ensures fifo == old(fifo) && shift == old(shift) && trace == old(trace)
    {
      BitsValue(ier | bits);
      WriteReg(REG_IER, Value(ier | bits));
    }

    method ClearIerBits(bits: bv8)
      requires !Dlab()
      modifies this
      ensures Settings() == old(Settings()).(ier := old(ier) & !bits)
      ensures fifo == old(fifo) && shift == old(shift) && trace == old(trace)
    {
      BitsValue(ier & !bits);
      WriteReg(REG_IER, Value(ier & !bits));
    }

    /** Resets the receive FIFO; the transmit side is not affected. */
    method FlushRxFifo()
      modifies this
      ensures Settings() == old(Settings())
      ensures fifo == old(fifo) && shift == old(shift) && trace == old(trace)
    {
      WriteReg(REG_FCR, Value(FCR_RX_RESET));
    }
  }

  lemma DlabBit(lcr: bv8)
    ensures (lcr | LCR_DLAB) & LCR_DLAB != 0
  {
  }

  lemma FormatKeepsDlab(lcr: bv8, f: Format)
    requires lcr & LCR_DLAB == 0
    ensures UpdateFormatBits(lcr, f) & LCR_DLAB == 0
  {
  }

  // ----- baud rates --------------------------------------------------------------------------------

  /** Divisor that the engine programs for a baud rate, and the rate it reports for a divisor. */
  function BaudToDivisor(clock16: nat, baud: nat): nat
    requires baud > 0
  {
    clock16 / baud
  }

  function DivisorToBaud(clock16: nat, divisor: nat): nat {
    if divisor == 0 then 0 else clock16 / divisor
  }

  lemma DivLower(n: nat, d: nat, q: nat)
    requires d > 0 && q * d <= n
    ensures q <= n / d
  {
    var k := q - n / d;
    assert k * d < d by {
      DivBounds(n, d);
      assert k * d == q * d - n / d * d;
    }
    assert k >= 1 ==> (k - 1) * d >= 0;
  }

  lemma DivBounds(n: nat, d: nat)
    requires d > 0
    ensures n / d * d <= n < (n / d + 1) * d
  {
  }

  /** The rate reported after `baud` was set: only 16 bits of the divisor reach the chip. */
  function ReadBack(clock16: nat, baud: nat): nat
    requires baud > 0
  {
    DivisorToBaud(clock16, BaudToDivisor(clock16, baud) % 0x1_0000)
  }

  /** Not below what was asked for, and off by at most baud² / (clock16 - baud). */
  predicate Close(clock16: nat, baud: nat, b: nat) {
    baud <= b && (b - baud) * (clock16 - baud) <= baud * baud
  }

  predicate DivisorFits(clock16: nat, baud: nat)
    requires baud > 0
  {
    1 <= BaudToDivisor(clock16, baud) < 0x1_0000
  }

  /** The rate is read back close to what was asked for exactly if the divisor fits its registers, and then
      asking for the rate that was read reproduces the divisor. If it does not fit, the rate read back is
      zero or at least twice the one asked for. */
  lemma BaudReadBack(clock16: nat, baud: nat)
    requires baud > 0
    ensures var b := ReadBack(clock16, baud);
            && (Close(clock16, baud, b) <==> DivisorFits(clock16, baud))
            && (DivisorFits(clock16, baud) ==> BaudToDivisor(clock16, b) == BaudToDivisor(clock16, baud))
            && (!DivisorFits(clock16, baud) ==> b == 0 || b >= 2 * baud)
  {
    var d := BaudToDivisor(clock16, baud);
    if 1 <= d < 0x1_0000 {
      FittingReadBack(clock16, baud);
    } else {
      OtherReadBack(clock16, baud, d, d % 0x1_0000);
    }
    hide Close;
  }

  lemma OtherReadBack(clock16: nat, baud: nat, d: nat, low: nat)
    requires baud > 0 && d == BaudToDivisor(clock16, baud) && (low == 0 || (low < 0x1_0000 && d >= low + 0x1_0000))
    ensures var b := DivisorToBaud(clock16, low); !Close(clock16, baud, b) && (b == 0 || b >= 2 * baud)
  {
    if low > 0 {
      WrappedReadBack(clock16, baud, low);
    }
  }

  lemma FittingReadBack(clock16: nat, baud: nat)
    requires baud > 0 && clock16 / baud >= 1
    ensures var d := clock16 / baud;
            var b := clock16 / d;
            baud <= b && clock16 / b == d && Close(clock16, baud, b)
  {
    var d := clock16 / baud;
    DivBounds(clock16, baud);
    assert baud <= d * baud;
    var b := clock16 / d;
    DivBounds(clock16, d);
    DivLower(clock16, d, baud);
    DivLower(clock16, b, d);
    SameDivisor(clock16, baud, b, d);
    BaudError(clock16, baud, b, d);
  }

  lemma WrappedReadBack(clock16: nat, baud: nat, d: nat)
    requires baud > 0 && 0 < d < 0x1_0000 && clock16 / baud >= d + 0x1_0000
    ensures clock16 / d >= 2 * baud && !Close(clock16, baud, clock16 / d)
  {
    var full := clock16 / baud;
    DivBounds(clock16, baud);
    MulMonotone(2 * d, baud, full, baud);
    assert 2 * d * baud == 2 * baud * d;
    DivLower(clock16, d, 2 * baud);
    MulMonotone(3, baud, full, baud);
    FarOff(clock16, baud, clock16 / d);
  }

  lemma MulMonotone(a: nat, b: nat, x: nat, y: nat)
    requires a <= x && b <= y
    ensures a * b <= x * y
  {
    assert x * y - a * b == (x - a) * y + a * (y - b);
  }

  lemma FarOff(n: nat, baud: nat, b: nat)
    requires baud > 0 && b >= 2 * baud && n >= 3 * baud
    ensures !Close(n, baud, b)
  {
    MulMonotone(baud, 2 * baud, b - baud, n - baud);
    assert baud * (2 * baud) == baud * baud + baud * baud;
    MulMonotone(1, 1, baud, baud);
  }

  /** At 100 MHz this shuts out the rates below 96: asking for 95 baud sets the divisor 253 and reads 24703. */
  lemma SlowRates(baud: nat)
    requires baud > 0
    ensures baud <= 6_250_000 ==> (DivisorFits(6_250_000, baud) <==> baud >= 96)
    ensures ReadBack(6_250_000, 95) == 24_703
  {
    hide DivisorFits;
    FitsFrom96(baud);
    assert 6_250_000 / 95 == 65_789 && 65_789 % 0x1_0000 == 253 && 6_250_000 / 253 == 24_703;
  }

  lemma FitsFrom96(baud: nat)
    requires baud > 0
    ensures baud <= 6_250_000 ==> (DivisorFits(6_250_000, baud) <==> baud >= 96)
  {
    if baud >= 96 {
      AtMost(6_250_000, baud, 96, 65536);
    } else {
      DivLower(6_250_000, baud, 65536);
    }
    if baud <= 6_250_000 {
      DivLower(6_250_000, baud, 1);
    }
  }

  lemma AtMost(n: nat, d: nat, least: nat, q: nat)
    requires 0 < least <= d && n < q * least
    ensures n / d < q
  {
    DivBounds(n, d);
    if n / d >= q {
      MulMonotone(q, least, n / d, d);
    }
  }

  /** Set and get on the chip itself. */
  method SetThenGet<A>(chip: Chip<A>, clock16: nat, baud: nat) returns (b: nat)
    requires baud > 0 && !chip.Dlab()
    modifies chip
    ensures b == ReadBack(clock16, baud) && (Close(clock16, baud, b) <==> DivisorFits(clock16, baud))
    ensures chip.Settings() == old(chip.Settings()).(divisor := BaudToDivisor(clock16, baud) % 0x1_0000)
    ensures chip.fifo == old(chip.fifo) && chip.shift == old(chip.shift) && chip.trace == old(chip.trace)
  {
    BaudReadBack(clock16, baud);
    hide Close, DivisorFits;
    chip.SetBaudrateDivisor(BaudToDivisor(clock16, baud) % 0x1_0000);
    var divisor := chip.GetBaudrateDivisor();
    b := DivisorToBaud(clock16, divisor);
  }

  lemma SameDivisor(n: nat, baud: nat, b: nat, d: nat)
    requires 1 <= baud <= b && n < (d + 1) * baud && d <= n / b
    ensures n / b == d
  {
    DivBounds(n, b);
    assert (d + 1) * b >= (d + 1) * baud;
  }

  lemma BaudError(n: nat, baud: nat, b: nat, d: nat)
    requires 1 <= baud <= n && baud <= b && n < (d + 1) * baud && d * baud <= n && b * d <= n
    ensures (b - baud) * (n - baud) <= baud * baud
  {
    var x := b - baud;
    assert x * d == b * d - baud * d;
    assert x * d <= baud;
    assert n - baud <= d * baud;
    assert x * (n - baud) <= x * (d * baud);
    assert x * (d * baud) == (x * d) * baud;
    assert (x * d) * baud <= baud * baud;
  }
}
