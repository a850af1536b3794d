/** The stream-UART event engine of `dmx512_suart.c`: a queue of events executed against a UART whose
    transmitter runs on its own. Its meaning is what the events say when taken one after the other. */
module StreamUart {
  import opened Octets
  import opened Pc16x50

  const BASE_CLOCK := 100_000_000
  const OVERSAMPLING := 16
  const TXFIFO_SIZE := 128
  const TXBUFFER_SIZE := 1024

  const LINE_RTS: bv16 := 0x001
  const LINE_DTR: bv16 := 0x004
  const LINE_OUT0: bv16 := 0x040
  const LINE_OUT1: bv16 := 0x080
  const LINE_GPIO0: bv16 := 0x100

  type Baudrate = b: int | b > 0 witness 1

  datatype Event =
    | Echo(id: int)
    | SetBaudrate(baud: Baudrate)
    | GetBaudrate
    | SetFormat(format: Format)
    | GetFormat
    | SetHandshake
    | GetHandshake
    | Data(bytes: seq<Octet>)
    | DataInline(bytes: seq<Octet>)
    | EnableTx
    | DisableTx
    | EnableRx
    | DisableRx
    | ChangeLine(mask: bv16, value: bv16)
    | EnableNotification
    | DisableNotification
    | LineStatus(status: bv8)
    | Shutdown

  predicate IsData(e: Event) {
    e.Data? || e.DataInline?
  }

  /** A non-data event has been executed; queries and echoes carry what they report. */
  datatype Action = Action(event: Event, after: Config, report: Option<Report>)

  datatype Report = EchoReport(id: int) | BaudReport(baud: nat) | FormatReport(format: Format)

  type Trace = seq<Obs<Action>>

  // ----- what events mean ----------------------------------------------------------------------------

  function LineToMcr(v: bv16): bv8 {
    (if v & LINE_RTS != 0 then MCR_RTS else 0) | (if v & LINE_DTR != 0 then MCR_DTR else 0) |
    (if v & LINE_OUT0 != 0 then MCR_OUT1 else 0) | (if v & LINE_OUT1 != 0 then MCR_OUT2 else 0) |
    (if v & LINE_GPIO0 != 0 then MCR_LOOP else 0)
  }

  function ChangeMcr(mcr: bv8, mask: bv16, value: bv16): bv8 {
    (!LineToMcr(mask) & mcr) | (LineToMcr(mask) & LineToMcr(value))
  }

  /** The UART settings after an event. */
  function Effect(c: Config, e: Event): Config {
    match e
    case SetBaudrate(baud) => c.(divisor := BaudToDivisor(BASE_CLOCK / OVERSAMPLING, baud) % 0x1_0000)
    case SetFormat(f) => c.(lcr := UpdateFormatBits(c.lcr, f))
    case EnableTx => c.(ier := c.ier | IER_THRE)
    case DisableTx => c.(ier := c.ier & !IER_THRE)
    case EnableRx => c.(ier := c.ier | IER_RX)
    case DisableRx => c.(ier := c.ier & !IER_RX)
    case ChangeLine(mask, value) => c.(mcr := ChangeMcr(c.mcr, mask, value))
    case _ => c
  }

  function ReportOf(c: Config, e: Event): Option<Report> {
    match e
    case Echo(id) => Some(EchoReport(id))
    case GetBaudrate => Some(BaudReport(DivisorToBaud(BASE_CLOCK / OVERSAMPLING, c.divisor)))
    case GetFormat => Some(FormatReport(DecodeFormat(c.lcr)))
    case _ => None
  }

  function Act(c: Config, e: Event): Obs<Action> {
    Acted(Action(e, Effect(c, e), ReportOf(c, e)))
  }

  /** Octets sent one after the other under unchanging settings. */
  function SendAll(octets: seq<Octet>, c: Config): Trace {
    seq(|octets|, i requires 0 <= i < |octets| => Sent(octets[i], c, c))
  }

  /** Setting a rate and asking for it reports it closely exactly if its divisor fits 16 bits. */
  lemma RateReported(c: Config, baud: Baudrate)
    ensures var b := ReadBack(BASE_CLOCK / OVERSAMPLING, baud);
            && ReportOf(Effect(c, SetBaudrate(baud)), GetBaudrate) == Some(BaudReport(b))
            && (Close(BASE_CLOCK / OVERSAMPLING, baud, b) <==> DivisorFits(BASE_CLOCK / OVERSAMPLING, baud))
  {
    BaudReadBack(BASE_CLOCK / OVERSAMPLING, baud);
  }

  /** What the events do to the interrupt enables, bit by bit. */
  lemma EnablesSet(c: Config, e: Event)
    ensures var r := Effect(c, e).ier;
            match e
            case EnableTx => r & 0xFD == c.ier & 0xFD && r & 2 == 2
            case DisableTx => r & 0xFD == c.ier & 0xFD && r & 2 == 0
            case EnableRx => r & 0xFE == c.ier & 0xFE && r & 1 == 1
            case DisableRx => r & 0xFE == c.ier & 0xFE && r & 1 == 0
            case _ => r == c.ier
  {
    match e
    case EnableTx => TxBits(c.ier);
    case DisableTx => TxBits(c.ier);
    case EnableRx => RxBits(c.ier);
    case DisableRx => RxBits(c.ier);
    case _ => OtherEvents(c, e);
  }

  lemma OtherEvents(c: Config, e: Event)
    requires !e.EnableTx? && !e.DisableTx? && !e.EnableRx? && !e.DisableRx?
    ensures Effect(c, e).ier == c.ier
  {
    hide UpdateFormatBits, ChangeMcr;
  }

  /** What they do to the other registers: rate, format and lines are changed by their own events only, and a
      change of the format leaves break and DLAB alone. */
  lemma SettingsSet(c: Config, e: Event)
    ensures var r := Effect(c, e);
            && (if e.SetFormat? then r.lcr & 0xC0 == c.lcr & 0xC0 && (Supported(e.format) ==> DecodeFormat(r.lcr) == e.format)
                else r.lcr == c.lcr)
            && r.divisor == (if e.SetBaudrate? then 6_250_000 / e.baud % 0x1_0000 else c.divisor)
            && (e.ChangeLine? || r.mcr == c.mcr)
  {
    if e.SetFormat? {
      FormatRoundTrip(c.lcr, e.format);
    }
    hide UpdateFormatBits, DecodeFormat, ChangeMcr;
  }

  lemma TxBits(ier: bv8)
    ensures (ier | IER_THRE) & 0xFD == ier & 0xFD && (ier | IER_THRE) & 2 == 2
    ensures (ier & !IER_THRE) & 0xFD == ier & 0xFD && (ier & !IER_THRE) & 2 == 0
  {
  }

  lemma RxBits(ier: bv8)
    ensures (ier | IER_RX) & 0xFE == ier & 0xFE && (ier | IER_RX) & 1 == 1
    ensures (ier & !IER_RX) & 0xFE == ier & 0xFE && (ier & !IER_RX) & 1 == 0
  {
  }

  /** A line change sets exactly the masked lines to their values: RTS, DTR, OUT0, and the one register bit that
      OUT1 and GPIO0 share. */
  lemma LinesChanged(mcr: bv8, mask: bv16, value: bv16)
    ensures var r := ChangeMcr(mcr, mask, value);
            && (r & 0x02 != 0 <==> if mask & 0x001 != 0 then value & 0x001 != 0 else mcr & 0x02 != 0)
            && (r & 0x01 != 0 <==> if mask & 0x004 != 0 then value & 0x004 != 0 else mcr & 0x01 != 0)
            && (r & 0x04 != 0 <==> if mask & 0x040 != 0 then value & 0x040 != 0 else mcr & 0x04 != 0)
            && (r & 0x08 != 0 <==> if mask & 0x180 != 0 then value & 0x180 != 0 else mcr & 0x08 != 0)
            && r & 0xF0 == mcr & 0xF0
  {
    LineBits(mask);
    LineBits(value);
    hide LineToMcr;
    MaskedBits(mcr, LineToMcr(mask), LineToMcr(value));
  }

  lemma LineBits(v: bv16)
    ensures var m := LineToMcr(v);
            && (m & 0x02 != 0 <==> v & 0x001 != 0) && (m & 0x01 != 0 <==> v & 0x004 != 0)
            && (m & 0x04 != 0 <==> v & 0x040 != 0) && (m & 0x08 != 0 <==> v & 0x180 != 0) && m & 0xF0 == 0
  {
  }

  lemma MaskedBits(mcr: bv8, m: bv8, v: bv8)
    requires m & 0xF0 == 0
    ensures var r := (!m & mcr) | (m & v);
            && r & 0x02 == (if m & 0x02 != 0 then v else mcr) & 0x02 && r & 0x01 == (if m & 0x01 != 0 then v else mcr) & 0x01
            && r & 0x04 == (if m & 0x04 != 0 then v else mcr) & 0x04 && r & 0x08 == (if m & 0x08 != 0 then v else mcr) & 0x08
            && r & 0xF0 == mcr & 0xF0
  {
  }

  /** Exactly echoes and queries report, and they report what they name. */
  lemma Reports(c: Config, e: Event)
    ensures ReportOf(c, e).Some? <==> e.Echo? || e.GetBaudrate? || e.GetFormat?
    ensures e.Echo? ==> ReportOf(c, e) == Some(EchoReport(e.id))
    ensures e.GetBaudrate? ==> ReportOf(c, e) == Some(BaudReport(if c.divisor == 0 then 0 else 6_250_000 / c.divisor))
    ensures forall f | Supported(f) && c.lcr == UpdateFormatBits(c.lcr, f) ::
              e.GetFormat? ==> ReportOf(c, e) == Some(FormatReport(f))
  {
    forall f | Supported(f) && c.lcr == UpdateFormatBits(c.lcr, f)
      ensures DecodeFormat(c.lcr) == f
    {
      FormatRoundTrip(c.lcr, f);
    }
  }

  /** What one event adds to the line. */
  function Meaning1(c: Config, e: Event): Trace {
    if IsData(e) then SendAll(e.bytes, c) else [Act(c, e)]
  }

  /** The settings and the trace of a list of events taken in order; nothing follows a shutdown. */
  function After(c: Config, es: seq<Event>): Config {
    if es == [] then c else Effect(After(c, es[..|es| - 1]), es[|es| - 1])
  }

  predicate Stops(es: seq<Event>) {
    Shutdown in es
  }

  lemma StopsConcat(a: seq<Event>, b: seq<Event>)
    ensures Stops(a + b) <==> Stops(a) || Stops(b)
  {
  }

  function Meaning(c: Config, es: seq<Event>): Trace {
    if es == [] then []
    else
      var init, e := es[..|es| - 1], es[|es| - 1];
      if Stops(init) then Meaning(c, init) else Meaning(c, init) + Meaning1(After(c, init), e)
  }

  /** Appending events never takes back what earlier ones meant. */
  lemma {:induction false} MeaningPrefix(c: Config, a: seq<Event>, b: seq<Event>)
    ensures Meaning(c, a) <= Meaning(c, a + b)
  {
    if b == [] {
      assert a + b == a;
    } else {
      var init := b[..|b| - 1];
      MeaningPrefix(c, a, init);
      assert (a + b)[..|a + b| - 1] == a + init;
    }
  }

  lemma {:induction false} MeaningAfterShutdown(c: Config, a: seq<Event>, b: seq<Event>)
    requires Stops(a)
    ensures Meaning(c, a + b) == Meaning(c, a)
  {
    if b == [] {
      assert a + b == a;
    } else {
      var init := b[..|b| - 1];
      MeaningAfterShutdown(c, a, init);
      assert (a + b)[..|a + b| - 1] == a + init;
    }
  }

  lemma MeaningSnoc(c: Config, es: seq<Event>, e: Event)
    ensures Meaning(c, es + [e]) == Meaning(c, es) + if Stops(es) then [] else Meaning1(After(c, es), e)
    ensures After(c, es + [e]) == Effect(After(c, es), e)
    ensures IsData(e) ==> Effect(After(c, es), e) == After(c, es)
  {
    assert (es + [e])[..|es|] == es;
  }

  lemma {:induction false} MeaningConcat(c: Config, a: seq<Event>, b: seq<Event>)
    requires !Stops(a)
    ensures After(c, a + b) == After(After(c, a), b)
    ensures Meaning(c, a + b) == Meaning(c, a) + Meaning(After(c, a), b)
  {
    if b == [] {
      MeaningOfNothing(After(c, a));
      hide *;
      assert a + b == a;
    } else {
      hide *;
      var init, e := b[..|b| - 1], b[|b| - 1];
      MeaningConcat(c, a, init);
      assert a + b == a + init + [e] && b == init + [e];
      MeaningConcatStep(c, a, init, e);
    }
  }

  lemma MeaningOfNothing(c: Config)
    ensures Meaning(c, []) == [] && After(c, []) == c
  {
  }

  lemma MeaningConcatStep(c: Config, a: seq<Event>, b: seq<Event>, e: Event)
    requires !Stops(a) && After(c, a + b) == After(After(c, a), b)
    requires Meaning(c, a + b) == Meaning(c, a) + Meaning(After(c, a), b)
    ensures After(c, a + b + [e]) == After(After(c, a), b + [e])
    ensures Meaning(c, a + b + [e]) == Meaning(c, a) + Meaning(After(c, a), b + [e])
  {
    hide *;
    StopsConcat(a, b);
    MeaningSnoc(c, a + b, e);
    MeaningSnoc(After(c, a), b, e);
  }

  /** Where event `i` shows on the line: behind everything before it, a data event as its octets in order, each
      under the settings that the events before it made, any other event as itself with the settings it made. */
  lemma MeaningAt(c: Config, es: seq<Event>, i: nat, j: nat)
    requires i < |es| && !Stops(es[..i]) && (IsData(es[i]) ==> j < |es[i].bytes|)
    ensures var t, n, s := Meaning(c, es), |Meaning(c, es[..i])|, After(c, es[..i]);
            if IsData(es[i]) then n + j < |t| && t[n + j] == Sent(es[i].bytes[j], s, s)
            else n < |t| && t[n] == Acted(Action(es[i], After(c, es[..i + 1]), ReportOf(s, es[i])))
  {
    assert es == es[..i + 1] + es[i + 1..];
    assert es[..i + 1] == es[..i] + [es[i]];
    MeaningPrefix(c, es[..i + 1], es[i + 1..]);
    MeaningSnoc(c, es[..i], es[i]);
    hide Meaning, After;
  }

  // ----- how much there is to send -------------------------------------------------------------------

  /** Octets that events hold. */
  function OctetCount(es: seq<Event>): nat {
    if es == [] then 0
    else OctetCount(es[..|es| - 1]) + if IsData(es[|es| - 1]) then |es[|es| - 1].bytes| else 0
  }

  /** Octets that an observer of the line has seen. */
  function SentCount(t: Trace): nat {
    if t == [] then 0 else SentCount(t[..|t| - 1]) + if t[|t| - 1].Sent? then 1 else 0
  }

  lemma OctetCountSnoc(es: seq<Event>, e: Event)
    ensures OctetCount(es + [e]) == OctetCount(es) + if IsData(e) then |e.bytes| else 0
  {
    assert (es + [e])[..|es|] == es;
  }

  lemma {:induction false} SentCountConcat(a: Trace, b: Trace)
    ensures SentCount(a + b) == SentCount(a) + SentCount(b)
  {
    if b == [] {
      assert a + b == a;
    } else {
      SentCountConcat(a, b[..|b| - 1]);
      assert (a + b)[..|a + b| - 1] == a + b[..|b| - 1];
    }
  }

  lemma {:induction false} SentCountData(octets: seq<Octet>, c: Config)
    ensures SentCount(SendAll(octets, c)) == |octets|
  {
    if octets != [] {
      SentCountData(octets[..|octets| - 1], c);
      assert SendAll(octets, c)[..|octets| - 1] == SendAll(octets[..|octets| - 1], c);
    }
  }

  /** Until a shutdown, events mean as many octets as they hold. */
  lemma {:induction false} SentCountMeaning(c: Config, es: seq<Event>)
    requires !Stops(es)
    ensures SentCount(Meaning(c, es)) == OctetCount(es)
  {
    if es == [] {
      MeaningOfNothing(c);
    } else {
      var init, e := es[..|es| - 1], es[|es| - 1];
      SentCountMeaning(c, init);
      SentCountConcat(Meaning(c, init), Meaning1(After(c, init), e));
      if IsData(e) {
        SentCountData(e.bytes, After(c, init));
      } else {
        SentCountAction(Act(After(c, init), e));
      }
    }
  }

  lemma SentCountSnoc(t: Trace, o: Obs<Action>)
    ensures SentCount(t + [o]) == SentCount(t) + if o.Sent? then 1 else 0
  {
    assert (t + [o])[..|t|] == t;
  }

  lemma SentCountAction(o: Obs<Action>)
    requires o.Acted?
    ensures SentCount([o]) == 0
  {
    assert [o][..0] == [];
  }

  /** Nothing in the queue holds event `i` back: no shutdown comes before it, and no data either unless only data
      follows up to it. */
  predicate Unblocked(q: seq<Event>, i: nat)
    requires i < |q|
  {
    Shutdown !in q[..i] && forall j, k | 0 <= j < k <= i :: IsData(q[j]) ==> IsData(q[k])
  }

  /** Event `i` belongs to the data at the head of the queue. */
  predicate Continues(q: seq<Event>, i: nat)
    requires i < |q|
  {
    forall j | 0 <= j <= i :: IsData(q[j])
  }

  /** `n` events taken out of the queue include all that nothing held back. */
  ghost predicate TookAll(q: seq<Event>, n: nat) {
    forall i | 0 <= i < |q| && Unblocked(q, i) :: i < n
  }

  /** They include all data at its head. */
  ghost predicate TookData(q: seq<Event>, n: nat) {
    forall i | 0 <= i < |q| && Continues(q, i) :: i < n
  }

  predicate AllControl(es: seq<Event>) {
    forall i | 0 <= i < |es| :: !IsData(es[i]) && es[i] != Shutdown
  }

  /** Nothing holds the first event back. */
  lemma FirstUnblocked(q: seq<Event>)
    ensures q != [] ==> Unblocked(q, 0)
  {
  }

  /** Once no data event is at the head of the queue, the leading ones of an earlier queue have been taken. */
  lemma DataTaken(q: seq<Event>, taken: seq<Event>, rest: seq<Event>)
    requires q <= taken + rest && (rest == [] || !IsData(rest[0]))
    ensures TookData(q, |taken|)
  {
    assert forall k | 0 <= k < |q| :: q[k] == (taken + rest)[k];
    assert rest != [] ==> (taken + rest)[|taken|] == rest[0];
  }

  /** The same for everything that was not held back. */
  lemma AllTaken(q: seq<Event>, control: seq<Event>, data: seq<Event>, rest: seq<Event>)
    requires q <= control + data + rest && AllControl(control)
    requires (data == [] && rest == []) || data == [Shutdown] || (data != [] && IsData(data[0]) && (rest == [] || !IsData(rest[0])))
    ensures TookAll(q, |control + data|)
  {
    forall i | 0 <= i < |q| && Unblocked(q, i)
      ensures i < |control + data|
    {
      NotHeldBack(q, control, data, rest, i);
    }
  }

  lemma NotHeldBack(q: seq<Event>, control: seq<Event>, data: seq<Event>, rest: seq<Event>, i: nat)
    requires q <= control + data + rest && AllControl(control) && i < |q| && Unblocked(q, i)
    requires (data == [] && rest == []) || data == [Shutdown] || (data != [] && IsData(data[0]) && (rest == [] || !IsData(rest[0])))
    ensures i < |control + data|
  {
    var all, c := control + data + rest, |control|;
    assert forall k | 0 <= k < |q| :: q[k] == all[k];
    assert forall k | 0 <= k < i :: q[..i][k] == all[k];
    assert data != [] ==> all[c] == data[0];
    assert rest != [] ==> all[c + |data|] == rest[0];
  }

  /** What a pass that finds queue `q` and buffer `b` achieves at least: events taken and octets handed over. */
  ghost predicate Progress(q: seq<Event>, b: seq<Octet>, thre: bool, took: int, gave: int) {
    && took >= 0 && gave >= 0
    && (b != [] ==> TookData(q, took)) && (b == [] && thre ==> TookAll(q, took))
    && (thre ==> gave >= Least(FIFO_SIZE, |b|))
  }

  lemma MoreProgress(q: seq<Event>, b: seq<Octet>, thre: bool, took: int, gave: int, took': int, gave': int)
    requires Progress(q, b, thre, took, gave) && took <= took' && gave <= gave'
    ensures Progress(q, b, thre, took', gave')
  {
  }

  lemma NoControl()
    ensures AllControl([])
  {
  }

  lemma ControlNext(es: seq<Event>, e: Event)
    requires AllControl(es) && !IsData(e) && e != Shutdown
    ensures AllControl(es + [e])
  {
  }

  /** The events fetched behind the control events are a run of data that begins with `e`. */
  lemma RunSplit(fetched0: seq<Event>, fetched: seq<Event>, n: nat, control: seq<Event>, e: Event)
    requires |fetched0| <= n < |fetched| && control == fetched[|fetched0|..n] && fetched[n] == e
    ensures control + fetched[n..] == fetched[|fetched0|..] && fetched[n..] != [] && fetched[n..][0] == e
    ensures |control + fetched[n..]| == |fetched| - |fetched0|
  {
  }

  /** What has been taken out of an earlier queue and what is in it now. */
  lemma QueueTaken(fetched0: seq<Event>, q0: seq<Event>, fetched: seq<Event>, q: seq<Event>)
    requires fetched0 + q0 <= fetched + q && fetched0 <= fetched
    ensures q0 <= fetched[|fetched0|..] + q
  {
    assert forall k | 0 <= k < |q0| :: q0[k] == (fetched0 + q0)[|fetched0| + k];
  }

  /** Work that a queue holds: its events and their octets. */
  function Load(es: seq<Event>): nat {
    |es| + OctetCount(es)
  }

  lemma {:induction false} OctetCountConcat(a: seq<Event>, b: seq<Event>)
    ensures OctetCount(a + b) == OctetCount(a) + OctetCount(b)
  {
    if b == [] {
      assert a + b == a;
    } else {
      OctetCountConcat(a, b[..|b| - 1]);
      assert (a + b)[..|a + b| - 1] == a + b[..|b| - 1];
    }
  }

  /** Cutting events takes octets away. */
  lemma {:induction false} CutsCount(kept: seq<Event>, es: seq<Event>)
    requires Cuts(kept, es)
    ensures OctetCount(kept) <= OctetCount(es)
  {
    if es != [] {
      CutsCount(kept[..|es| - 1], es[..|es| - 1]);
      assert CutOf(kept[|es| - 1], es[|es| - 1]);
    }
  }

  /** An event taken out of the queue, or an octet handed to the chip, is work done: `was` and `now` are the
      queues before and after, with the buffers behind them. */
  lemma WorkDone(fetched0: seq<Event>, kept0: seq<Event>, was: seq<Event>, buffered0: nat, out0: nat,
                 fetched: seq<Event>, kept: seq<Event>, now: seq<Event>, buffered: nat, out: nat)
    requires fetched0 + was == fetched + now && fetched0 <= fetched && kept0 <= kept
    requires Cuts(kept0, fetched0) && Cuts(kept, fetched)
    requires out0 + buffered0 == OctetCount(kept0) && out + buffered == OctetCount(kept)
    ensures Load(now) + buffered + (|fetched| - |fetched0|) + out <= Load(was) + buffered0 + out0
  {
    var n, taken, part := |fetched0|, fetched[|fetched0|..], kept[|kept0|..];
    assert fetched == fetched0 + taken && kept == kept0 + part && was == taken + now by {
      QueueTaken(fetched0, was, fetched, now);
      assert |was| == |taken + now|;
    }
    assert Cuts(part, taken) by {
      forall i | 0 <= i < |taken|
        ensures CutOf(part[i], taken[i])
      {
        assert CutOf(kept[n + i], fetched[n + i]);
      }
    }
    CutsCount(part, taken);
    OctetCountConcat(kept0, part);
    OctetCountConcat(taken, now);
  }

  /** Pauses long enough for a full FIFO to move on into the shift register. */
  function LongPauses(pauses: seq<nat>): nat {
    if pauses == [] then 0
    else LongPauses(pauses[..|pauses| - 1]) + if pauses[|pauses| - 1] >= FIFO_SIZE then 1 else 0
  }

  lemma LongPausesNext(pauses: seq<nat>, i: nat)
    requires i < |pauses|
    ensures LongPauses(pauses[..i + 1]) == LongPauses(pauses[..i]) + if pauses[i] >= FIFO_SIZE then 1 else 0
  {
    assert pauses[..i + 1][..i] == pauses[..i];
  }

  // ----- runs of data events -------------------------------------------------------------------------

  /** Octets of the data events that a list of events ends with. */
  function TrailingBytes(es: seq<Event>): nat {
    if es == [] || !IsData(es[|es| - 1]) then 0
    else TrailingBytes(es[..|es| - 1]) + |es[|es| - 1].bytes|
  }

  /** No run of consecutive data events before a shutdown exceeds what the transmit buffer can hold. */
  ghost predicate RunsFit(es: seq<Event>) {
    forall k | 0 <= k <= |es| && !Stops(es[..k]) :: TrailingBytes(es[..k]) <= TXBUFFER_SIZE
  }

  /** The event, or for a data event the part of it that there was room for. */
  predicate CutOf(kept: Event, e: Event) {
    kept == e || (IsData(kept) && IsData(e) && kept.Data? == e.Data? && kept.bytes <= e.bytes)
  }

  ghost predicate Cuts(kept: seq<Event>, es: seq<Event>) {
    |kept| == |es| && forall i | 0 <= i < |es| :: CutOf(kept[i], es[i])
  }

  function Cut(e: Event, n: nat): (r: Event)
    requires IsData(e) && n <= |e.bytes|
    ensures IsData(r) && r.bytes == e.bytes[..n] && CutOf(r, e)
  {
    if e.Data? then Data(e.bytes[..n]) else DataInline(e.bytes[..n])
  }

  lemma CutsStop(kept: seq<Event>, es: seq<Event>)
    requires Cuts(kept, es)
    ensures Stops(kept) <==> Stops(es)
  {
    assert forall i | 0 <= i < |es| :: kept[i] == Shutdown <==> es[i] == Shutdown;
  }

  lemma TrailingSnoc(es: seq<Event>, e: Event)
    ensures TrailingBytes(es + [e]) == if IsData(e) then TrailingBytes(es) + |e.bytes| else 0
  {
    assert (es + [e])[..|es|] == es;
  }

  function Least(a: nat, b: nat): nat {
    if a < b then a else b
  }

  // ----- the engine ----------------------------------------------------------------------------------

  class Engine {
    const chip: Chip<Action>
    var txfifo: seq<Event>       // events not yet fetched
    var txbuffer: seq<Octet>     // octets fetched but not yet handed to the chip
    var mcrShadow: bv8
    var stopped: bool

    ghost const initial: Config
    ghost var accepted: seq<Event>  // every event the queue ever took
    ghost var fetched: seq<Event>   // those the handler has taken out again
    ghost var kept: seq<Event>      // and what became of them: data that found no room is cut off
    ghost var held: seq<Octet>      // octets between transmit buffer and chip
    var supply: nat              // environment: events that producers still have to queue

    constructor (chip: Chip<Action>, producers: nat)
      requires chip.Valid() && chip.Empty() && chip.trace == []
      ensures this.chip == chip && Inv() && !stopped && held == [] && accepted == [] && initial == chip.Settings()
      ensures txfifo == [] && txbuffer == [] && fetched == [] && kept == [] && supply == producers
    {
      this.chip := chip;
      txfifo, txbuffer, mcrShadow, stopped := [], [], chip.mcr, false;
      initial, accepted, fetched, kept, held, supply := chip.Settings(), [], [], [], [], producers;
    }

    /** Octets that have been fetched but have not completely left the chip. */
    ghost function InFlight(): seq<Octet>
      reads this, chip
    {
      chip.InChip() + held + txbuffer
    }

    /** Octets that were handed to the chip: those that the line has shown and those still in it. */
    ghost function Out(): nat
      reads chip
    {
      SentCount(chip.trace) + chip.Occupancy()
    }

    /** Everything kept has either happened on the line, in order and under the settings it was meant
        for, or is in flight under settings that have not changed since. */
    ghost predicate Refined()
      reads this, chip
    {
      && chip.trace + SendAll(InFlight(), chip.Settings()) == Meaning(initial, kept)
      && chip.Settings() == After(initial, kept)
    }

    /** All that was fetched was kept, but for data of runs that are too long. */
    ghost predicate Kept()
      reads this`fetched, this`kept, this`held, this`txbuffer
    {
      && Cuts(kept, fetched) && (RunsFit(fetched) ==> kept == fetched)
      && |held| + |txbuffer| <= TrailingBytes(fetched)
    }

    ghost predicate Inv()
      reads this, chip
    {
      && chip.Valid()
      && mcrShadow == chip.mcr
      && |txfifo| <= TXFIFO_SIZE && |txbuffer| <= TXBUFFER_SIZE
      && (chip.shift.Some? ==> chip.shift.value.start == chip.Settings())
      && accepted == fetched + txfifo
      && (stopped <==> Stops(fetched))
      && Refined() && Kept()
    }

    /** The histories only grow, and what was accepted came from the producers. */
    ghost predicate Later(accepted0: seq<Event>, fetched0: seq<Event>, kept0: seq<Event>, supply0: nat)
      reads this`accepted, this`fetched, this`kept, this`supply
    {
      accepted0 <= accepted && fetched0 <= fetched && kept0 <= kept && |accepted| + supply <= |accepted0| + supply0
    }

    /** `suart_put_txevents`: the queue takes what it has room for. */
    method PutEvents(es: seq<Event>)
      requires Inv()
      modifies this`txfifo, this`accepted
      ensures Inv()
      ensures var n := if |es| <= TXFIFO_SIZE - |old(txfifo)| then |es| else TXFIFO_SIZE - |old(txfifo)|;
              txfifo == old(txfifo) + es[..n] && accepted == old(accepted) + es[..n]
    {
      var n := if |es| <= TXFIFO_SIZE - |txfifo| then |es| else TXFIFO_SIZE - |txfifo|;
      txfifo := txfifo + es[..n];
      accepted := accepted + es[..n];
    }

    /** Anything may happen between two steps of the handler: the chip shifts octets out, producers queue events. */
    method Interfere()
      requires Inv()
      modifies this`txfifo, this`accepted, this`supply, chip`fifo, chip`shift, chip`trace
      ensures Inv() && Out() == old(Out()) && Later(old(accepted), fetched, kept, old(supply))
      ensures chip.Occupancy() <= old(chip.Occupancy()) && |chip.fifo| <= |old(chip.fifo)|
      ensures old(txfifo) <= txfifo && |txfifo| + supply <= |old(txfifo)| + old(supply)
    {
      hide Inv, Out;
      var n: nat := *;
      while n > 0
        invariant Inv() && Out() == old(Out()) && Later(old(accepted), fetched, kept, old(supply))
        invariant chip.Occupancy() <= old(chip.Occupancy()) && |chip.fifo| <= |old(chip.fifo)|
        invariant old(txfifo) <= txfifo && |txfifo| + supply <= |old(txfifo)| + old(supply)
        decreases n
      {
        n := n - 1;
        Disturb();
      }
    }

    method Disturb()
      requires Inv()
      modifies this`txfifo, this`accepted, this`supply, chip`fifo, chip`shift, chip`trace
      ensures Inv() && Out() == old(Out()) && Later(old(accepted), fetched, kept, old(supply))
      ensures chip.Occupancy() <= old(chip.Occupancy()) && |chip.fifo| <= |old(chip.fifo)|
      ensures old(txfifo) <= txfifo && |txfifo| + supply <= |old(txfifo)| + old(supply)
    {
      hide Out, Meaning, After, TrailingBytes, RunsFit, SendAll, Cuts;
      if * {
        Shift();
      } else {
        var es: seq<Event> := *;
        if |es| <= supply {
          supply := supply - |es|;
          PutEvents(es);
        }
      }
    }

    /** One octet leaves the shift register. */
    method Shift()
      requires Inv()
      modifies chip`fifo, chip`shift, chip`trace
      ensures Inv() && Out() == old(Out())
      ensures old(chip.Empty()) ==> chip.Empty()
      ensures !old(chip.Empty()) ==> chip.Occupancy() == old(chip.Occupancy()) - 1
      ensures chip.Occupancy() <= old(chip.Occupancy()) && |chip.fifo| <= |old(chip.fifo)|
    {
      hide Meaning, After, TrailingBytes, RunsFit;
      ghost var flight := InFlight();
      chip.ShiftOut();
      if old(chip.shift).Some? {
        SentCountSnoc(old(chip.trace), chip.trace[|old(chip.trace)|]);
        assert flight == [old(chip.shift).value.octet] + InFlight();
        SendAllCons(old(chip.shift).value.octet, InFlight(), chip.Settings());
      }
    }

    /** A number of octets leave it, as far as there are any. */
    method ShiftOut(count: nat)
      requires Inv()
      modifies chip`fifo, chip`shift, chip`trace
      ensures Inv() && Out() == old(Out())
      ensures chip.Occupancy() == if count < old(chip.Occupancy()) then old(chip.Occupancy()) - count else 0
    {
      hide Meaning, After, TrailingBytes, RunsFit, SendAll, Refined, Kept, SentCount;
      var n := 0;
      while n < count
        invariant 0 <= n <= count && Inv() && Out() == old(Out())
        invariant chip.Occupancy() == if n < old(chip.Occupancy()) then old(chip.Occupancy()) - n else 0
      {
        Shift();
        n := n + 1;
      }
    }

    /** Everything in the chip leaves it. */
    method ShiftAll()
      requires Inv()
      modifies chip`fifo, chip`shift, chip`trace
      ensures Inv() && chip.Empty() && Out() == old(Out())
    {
      hide Meaning, After, TrailingBytes, RunsFit, SendAll, Cuts, SentCount;
      ShiftOut(chip.Occupancy());
    }

    /** Moves the data event at the head of the queue into the transmit buffer, as far as it fits. */
    method TakeData()
      requires Inv() && !stopped && txfifo != [] && IsData(txfifo[0])
      modifies this`txfifo, this`txbuffer, this`fetched, this`kept
      ensures Inv() && !stopped && txfifo == old(txfifo)[1..]
      ensures var bytes, room := old(txfifo)[0].bytes, TXBUFFER_SIZE - |old(txbuffer)|;
              var n := if |bytes| <= room then |bytes| else room;
              txbuffer == old(txbuffer) + bytes[..n] && kept == old(kept) + [Cut(old(txfifo)[0], n)]
      ensures fetched == old(fetched) + [old(txfifo)[0]]
    {
      hide RunsFit, Meaning, After, TrailingBytes, SendAll, Cuts, CutOf;
      var e := txfifo[0];
      var n := if |e.bytes| <= TXBUFFER_SIZE - |txbuffer| then |e.bytes| else TXBUFFER_SIZE - |txbuffer|;
      ghost var flight, part := InFlight(), Cut(e, n);
      CutsStop(kept, fetched);
      DataRefines(initial, kept, chip.trace, flight, part);
      TrailingSnoc(fetched, e);
      KeptSnoc(kept, fetched, part, e, |txbuffer|);
      hide Cut;
      txfifo := txfifo[1..];
      fetched := fetched + [e];
      kept := kept + [part];
      txbuffer := txbuffer + e.bytes[..n];
      assert accepted == fetched + txfifo;
      assert InFlight() == flight + part.bytes;
    }

    /** `fetch_as_much_data_events_as_possible`: when it returns, no data event is at the head of the queue. */
    method FetchData()
      requires Inv() && !stopped
      modifies this`txfifo, this`accepted, this`supply, this`txbuffer, this`fetched, this`kept, chip`fifo, chip`shift, chip`trace
      ensures Inv() && !stopped && Later(old(accepted), old(fetched), old(kept), old(supply)) && Out() == old(Out())
      ensures chip.Occupancy() <= old(chip.Occupancy()) && |chip.fifo| <= |old(chip.fifo)|
      ensures |txfifo| + supply <= |old(txfifo)| + old(supply) && |old(txbuffer)| <= |txbuffer|
      ensures txfifo == [] || !IsData(txfifo[0])
    {
      hide Meaning, After, TrailingBytes, RunsFit, SendAll, Refined, Kept, SentCount;
      Interfere();
      while |txfifo| > 0 && IsData(txfifo[0])
        invariant Inv() && !stopped && Later(old(accepted), old(fetched), old(kept), old(supply)) && Out() == old(Out())
        invariant chip.Occupancy() <= old(chip.Occupancy()) && |chip.fifo| <= |old(chip.fifo)|
        invariant |txfifo| + supply <= |old(txfifo)| + old(supply) && |old(txbuffer)| <= |txbuffer|
        decreases |txfifo| + supply
      {
        TakeData();
        Interfere();
      }
    }

    /** Hands the next held octet to the chip, which must have room for it. */
    method WriteHeld(octet: Octet)
      requires Inv() && held != [] && held[0] == octet && chip.Occupancy() <= FIFO_SIZE
      modifies this`held, chip
      ensures Inv() && held == old(held)[1..] && chip.Occupancy() == old(chip.Occupancy()) + 1 && Out() == old(Out()) + 1
    {
      hide Meaning, After, TrailingBytes, RunsFit, SendAll;
      ghost var flight := InFlight();
      chip.WriteThr(octet);
      held := held[1..];
      assert InFlight() == flight;
    }

    /** Takes octets out of the transmit buffer for the chip. */
    method TakeOctets(count: nat) returns (tmp: seq<Octet>)
      requires Inv() && held == [] && count <= |txbuffer|
      modifies this`txbuffer, this`held
      ensures Inv() && tmp == held == old(txbuffer)[..count] && txbuffer == old(txbuffer)[count..]
    {
      hide Meaning, After, TrailingBytes, RunsFit, SendAll;
      tmp := txbuffer[..count];
      ghost var flight := InFlight();
      held, txbuffer := tmp, txbuffer[count..];
      assert InFlight() == flight;
    }

    /** `transmit_as_much_as_possible`: 17 octets fit an empty transmitter, 16 an empty FIFO. */
    method Transmit()
      requires Inv() && !stopped && held == []
      modifies this`txfifo, this`accepted, this`supply, this`txbuffer, this`held, chip
      ensures Inv() && !stopped && held == [] && Later(old(accepted), fetched, kept, old(supply))
      ensures Out() + |txbuffer| == old(Out() + |txbuffer|)
      ensures old(txfifo) <= txfifo && |txfifo| + supply <= |old(txfifo)| + old(supply)
      ensures |txbuffer| == |old(txbuffer)| - if old(chip.Empty()) then Least(FIFO_SIZE + 1, |old(txbuffer)|)
                                              else if old(chip.Thre()) then Least(FIFO_SIZE, |old(txbuffer)|) else 0
    {
      hide Meaning, After, TrailingBytes, RunsFit, SendAll, Refined, Kept, SentCount;
      if |txbuffer| > 0 {
        var space := if chip.Empty() then FIFO_SIZE + 1 else if chip.Thre() then FIFO_SIZE else 0;
        ghost var used := chip.Occupancy();
        Interfere();
        if space > 0 {
          var count := Least(space, |txbuffer|);
          var tmp := TakeOctets(count);
          var i := 0;
          while i < count
            invariant 0 <= i <= count && held == tmp[i..] && |txbuffer| == |old(txbuffer)| - count
            invariant Inv() && !stopped && Later(old(accepted), fetched, kept, old(supply)) && Out() == old(Out()) + i
            invariant chip.Occupancy() <= used + i
            invariant old(txfifo) <= txfifo && |txfifo| + supply <= |old(txfifo)| + old(supply)
          {
            Interfere();
            WriteHeld(tmp[i]);
            i := i + 1;
          }
        }
      }
    }

    /** Executes the non-data event at the head of the queue; the transmitter must be idle, so that no
        octet is on its way while the settings change. */
    method HandleControl()
      requires Inv() && !stopped && txfifo != [] && !IsData(txfifo[0]) && txfifo[0] != Shutdown
      requires chip.Empty() && txbuffer == [] && held == []
      modifies this`txfifo, this`fetched, this`kept, this`mcrShadow, chip
      ensures Inv() && !stopped && txfifo == old(txfifo)[1..] && chip.Empty()
      ensures fetched == old(fetched) + [old(txfifo)[0]] && kept == old(kept) + [old(txfifo)[0]]
      ensures chip.trace == old(chip.trace) + [Act(old(chip.Settings()), old(txfifo)[0])] && Out() == old(Out())
    {
      hide RunsFit, Meaning, After, TrailingBytes, SendAll, Cuts, CutOf, Refined, Effect, ReportOf, SentCount;
      var e := txfifo[0];
      CutsStop(kept, fetched);
      QuietRefined();
      MeaningSnoc(initial, kept, e);
      TrailingSnoc(fetched, e);
      KeptSnoc(kept, fetched, e, e, 0);
      txfifo := txfifo[1..];
      fetched := fetched + [e];
      kept := kept + [e];
      assert accepted == fetched + txfifo;
      var report := Apply(e);
      SentCountSnoc(chip.trace, Acted(Action(e, chip.Settings(), report)));
      chip.trace := chip.trace + [Acted(Action(e, chip.Settings(), report))];
      QuietRefined();
    }

    /** With nothing in flight. */
    lemma QuietRefined()
      requires chip.Empty() && txbuffer == [] && held == []
      ensures Refined() <==> chip.trace == Meaning(initial, kept) && chip.Settings() == After(initial, kept)
    {
      assert InFlight() == [];
      SendNothing(chip.Settings());
    }

    /** The register accesses of one control event, and what is put into the receive event queue for it. */
    method Apply(e: Event) returns (report: Option<Report>)
      requires chip.Valid() && chip.Empty() && mcrShadow == chip.mcr
      modifies this`mcrShadow, chip
      ensures chip.Settings() == Effect(old(chip.Settings()), e) && chip.Valid() && chip.Empty()
      ensures report == ReportOf(old(chip.Settings()), e)
      ensures mcrShadow == chip.mcr && chip.trace == old(chip.trace)
    {
      report := None;
      match e
      case Echo(id) =>
        report := Some(EchoReport(id));
      case SetBaudrate(baud) =>
        report := ApplyRate(e);
      case GetBaudrate =>
        report := ApplyRate(e);
      case SetFormat(f) =>
        report := ApplyRate(e);
      case GetFormat =>
        report := ApplyRate(e);
      case _ =>
        ApplyEnable(e);
    }

    /** Baud rate and line format. */
    method ApplyRate(e: Event) returns (report: Option<Report>)
      requires chip.Valid() && chip.Empty() && mcrShadow == chip.mcr
      requires e.SetBaudrate? || e.GetBaudrate? || e.SetFormat? || e.GetFormat?
      modifies chip
      ensures chip.Settings() == Effect(old(chip.Settings()), e) && chip.Valid() && chip.Empty()
      ensures report == ReportOf(old(chip.Settings()), e)
      ensures mcrShadow == chip.mcr && chip.trace == old(chip.trace)
    {
      hide UpdateFormatBits, DecodeFormat;
      report := None;
      match e
      case SetBaudrate(baud) =>
        var divisor := (BASE_CLOCK / OVERSAMPLING) / baud;
        chip.SetBaudrateDivisor(divisor % 0x1_0000);
      case GetBaudrate =>
        var divisor := chip.GetBaudrateDivisor();
        report := Some(BaudReport(if divisor != 0 then (BASE_CLOCK / OVERSAMPLING) / divisor else 0));
      case SetFormat(f) =>
        chip.SetFormat(f);
      case GetFormat =>
        var f := chip.GetFormat();
        report := Some(FormatReport(f));
    }

    /** Interrupt enables and modem lines. */
    method ApplyEnable(e: Event)
      requires chip.Valid() && chip.Empty() && mcrShadow == chip.mcr
      requires !e.Echo? && !e.SetBaudrate? && !e.GetBaudrate? && !e.SetFormat? && !e.GetFormat?
      modifies this`mcrShadow, chip
      ensures chip.Settings() == Effect(old(chip.Settings()), e) && chip.Valid() && chip.Empty()
      ensures mcrShadow == chip.mcr && chip.trace == old(chip.trace)
    {
      hide LineToMcr;
      match e
      case EnableTx =>
        chip.SetIerBits(IER_THRE);
      case DisableTx =>
        chip.ClearIerBits(IER_THRE);
      case EnableRx =>
        chip.FlushRxFifo();
        chip.SetIerBits(IER_RX);
      case DisableRx =>
        chip.ClearIerBits(IER_RX);
      case ChangeLine(mask, value) =>
        mcrShadow := (!LineToMcr(mask) & mcrShadow) | (LineToMcr(mask) & LineToMcr(value));
        chip.WriteMcr(mcrShadow);
      case _ =>
    }

    /** Takes a shutdown event out of the queue; the handler thread ends. */
    method HandleShutdown()
      requires Inv() && !stopped && txfifo != [] && txfifo[0] == Shutdown
      requires chip.Empty() && txbuffer == [] && held == []
      modifies this`txfifo, this`fetched, this`kept, this`stopped, chip`trace
      ensures Inv() && stopped
      ensures fetched == old(fetched) + [Shutdown] && kept == old(kept) + [Shutdown] && Out() == old(Out())
    {
      hide RunsFit, Meaning, After, TrailingBytes, SendAll, Cuts, CutOf, Refined;
      CutsStop(kept, fetched);
      QuietRefined();
      MeaningSnoc(initial, kept, Shutdown);
      TrailingSnoc(fetched, Shutdown);
      KeptSnoc(kept, fetched, Shutdown, Shutdown, 0);
      txfifo := txfifo[1..];
      fetched := fetched + [Shutdown];
      kept := kept + [Shutdown];
      assert accepted == fetched + txfifo;
      SentCountSnoc(chip.trace, Act(chip.Settings(), Shutdown));
      chip.trace := chip.trace + [Act(chip.Settings(), Shutdown)];
      stopped := true;
      QuietRefined();
    }

    /** `handle_all_pending_events`: one pass of the handler thread. With octets left from before it goes on with
        the run that they belong to; otherwise it takes everything from the queue that nothing holds back. Unless
        the chip is still busy it hands over all octets it can. */
    method HandleAllPendingEvents() returns (ret: int)
      requires Inv() && !stopped && held == []
      modifies this`txfifo, this`accepted, this`supply, this`txbuffer, this`held, this`fetched, this`kept,
               this`mcrShadow, this`stopped, chip
      ensures Inv() && held == [] && (ret == -1 <==> stopped) && ret in {-1, 0, 2}
      ensures Later(old(accepted), old(fetched), old(kept), old(supply)) && old(Out()) <= Out()
      ensures stopped ==> InFlight() == []
      ensures old(txbuffer) != [] ==> !stopped && TookData(old(txfifo), |fetched| - |old(fetched)|)
      ensures old(txbuffer) == [] && old(chip.Thre()) ==> TookAll(old(txfifo), |fetched| - |old(fetched)|)
      ensures old(chip.Thre()) ==> txbuffer == [] || old(Out()) + FIFO_SIZE <= Out()
      ensures old(chip.Thre()) ==> old(Out()) + Least(FIFO_SIZE, |old(txbuffer)|) <= Out()
    {
      hide Meaning, After, TrailingBytes, RunsFit, SendAll, Refined, Kept, SentCount, TookData, TookAll;
      ghost var q0 := txfifo;
      Interfere();
      if |txbuffer| > 0 {
        ContinueRun(q0);
        return 0;
      }
      var thre := chip.Thre();
      Interfere();
      if !thre {
        return 0;
      }
      AwaitIdle();
      ret := RunQueue(q0);
    }

    /** The run of data goes on. */
    method ContinueRun(ghost q0: seq<Event>)
      requires Inv() && !stopped && held == [] && q0 <= txfifo
      modifies this`txfifo, this`accepted, this`supply, this`txbuffer, this`held, this`fetched, this`kept, chip
      ensures Inv() && !stopped && held == [] && Later(old(accepted), old(fetched), old(kept), old(supply)) && old(Out()) <= Out()
      ensures TookData(q0, |fetched| - |old(fetched)|)
      ensures old(chip.Thre()) ==> txbuffer == [] || old(Out()) + FIFO_SIZE <= Out()
      ensures old(chip.Thre()) ==> old(Out()) + Least(FIFO_SIZE, |old(txbuffer)|) <= Out()
    {
      hide Meaning, After, TrailingBytes, RunsFit, SendAll, Refined, Kept, SentCount, TookData;
      ghost var fetched0 := fetched;
      FetchData();
      QueueTaken(fetched0, q0, fetched, txfifo);
      DataTaken(q0, fetched[|fetched0|..], txfifo);
      Transmit();
    }

    /** The FIFO is empty, so at most the octet in the shift register is left to wait for. */
    method AwaitIdle()
      requires Inv() && !stopped && held == [] && txbuffer == []
      modifies this`txfifo, this`accepted, this`supply, chip`fifo, chip`shift, chip`trace
      ensures Inv() && Later(old(accepted), fetched, kept, old(supply)) && Out() == old(Out()) && chip.Empty()
      ensures old(txfifo) <= txfifo
    {
      hide Meaning, After, TrailingBytes, RunsFit, SendAll, Refined, Kept, SentCount;
      while !chip.Empty()
        invariant Inv() && Later(old(accepted), fetched, kept, old(supply)) && Out() == old(Out()) && old(txfifo) <= txfifo
        decreases chip.Occupancy()
      {
        Shift();
        Interfere();
      }
    }

    /** Takes events out of the queue up to the end of the first run of data, a shutdown, or the end of the queue. */
    method RunQueue(ghost q0: seq<Event>) returns (ret: int)
      requires Inv() && !stopped && held == [] && txbuffer == [] && chip.Empty() && q0 <= txfifo
      modifies this`txfifo, this`accepted, this`supply, this`txbuffer, this`held, this`fetched, this`kept,
               this`mcrShadow, this`stopped, chip
      ensures Inv() && held == [] && (ret == -1 <==> stopped) && ret in {-1, 0, 2}
      ensures Later(old(accepted), old(fetched), old(kept), old(supply)) && old(Out()) <= Out()
      ensures stopped ==> InFlight() == []
      ensures TookAll(q0, |fetched| - |old(fetched)|)
      ensures txbuffer == [] || old(Out()) + FIFO_SIZE <= Out()
    {
      hide Meaning, After, TrailingBytes, RunsFit, SendAll, Refined, Kept, SentCount, TookAll, AllControl;
      ghost var fetched0 := fetched;
      NoControl();
      assert fetched[|fetched0|..] == [];
      while |txfifo| > 0
        invariant Inv() && !stopped && held == [] && txbuffer == [] && chip.Empty() && Out() == old(Out())
        invariant Later(old(accepted), old(fetched), old(kept), old(supply)) && AllControl(fetched[|fetched0|..])
        decreases |txfifo| + supply
      {
        if txfifo[0] == Shutdown {
          Stop(q0, fetched0);
          return -1;
        }
        if IsData(txfifo[0]) {
          StartRun(q0, fetched0);
          return 2;
        }
        ControlNext(fetched[|fetched0|..], txfifo[0]);
        assert (fetched + [txfifo[0]])[|fetched0|..] == fetched[|fetched0|..] + [txfifo[0]];
        HandleControl();
        Interfere();
      }
      QueueTaken(fetched0, q0, fetched, txfifo);
      AllTaken(q0, fetched[|fetched0|..], [], []);
      ret := 0;
    }

    /** Behind control events: a shutdown. */
    method Stop(ghost q0: seq<Event>, ghost fetched0: seq<Event>)
      requires Inv() && !stopped && held == [] && txbuffer == [] && chip.Empty() && txfifo != [] && txfifo[0] == Shutdown
      requires fetched0 + q0 <= accepted && fetched0 <= fetched && AllControl(fetched[|fetched0|..])
      modifies this`txfifo, this`fetched, this`kept, this`stopped, chip`trace
      ensures Inv() && stopped && InFlight() == [] && Later(accepted, old(fetched), old(kept), supply) && Out() == old(Out())
      ensures TookAll(q0, |fetched| - |fetched0|)
    {
      hide Meaning, After, TrailingBytes, RunsFit, SendAll, Refined, Kept, SentCount, TookAll, AllControl;
      QueueTaken(fetched0, q0, fetched, txfifo);
      assert txfifo == [Shutdown] + txfifo[1..];
      AllTaken(q0, fetched[|fetched0|..], [Shutdown], txfifo[1..]);
      HandleShutdown();
    }

    /** Behind control events: a run of data. */
    method StartRun(ghost q0: seq<Event>, ghost fetched0: seq<Event>)
      requires Inv() && !stopped && held == [] && txbuffer == [] && chip.Empty() && txfifo != [] && IsData(txfifo[0])
      requires fetched0 + q0 <= accepted && fetched0 <= fetched && AllControl(fetched[|fetched0|..])
      modifies this`txfifo, this`accepted, this`supply, this`txbuffer, this`held, this`fetched, this`kept, chip
      ensures Inv() && !stopped && held == [] && Later(old(accepted), old(fetched), old(kept), old(supply)) && old(Out()) <= Out()
      ensures TookAll(q0, |fetched| - |fetched0|)
      ensures txbuffer == [] || old(Out()) + FIFO_SIZE <= Out()
    {
      hide Meaning, After, TrailingBytes, RunsFit, SendAll, Refined, Kept, SentCount, TookAll, AllControl;
      ghost var n, e := |fetched|, txfifo[0];
      ghost var control := fetched[|fetched0|..];
      TakeData();
      FetchData();
      QueueTaken(fetched0, q0, fetched, txfifo);
      RunSplit(fetched0, fetched, n, control, e);
      AllTaken(q0, control, fetched[n..], txfifo);
      Transmit();
    }

    /** Octets that were kept have been handed over or wait for it. */
    lemma Accounted()
      requires Inv() && !stopped
      ensures Out() + |held| + |txbuffer| == OctetCount(kept)
    {
      hide RunsFit, TrailingBytes, Meaning, After;
      CutsStop(kept, fetched);
      SentCountMeaning(initial, kept);
      SentCountConcat(chip.trace, SendAll(InFlight(), chip.Settings()));
      SentCountData(InFlight(), chip.Settings());
    }

    /** What is left to do: the queue, and what is buffered behind it. */
    ghost function Work(): nat
      reads this`txfifo, this`txbuffer
    {
      Load(txfifo) + |txbuffer|
    }

    /** Time for the chip; sixteen octets later its FIFO is empty. */
    method Pause(count: nat)
      requires Inv()
      modifies chip`fifo, chip`shift, chip`trace
      ensures Inv() && Work() == old(Work()) && (count >= FIFO_SIZE ==> chip.Thre())
      ensures old(InFlight()) == [] ==> InFlight() == []
    {
      hide Meaning, After, TrailingBytes, RunsFit, SendAll, Refined, Kept, SentCount, OctetCount;
      ShiftOut(count);
    }

    /** A pass that finds the FIFO empty gets work done, as long as there is some. */
    method Pass() returns (ret: int)
      requires Inv() && !stopped && held == [] && supply == 0
      modifies this`txfifo, this`accepted, this`supply, this`txbuffer, this`held, this`fetched, this`kept,
               this`mcrShadow, this`stopped, chip
      ensures Inv() && held == [] && (ret == -1 <==> stopped) && ret >= -1 && supply == 0 && accepted == old(accepted)
      ensures stopped ==> InFlight() == []
      ensures !stopped ==> Work() <= old(Work())
      ensures !stopped && old(chip.Thre()) && old(Work()) > 0 ==> Work() < old(Work())
    {
      ghost var fetched0, kept0, was, buffer0, out0 := fetched, kept, txfifo, txbuffer, Out();
      Accounted();
      FirstUnblocked(txfifo);
      assert Cuts(kept0, fetched0) && accepted == fetched0 + was;
      hide Meaning, After, TrailingBytes, RunsFit, SendAll, Refined, SentCount, OctetCount, Unblocked, Cuts;
      ret := HandleAllPendingEvents();
      if !stopped {
        Accounted();
        WorkDone(fetched0, kept0, was, |buffer0|, out0, fetched, kept, txfifo, |txbuffer|, Out());
      }
    }

    /** Passes of the handler thread with no more producers; before the i-th pass `pauses[i]` octets leave the chip.
        Each long pause gets work done until none is left. */
    method Passes(pauses: seq<nat>)
      requires Inv() && !stopped && held == [] && supply == 0
      modifies this`txfifo, this`accepted, this`supply, this`txbuffer, this`held, this`fetched, this`kept,
               this`mcrShadow, this`stopped, chip
      ensures Inv() && held == [] && accepted == old(accepted) && (stopped ==> InFlight() == [])
      ensures stopped || Work() == 0 || Work() + LongPauses(pauses) <= old(Work())
    {
      hide Meaning, After, TrailingBytes, RunsFit, SendAll, Refined, Kept, SentCount, OctetCount, Inv, Work;
      var i, ret := 0, 0;
      assert pauses[..0] == [];
      while i < |pauses| && ret >= 0
        invariant 0 <= i <= |pauses| && Inv() && held == [] && supply == 0 && accepted == old(accepted)
        invariant -1 <= ret && (stopped <==> ret == -1) && (stopped ==> InFlight() == [])
        invariant stopped || Work() == 0 || Work() + LongPauses(pauses[..i]) <= old(Work())
      {
        LongPausesNext(pauses, i);
        Pause(pauses[i]);
        ret := Pass();
        i := i + 1;
      }
      assert pauses[..|pauses|] == pauses;
    }

    /** With enough long pauses everything that was accepted is executed: the line then shows all that it means. */
    method RunDry(pauses: seq<nat>)
      requires Inv() && !stopped && held == [] && supply == 0 && LongPauses(pauses) >= Work()
      modifies this`txfifo, this`accepted, this`supply, this`txbuffer, this`held, this`fetched, this`kept,
               this`mcrShadow, this`stopped, chip
      ensures Inv() && held == [] && accepted == old(accepted)
      ensures (txfifo == [] || stopped) && InFlight() == []
      ensures chip.trace == Meaning(initial, Intended())
      ensures Cuts(Intended(), accepted) && (RunsFit(accepted) ==> Intended() == accepted)
    {
      hide Meaning, After, TrailingBytes, RunsFit, SendAll, Refined, Kept, SentCount, OctetCount, Cuts, LongPauses;
      Passes(pauses);
      ShiftAll();
      Refinement();
    }

    /** What the accepted events amount to: those taken out as far as they were kept, and those in the queue. */
    ghost function Intended(): seq<Event>
      reads this`kept, this`txfifo
    {
      kept + txfifo
    }

    /** Whatever has happened so far: the line shows a prefix of what the accepted events mean, each octet
        under its own settings from start to finish and each action in its place between the octets; once
        queue and transmitter have drained it shows all of it. Nothing is missing from the events but the
        ends of data runs that are too long for the transmit buffer. */
    lemma Refinement()
      requires Inv()
      ensures chip.trace <= Meaning(initial, Intended())
      ensures (txfifo == [] || stopped) && InFlight() == [] ==> chip.trace == Meaning(initial, Intended())
      ensures Cuts(Intended(), accepted) && (RunsFit(accepted) ==> Intended() == accepted)
    {
      hide RunsFit, Meaning, After, TrailingBytes, SendAll, Cuts, CutOf;
      RunsFitPrefix(fetched, txfifo);
      CutsConcat(kept, fetched, txfifo);
      CutsStop(kept, fetched);
      ghost var trace, flight := chip.trace, SendAll(InFlight(), chip.Settings());
      assert trace + flight == Meaning(initial, kept);
      SendNothing(chip.Settings());
      hide Refined, Kept;
      MeaningPrefix(initial, kept, txfifo);
      if stopped {
        MeaningAfterShutdown(initial, kept, txfifo);
      } else if txfifo == [] {
        assert kept + txfifo == kept;
      }
    }

    /** The handler thread: passes over the queue until a shutdown event, with everything else going on
        around it. Every run of it refines the meaning of the accepted events. */
    method HandlerThread(passes: nat)
      requires Inv() && !stopped && held == []
      modifies this`txfifo, this`accepted, this`supply, this`txbuffer, this`held, this`fetched, this`kept,
               this`mcrShadow, this`stopped, chip
      ensures Inv() && held == [] && Later(old(accepted), old(fetched), old(kept), old(supply)) && old(Out()) <= Out()
      ensures passes > 0 ==> Progress(old(txfifo), old(txbuffer), old(chip.Thre()), |fetched| - |old(fetched)|, Out() - old(Out()))
      ensures chip.trace <= Meaning(initial, Intended())
      ensures (txfifo == [] || stopped) && InFlight() == [] ==> chip.trace == Meaning(initial, Intended())
      ensures Cuts(Intended(), accepted) && (RunsFit(accepted) ==> Intended() == accepted)
    {
      hide RunsFit, Meaning, After, TrailingBytes, SendAll, Cuts, CutOf, Refined, Kept, SentCount, Progress;
      var n, ret := passes, 0;
      while n > 0 && ret >= 0
        invariant Inv() && held == [] && -1 <= ret && (stopped <==> ret == -1) && n <= passes
        invariant Later(old(accepted), old(fetched), old(kept), old(supply)) && old(Out()) <= Out()
        invariant n == passes ==> !stopped && txfifo == old(txfifo) && txbuffer == old(txbuffer) && chip.Thre() == old(chip.Thre())
        invariant n == passes ==> fetched == old(fetched) && Out() == old(Out())
        invariant n < passes ==> Progress(old(txfifo), old(txbuffer), old(chip.Thre()), |fetched| - |old(fetched)|, Out() - old(Out()))
        decreases n
      {
        ghost var took, gave := |fetched| - |old(fetched)|, Out() - old(Out());
        ret := NextPass();
        if n < passes {
          MoreProgress(old(txfifo), old(txbuffer), old(chip.Thre()), took, gave, |fetched| - |old(fetched)|, Out() - old(Out()));
        }
        n := n - 1;
      }
      Interfere();
      Refinement();
    }

    method NextPass() returns (ret: int)
      requires Inv() && !stopped && held == []
      modifies this`txfifo, this`accepted, this`supply, this`txbuffer, this`held, this`fetched, this`kept,
               this`mcrShadow, this`stopped, chip
      ensures Inv() && held == [] && -1 <= ret && (ret == -1 <==> stopped)
      ensures Later(old(accepted), old(fetched), old(kept), old(supply)) && old(Out()) <= Out()
      ensures Progress(old(txfifo), old(txbuffer), old(chip.Thre()), |fetched| - |old(fetched)|, Out() - old(Out()))
    {
      hide Inv, Out, TookAll, TookData;
      ret := HandleAllPendingEvents();
    }
  }

  lemma CutsConcat(kept: seq<Event>, es: seq<Event>, more: seq<Event>)
    requires Cuts(kept, es)
    ensures Cuts(kept + more, es + more)
  {
  }

  /** Data that joins what is in flight. */
  lemma DataRefines(c: Config, kept: seq<Event>, trace: Trace, flight: seq<Octet>, part: Event)
    requires !Stops(kept) && IsData(part) && trace + SendAll(flight, After(c, kept)) == Meaning(c, kept)
    ensures After(c, kept + [part]) == After(c, kept)
    ensures trace + SendAll(flight + part.bytes, After(c, kept)) == Meaning(c, kept + [part])
  {
    MeaningSnoc(c, kept, part);
    hide Meaning, After, SendAll;
    SendAllConcat(flight, part.bytes, After(c, kept));
  }

  /** One more event: it is kept whole unless it makes a run too long for the buffer, of which `used` octets
      are taken. */
  lemma KeptSnoc(kept: seq<Event>, fetched: seq<Event>, part: Event, e: Event, used: nat)
    requires Cuts(kept, fetched) && (RunsFit(fetched) ==> kept == fetched) && CutOf(part, e)
    requires !Stops(fetched) && used <= TrailingBytes(fetched)
    requires part == e || (IsData(e) && used + |e.bytes| > TXBUFFER_SIZE)
    ensures Cuts(kept + [part], fetched + [e])
    ensures RunsFit(fetched + [e]) ==> kept + [part] == fetched + [e]
  {
    TrailingSnoc(fetched, e);
    RunsFitPrefix(fetched, [e]);
    if RunsFit(fetched + [e]) && IsData(e) {
      assert e != Shutdown;
      RunsFitAt(fetched + [e], |fetched| + 1);
      assert (fetched + [e])[..|fetched| + 1] == fetched + [e];
    }
  }

  lemma SendAllCons(o: Octet, rest: seq<Octet>, c: Config)
    ensures SendAll([o] + rest, c) == [Sent(o, c, c)] + SendAll(rest, c)
  {
  }

  lemma SendNothing(c: Config)
    ensures SendAll([], c) == []
  {
  }

  lemma SendAllConcat(a: seq<Octet>, b: seq<Octet>, c: Config)
    ensures SendAll(a + b, c) == SendAll(a, c) + SendAll(b, c)
  {
  }

  lemma RunsFitAt(es: seq<Event>, k: nat)
    requires RunsFit(es) && k <= |es| && !Stops(es[..k])
    ensures TrailingBytes(es[..k]) <= TXBUFFER_SIZE
  {
  }

  lemma RunsFitPrefix(a: seq<Event>, b: seq<Event>)
    ensures RunsFit(a + b) ==> RunsFit(a)
  {
    if RunsFit(a + b) {
      forall k | 0 <= k <= |a| && !Stops(a[..k])
        ensures TrailingBytes(a[..k]) <= TXBUFFER_SIZE
      {
        assert (a + b)[..k] == a[..k];
      }
    }
  }
}
