/** The receive side of the stream UART of `dmx512_suart.c`: received octets are gathered into inline data
    events, and every line-status event stands exactly between the octets before and after it. */
module ReceiveEvents {
  import opened Octets
  import opened StreamUart
  import opened DmxFrameEvents

  const RXFIFO_SIZE := 128

  /** What the chip reports and what is read from it in answer. */
  datatype Interrupt =
    | DataAvailable(octet: Octet)
    | CharacterTimeout(octet: Octet)
    | ReceiverLineStatus(lsr: bv8, dummy: Octet)   // `dummy` is the octet that a break leaves behind
    | HoldingEmpty
    | ModemStatus

  /** What was received, in order. */
  datatype Item = Byte(octet: Octet) | Status(lsr: bv8)

  function Items(s: seq<Octet>): (r: seq<Item>)
    ensures |r| == |s|
  {
    seq(|s|, i requires 0 <= i < |s| => Byte(s[i]))
  }

  function ItemsOfEvent(e: Event): seq<Item> {
    match e
    case Data(bytes) => Items(bytes)
    case DataInline(bytes) => Items(bytes)
    case LineStatus(status) => [Status(status)]
    case _ => []
  }

  function ItemsOfEvents(es: seq<Event>): seq<Item> {
    if es == [] then [] else ItemsOfEvents(es[..|es| - 1]) + ItemsOfEvent(es[|es| - 1])
  }

  function ItemsOfInterrupt(i: Interrupt): seq<Item> {
    match i
    case DataAvailable(octet) => [Byte(octet)]
    case CharacterTimeout(octet) => [Byte(octet)]
    case ReceiverLineStatus(lsr, _) => [Status(lsr)]
    case HoldingEmpty => []
    case ModemStatus => []
  }

  function ItemsOfInterrupts(irqs: seq<Interrupt>): seq<Item> {
    if irqs == [] then [] else ItemsOfInterrupts(irqs[..|irqs| - 1]) + ItemsOfInterrupt(irqs[|irqs| - 1])
  }

  lemma EventsSnoc(es: seq<Event>, e: Event)
    ensures ItemsOfEvents(es + [e]) == ItemsOfEvents(es) + ItemsOfEvent(e)
  {
    assert (es + [e])[..|es|] == es;
  }

  lemma InterruptsSnoc(irqs: seq<Interrupt>, n: nat)
    requires n < |irqs|
    ensures ItemsOfInterrupts(irqs[..n + 1]) == ItemsOfInterrupts(irqs[..n]) + ItemsOfInterrupt(irqs[n])
  {
    assert irqs[..n + 1][..n] == irqs[..n];
  }

  /** What each interrupt stands for: an octet, a line status, or nothing. */
  lemma InterruptMeans(irqs: seq<Interrupt>, i: Interrupt)
    ensures var n, before := ItemsOfInterrupts(irqs + [i]), ItemsOfInterrupts(irqs);
            n == before + if i.DataAvailable? || i.CharacterTimeout? then [Byte(i.octet)]
                          else if i.ReceiverLineStatus? then [Status(i.lsr)] else []
  {
    InterruptsSnoc(irqs + [i], |irqs|);
    assert (irqs + [i])[..|irqs|] == irqs && (irqs + [i])[..|irqs| + 1] == irqs + [i];
  }

  /** What each event of a reader stands for: its octets in order, a line status, or nothing received. */
  lemma EventMeans(es: seq<Event>, e: Event)
    requires WellSized(e)
    ensures var n, before := ItemsOfEvents(es + [e]), ItemsOfEvents(es);
            if e.LineStatus? then n == before + [Status(e.status)]
            else if IsReport(e) then n == before
            else |n| == |before| + |e.bytes| && n[..|before|] == before && forall i | 0 <= i < |e.bytes| :: n[|before|..][i] == Byte(e.bytes[i])
  {
    EventsSnoc(es, e);
    hide ItemsOfEvents;
    var n, before := ItemsOfEvents(es + [e]), ItemsOfEvents(es);
    assert n[|before|..] == ItemsOfEvent(e);
  }

  lemma ItemsSplit(s: seq<Octet>, n: nat)
    requires n <= |s|
    ensures Items(s) == Items(s[..n]) + Items(s[n..])
  {
  }

  /** The octets among the items. */
  function OctetsOf(items: seq<Item>): seq<Octet> {
    if items == [] then []
    else OctetsOf(items[..|items| - 1]) + if items[|items| - 1].Byte? then [items[|items| - 1].octet] else []
  }

  lemma {:induction false} OctetsOfConcat(a: seq<Item>, b: seq<Item>)
    ensures OctetsOf(a + b) == OctetsOf(a) + OctetsOf(b)
  {
    if b == [] {
      assert a + b == a;
    } else {
      OctetsOfConcat(a, b[..|b| - 1]);
      assert (a + b)[..|a + b| - 1] == a + b[..|b| - 1];
    }
  }

  lemma {:induction false} OctetsOfItems(s: seq<Octet>)
    ensures OctetsOf(Items(s)) == s
  {
    if s != [] {
      OctetsOfItems(s[..|s| - 1]);
      assert Items(s)[..|s| - 1] == Items(s[..|s| - 1]);
      assert s == s[..|s| - 1] + [s[|s| - 1]];
    }
  }

  /** The data of the events is the octets of what they stand for. */
  lemma {:induction false} OctetsOfEvents(es: seq<Event>)
    ensures OctetsOf(ItemsOfEvents(es)) == Bytes(es)
  {
    if es != [] {
      var init, e := es[..|es| - 1], es[|es| - 1];
      OctetsOfEvents(init);
      OctetsOfConcat(ItemsOfEvents(init), ItemsOfEvent(e));
      if IsData(e) {
        OctetsOfItems(e.bytes);
      } else if e.LineStatus? {
        assert [Status(e.status)][..0] == [];
      }
    }
  }

  lemma OneChunk(es: seq<Event>, data: seq<Octet>)
    requires |es| == 1 && AllInline(es) && Bytes(es) == data
    ensures es[0] == DataInline(data)
  {
    assert es[..0] == [];
  }

  /** The event engine answers through the same queue: echoes and the values it was asked for. */
  predicate IsReport(e: Event) {
    e.Echo? || e.GetBaudrate? || e.GetFormat?
  }

  /** Events that a reader can get: chunks of 1 to 14 octets, line status and reports. */
  predicate WellSized(e: Event) {
    e.LineStatus? || (e.DataInline? && 1 <= |e.bytes| <= CHUNK) || IsReport(e)
  }

  /** The reports among events. */
  function ReportsOf(es: seq<Event>): seq<Event> {
    if es == [] then []
    else ReportsOf(es[..|es| - 1]) + if IsReport(es[|es| - 1]) then [es[|es| - 1]] else []
  }

  lemma ReportsSnoc(es: seq<Event>, e: Event)
    ensures ReportsOf(es + [e]) == ReportsOf(es) + if IsReport(e) then [e] else []
  {
    assert (es + [e])[..|es|] == es;
  }

  class RxStream {
    var rxbuffer: seq<Octet>
    var rxfifo: seq<Event>
    ghost var taken: seq<Event>     // what readers have got
    ghost var emitted: seq<Event>   // what was put, in order
    ghost var dropped: nat          // puts that found the queue full
    ghost var received: seq<Item>

    constructor ()
      ensures Inv() && rxbuffer == [] && rxfifo == [] && received == []
    {
      rxbuffer, rxfifo, taken, emitted, dropped, received := [], [], [], [], 0, [];
    }

    /** Nothing received is reordered, merged across a line status or forgotten. */
    ghost predicate Faithful()
      reads this
    {
      ItemsOfEvents(emitted) + Items(rxbuffer) == received
    }

    ghost predicate Queued()
      reads this`rxfifo, this`taken, this`emitted, this`dropped
    {
      && |rxfifo| <= RXFIFO_SIZE
      && |taken| + |rxfifo| + dropped == |emitted|
      && (dropped == 0 ==> taken + rxfifo == emitted)
      && (forall i | 0 <= i < |emitted| :: WellSized(emitted[i]))
    }

    ghost predicate Inv()
      reads this
    {
      |rxbuffer| < CHUNK && Faithful() && Queued()
    }

    /** `suart_put_rxevents` with one event: a full queue takes nothing. */
    method PutRxEvent(e: Event)
      requires Queued() && WellSized(e)
      modifies this`rxfifo, this`emitted, this`dropped
      ensures Queued() && emitted == old(emitted) + [e]
      ensures dropped == old(dropped) + if old(|rxfifo|) < RXFIFO_SIZE then 0 else 1
      ensures rxfifo == old(rxfifo) + if old(|rxfifo|) < RXFIFO_SIZE then [e] else []
    {
      if |rxfifo| < RXFIFO_SIZE {
        rxfifo := rxfifo + [e];
      } else {
        dropped := dropped + 1;
      }
      emitted := emitted + [e];
    }

    /** The event engine puts a report; octets that are still buffered will come after it. */
    method PutReport(e: Event)
      requires Inv() && IsReport(e)
      modifies this`rxfifo, this`emitted, this`dropped
      ensures Inv() && emitted == old(emitted) + [e]
    {
      hide Queued;
      EventsSnoc(emitted, e);
      assert ItemsOfEvents(emitted) + ItemsOfEvent(e) == ItemsOfEvents(emitted);
      hide ItemsOfEvents;
      PutRxEvent(e);
    }

    /** `suart_get_rxevents`: a reader takes some of the queued events. */
    method GetRxEvents(count: nat) returns (es: seq<Event>)
      requires Inv()
      modifies this`rxfifo, this`taken
      ensures Inv() && taken == old(taken) + es && old(rxfifo) == es + rxfifo
      ensures |es| == if count < old(|rxfifo|) then count else old(|rxfifo|)
    {
      var n := if count < |rxfifo| then count else |rxfifo|;
      es := rxfifo[..n];
      taken, rxfifo := taken + es, rxfifo[n..];
    }

    /** `flush_rxbuffer_fifo_one_entry`. */
    method FlushOneEntry()
      requires |rxbuffer| <= 1024 && Faithful() && Queued()
      modifies this`rxbuffer, this`rxfifo, this`emitted, this`dropped
      ensures Faithful() && Queued()
      ensures rxbuffer == old(rxbuffer[if |rxbuffer| < CHUNK then |rxbuffer| else CHUNK..])
      ensures ReportsOf(emitted) == old(ReportsOf(emitted))
      ensures emitted == old(emitted) + if old(rxbuffer) == [] then [] else [DataInline(old(rxbuffer[..if |rxbuffer| < CHUNK then |rxbuffer| else CHUNK]))]
    {
      hide ItemsOfEvents, ReportsOf, Items, Bytes, AllInline;
      var count := if |rxbuffer| < CHUNK then |rxbuffer| else CHUNK;
      var t := rxbuffer[..count];
      ItemsSplit(rxbuffer, count);
      rxbuffer := rxbuffer[count..];
      if count > 0 {
        var chunk := DataInlineEvents(1, t);
        OneChunk(chunk.value, t);
        EventsSnoc(emitted, chunk.value[0]);
        ReportsSnoc(emitted, chunk.value[0]);
        PutRxEvent(chunk.value[0]);
      }
    }

    /** `flush_rxbuffer_fifo`. */
    method Flush()
      requires |rxbuffer| <= 1024 && Faithful() && Queued()
      modifies this`rxbuffer, this`rxfifo, this`emitted, this`dropped
      ensures Inv() && rxbuffer == [] && ReportsOf(emitted) == old(ReportsOf(emitted))
    {
      while |rxbuffer| > 0
        invariant |rxbuffer| <= 1024 && Faithful() && Queued() && ReportsOf(emitted) == old(ReportsOf(emitted))
        decreases |rxbuffer|
      {
        FlushOneEntry();
      }
    }

    /** `write_to_rxbuffer_fifo`. */
    method WriteToRxBuffer(c: Octet)
      requires Inv()
      modifies this`rxbuffer, this`rxfifo, this`emitted, this`dropped, this`received
      ensures Inv() && received == old(received) + [Byte(c)] && ReportsOf(emitted) == old(ReportsOf(emitted))
    {
      hide ItemsOfEvents, Queued, ReportsOf;
      ItemsSplit(rxbuffer + [c], |rxbuffer|);
      assert (rxbuffer + [c])[..|rxbuffer|] == rxbuffer && (rxbuffer + [c])[|rxbuffer|..] == [c];
      assert Items([c]) == [Byte(c)];
      rxbuffer := rxbuffer + [c];
      received := received + [Byte(c)];
      assert Faithful();
      if |rxbuffer| >= CHUNK {
        FlushOneEntry();
      }
    }

    /** One pass of the loop in `handle_all_pending_interrupts`. */
    method HandleInterrupt(i: Interrupt)
      requires Inv()
      modifies this`rxbuffer, this`rxfifo, this`emitted, this`dropped, this`received
      ensures Inv() && received == old(received) + ItemsOfInterrupt(i) && ReportsOf(emitted) == old(ReportsOf(emitted))
      ensures !i.DataAvailable? ==> rxbuffer == []
    {
      hide ItemsOfEvents, Queued, ReportsOf;
      if i.DataAvailable? || i.CharacterTimeout? {
        WriteToRxBuffer(i.octet);
        if i.CharacterTimeout? {
          Flush();
        }
      } else {
        Flush();
        if i.ReceiverLineStatus? {
          // a break leaves one octet, which is read and not passed on
          EventsSnoc(emitted, LineStatus(i.lsr));
          ReportsSnoc(emitted, LineStatus(i.lsr));
          PutRxEvent(LineStatus(i.lsr));
          received := received + [Status(i.lsr)];
        }
      }
    }

    /** `handle_all_pending_interrupts`; readers may take events between any two interrupts. */
    method HandleAllPendingInterrupts(pending: seq<Interrupt>, readers: seq<nat>)
      requires Inv() && |readers| == |pending|
      modifies this
      ensures Inv() && received == old(received) + ItemsOfInterrupts(pending) && ReportsOf(emitted) == old(ReportsOf(emitted))
    {
      hide *;
      var n := 0;
      assert pending[..0] == [];
      NoInterrupts();
      while n < |pending|
        invariant 0 <= n <= |pending| && Inv() && received == old(received) + ItemsOfInterrupts(pending[..n])
        invariant ReportsOf(emitted) == old(ReportsOf(emitted))
      {
        InterruptsSnoc(pending, n);
        HandleInterrupt(pending[n]);
        var es := GetRxEvents(readers[n]);
        n := n + 1;
      }
      assert pending[..n] == pending;
    }

    /** One turn of the handler thread: interrupts, then whatever the event engine reports, and after a pause
        in reception everything that is buffered. */
    method HandlerTurn(pending: seq<Interrupt>, readers: seq<nat>, reports: seq<Event>, pause: bool)
      requires Inv() && |readers| == |pending| && forall i | 0 <= i < |reports| :: IsReport(reports[i])
      modifies this
      ensures Inv() && received == old(received) + ItemsOfInterrupts(pending) && (pause ==> rxbuffer == [])
      ensures ReportsOf(emitted) == old(ReportsOf(emitted)) + reports
    {
      hide ItemsOfEvents, ItemsOfInterrupts, Queued, Faithful, ReportsOf;
      HandleAllPendingInterrupts(pending, readers);
      ghost var got := received;
      var n := 0;
      while n < |reports|
        invariant 0 <= n <= |reports| && Inv() && received == got && ReportsOf(emitted) == old(ReportsOf(emitted)) + reports[..n]
      {
        ReportsSnoc(emitted, reports[n]);
        PutReport(reports[n]);
        n := n + 1;
      }
      assert reports[..n] == reports;
      if pause {
        Flush();
      }
    }

    /** While no put found the queue full, what readers have got, what is queued and what is buffered is what
        was received, in order. */
    lemma NothingLost()
      requires Inv() && dropped == 0
      ensures ItemsOfEvents(taken + rxfifo) + Items(rxbuffer) == received
      ensures Bytes(taken + rxfifo) + rxbuffer == OctetsOf(received)
    {
      OctetsOfConcat(ItemsOfEvents(emitted), Items(rxbuffer));
      OctetsOfEvents(emitted);
      OctetsOfItems(rxbuffer);
    }
  }

  lemma NoInterrupts()
    ensures ItemsOfInterrupts([]) == []
  {
  }
}
