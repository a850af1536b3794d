/** What happens to data runs that are too long for the transmit buffer of the stream UART: for every such
    list of events there is a run of the engine that loses octets. */
module TransmitOverflow {
  import opened Octets
  import opened Pc16x50
  import opened StreamUart

  /** Everything fetched leaves the chip, up to 17 octets at a time; nothing is queued meanwhile. */
  method Drain(e: Engine)
    requires e.Inv() && !e.stopped && e.held == [] && e.supply == 0
    modifies e`txfifo, e`accepted, e`supply, e`txbuffer, e`held, e.chip
    ensures e.Inv() && e.held == [] && e.txbuffer == [] && e.chip.Empty()
    ensures e.txfifo == old(e.txfifo) && e.accepted == old(e.accepted) && e.supply == 0
  {
    hide Meaning, After, TrailingBytes, RunsFit, SendAll, Cuts;
    e.ShiftAll();
    while |e.txbuffer| > 0
      invariant e.Inv() && !e.stopped && e.held == [] && e.chip.Empty() && e.txfifo == old(e.txfifo) && e.supply == 0
      decreases |e.txbuffer|
    {
      e.Transmit();
      e.ShiftAll();
    }
  }

  /** Nothing is on its way out, and no producer has anything but what is put next. */
  ghost predicate Waiting(e: Engine)
    reads e, e.chip
  {
    e.Inv() && !e.stopped && e.txfifo == [] && e.held == [] && e.chip.Empty() && e.supply == 0
  }

  /** What has been lost stays lost; until then the buffer holds the whole run. */
  ghost predicate Lossy(e: Engine)
    reads e
  {
    && OctetCount(e.kept) <= OctetCount(e.fetched)
    && (OctetCount(e.kept) == OctetCount(e.fetched) ==> |e.txbuffer| == TrailingBytes(e.fetched))
  }

  /** A producer queues one event and the handler takes it: for data one turn of the loop in `FetchData`, before
      any octet of the run is transmitted, for the rest after everything has drained. */
  method Feed(e: Engine, ev: Event)
    requires Waiting(e) && Lossy(e) && ev != Shutdown
    modifies e`txfifo, e`accepted, e`supply, e`txbuffer, e`held, e`fetched, e`kept, e`mcrShadow, e.chip
    ensures Waiting(e) && Lossy(e) && e.fetched == old(e.fetched) + [ev]
  {
    hide Meaning, After, TrailingBytes, RunsFit, SendAll, Cuts, OctetCount;
    TrailingSnoc(e.fetched, ev);
    OctetCountSnoc(e.fetched, ev);
    if IsData(ev) {
      e.PutEvents([ev]);
      ghost var was := e.kept;
      e.TakeData();
      OctetCountSnoc(was, e.kept[|e.kept| - 1]);
    } else {
      Drain(e);
      OctetCountSnoc(e.kept, ev);
      e.PutEvents([ev]);
      e.HandleControl();
    }
  }

  /** For every list of events that violates `RunsFit`, at whatever `k`: a run of the engine that accepts the
      events up to `k` and shows fewer octets than they hold once everything has drained. */
  method Overflow(chip: Chip<Action>, es: seq<Event>, k: nat) returns (e: Engine)
    requires chip.Valid() && chip.Empty() && chip.trace == []
    requires k <= |es| && !Stops(es[..k]) && TrailingBytes(es[..k]) > TXBUFFER_SIZE
    modifies chip
    ensures fresh(e) && e.Inv() && e.accepted == es[..k] && e.InFlight() == [] && e.txfifo == []
    ensures SentCount(chip.trace) < SentCount(Meaning(e.initial, es[..k])) && chip.trace != Meaning(e.initial, es[..k])
  {
    hide Meaning, After, RunsFit, SendAll, Cuts;
    e := new Engine(chip, 0);
    ghost var initial := e.initial;
    var i := 0;
    while i < k
      invariant 0 <= i <= k && fresh(e) && e.chip == chip && e.initial == initial && Waiting(e) && Lossy(e) && e.fetched == es[..i]
    {
      NoShutdownAt(es, k, i);
      hide TrailingBytes, OctetCount;
      Feed(e, es[i]);
      i := i + 1;
    }
    hide TrailingBytes, OctetCount;
    Drain(e);
    e.Refinement();
    assert e.kept + e.txfifo == e.kept && e.fetched + e.txfifo == e.fetched;
    KeptStops(e);
    SentCountMeaning(e.initial, e.kept);
    SentCountMeaning(e.initial, es[..k]);
  }

  lemma NoShutdownAt(es: seq<Event>, k: nat, i: nat)
    requires i < k <= |es| && !Stops(es[..k])
    ensures es[i] != Shutdown && es[..i + 1] == es[..i] + [es[i]]
  {
    assert es[..k][i] == es[i];
  }

  lemma KeptStops(e: Engine)
    requires e.Inv()
    ensures Stops(e.kept) <==> Stops(e.fetched)
  {
    CutsStop(e.kept, e.fetched);
  }

  /** One event is enough: 1025 octets on an idle engine lose the last one. */
  lemma OneTooMany(octets: seq<Octet>)
    requires |octets| == TXBUFFER_SIZE + 1
    ensures !Stops([Data(octets)][..1]) && TrailingBytes([Data(octets)][..1]) == TXBUFFER_SIZE + 1 && !RunsFit([Data(octets)])
  {
    var es := [Data(octets)];
    assert es[..1] == es && es[..0] == [];
    assert TrailingBytes(es[..1]) == TXBUFFER_SIZE + 1;
  }
}
