/** The bookkeeping of a half-duplex port: who owns which frame, and which request has been answered.
    Every callback of the port is one of these transitions on it. */
module PortLedger {
  import opened Sequences
  import opened Octets

  datatype PortState =
    | Down | Idle | IdleAfterDmxData00
    | ExpectStartcode | ReceiveDmxData
    | TransmitBreakOneway | TransmitDataOneway | TransmitBreakTwoway | TransmitDataTwoway
    | RecvDiscReply | RecvDiscReplyCollision
    | ExpectRdmReplyBreak | RecvRdmReplyData
  {
    predicate Transmitting() {
      TransmitBreakOneway? || TransmitDataOneway? || TransmitBreakTwoway? || TransmitDataTwoway?
    }

    predicate AwaitsReply() {
      RecvDiscReply? || RecvDiscReplyCollision? || ExpectRdmReplyBreak? || RecvRdmReplyData?
    }

    /** A request that expects an answer is on its way or waiting for it. */
    predicate Exchange() {
      TransmitBreakTwoway? || TransmitDataTwoway? || AwaitsReply()
    }

    /** A discovery reply may come in, with or without a break in it. */
    predicate Listens() {
      RecvDiscReply? || RecvDiscReplyCollision?
    }

    predicate Receiving() {
      ExpectStartcode? || ReceiveDmxData? || RecvDiscReply? || RecvDiscReplyCollision? || RecvRdmReplyData?
    }

    predicate Busy() {
      Transmitting() || AwaitsReply()
    }
  }

  /** An exchange that has come to its end: the request and the frame delivered for it. */
  datatype Answer<F> = Answer(request: F, reply: F)

  datatype Ledger<F> = Ledger(
    state: PortState,
    tx: Option<F>,              // frame in transmission or waiting for its reply
    rx: Option<F>,              // frame being filled
    driverOn: bool,             // RS485 driver
    accepted: seq<F>,           // two-way frames taken for transmission, in order
    answers: seq<Answer<F>>,    // exchanges answered, in order
    released: seq<F>            // frames given away: delivered upwards or freed
  )

  function Requests<F>(answers: seq<Answer<F>>): seq<F> {
    if answers == [] then [] else Requests(answers[..|answers| - 1]) + [answers[|answers| - 1].request]
  }

  /** Half duplex; every accepted request is answered once and in order, or is the one in progress; and no
      frame was given away twice or is still in use after it was given away. */
  ghost predicate Sound<F>(l: Ledger<F>) {
    && (l.tx.Some? <==> l.state.Busy())
    && (l.driverOn <==> l.state.Transmitting())
    && (l.state.Receiving() ==> l.rx.Some?)
    && l.accepted == Requests(l.answers) + (if l.state.Exchange() && l.tx.Some? then [l.tx.value] else [])
    && Distinct(l.released)
    && (l.tx.Some? ==> l.tx.value !in l.released)
    && (l.rx.Some? ==> l.rx.value !in l.released)
    && (l.tx.Some? && l.rx.Some? ==> l.tx.value != l.rx.value)
  }

  lemma SoundFrames<F>(l: Ledger<F>)
    requires Sound(l)
    ensures l.state.Busy() ==> l.tx.Some?
    ensures l.state.Receiving() ==> l.rx.Some?
    ensures l.tx.Some? && l.rx.Some? ==> l.tx.value != l.rx.value
  {
  }

  ghost predicate New<F>(l: Ledger<F>, f: F) {
    f !in l.released && l.tx != Some(f) && l.rx != Some(f)
  }

  // ----- transitions ----------------------------------------------------------------------------------

  /** A frame is taken for transmission. */
  function Begin<F>(l: Ledger<F>, f: F, twoway: bool): Ledger<F> {
    l.(state := if twoway then TransmitDataTwoway else TransmitDataOneway, tx := Some(f), driverOn := true,
       accepted := l.accepted + if twoway then [f] else [])
  }

  /** This includes sending in the middle of a reception, which leaves the half-filled frame behind. */
  lemma BeginSound<F>(l: Ledger<F>, f: F, twoway: bool)
    requires Sound(l) && !l.state.Busy() && New(l, f)
    ensures Sound(Begin(l, f, twoway))
  {
  }

  /** A one-way frame has been sent and is freed. */
  function EndOneway<F>(l: Ledger<F>): Ledger<F>
    requires l.tx.Some?
  {
    l.(state := Idle, tx := None, driverOn := false, released := l.released + [l.tx.value])
  }

  lemma EndOnewaySound<F>(l: Ledger<F>)
    requires Sound(l) && l.state == TransmitDataOneway
    ensures Sound(EndOneway(l))
  {
  }

  /** A two-way frame has been sent; the reply starts with a break. */
  function AwaitBreak<F>(l: Ledger<F>): Ledger<F> {
    l.(state := ExpectRdmReplyBreak, driverOn := false)
  }

  lemma AwaitBreakSound<F>(l: Ledger<F>)
    requires Sound(l) && l.state == TransmitDataTwoway
    ensures Sound(AwaitBreak(l))
  {
  }

  /** Reception into a new frame `f` begins. */
  function Listen<F>(l: Ledger<F>, s: PortState, f: F): Ledger<F> {
    l.(state := s, driverOn := false, rx := Some(f))
  }

  lemma ListenSound<F>(l: Ledger<F>, s: PortState, f: F)
    requires Sound(l) && New(l, f) && s.Receiving()
    requires (s.AwaitsReply() && (l.state == TransmitDataTwoway || l.state == ExpectRdmReplyBreak)) ||
             (!s.AwaitsReply() && !l.state.Busy())
    ensures Sound(Listen(l, s, f))
  {
  }

  /** A received frame is delivered. */
  function Deliver<F>(l: Ledger<F>, s: PortState): Ledger<F>
    requires l.rx.Some?
  {
    l.(state := s, rx := None, released := l.released + [l.rx.value])
  }

  lemma DeliverSound<F>(l: Ledger<F>, s: PortState)
    requires Sound(l) && l.rx.Some? && !l.state.Busy() && (s == Idle || s == IdleAfterDmxData00)
    ensures Sound(Deliver(l, s))
  {
  }

  /** The request frame itself is delivered as the answer; a receive frame, if there is one, is freed. */
  function AnswerWithRequest<F>(l: Ledger<F>): Ledger<F>
    requires l.tx.Some?
  {
    l.(state := Idle, tx := None, rx := None, answers := l.answers + [Answer(l.tx.value, l.tx.value)],
       released := l.released + (if l.rx.Some? then [l.rx.value] else []) + [l.tx.value])
  }

  lemma RequestsSnoc<F>(answers: seq<Answer<F>>, a: Answer<F>)
    ensures Requests(answers + [a]) == Requests(answers) + [a.request]
  {
    assert (answers + [a])[..|answers|] == answers;
  }

  lemma AnswerWithRequestSound<F>(l: Ledger<F>)
    requires Sound(l) && l.state.AwaitsReply()
    ensures Sound(AnswerWithRequest(l))
  {
    hide Requests;
    RequestsSnoc(l.answers, Answer(l.tx.value, l.tx.value));
  }

  /** The received frame is delivered as the answer and the request is freed. */
  function AnswerWithReply<F>(l: Ledger<F>): Ledger<F>
    requires l.tx.Some? && l.rx.Some?
  {
    l.(state := Idle, tx := None, rx := None, answers := l.answers + [Answer(l.tx.value, l.rx.value)],
       released := l.released + [l.tx.value] + [l.rx.value])
  }

  lemma AnswerWithReplySound<F>(l: Ledger<F>)
    requires Sound(l) && l.state == RecvRdmReplyData
    ensures Sound(AnswerWithReply(l))
  {
    hide Requests;
    RequestsSnoc(l.answers, Answer(l.tx.value, l.rx.value));
  }

  /** Steps within a reception that touch no frame. */
  lemma MoveSound<F>(l: Ledger<F>, s: PortState)
    requires Sound(l)
    requires (l.state == ExpectStartcode && s == ReceiveDmxData) ||
             (l.state == RecvDiscReply && s == RecvDiscReplyCollision) ||
             (l.state == IdleAfterDmxData00 && s == Idle)
    ensures Sound(l.(state := s))
  {
  }

  /** The receive buffer is complete; `dmx` says that the frame has start code 0. */
  ghost function Ended<F>(l: Ledger<F>, dmx: bool): Ledger<F>
    requires Sound(l)
  {
    match l.state
    case ReceiveDmxData => Deliver(l, if dmx then IdleAfterDmxData00 else Idle)
    case RecvRdmReplyData => AnswerWithReply(l)
    case RecvDiscReply => AnswerWithRequest(l)
    case RecvDiscReplyCollision => AnswerWithRequest(l)
    case _ => l
  }

  /** The last octet has left the transmitter; `branch` says that the frame is a discovery request, whose
      reply comes without a break and is received into `f`. */
  ghost function Transmitted<F>(l: Ledger<F>, branch: bool, f: Option<F>): Ledger<F>
    requires Sound(l)
  {
    match l.state
    case TransmitDataOneway => EndOneway(l)
    case TransmitDataTwoway => if branch && f.Some? then Listen(l, RecvDiscReply, f.value) else AwaitBreak(l)
    case _ => l
  }

  /** A break has been received; `f` is the frame for what follows. */
  ghost function Broken<F>(l: Ledger<F>, f: Option<F>): Ledger<F>
    requires Sound(l)
  {
    match l.state
    case Idle => if f.Some? then Listen(l, ExpectStartcode, f.value) else l
    case IdleAfterDmxData00 => if f.Some? then Listen(l, ExpectStartcode, f.value) else l
    case ExpectRdmReplyBreak => if f.Some? then Listen(l, RecvRdmReplyData, f.value) else l
    case ReceiveDmxData => if f.Some? then Listen(Deliver(l, Idle), ExpectStartcode, f.value) else l
    case RecvDiscReply => l.(state := RecvDiscReplyCollision)
    case _ => l
  }

  // ----- runs -------------------------------------------------------------------------------------------

  /** The callbacks of the port, each with the new frame that it may take. */
  datatype Callback<F> =
    | SendFrame(frame: F, twoway: bool)
    | TxEnd2(branch: bool, frame: F)
    | RxBreak(frame: F)
    | RxTrigger
    | RxEnd(dmx: bool)
    | RxChar
    | RdmTimeout

  ghost predicate Offered<F>(l: Ledger<F>, c: Callback<F>) {
    c.SendFrame? || c.TxEnd2? || c.RxBreak? ==> New(l, c.frame)
  }

  /** What a callback does, whatever the state it finds. */
  ghost function Perform<F>(l: Ledger<F>, c: Callback<F>): Ledger<F>
    requires Sound(l)
  {
    match c
    case SendFrame(f, twoway) => if l.state.Busy() then l else Begin(l, f, twoway)
    case TxEnd2(branch, f) => Transmitted(l, branch, Some(f))
    case RxBreak(f) => Broken(l, Some(f))
    case RxTrigger => if l.state == ExpectStartcode then l.(state := ReceiveDmxData) else l
    case RxEnd(dmx) => Ended(l, dmx)
    case RxChar => if l.state == IdleAfterDmxData00 then l.(state := Idle) else l
    case RdmTimeout => if l.state.AwaitsReply() then AnswerWithRequest(l) else l
  }

  // ----- what the callbacks do to each field ----------------------------------------------------------------

  /** A frame to send is refused without effect while the port is busy; otherwise it is the one in transmission,
      and whatever was being received is left where it is. */
  lemma SendFields<F>(l: Ledger<F>, f: F, twoway: bool)
    requires Sound(l)
    ensures var n := Perform(l, SendFrame(f, twoway));
            if l.state.Busy() then n == l
            else
              && n.state == (if twoway then TransmitDataTwoway else TransmitDataOneway) && n.tx == Some(f) && n.rx == l.rx && n.driverOn
              && n.accepted == (if twoway then l.accepted + [f] else l.accepted) && n.answers == l.answers && n.released == l.released
  {
  }

  /** After transmission a one-way frame is given away, and a two-way one stays until it is answered. */
  lemma TransmittedFields<F>(l: Ledger<F>, branch: bool, f: F)
    requires Sound(l)
    ensures var n := Perform(l, TxEnd2(branch, f));
            && n.accepted == l.accepted && n.answers == l.answers
            && match l.state
               case TransmitDataOneway =>
                 l.tx.Some? && n.state == Idle && n.tx == None && n.rx == l.rx && !n.driverOn && n.released == l.released + [l.tx.value]
               case TransmitDataTwoway =>
                 && n.state == (if branch then RecvDiscReply else ExpectRdmReplyBreak) && n.tx == l.tx && !n.driverOn
                 && n.rx == (if branch then Some(f) else l.rx) && n.released == l.released
               case _ => n == l
  {
  }

  /** A break delivers the DMX frame that was being received; where one may begin, a new frame is taken for it, and
      a discovery reply is marked as disturbed. It answers nothing and changes nothing else. */
  lemma BrokenFields<F>(l: Ledger<F>, f: F)
    requires Sound(l)
    ensures var n := Perform(l, RxBreak(f));
            && n.tx == l.tx && n.accepted == l.accepted && n.answers == l.answers
            && match l.state
               case ReceiveDmxData =>
                 l.rx.Some? && n.state == ExpectStartcode && n.rx == Some(f) && n.released == l.released + [l.rx.value] && !n.driverOn
               case Idle => n.state == ExpectStartcode && n.rx == Some(f) && n.released == l.released && !n.driverOn
               case IdleAfterDmxData00 => n.state == ExpectStartcode && n.rx == Some(f) && n.released == l.released && !n.driverOn
               case ExpectRdmReplyBreak => n.state == RecvRdmReplyData && n.rx == Some(f) && n.released == l.released && !n.driverOn
               case RecvDiscReply => n == l.(state := RecvDiscReplyCollision)
               case _ => n == l
  {
  }

  /** A complete reception delivers a DMX frame, or answers the request: with the reply received, after which both
      frames are given away, or with the request frame itself, after the area for the reply. */
  lemma EndedFields<F>(l: Ledger<F>, dmx: bool)
    requires Sound(l)
    ensures var n := Perform(l, RxEnd(dmx));
            n.accepted == l.accepted && n.driverOn == l.driverOn &&
            if l.state == ReceiveDmxData then
              && l.rx.Some? && n.state == (if dmx then IdleAfterDmxData00 else Idle) && n.tx == l.tx && n.rx == None
              && n.answers == l.answers && n.released == l.released + [l.rx.value]
            else if l.state == RecvRdmReplyData then
              && l.tx.Some? && l.rx.Some? && n.state == Idle && n.tx == None && n.rx == None
              && n.answers == l.answers + [Answer(l.tx.value, l.rx.value)] && n.released == l.released + [l.tx.value, l.rx.value]
            else if l.state.Listens() then
              && l.tx.Some? && l.rx.Some? && n.state == Idle && n.tx == None && n.rx == None
              && n.answers == l.answers + [Answer(l.tx.value, l.tx.value)] && n.released == l.released + [l.rx.value, l.tx.value]
            else n == l
  {
  }

  /** A timeout answers a waiting request with itself and frees whatever was being received. */
  lemma TimeoutFields<F>(l: Ledger<F>)
    requires Sound(l)
    ensures var n := Perform(l, RdmTimeout);
            n.accepted == l.accepted && n.driverOn == l.driverOn &&
            if l.state.AwaitsReply() then
              && l.tx.Some? && n.state == Idle && n.tx == None && n.rx == None
              && n.answers == l.answers + [Answer(l.tx.value, l.tx.value)]
              && n.released == l.released + (if l.rx.Some? then [l.rx.value, l.tx.value] else [l.tx.value])
            else n == l
  {
  }

  /** Only receptions end; discovery replies end with the request as its own answer. */
  lemma EndedCases<F>(l: Ledger<F>, dmx: bool)
    requires Sound(l)
    ensures l.rx.None? || !l.state.Receiving() || l.state == ExpectStartcode ==> Ended(l, dmx) == l
    ensures l.state.Listens() ==> l.rx.Some? && l.tx.Some? && Ended(l, dmx) == AnswerWithRequest(l)
    ensures l.state == ReceiveDmxData || l.state == RecvRdmReplyData ==> l.rx.Some?
  {
  }

  /** A break matters to a port that listens for one and to the receptions that it ends or disturbs. */
  lemma BrokenCases<F>(l: Ledger<F>, f: Option<F>)
    requires Sound(l)
    ensures (l.state == Idle || l.state == IdleAfterDmxData00 || l.state == ExpectRdmReplyBreak ||
             l.state == ReceiveDmxData || l.state == RecvDiscReply) || Broken(l, f) == l
  {
  }

  lemma EndedSound<F>(l: Ledger<F>, dmx: bool)
    requires Sound(l)
    ensures Sound(Ended(l, dmx))
  {
    match l.state
    case ReceiveDmxData => DeliverSound(l, if dmx then IdleAfterDmxData00 else Idle);
    case RecvRdmReplyData => AnswerWithReplySound(l);
    case RecvDiscReply => AnswerWithRequestSound(l);
    case RecvDiscReplyCollision => AnswerWithRequestSound(l);
    case _ =>
  }

  lemma TransmittedSound<F>(l: Ledger<F>, branch: bool, f: F)
    requires Sound(l) && New(l, f)
    ensures Sound(Transmitted(l, branch, Some(f)))
  {
    match l.state
    case TransmitDataOneway => EndOnewaySound(l);
    case TransmitDataTwoway =>
      if branch {
        ListenSound(l, RecvDiscReply, f);
      } else {
        AwaitBreakSound(l);
      }
    case _ =>
  }

  lemma BrokenSound<F>(l: Ledger<F>, f: F)
    requires Sound(l) && New(l, f)
    ensures Sound(Broken(l, Some(f)))
  {
    match l.state
    case Idle => ListenSound(l, ExpectStartcode, f);
    case IdleAfterDmxData00 => ListenSound(l, ExpectStartcode, f);
    case ExpectRdmReplyBreak => ListenSound(l, RecvRdmReplyData, f);
    case ReceiveDmxData =>
      DeliverSound(l, Idle);
      ListenSound(Deliver(l, Idle), ExpectStartcode, f);
    case RecvDiscReply => MoveSound(l, RecvDiscReplyCollision);
    case _ =>
  }

  lemma PerformSound<F>(l: Ledger<F>, c: Callback<F>)
    requires Sound(l) && Offered(l, c)
    ensures Sound(Perform(l, c))
  {
    match c
    case SendFrame(f, twoway) =>
      if !l.state.Busy() {
        BeginSound(l, f, twoway);
      }
    case TxEnd2(branch, f) => TransmittedSound(l, branch, f);
    case RxBreak(f) => BrokenSound(l, f);
    case RxTrigger =>
      if l.state == ExpectStartcode {
        MoveSound(l, ReceiveDmxData);
      }
    case RxEnd(dmx) => EndedSound(l, dmx);
    case RxChar =>
      if l.state == IdleAfterDmxData00 {
        MoveSound(l, Idle);
      }
    case RdmTimeout =>
      if l.state.AwaitsReply() {
        AnswerWithRequestSound(l);
      }
  }

  /** A run of the port: callbacks in any order, starting from an idle port. */
  ghost predicate IsRun<F>(run: seq<Ledger<F>>, callbacks: seq<Callback<F>>) {
    && |run| == |callbacks| + 1 && run[0] == Ledger(Idle, None, None, false, [], [], [])
    && forall i | 0 <= i < |callbacks| ::
         Sound(run[i]) ==> Offered(run[i], callbacks[i]) && run[i + 1] == Perform(run[i], callbacks[i])
  }

  lemma {:induction false} RunSound<F>(run: seq<Ledger<F>>, callbacks: seq<Callback<F>>, n: nat)
    requires IsRun(run, callbacks) && n < |run|
    ensures Sound(run[n])
  {
    if n > 0 {
      RunSound(run, callbacks, n - 1);
      PerformSound(run[n - 1], callbacks[n - 1]);
    }
  }

  /** Over every run: the k-th answer is for the k-th accepted request, there are as many answers as
      requests but for the one in progress, and no frame was given away twice. */
  lemma OneAnswerPerRequest<F>(run: seq<Ledger<F>>, callbacks: seq<Callback<F>>, n: nat)
    requires IsRun(run, callbacks) && n < |run|
    ensures var l := run[n];
            && |l.accepted| == |l.answers| + (if l.state.Exchange() then 1 else 0)
            && (forall k | 0 <= k < |l.answers| :: l.answers[k].request == l.accepted[k])
            && (l.state.Exchange() ==> l.tx == Some(l.accepted[|l.answers|]))
            && (l.tx.Some? <==> l.state.Busy()) && (l.driverOn <==> l.state.Transmitting())
            && (forall i, j | 0 <= i < j < |l.released| :: l.released[i] != l.released[j])
  {
    RunSound(run, callbacks, n);
    RequestsLength(run[n].answers);
    forall k | 0 <= k < |run[n].answers|
      ensures Requests(run[n].answers)[k] == run[n].answers[k].request
    {
      RequestsAt(run[n].answers, k);
    }
  }

  lemma {:induction false} RequestsLength<F>(answers: seq<Answer<F>>)
    ensures |Requests(answers)| == |answers|
  {
    if answers != [] {
      RequestsLength(answers[..|answers| - 1]);
    }
  }

  lemma {:induction false} RequestsAt<F>(answers: seq<Answer<F>>, k: nat)
    requires k < |answers|
    ensures |Requests(answers)| == |answers| && Requests(answers)[k] == answers[k].request
  {
    RequestsLength(answers);
    RequestsLength(answers[..|answers| - 1]);
    if k < |answers| - 1 {
      RequestsAt(answers[..|answers| - 1], k);
    }
  }
}
