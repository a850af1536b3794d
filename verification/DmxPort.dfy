/** The half-duplex DMX512/RDM port of `t_dmxrtuart.c` on the receive machinery of `rtuart_pc16c550.c`.
    Every callback is one atomic step. */
module DmxPort {
  import opened Sequences
  import opened Octets
  import opened RdmPacket
  import opened SlotLock
  import opened PortLedger
  import DiscoveryReply

  const FRAME_SIZE := 513
  const REPLY_AREA := 258
  const REPLY_SIZE := 255

  /** The 513 octets of a frame: start code and up to 512 slots. */
  type FrameData = d: seq<Octet> | |d| == 513 witness seq(513, _ => 0)

  class Frame {
    var data: FrameData
    var payloadSize: nat
    var noBreak: bool

    constructor (data: FrameData, payloadSize: nat, noBreak: bool)
      ensures this.data == data && this.payloadSize == payloadSize && this.noBreak == noBreak
    {
      this.data, this.payloadSize, this.noBreak := data, payloadSize, noBreak;
    }
  }

  // ----- what kind of frame --------------------------------------------------------------------------

  predicate IsBranchRequest(d: seq<Octet>)
    requires |d| >= HEADER_SIZE
  {
    IsRdm(d) && d[20] == DISCOVERY_COMMAND && d[21] == 0 && d[22] == 1 && d[23] == 12
  }

  predicate IsBranchReply(d: seq<Octet>)
    requires |d| >= HEADER_SIZE
  {
    IsRdm(d) && d[20] == DISCOVERY_COMMAND_RESPONSE && d[21] == 0 && d[22] == 1 && d[23] == 0
  }

  predicate IsRdmRequest(d: seq<Octet>)
    requires |d| >= HEADER_SIZE
  {
    IsRdm(d) && (d[20] == DISCOVERY_COMMAND || d[20] == GET_COMMAND || d[20] == SET_COMMAND)
  }

  /** Requests with an answer: discovery branches, and any request to a single responder. */
  predicate IsTwoway(d: seq<Octet>)
    requires |d| >= HEADER_SIZE
  {
    IsBranchRequest(d) || (IsRdmRequest(d) && UidAt(d, 3) != BROADCAST)
  }

  /** Two-way frames are requests, and no request is a reply. */
  lemma RequestKinds(d: seq<Octet>)
    requires |d| >= HEADER_SIZE
    ensures IsTwoway(d) ==> IsBranchRequest(d) || IsRdmRequest(d)
    ensures IsBranchReply(d) ==> !IsBranchRequest(d) && !IsRdmRequest(d)
  {
  }

  /** The kinds of frames by the fields of the message that they hold; a frame that is no RDM message is of none. */
  lemma FrameKinds(h: Header, pd: seq<Octet>, rest: seq<Octet>)
    requires |pd| <= 231
    ensures var d := Encode(h, pd) + rest;
            && (IsBranchRequest(d) <==> h.cc == 0x10 && h.pid == 0x0001 && |pd| == 12)
            && (IsBranchReply(d) <==> h.cc == 0x11 && h.pid == 0x0001 && pd == [])
            && (IsRdmRequest(d) <==> h.cc in {0x10, 0x20, 0x30})
            && (IsTwoway(d) <==> IsBranchRequest(d) || (h.cc in {0x10, 0x20, 0x30} && h.dst != 0xFFFF_FFFF_FFFF))
  {
    var p, d := Encode(h, pd), Encode(h, pd) + rest;
    EncodedOctets(h, pd);
    DecodeEncode(h, pd);
    assert p[21] == p[21..23][0] && p[22] == p[21..23][1];
    assert d[3..9] == p[3..9];
    assert UidAt(d, 3) == HeaderOf(p).dst;
    hide Encode, HeaderOf, UidAt;
    assert forall i | 0 <= i < 24 :: d[i] == p[i];
  }

  lemma OtherFrames(d: seq<Octet>)
    requires |d| >= HEADER_SIZE && (d[0] != 0xCC || d[1] != 0x01)
    ensures !IsBranchRequest(d) && !IsBranchReply(d) && !IsRdmRequest(d) && !IsTwoway(d)
  {
  }

  /** What is written into the reply area does not change the kind of a frame. */
  lemma ReplyKept(d: seq<Octet>, octets: seq<Octet>)
    requires |d| == FRAME_SIZE && |octets| <= REPLY_SIZE && IsBranchReply(d)
    ensures var r := Put(d, REPLY_AREA, octets); !IsBranchRequest(r) && !IsRdmRequest(r)
  {
  }

  /** A discovery request turned into the response that stands for its outcome. */
  function Answered(d: seq<Octet>, src: seq<Octet>, responseType: Octet): (r: seq<Octet>)
    requires |d| == FRAME_SIZE && |src| == 6
    ensures |r| == FRAME_SIZE
  {
    Put(Put(d, 3, d[9..15]), 9, src)[16 := responseType][20 := DISCOVERY_COMMAND_RESPONSE]
  }

  /** The response that a discovery outcome is reported as. */
  function OutcomeFrame(d: seq<Octet>, o: DiscoveryReply.Outcome): (r: seq<Octet>)
    requires |d| == FRAME_SIZE && (o.Heard? ==> |o.uid| == 6)
    ensures |r| == FRAME_SIZE
  {
    match o
    case NoReply => Answered(d, Fill(0), RESPONSE_TYPE_NOREPLY)
    case Collided => Answered(d, Fill(0xFF), RESPONSE_TYPE_ACK)
    case Heard(uid) => Answered(d, uid, RESPONSE_TYPE_ACK)
  }

  /** The UID that an outcome is reported by: the responder's, all ones for a collision, zero for silence. */
  function ReportedUid(o: DiscoveryReply.Outcome): Uid
    requires o.Heard? ==> |o.uid| == 6
  {
    match o
    case NoReply => ANY
    case Collided => BROADCAST
    case Heard(uid) => UidAt(uid, 0)
  }

  lemma PutUidOctets(s: seq<Octet>, off: nat, uid: seq<Octet>)
    requires |s| >= 24 && (off == 3 || off == 9) && |uid| == 6
    ensures HeaderOf(Put(s, off, uid)) ==
            if off == 3 then HeaderOf(s).(dst := UidAt(uid, 0)) else HeaderOf(s).(src := UidAt(uid, 0))
  {
    assert uid[0..6] == uid;
    FromBigEndianRoundTrip(uid);
    PutUid(s, off, UidAt(uid, 0));
  }

  /** The outcome goes back to the requester as a response with the request's PID, from the UID that stands
      for it; an acknowledgement unless nobody replied. */
  lemma OutcomeRead(d: seq<Octet>, o: DiscoveryReply.Outcome)
    requires |d| == FRAME_SIZE && (o.Heard? ==> |o.uid| == 6)
    ensures HeaderOf(OutcomeFrame(d, o)) ==
            HeaderOf(d).(dst := HeaderOf(d).src, src := ReportedUid(o), cc := DISCOVERY_COMMAND_RESPONSE,
                         portId := if o.NoReply? then RESPONSE_TYPE_NOREPLY else RESPONSE_TYPE_ACK)
  {
    hide HeaderOf;
    FillValues();
    var src := match o case NoReply => Fill(0) case Collided => Fill(0xFF) case Heard(uid) => uid;
    AnsweredRead(d, src, if o.NoReply? then RESPONSE_TYPE_NOREPLY else RESPONSE_TYPE_ACK);
  }

  /** Nothing else in the frame is changed. */
  lemma OutcomeElsewhere(d: seq<Octet>, o: DiscoveryReply.Outcome, i: nat)
    requires |d| == FRAME_SIZE && (o.Heard? ==> |o.uid| == 6) && i < FRAME_SIZE
    ensures i < 3 || i == 15 || 17 <= i < 20 || i > 20 ==> OutcomeFrame(d, o)[i] == d[i]
  {
  }

  /** From what a responder sent to what the requester reads: its UID if the reply came in undisturbed, all ones
      after a break, zero and no acknowledgement if nothing came. */
  lemma ReplyReported(d: seq<Octet>, noise: seq<Octet>, uid: seq<Octet>, rest: seq<Octet>, octets: seq<Octet>)
    requires |d| == FRAME_SIZE && |uid| == 6 && DiscoveryReply.PREAMBLE !in noise
    ensures var heard := HeaderOf(OutcomeFrame(d, ReadOutcome(false, noise + DiscoveryReply.EncodeReply(uid) + rest)));
            heard.src == UidAt(uid, 0) && heard.portId == 0x00 && heard.cc == 0x11
    ensures var broken := HeaderOf(OutcomeFrame(d, ReadOutcome(true, octets)));
            broken.src == 0xFFFF_FFFF_FFFF && broken.portId == 0x00 && broken.cc == 0x11
    ensures var silence := HeaderOf(OutcomeFrame(d, ReadOutcome(false, [])));
            silence.src == 0 && silence.portId == 0xFF && silence.cc == 0x11
  {
    DiscoveryReply.DecodeEncode(noise, uid, rest);
    DiscoveryReply.DecodeExact([], uid);
    hide OutcomeFrame, HeaderOf, UidAt, DiscoveryReply.EncodeReply, DiscoveryReply.Decode;
    OutcomeRead(d, DiscoveryReply.Heard(uid));
    OutcomeRead(d, DiscoveryReply.Collided);
    OutcomeRead(d, DiscoveryReply.NoReply);
  }

  lemma AnsweredRead(d: seq<Octet>, src: seq<Octet>, responseType: Octet)
    requires |d| == FRAME_SIZE && |src| == 6
    ensures HeaderOf(Answered(d, src, responseType)) ==
            HeaderOf(d).(dst := HeaderOf(d).src, src := UidAt(src, 0), cc := DISCOVERY_COMMAND_RESPONSE, portId := responseType)
  {
    assert UidAt(d[9..15], 0) == HeaderOf(d).src by {
      assert d[9..15][0..6] == d[9..15];
    }
    hide HeaderOf, Put;
    PutUidOctets(d, 3, d[9..15]);
    var turned := Put(d, 3, d[9..15]);
    PutUidOctets(turned, 9, src);
    var from := Put(turned, 9, src);
    PutOctet(from, 16, responseType);
    PutOctet(from[16 := responseType], 20, DISCOVERY_COMMAND_RESPONSE);
  }

  // ----- where a frame ends -----------------------------------------------------------------------------

  /** Octets of the frame that a reception is cut to, as far as the octets received so far decide it:
      an RDM message by its length field, a DMX frame by a slot-count lock, anything else by the buffer. */
  function Segment(s: seq<Octet>, locked: bool, slots: SlotCount): nat {
    if |s| >= 3 && s[0] == SC_RDM && s[1] == SC_SUB_MESSAGE then (if s[2] == 0 then 3 else s[2] as int + 2)
    else if |s| >= 2 && s[0] == 0 && locked then (if slots == 0 then 2 else if slots <= 512 then slots + 1 else FRAME_SIZE)
    else FRAME_SIZE
  }

  /** Valid count and armed triggers while a frame is being received. */
  datatype Gate = Gate(validcount: nat, startcode: bool, length: bool)

  function GateAfter(s: seq<Octet>, locked: bool, slots: SlotCount): Gate {
    var validcount :=
      if |s| >= 3 && s[0] == SC_RDM && s[1] == SC_SUB_MESSAGE then s[2] as int + 2
      else if |s| >= 2 && s[0] == 0 && locked then slots + 1
      else FRAME_SIZE;
    Gate(validcount, |s| < 2, |s| == 2 && s[0] == SC_RDM)
  }

  /** Where frames end, by what they begin with. A DMX frame ends after as many slots as the lock counts; without
      lock, for another start code or before the second octet it may fill the buffer. */
  lemma SegmentLengths(s: seq<Octet>, locked: bool, slots: SlotCount)
    ensures |s| >= 3 && s[0] == 0xCC && s[1] == 0x01 && s[2] > 0 ==> Segment(s, locked, slots) == s[2] as int + 2
    ensures |s| >= 2 && s[0] == 0 && locked && 1 <= slots <= 512 ==> Segment(s, locked, slots) == slots + 1
    ensures |s| >= 2 && s[0] == 0 && !locked ==> Segment(s, locked, slots) == 513
    ensures |s| < 2 || (s[0] != 0 && s[0] != 0xCC) ==> Segment(s, locked, slots) == 513
    ensures |s| >= 2 && s[0] == 0xCC && s[1] != 0x01 ==> Segment(s, locked, slots) == 513
  {
  }

  /** The valid count, lowered in mid-buffer, ends the reception exactly where the segment does. */
  lemma GateSegment(s: seq<Octet>, locked: bool, slots: SlotCount)
    requires s == [] || |s| - 1 < Segment(s[..|s| - 1], locked, slots)
    ensures |s| <= Segment(s, locked, slots) && 2 <= Segment(s, locked, slots) <= FRAME_SIZE
    ensures |s| < Segment(s, locked, slots) <==>
              |s| < GateAfter(s, locked, slots).validcount && |s| < FRAME_SIZE
  {
  }

  /** An encoded RDM message is cut out whole, whatever the lock says and whatever octets follow. */
  lemma EncodedSegment(h: Header, pd: seq<Octet>, rest: seq<Octet>, locked: bool, slots: SlotCount)
    requires |pd| <= 231
    ensures var p := Encode(h, pd);
            Segment(p + rest, locked, slots) == |p| && (p + rest)[..|p|] == p
  {
    DecodeEncode(h, pd);
    hide Encode;
    var p := Encode(h, pd);
    assert (p + rest)[0] == p[0] && (p + rest)[1] == p[1] && (p + rest)[2] == p[2];
  }

  function ToOption(f: Frame?): Option<Frame> {
    if f == null then None else Some(f)
  }

  /** What a receive interrupt is seen as part of. */
  datatype Watch =
    | Nothing
    | OfStream(before: Ledger<Frame>, frame: Frame, locked: bool, slots: SlotCount, history: seq<LockEvent>)
    | OfReply(before: Ledger<Frame>, request: Frame, was: FrameData, broken: bool)

  /** All octets of the segment have arrived in `got`. */
  ghost predicate Full(w: Watch, got: seq<Octet>) {
    w.OfStream? && Segment(got, w.locked, w.slots) <= |got|
  }

  /** The octets `octets` fill the segment and go on behind it. */
  ghost predicate Overrun(w: Watch, got: seq<Octet>, octets: seq<Octet>) {
    w.OfStream? && !Full(w, got) && Segment(got + octets, w.locked, w.slots) < |got + octets|
  }

  /** Some interrupt begins before octet `n` and goes on behind it. */
  predicate Straddled(groups: seq<seq<Octet>>, n: nat) {
    groups != [] &&
    (Straddled(groups[..|groups| - 1], n) || |Concat(groups[..|groups| - 1])| < n < |Concat(groups)|)
  }

  /** Once a segment is full, what follows does not change it. */
  lemma SegmentDecided(s: seq<Octet>, more: seq<Octet>, locked: bool, slots: SlotCount)
    ensures Segment(s, locked, slots) <= |s| ==> Segment(s + more, locked, slots) == Segment(s, locked, slots)
    ensures Segment(s + more, locked, slots) <= |s| ==> Segment(s, locked, slots) == Segment(s + more, locked, slots)
    ensures Segment(s, locked, slots) >= 2
  {
  }

  lemma OverrunStarts(w: Watch, got: seq<Octet>, octets: seq<Octet>)
    ensures !Overrun(w, got, octets[..0])
  {
    assert got + octets[..0] == got;
  }

  lemma OverrunNext(w: Watch, got: seq<Octet>, octets: seq<Octet>, i: nat)
    requires i < |octets|
    ensures Overrun(w, got, octets[..i + 1]) <==> !Full(w, got) && (Overrun(w, got, octets[..i]) || Full(w, got + octets[..i]))
  {
    var head := got + octets[..i];
    assert got + octets[..i + 1] == head + [octets[i]];
    if w.OfStream? {
      SegmentDecided(head, [octets[i]], w.locked, w.slots);
    }
  }

  lemma StraddledStarts(w: Watch, groups: seq<seq<Octet>>)
    requires w.OfStream?
    ensures Concat(groups[..0]) == [] && !Straddled(groups[..0], Segment(Concat(groups), w.locked, w.slots))
  {
  }

  lemma StraddledNext(w: Watch, groups: seq<seq<Octet>>, i: nat)
    requires w.OfStream? && i < |groups|
    ensures var n := Segment(Concat(groups), w.locked, w.slots);
            Straddled(groups[..i + 1], n) <==> Straddled(groups[..i], n) || Overrun(w, Concat(groups[..i]), groups[i])
  {
    var got, next, all := Concat(groups[..i]), Concat(groups[..i + 1]), Concat(groups);
    ConcatNext(groups, i);
    ConcatPrefix(groups, i);
    ConcatPrefix(groups, i + 1);
    assert groups[..i + 1][..i] == groups[..i];
    hide Concat, Segment;
    OverrunWithin(w, got, next, all, groups[i]);
  }

  /** A group overruns the segment of the whole stream exactly if that ends inside it. */
  lemma OverrunWithin(w: Watch, got: seq<Octet>, next: seq<Octet>, all: seq<Octet>, group: seq<Octet>)
    requires w.OfStream? && next == got + group && next <= all
    ensures Overrun(w, got, group) <==> |got| < Segment(all, w.locked, w.slots) < |next|
  {
    assert got <= all;
    var a, b := all[|got|..], all[|next|..];
    assert all == got + a && all == next + b;
    SegmentDecided(got, a, w.locked, w.slots);
    SegmentDecided(next, b, w.locked, w.slots);
    hide Segment;
  }

  lemma NothingYet(groups: seq<seq<Octet>>, got: seq<Octet>)
    ensures got + Concat(groups[..0]) == got
  {
  }

  lemma RepliesDoNotOverrun(w: Watch, got: seq<Octet>, octets: seq<Octet>)
    requires w.OfReply?
    ensures !Overrun(w, got, octets)
  {
  }

  // ----- the port ----------------------------------------------------------------------------------------

  class Port {
    var state: PortState
    var txFrame: Frame?
    var txOctets: seq<Octet>
    var rxFrame: Frame?
    var driverOn: bool
    const lock: SlotCountLock

    // the UART's receive buffer
    var rxActive: bool
    var target: Frame?
    var offset: nat
    var validcount: nat
    var transfered: nat
    var startcodeArmed: bool   // trigger 0, at octet 1
    var lengthArmed: bool      // trigger 1, at octet 2
    var hasData: bool          // octets are handled (RTUART_NOTIFY_RECEIVER_HASDATA) or flushed

    // the reply timer
    var armed: bool            // it will expire
    var expired: bool          // it has, and the next poll calls the timeout handler

    // history
    ghost var accepted: seq<Frame>
    ghost var answers: seq<Answer<Frame>>
    ghost var released: seq<Frame>
    ghost var lineBreak: bool  // the latest transmission began with a break on the line
    ghost var cancelled: bool  // a timeout was handled while the request of this exchange was being sent

    constructor ()
      ensures Inv() && fresh(lock) && state == Idle && lock.enabled && !lock.locked
      ensures View() == Ledger(Idle, None, None, false, [], [], []) && !Orphaned() && !armed && !expired
    {
      state, txFrame, txOctets, rxFrame, driverOn := Idle, null, [], null, false;
      lock := new SlotCountLock();
      rxActive, target, offset, validcount, transfered := false, null, 0, 0, 0;
      startcodeArmed, lengthArmed, hasData := false, false, false;
      armed, expired, cancelled, lineBreak := false, false, false, false;
      accepted, answers, released := [], [], [];
      new;
      lock.enabled := true;
    }

    ghost function View(): Ledger<Frame>
      reads this`state, this`txFrame, this`rxFrame, this`driverOn, this`accepted, this`answers, this`released
    {
      Ledger(state, ToOption(txFrame), ToOption(rxFrame), driverOn, accepted, answers, released)
    }

    ghost predicate Inv()
      reads this, lock
    {
      && Sound(View()) && lock.Valid() && offset + transfered <= FRAME_SIZE && (state == ReceiveDmxData ==> transfered > 0)
      && (rxActive ==> target != null && (target == rxFrame || target in released)) && (hasData ==> rxActive)
      && (state.Listens() ==> target == rxFrame && offset == REPLY_AREA && validcount == REPLY_SIZE)
    }

    /** Octets are still handled, and the receive buffer points into a frame that has been given away. */
    ghost predicate Orphaned()
      reads this`hasData, this`target, this`rxFrame
    {
      hasData && target != rxFrame
    }

    /** While an exchange is in progress: its request has a timer exactly if no timeout was handled while it was
        being sent. */
    ghost predicate Clocked()
      reads this`state, this`armed, this`expired, this`cancelled
    {
      state.Exchange() ==> (armed || expired <==> !cancelled)
    }

    /** An octet is written into a frame that is no longer the port's exactly if the buffer is orphaned. */
    lemma OrphanedExactly()
      requires Inv() && hasData
      ensures target in released <==> Orphaned()
      ensures txFrame != null ==> target != txFrame
    {
    }

    // ----- transmit ----------------------------------------------------------------------------------------

    /** `dmx512_rtuart_client_send_frame`: refused exactly while a frame is in transmission or waiting for
        its reply. */
    method SendFrame(frame: Frame) returns (ok: bool)
      requires Inv() && New(View(), frame) && frame.payloadSize < FRAME_SIZE
      modifies this`txFrame, this`txOctets, this`state, this`driverOn, this`accepted, this`hasData, this`armed, this`cancelled, this`lineBreak, frame
      ensures Inv() && (ok <==> !old(state.Busy()))
      ensures View() == if ok then Begin(old(View()), frame, IsTwoway(old(frame.data))) else old(View())
      ensures ok ==> txOctets == if IsBranchReply(old(frame.data)) then DiscoveryReply.EncodeReply(old(frame.data)[9..15])
                                 else old(frame.data[..frame.payloadSize + 1])
      ensures frame.data == if ok && IsBranchReply(old(frame.data)) then Put(old(frame.data), REPLY_AREA, txOctets) else old(frame.data)
      ensures ok ==> !hasData && !Orphaned() && (armed <==> old(armed) || IsBranchRequest(frame.data) || IsRdmRequest(frame.data))
      ensures ok ==> && txFrame == frame && driverOn
                     && state == (if IsTwoway(old(frame.data)) then TransmitDataTwoway else TransmitDataOneway)
                     && accepted == old(accepted) + if IsTwoway(old(frame.data)) then [frame] else []
      ensures frame.payloadSize == old(frame.payloadSize) && frame.noBreak == (old(frame.noBreak) || (ok && IsBranchReply(old(frame.data)))) && (ok ==> lineBreak == !frame.noBreak)
      ensures !ok ==> txFrame == old(txFrame) && driverOn == old(driverOn) && state == old(state) && accepted == old(accepted)
      ensures ok && IsTwoway(old(frame.data)) ==> armed && !cancelled
      ensures !ok ==> hasData == old(hasData) && armed == old(armed) && cancelled == old(cancelled)
      ensures old(Clocked()) ==> Clocked()
    {
      SoundFrames(View());
      if txFrame != null {
        return false;
      }
      ok := true;
      var twoway := IsTwoway(frame.data);
      BeginSound(View(), frame, twoway);
      hide IsTwoway, IsBranchReply, IsBranchRequest, IsRdmRequest, DiscoveryReply.EncodeReply;
      hide Sound;
      StartFrame(frame, twoway);
    }

    /** `dmx512_rtuart_start_frame`: the whole break happens inside this call. Octets that come in from now on
        are flushed. */
    method StartFrame(frame: Frame, twoway: bool)
      requires frame.payloadSize < FRAME_SIZE && twoway == IsTwoway(frame.data)
      modifies this`txFrame, this`txOctets, this`state, this`driverOn, this`accepted, this`hasData, this`armed, this`cancelled, this`lineBreak, frame
      ensures View() == Begin(old(View()), frame, twoway) && !hasData
      ensures txOctets == if IsBranchReply(old(frame.data)) then DiscoveryReply.EncodeReply(old(frame.data)[9..15])
                          else old(frame.data[..frame.payloadSize + 1])
      ensures frame.data == if IsBranchReply(old(frame.data)) then Put(old(frame.data), REPLY_AREA, txOctets) else old(frame.data)
      ensures frame.payloadSize == old(frame.payloadSize) && frame.noBreak == (old(frame.noBreak) || IsBranchReply(old(frame.data))) && lineBreak == !frame.noBreak
      ensures armed <==> old(armed) || IsBranchRequest(frame.data) || IsRdmRequest(frame.data)
      ensures twoway ==> armed && !cancelled
    {
      RequestKinds(frame.data);
      hide *;
      PrepareOctets(frame);
      Claim(frame, twoway);
    }

    /** The line is the frame's; octets that come in from now on are flushed. */
    method Claim(frame: Frame, twoway: bool)
      modifies this`txFrame, this`state, this`driverOn, this`accepted, this`hasData, this`cancelled, this`lineBreak
      ensures View() == Begin(old(View()), frame, twoway) && !hasData && (twoway ==> !cancelled) && lineBreak == !frame.noBreak
    {
      hasData := false;
      txFrame := frame;
      state := if twoway then TransmitBreakTwoway else TransmitBreakOneway;
      driverOn, lineBreak := true, false;
      if !frame.noBreak {
        lineBreak := true;
      }
      state := if state.TransmitBreakTwoway? then TransmitDataTwoway else TransmitDataOneway;
      assert accepted + [] == accepted;
      if twoway {
        accepted := accepted + [frame];
        cancelled := false;
      }
    }

    /** What goes out, and the timer for its reply. */
    method PrepareOctets(frame: Frame)
      requires frame.payloadSize < FRAME_SIZE
      modifies this`txOctets, this`armed, frame
      ensures txOctets == if IsBranchReply(old(frame.data)) then DiscoveryReply.EncodeReply(old(frame.data)[9..15])
                          else old(frame.data[..frame.payloadSize + 1])
      ensures frame.data == if IsBranchReply(old(frame.data)) then Put(old(frame.data), REPLY_AREA, txOctets) else old(frame.data)
      ensures frame.payloadSize == old(frame.payloadSize) && frame.noBreak == (old(frame.noBreak) || IsBranchReply(old(frame.data)))
      ensures armed <==> old(armed) || IsBranchRequest(frame.data) || IsRdmRequest(frame.data)
      ensures IsBranchRequest(old(frame.data)) || IsRdmRequest(old(frame.data)) ==> armed
    {
      RequestKinds(frame.data);
      txOctets := frame.data[..frame.payloadSize + 1];
      if IsBranchRequest(frame.data) || IsRdmRequest(frame.data) {
        hide *;
        armed := true;
      } else if IsBranchReply(frame.data) {
        ghost var was := frame.data;
        hide IsBranchReply, IsBranchRequest, IsRdmRequest, DiscoveryReply.EncodeReply, Put;
        frame.noBreak := true;
        txOctets := BuildReplyIn(frame);
        ReplyKept(was, txOctets);
      }
    }

    /** The encoded reply of the frame's source goes into its reply area. */
    method BuildReplyIn(frame: Frame) returns (octets: seq<Octet>)
      modifies frame`data
      ensures octets == DiscoveryReply.EncodeReply(old(frame.data)[9..15])
      ensures frame.data == Put(old(frame.data), REPLY_AREA, octets)
    {
      hide DiscoveryReply.EncodeReply;
      var d: FrameData := frame.data;
      var area := new Octet[FRAME_SIZE](i requires 0 <= i < FRAME_SIZE => d[i]);
      assert area[..] == d;
      var size := DiscoveryReply.BuildReply(area, REPLY_AREA, d[9..15]);
      octets := area[REPLY_AREA..REPLY_AREA + size];
      assert area[..] == area[..REPLY_AREA] + octets + area[REPLY_AREA + size..];
      frame.data := area[..];
    }

    /** `dmx512_rtuart_tx_end2`: the last octet has left the transmitter. */
    method TxEnd2()
      requires Inv()
      modifies this`state, this`driverOn, this`txFrame, this`released, this`rxFrame, this`target, this`offset, this`validcount, this`startcodeArmed, this`lengthArmed, this`rxActive,
               this`transfered, this`hasData
      ensures Inv() && View() == Transmitted(old(View()), old(txFrame != null && IsBranchRequest(txFrame.data)), ToOption(rxFrame))
      ensures old(state == TransmitDataTwoway && IsBranchRequest(txFrame.data)) ==>
                fresh(rxFrame) && rxActive && hasData && transfered == 0
      ensures old(state) == TransmitDataOneway ==>
                && old(txFrame) != null && state == Idle && txFrame == null && rxFrame == old(rxFrame) && !driverOn
                && released == old(released) + [old(txFrame)]
      ensures old(state) == TransmitDataTwoway ==>
                && state == (if IsBranchRequest(old(txFrame.data)) then RecvDiscReply else ExpectRdmReplyBreak) && !driverOn
                && txFrame == old(txFrame) && released == old(released)
                && (IsBranchRequest(old(txFrame.data)) || rxFrame == old(rxFrame))
      ensures old(state) != TransmitDataOneway && old(state) != TransmitDataTwoway ==>
                && state == old(state) && txFrame == old(txFrame) && rxFrame == old(rxFrame) && driverOn == old(driverOn)
                && released == old(released)
      ensures Orphaned() <==> old(Orphaned() && !(state == TransmitDataTwoway && IsBranchRequest(txFrame.data)))
      ensures old(Clocked()) ==> Clocked()
    {
      SoundFrames(View());
      hide IsBranchRequest, Sound, SlotCountLock.Valid, Clocked;
      if state == TransmitDataOneway {
        EndOfOneway();
        return;
      }
      if state == TransmitDataTwoway {
        if IsBranchRequest(txFrame.data) {
          StartReceive(RecvDiscReply, REPLY_AREA, false);
          return;
        }
        AwaitReply();
        return;
      }
    }

    method EndOfOneway()
      requires Inv() && state == TransmitDataOneway
      modifies this`state, this`driverOn, this`txFrame, this`released
      ensures Inv() && View() == EndOneway(old(View())) && (old(Clocked()) ==> Clocked())
      ensures old(txFrame) != null && state == Idle && txFrame == null && !driverOn && released == old(released) + [old(txFrame)]
    {
      EndOnewaySound(View());
      hide SlotCountLock.Valid;
      released := released + [txFrame];
      driverOn, txFrame, state := false, null, Idle;
    }

    method AwaitReply()
      requires Inv() && state == TransmitDataTwoway
      modifies this`state, this`driverOn
      ensures Inv() && View() == AwaitBreak(old(View())) && (old(Clocked()) ==> Clocked())
      ensures state == ExpectRdmReplyBreak && !driverOn
    {
      AwaitBreakSound(View());
      hide Sound, SlotCountLock.Valid;
      driverOn, state := false, ExpectRdmReplyBreak;
    }

    // ----- receive -----------------------------------------------------------------------------------------

    /** `dmx512_rtuart_start_receive_data`: a new frame for the octets to come. */
    method StartReceive(next: PortState, bufferOffset: nat, startcodeTrigger: bool)
      requires Inv() && next.Receiving() && next != ReceiveDmxData
      requires bufferOffset == if next.Listens() then REPLY_AREA else 0
      requires if next.AwaitsReply() then state == TransmitDataTwoway || state == ExpectRdmReplyBreak else !state.Busy()
      modifies this`state, this`driverOn, this`rxFrame, this`target, this`offset, this`validcount, this`startcodeArmed,
               this`lengthArmed, this`rxActive, this`transfered, this`hasData
      ensures Inv() && fresh(rxFrame) && View() == Listen(old(View()), next, rxFrame) && !Orphaned() && state == next && !driverOn
      ensures rxActive && hasData && target == rxFrame && offset == bufferOffset && transfered == 0
      ensures validcount == FRAME_SIZE - bufferOffset
      ensures startcodeTrigger && bufferOffset == 0 ==> Listening()
      ensures old(Clocked()) ==> Clocked()
    {
      hide Sound, SlotCountLock.Valid, Listen;
      var frame := NewFrame(next);
      SetBuffer(frame, bufferOffset, startcodeTrigger);
    }

    /** Points the receive buffer into a frame and hands it to the UART. */
    method SetBuffer(frame: Frame, bufferOffset: nat, startcodeTrigger: bool)
      requires bufferOffset <= FRAME_SIZE
      modifies this`target, this`offset, this`validcount, this`startcodeArmed, this`lengthArmed, this`rxActive, this`transfered, this`hasData
      ensures rxActive && hasData && target == frame && offset == bufferOffset && transfered == 0
      ensures validcount == FRAME_SIZE - bufferOffset
      ensures startcodeTrigger ==> startcodeArmed && !lengthArmed
    {
      target, offset, validcount := frame, bufferOffset, FRAME_SIZE - bufferOffset;
      if startcodeTrigger {
        startcodeArmed, lengthArmed := true, false;
      }
      rxActive, transfered, hasData := true, 0, true;
    }

    /** `dmx512_get_frame` for a reception. */
    method NewFrame(next: PortState) returns (frame: Frame)
      requires Inv() && next.Receiving() && next != ReceiveDmxData
      requires if next.AwaitsReply() then state == TransmitDataTwoway || state == ExpectRdmReplyBreak else !state.Busy()
      modifies this`state, this`driverOn, this`rxFrame
      ensures Sound(View()) && fresh(frame) && frame == rxFrame && state == next && !driverOn && View() == Listen(old(View()), next, frame)
    {
      hide Sound, SlotCountLock.Valid;
      frame := new Frame(seq(FRAME_SIZE, _ => 0), 0, false);
      assert New(View(), frame);
      ListenSound(View(), next, frame);
      state, driverOn, rxFrame := next, false, frame;
    }

    /** The receive buffer is set up for a frame from its start code on, and nothing has arrived. */
    ghost predicate Listening()
      reads this
    {
      rxActive && hasData && rxFrame != null && target == rxFrame && offset == 0 && transfered == 0 &&
      validcount == FRAME_SIZE && startcodeArmed && !lengthArmed
    }

    /** `dmx512_rtuart_rx_err` for a break condition. */
    method RxBreak()
      requires Inv()
      modifies this`state, this`driverOn, this`released, this`rxFrame, this`target, this`offset, this`validcount, this`startcodeArmed, this`lengthArmed, this`rxActive,
               this`transfered, this`hasData, lock, rxFrame
      ensures Inv() && View() == Broken(old(View()), ToOption(rxFrame))
      ensures old(state == Idle || state == IdleAfterDmxData00 || state == ReceiveDmxData || state == ExpectRdmReplyBreak) ==>
                fresh(rxFrame) && Listening()
      ensures lock.history == old(lock.history) +
                if old(state == ReceiveDmxData && rxFrame.data[0] == 0 && lock.enabled) then [Received(old(transfered - 1))] else []
      ensures old(state) == ReceiveDmxData ==>
                && old(rxFrame) != null && state == ExpectStartcode && released == old(released) + [old(rxFrame)]
                && old(rxFrame).payloadSize == old(transfered) - 1
      ensures old(rxFrame) != null ==> old(rxFrame).data == old(rxFrame.data)
      ensures old(state) != ReceiveDmxData ==> released == old(released)
      ensures old(state) == Idle || old(state) == IdleAfterDmxData00 ==> state == ExpectStartcode
      ensures old(state) == ExpectRdmReplyBreak ==> state == RecvRdmReplyData
      ensures old(state) == RecvDiscReply ==> state == RecvDiscReplyCollision && rxFrame == old(rxFrame)
      ensures old(state) !in {ReceiveDmxData, Idle, IdleAfterDmxData00, ExpectRdmReplyBreak, RecvDiscReply} ==>
                state == old(state) && rxFrame == old(rxFrame) && transfered == old(transfered) && driverOn == old(driverOn)
      ensures old(state) == RecvDiscReply ==> transfered == old(transfered) && rxActive == old(rxActive) && hasData == old(hasData) && rxFrame.data == old(rxFrame.data)
      ensures Orphaned() <==>
                old(Orphaned() && state != Idle && state != IdleAfterDmxData00 && state != ReceiveDmxData && state != ExpectRdmReplyBreak)
      ensures old(Clocked()) ==> Clocked()
    {
      BrokenCases(View(), ToOption(rxFrame));
      ViewFields();
      hide *;
      if state == RecvDiscReply {
        Disturb();
      } else if state == Idle || state == IdleAfterDmxData00 || state == ExpectRdmReplyBreak {
        StartAfterBreak();
      } else if state == ReceiveDmxData {
        FinishByBreak();
      }
    }

    /** A break within a discovery reply. */
    method Disturb()
      requires Inv() && state == RecvDiscReply
      modifies this`state
      ensures Inv() && View() == Broken(old(View()), ToOption(rxFrame)) && state == RecvDiscReplyCollision
      ensures old(Clocked()) ==> Clocked()
    {
      MoveSound(View(), RecvDiscReplyCollision);
      hide Sound, SlotCountLock.Valid;
      state := RecvDiscReplyCollision;
    }

    method StartAfterBreak()
      requires Inv() && (state == Idle || state == IdleAfterDmxData00 || state == ExpectRdmReplyBreak)
      modifies this`state, this`driverOn, this`rxFrame, this`target, this`offset, this`validcount, this`startcodeArmed,
               this`lengthArmed, this`rxActive, this`transfered, this`hasData
      ensures Inv() && View() == Broken(old(View()), ToOption(rxFrame)) && fresh(rxFrame) && Listening() && !Orphaned()
      ensures state == if old(state) == ExpectRdmReplyBreak then RecvRdmReplyData else ExpectStartcode
      ensures old(Clocked()) ==> Clocked()
    {
      hide Sound, SlotCountLock.Valid, Clocked, Listen;
      StartReceive(if state == ExpectRdmReplyBreak then RecvRdmReplyData else ExpectStartcode, 0, true);
    }

    /** A break ends the frame before it: it is delivered, counted for the lock, and a new one begins. */
    method FinishByBreak()
      requires Inv() && state == ReceiveDmxData
      modifies this`state, this`driverOn, this`released, this`rxFrame, this`target, this`offset, this`validcount, this`startcodeArmed, this`lengthArmed, this`rxActive,
               this`transfered, this`hasData, lock, rxFrame
      ensures Inv() && View() == Broken(old(View()), ToOption(rxFrame)) && fresh(rxFrame) && Listening() && !Orphaned()
      ensures old(Clocked()) ==> Clocked()
      ensures old(rxFrame) != null && state == ExpectStartcode && released == old(released) + [old(rxFrame)]
      ensures old(rxFrame).data == old(rxFrame.data) && old(rxFrame).payloadSize == old(transfered) - 1
      ensures lock.history == old(lock.history) + if old(rxFrame.data[0] == 0 && lock.enabled) then [Received(old(transfered - 1))] else []
    {
      hide SlotCountLock.Valid;
      rxActive, hasData := false, false;
      var startcode := rxFrame.data[0];
      var size := transfered - 1;
      CompleteRxFrame(Idle);
      if startcode == 0 {
        lock.ReceivedFrame(0, size);
      }
      StartReceive(ExpectStartcode, 0, true);
    }

    /** `dmx512_rtuart_complete_rxframe` and delivery of the frame. */
    method CompleteRxFrame(next: PortState)
      requires Inv() && rxFrame != null && transfered > 0 && !rxActive && !state.Busy() && (next == Idle || next == IdleAfterDmxData00)
      modifies this`rxFrame, this`released, this`state, rxFrame`payloadSize
      ensures Inv() && View() == Deliver(old(View()), next)
      ensures state == next && rxFrame == null && released == old(released) + [old(rxFrame)]
      ensures old(rxFrame).payloadSize == transfered - 1
      ensures (txFrame == null || txFrame == old(txFrame)) && (rxFrame == null || rxFrame == old(rxFrame))
    {
      DeliverSound(View(), next);
      hide Sound;
      rxFrame.payloadSize := transfered - 1;
      released := released + [rxFrame];
      rxFrame, state := null, next;
    }

    /** An octet is read for which there is no buffer; later interrupts flush theirs. */
    method Surplus(c: Octet, ghost w: Watch, ghost got: seq<Octet>, ghost late: bool)
      requires Inv() && !HasRoom() && InInterrupt() && Holds(w, got, late)
      requires (w.OfStream? ==> Full(w, got)) && (w.OfReply? ==> |got| >= REPLY_SIZE)
      modifies this`state, this`hasData, lock
      ensures Inv() && InInterrupt() && !hasData && !Orphaned() && (old(Clocked()) ==> Clocked())
      ensures Holds(w, got + [c], late || w.OfStream?)
      ensures View() == old(View()).(state := if old(state) == IdleAfterDmxData00 then Idle else old(state))
      ensures lock.history == old(lock.history) +
                if old(state == IdleAfterDmxData00 && lock.matchingSlotCount < 512) then [Lost] else []
    {
      hide Sound, SlotCountLock.Valid, Segment, OutcomeFrame, ReadOutcome, Midway, Clocked;
      if w.OfStream? {
        SegmentDecided(got, [c], w.locked, w.slots);
      } else if w.OfReply? {
        assert (got + [c])[..REPLY_SIZE] == got[..REPLY_SIZE];
      }
      hasData := false;
      RxChar();
    }

    /** `dmx512_rtuart_rx_char`: an octet for which there is no buffer. */
    method RxChar()
      requires Inv()
      modifies this`state, lock
      ensures Inv() && (Orphaned() <==> old(Orphaned())) && (old(Clocked()) ==> Clocked())
      ensures View() == old(View()).(state := if old(state) == IdleAfterDmxData00 then Idle else old(state))
      ensures lock.history == old(lock.history) +
                if old(state == IdleAfterDmxData00 && lock.matchingSlotCount < 512) then [Lost] else []
    {
      hide Sound, SlotCountLock.Valid;
      if state == IdleAfterDmxData00 {
        MoveSound(View(), Idle);
        if lock.matchingSlotCount < 512 {
          lock.LostLock();
        }
        state := Idle;
      }
    }

    /** While octets are read, they are handled as long as there is room for them. */
    ghost predicate InInterrupt()
      reads this
    {
      rxActive && transfered < validcount && offset + transfered < FRAME_SIZE ==> hasData
    }

    /** What has arrived of a discovery reply. */
    ghost function Area(): seq<Octet>
      requires Inv() && state.Listens() && rxFrame != null
      reads this, lock, rxFrame
    {
      rxFrame.data[REPLY_AREA..REPLY_AREA + transfered]
    }

    /** `dmx512_rtuart_handle_discovery_reply`: the request frame itself carries the outcome back. The scan may
        look at the octet behind the reply area, whatever that is. */
    method HandleDiscoveryReply()
      requires Inv() && state.Listens() && rxFrame != null
      modifies this`txFrame, this`rxFrame, this`answers, this`released, this`state, txFrame
      ensures Inv() && View() == AnswerWithRequest(old(View())) && (Orphaned() <==> hasData)
      ensures old(txFrame) != null && state == Idle && txFrame == null && rxFrame == null
      ensures answers == old(answers) + [Answer(old(txFrame), old(txFrame))] && released == old(released) + [old(rxFrame), old(txFrame)]
      ensures old(txFrame) != null && old(rxFrame).data == old(rxFrame.data)
      ensures old(txFrame).data == OutcomeFrame(old(txFrame.data), ReadOutcome(old(state.RecvDiscReplyCollision?), old(Area())))
      ensures (txFrame == null || txFrame == old(txFrame)) && (rxFrame == null || rxFrame == old(rxFrame))
    {
      SoundFrames(View());
      hide OutcomeFrame, SlotCountLock.Valid, Sound, DiscoveryReply.Decode;
      var outcome := DiscoveryReply.Collided;
      if state != RecvDiscReplyCollision {
        var behind: Octet := *;
        var area := rxFrame.data[REPLY_AREA..] + [behind];
        assert area[..transfered] == Area();
        outcome := DiscoveryReply.HandleDiscoveryReply(area, transfered);
        HeardSixOctets(Area());
      }
      WriteOutcome(txFrame, outcome);
      GiveBack();
    }

    /** `dmx512_rtuart_discovery_reply` on the request frame. */
    method WriteOutcome(frame: Frame, outcome: DiscoveryReply.Outcome)
      requires outcome.Heard? ==> |outcome.uid| == 6
      modifies frame`data
      ensures frame.data == OutcomeFrame(old(frame.data), outcome)
    {
      hide Put;
      var src := match outcome case NoReply => Fill(0) case Collided => Fill(0xFF) case Heard(uid) => uid;
      var ack := if outcome.NoReply? then RESPONSE_TYPE_NOREPLY else RESPONSE_TYPE_ACK;
      frame.data := Put(frame.data, 3, frame.data[9..15]);
      frame.data := Put(frame.data, 9, src);
      frame.data := frame.data[16 := ack];
      frame.data := frame.data[20 := DISCOVERY_COMMAND_RESPONSE];
    }

    /** `dmx512rtuart_handle_rdm_timeout`: a timeout is handled. A reception that was going on is not stopped, so
        that its buffer is orphaned. In the transmit states the timer is stopped and nothing else is done: the
        request is then left without a timer. */
    method RdmTimeout()
      requires Inv()
      modifies this`txFrame, this`rxFrame, this`answers, this`released, this`state, this`armed, this`cancelled, txFrame
      ensures Inv() && Clocked()
      ensures View() == if old(state).AwaitsReply() then AnswerWithRequest(old(View())) else old(View())
      ensures if old(state).AwaitsReply() then
                && old(txFrame) != null && state == Idle && txFrame == null && rxFrame == null
                && answers == old(answers) + [Answer(old(txFrame), old(txFrame))]
                && released == old(released) + if old(rxFrame) != null then [old(rxFrame), old(txFrame)] else [old(txFrame)]
              else
                state == old(state) && txFrame == old(txFrame) && rxFrame == old(rxFrame) && answers == old(answers) && released == old(released)
      ensures old(state).Listens() && old(rxFrame) != null ==>
                old(txFrame) != null &&
                old(txFrame).data == OutcomeFrame(old(txFrame.data), ReadOutcome(old(state.RecvDiscReplyCollision?), old(Area())))
      ensures old(txFrame) != null && !old(state).Listens() ==> old(txFrame).data == old(txFrame.data)
      ensures Orphaned() <==> old(Orphaned() || (hasData && state.AwaitsReply()))
      ensures armed <==> old(armed && txFrame == null)
      ensures cancelled == if old(state).Transmitting() then !expired else old(cancelled)
    {
      hide *;
      TimeoutCases();
      if txFrame == null {
        return;
      }
      if state.Listens() {
        EndDiscovery();
        return;
      }
      if state == ExpectRdmReplyBreak || state == RecvRdmReplyData {
        EndWithoutReply();
        return;
      }
      StopTimer();
    }

    /** What a timeout finds, seen from the fields. */
    lemma TimeoutCases()
      requires Inv()
      ensures txFrame == null ==> !state.AwaitsReply() && !state.Transmitting() && Clocked()
      ensures state.Listens() ==> rxFrame != null && state.AwaitsReply()
      ensures state == ExpectRdmReplyBreak || state == RecvRdmReplyData ==> !state.Listens() && state.AwaitsReply()
      ensures state.AwaitsReply() ==> !state.Transmitting() && (state.Listens() || state == ExpectRdmReplyBreak || state == RecvRdmReplyData)
      ensures (txFrame != null && !state.AwaitsReply() ==> state.Transmitting()) && (Orphaned() ==> hasData)
    {
      SoundFrames(View());
    }

    method EndWithoutReply()
      requires Inv() && state.AwaitsReply()
      modifies this`txFrame, this`rxFrame, this`answers, this`released, this`state, this`armed
      ensures Inv() && View() == AnswerWithRequest(old(View())) && (Orphaned() <==> hasData) && Clocked() && !armed
      ensures old(txFrame) != null && state == Idle && txFrame == null && rxFrame == null
      ensures answers == old(answers) + [Answer(old(txFrame), old(txFrame))]
      ensures released == old(released) + if old(rxFrame) != null then [old(rxFrame), old(txFrame)] else [old(txFrame)]
    {
      hide Sound, SlotCountLock.Valid;
      armed := false;
      GiveBack();
    }

    /** In the transmit states that is all; the request may then have no timer left. */
    method StopTimer()
      requires Inv() && state.Transmitting()
      modifies this`armed, this`cancelled
      ensures Inv() && Clocked() && !armed && cancelled == !expired
    {
      hide Sound, SlotCountLock.Valid;
      armed, cancelled := false, !expired;
    }

    /** The timer expires, some time after it was started. */
    method TimerFires()
      requires Inv() && armed
      modifies this`armed, this`expired
      ensures Inv() && expired && !armed && (old(Clocked()) ==> Clocked())
    {
      armed, expired := false, true;
    }

    /** `dmx512rtuart_periodical`: the poll that calls the timeout handler. */
    method Periodical()
      requires Inv()
      modifies this`txFrame, this`rxFrame, this`answers, this`released, this`state, this`armed, this`expired, this`cancelled, txFrame
      ensures Inv() && !expired && (old(Clocked()) ==> Clocked())
      ensures View() == if old(expired && state.AwaitsReply()) then AnswerWithRequest(old(View())) else old(View())
      ensures armed <==> old(armed && (txFrame == null || !expired))
      ensures cancelled <==> old(cancelled || (expired && state.Transmitting()))
      ensures Orphaned() <==> old(Orphaned() || (hasData && expired && state.AwaitsReply()))
    {
      hide Sound, SlotCountLock.Valid, OutcomeFrame, ReadOutcome;
      if expired {
        expired := false;
        RdmTimeout();
      }
    }

    /** The request frame is delivered back as the answer of its exchange, and the receive frame is freed;
        `dmx512_rtuart_handle_rdm_reply_timeout` does just this. */
    method GiveBack()
      requires Inv() && state.AwaitsReply()
      modifies this`txFrame, this`rxFrame, this`answers, this`released, this`state
      ensures Inv() && View() == AnswerWithRequest(old(View())) && (Orphaned() <==> hasData)
      ensures old(txFrame) != null && state == Idle && txFrame == null && rxFrame == null
      ensures answers == old(answers) + [Answer(old(txFrame), old(txFrame))]
      ensures released == old(released) + if old(rxFrame) != null then [old(rxFrame), old(txFrame)] else [old(txFrame)]
      ensures (txFrame == null || txFrame == old(txFrame)) && (rxFrame == null || rxFrame == old(rxFrame))
    {
      SoundFrames(View());
      AnswerWithRequestSound(View());
      hide Sound, SlotCountLock.Valid;
      ghost var before, into := View(), target;
      answers := answers + [Answer(txFrame, txFrame)];
      released := released + (if rxFrame != null then [rxFrame] else []) + [txFrame];
      txFrame, rxFrame, state := null, null, Idle;
      assert View() == AnswerWithRequest(before);
      assert rxActive ==> into in released;
    }

    /** The reply frame is delivered as the answer and the request is freed. */
    method EndOfReply()
      requires Inv() && state == RecvRdmReplyData && transfered > 0 && !rxActive
      modifies this`txFrame, this`rxFrame, this`answers, this`released, this`state, rxFrame`payloadSize
      ensures Inv() && View() == AnswerWithReply(old(View()))
      ensures old(txFrame) != null && old(rxFrame) != null && state == Idle && txFrame == null && rxFrame == null
      ensures answers == old(answers) + [Answer(old(txFrame), old(rxFrame))] && released == old(released) + [old(txFrame), old(rxFrame)]
      ensures old(rxFrame).payloadSize == transfered - 1
      ensures (txFrame == null || txFrame == old(txFrame)) && (rxFrame == null || rxFrame == old(rxFrame))
    {
      SoundFrames(View());
      AnswerWithReplySound(View());
      hide Sound, SlotCountLock.Valid;
      answers := answers + [Answer(txFrame, rxFrame)];
      released := released + [txFrame] + [rxFrame];
      rxFrame.payloadSize := transfered - 1;
      txFrame, rxFrame, state := null, null, Idle;
    }

    /** `dmx512_rtuart_rx_end`: the receive buffer is complete. */
    method RxEnd()
      requires Inv() && transfered > 0 && !rxActive
      modifies this`txFrame, this`rxFrame, this`answers, this`released, this`state, this`armed, txFrame, rxFrame
      ensures Inv() && (old(Clocked()) ==> Clocked())
      ensures View() == Ended(old(View()), old(rxFrame != null && rxFrame.data[0] == 0))
      ensures old(state) == ReceiveDmxData ==>
                && old(rxFrame) != null && state == (if old(rxFrame.data[0]) == 0 then IdleAfterDmxData00 else Idle)
                && rxFrame == null && txFrame == old(txFrame) && answers == old(answers) && released == old(released) + [old(rxFrame)]
      ensures old(state) == RecvRdmReplyData ==>
                && old(txFrame) != null && old(rxFrame) != null && state == Idle && txFrame == null && rxFrame == null
                && answers == old(answers) + [Answer(old(txFrame), old(rxFrame))] && released == old(released) + [old(txFrame), old(rxFrame)]
      ensures old(state).Listens() ==>
                && old(txFrame) != null && old(rxFrame) != null && state == Idle && txFrame == null && rxFrame == null
                && answers == old(answers) + [Answer(old(txFrame), old(txFrame))] && released == old(released) + [old(rxFrame), old(txFrame)]
      ensures old(state) != ReceiveDmxData && old(state) != RecvRdmReplyData && !old(state).Listens() ==>
                state == old(state) && txFrame == old(txFrame) && rxFrame == old(rxFrame) && answers == old(answers) && released == old(released)
      ensures old(rxFrame) != null ==> old(rxFrame).data == old(rxFrame.data)
      ensures old(state == ReceiveDmxData || state == RecvRdmReplyData) ==> old(rxFrame).payloadSize == transfered - 1
      ensures old(state).Listens() && old(rxFrame) != null ==>
                old(txFrame) != null &&
                old(txFrame).data == OutcomeFrame(old(txFrame.data), ReadOutcome(old(state.RecvDiscReplyCollision?), old(Area())))
      ensures (txFrame == null || txFrame == old(txFrame)) && (rxFrame == null || rxFrame == old(rxFrame))
    {
      hide *;
      EndCases();
      if rxFrame == null {
        return;
      }
      if state == ReceiveDmxData || state == RecvRdmReplyData {
        FinishFrame();
        return;
      }
      if state.Listens() {
        EndDiscovery();
        return;
      }
    }

    method EndDiscovery()
      requires Inv() && state.Listens() && rxFrame != null
      modifies this`txFrame, this`rxFrame, this`answers, this`released, this`state, this`armed, txFrame
      ensures Inv() && View() == AnswerWithRequest(old(View())) && Clocked() && (Orphaned() <==> hasData) && !armed
      ensures old(txFrame) != null && state == Idle && txFrame == null && rxFrame == null
      ensures answers == old(answers) + [Answer(old(txFrame), old(txFrame))] && released == old(released) + [old(rxFrame), old(txFrame)]
      ensures old(txFrame) != null && old(rxFrame).data == old(rxFrame.data)
      ensures old(txFrame).data == OutcomeFrame(old(txFrame.data), ReadOutcome(old(state.RecvDiscReplyCollision?), old(Area())))
      ensures (txFrame == null || txFrame == old(txFrame)) && (rxFrame == null || rxFrame == old(rxFrame))
    {
      hide Sound, SlotCountLock.Valid, OutcomeFrame, ReadOutcome;
      armed := false;
      HandleDiscoveryReply();
    }

    lemma ViewFields()
      ensures View().state == state && View().tx == ToOption(txFrame) && View().rx == ToOption(rxFrame)
      ensures (View().rx.None? <==> rxFrame == null) && (View().tx.None? <==> txFrame == null)
    {
    }

    /** What the end of a reception means, seen from the fields. */
    lemma EndCases()
      requires Inv()
      ensures var dmx := rxFrame != null && rxFrame.data[0] == 0;
              && (state.Listens() ==> Ended(View(), dmx) == AnswerWithRequest(View()))
              && (rxFrame == null || (!state.Listens() && state != ReceiveDmxData && state != RecvRdmReplyData) ==> Ended(View(), dmx) == View())
      ensures state.Listens() || state == ReceiveDmxData || state == RecvRdmReplyData ==> rxFrame != null
      ensures state == ReceiveDmxData || state == RecvRdmReplyData ==> !state.Listens()
    {
      SoundFrames(View());
      EndedCases(View(), rxFrame != null && rxFrame.data[0] == 0);
    }

    method FinishFrame()
      requires Inv() && transfered > 0 && !rxActive && (state == ReceiveDmxData || state == RecvRdmReplyData)
      modifies this`txFrame, this`rxFrame, this`answers, this`released, this`state, rxFrame`payloadSize
      ensures Inv() && View() == Ended(old(View()), old(rxFrame != null && rxFrame.data[0] == 0))
      ensures old(rxFrame) != null && old(rxFrame).payloadSize == transfered - 1 && Clocked() && rxFrame == null
      ensures old(state) == ReceiveDmxData ==>
                && state == (if old(rxFrame.data[0]) == 0 then IdleAfterDmxData00 else Idle)
                && txFrame == old(txFrame) && answers == old(answers) && released == old(released) + [old(rxFrame)]
      ensures old(state) == RecvRdmReplyData ==>
                && old(txFrame) != null && state == Idle && txFrame == null
                && answers == old(answers) + [Answer(old(txFrame), old(rxFrame))] && released == old(released) + [old(txFrame), old(rxFrame)]
      ensures (txFrame == null || txFrame == old(txFrame)) && (rxFrame == null || rxFrame == old(rxFrame))
    {
      SoundFrames(View());
      assert state == View().state && rxFrame != null;
      if state == ReceiveDmxData {
        var next := if rxFrame.data[0] == 0 then IdleAfterDmxData00 else Idle;
        assert Ended(View(), rxFrame.data[0] == 0) == Deliver(View(), next) && !state.Busy();
        hide *;
        CompleteRxFrame(next);
      } else {
        assert Ended(View(), rxFrame.data[0] == 0) == AnswerWithReply(View());
        hide *;
        EndOfReply();
      }
    }

    /** The length field of an RDM message, once it has arrived, bounds the buffer. */
    method ApplyLength()
      requires target != null && offset + transfered <= FRAME_SIZE
      modifies this`validcount
      ensures validcount == if transfered > 2 && target.data[offset + 1] == SC_SUB_MESSAGE
                            then target.data[offset + 2] as int + 2 else old(validcount)
    {
      if transfered > 2 {
        if target.data[offset + 1] == SC_SUB_MESSAGE {
          validcount := target.data[offset + 2] as int + 2;
        }
      }
    }

    /** `dmx512_rtuart_rx_trigger`. */
    method RxTrigger(startcode: bool, length: bool)
      requires Inv() && target != null && offset + transfered <= FRAME_SIZE && transfered > 1
      modifies this`state, this`validcount, this`lengthArmed
      ensures Inv() && View() == old(View()).(state := if startcode && old(state) == ExpectStartcode then ReceiveDmxData else old(state))
      ensures old(state == ExpectStartcode || state == RecvRdmReplyData) && startcode && !length && offset == 0 ==>
                (if target.data[0] == SC_RDM then
                   if transfered == 2 then validcount == old(validcount) && lengthArmed
                   else
                     && lengthArmed == old(lengthArmed)
                     && validcount == if target.data[1] == SC_SUB_MESSAGE then target.data[2] as int + 2 else old(validcount)
                 else
                   && lengthArmed == old(lengthArmed)
                   && validcount == if target.data[0] == 0 && old(state) == ExpectStartcode && lock.locked
                                    then lock.matchingSlotCount + 1 else old(validcount))
      ensures old(state == ReceiveDmxData || state == RecvRdmReplyData) && !startcode && length && transfered > 2 && offset == 0 ==>
                && lengthArmed == old(lengthArmed)
                && validcount == if target.data[1] == SC_SUB_MESSAGE then target.data[2] as int + 2 else old(validcount)
      ensures old(Clocked()) ==> Clocked()
    {
      hide SlotCountLock.Valid, Sound, Clocked;
      if startcode {
        StartcodeTrigger();
      }
      if length && (state == ReceiveDmxData || state == RecvRdmReplyData) {
        ApplyLength();
      }
    }

    /** Where the reception ends, as far as the start code says it. */
    method SetGates()
      requires Inv() && target != null && transfered > 1
      modifies this`validcount, this`lengthArmed
      ensures Inv()
      ensures state != ExpectStartcode && state != RecvRdmReplyData ==> validcount == old(validcount) && lengthArmed == old(lengthArmed)
      ensures (state == ExpectStartcode || state == RecvRdmReplyData) && offset == 0 ==>
                (if target.data[0] == SC_RDM then
                   if transfered == 2 then validcount == old(validcount) && lengthArmed
                   else
                     && lengthArmed == old(lengthArmed)
                     && validcount == if target.data[1] == SC_SUB_MESSAGE then target.data[2] as int + 2 else old(validcount)
                 else
                   && lengthArmed == old(lengthArmed)
                   && validcount == if target.data[0] == 0 && state == ExpectStartcode && lock.locked
                                    then lock.matchingSlotCount + 1 else old(validcount))
    {
      hide SlotCountLock.Valid, Sound;
      if state == ExpectStartcode || state == RecvRdmReplyData {
        if target.data[offset] == SC_RDM {
          if transfered > 2 {
            ApplyLength();
          } else {
            lengthArmed := true;
          }
        } else if target.data[offset] == 0 && state == ExpectStartcode {
          if lock.locked {
            validcount := lock.matchingSlotCount + 1;
          }
        }
      }
    }

    /** The part of it for trigger 0: the start code has arrived. */
    method StartcodeTrigger()
      requires Inv() && target != null && transfered > 1
      modifies this`state, this`validcount, this`lengthArmed
      ensures Inv() && View() == old(View()).(state := if old(state) == ExpectStartcode then ReceiveDmxData else old(state))
      ensures old(state != ExpectStartcode && state != RecvRdmReplyData) ==>
                validcount == old(validcount) && lengthArmed == old(lengthArmed)
      ensures old(state == ExpectStartcode || state == RecvRdmReplyData) && offset == 0 ==>
                (if target.data[0] == SC_RDM then
                   if transfered == 2 then validcount == old(validcount) && lengthArmed
                   else
                     && lengthArmed == old(lengthArmed)
                     && validcount == if target.data[1] == SC_SUB_MESSAGE then target.data[2] as int + 2 else old(validcount)
                 else
                   && lengthArmed == old(lengthArmed)
                   && validcount == if target.data[0] == 0 && old(state) == ExpectStartcode && lock.locked
                                    then lock.matchingSlotCount + 1 else old(validcount))
      ensures old(Clocked()) ==> Clocked()
    {
      hide SlotCountLock.Valid, Sound;
      SetGates();
      if state == ExpectStartcode {
        MoveSound(View(), ReceiveDmxData);
        state := ReceiveDmxData;
      }
    }

    // ----- octet by octet ------------------------------------------------------------------------------------

    predicate HasRoom()
      reads this
    {
      hasData && transfered < validcount && offset + transfered < FRAME_SIZE
    }

    ghost function Got(): seq<Octet>
      reads this, rxFrame
      requires rxFrame != null && transfered <= FRAME_SIZE
    {
      rxFrame.data[..transfered]
    }

    /** Only frames for this port are cut by its lock, not replies to its requests. */
    ghost predicate Locked()
      reads this, lock
    {
      lock.locked && state != RecvRdmReplyData
    }

    ghost function Arms(): Gate
      reads this
    {
      Gate(validcount, startcodeArmed, lengthArmed)
    }

    /** A frame is being received from its start code on, and its end has not been reached. */
    ghost predicate Midway()
      reads this, lock, rxFrame
    {
      hasData && rxFrame != null && target == rxFrame && offset == 0 && transfered < FRAME_SIZE &&
      (state == RecvRdmReplyData || state == if transfered < 2 then ExpectStartcode else ReceiveDmxData) &&
      transfered < Segment(Got(), Locked(), lock.matchingSlotCount) &&
      Arms() == GateAfter(Got(), Locked(), lock.matchingSlotCount)
    }

    /** `got` has arrived for `frame` since `before`: the frame is still growing, or it has been delivered, cut
        where its segment ends. `late` says that an octet behind it was read in the same interrupt as its last
        one: only then does surplus data after a DMX frame open the lock. */
    ghost predicate Streaming(before: Ledger<Frame>, frame: Frame, got: seq<Octet>, locked: bool, slots: SlotCount,
                              history: seq<LockEvent>, late: bool)
      requires Sound(before) && before.rx.Some? && (before.state == RecvRdmReplyData || !before.state.Busy())
      reads this, lock, rxFrame, frame
    {
      var n := Segment(got, locked, slots);
      if |got| < n then
        && !late && Midway() && rxFrame == frame && Got() == got && View() == before.(state := state)
        && (state == RecvRdmReplyData <==> before.state == RecvRdmReplyData)
        && Locked() == locked && lock.matchingSlotCount == slots && lock.history == history
      else
        && 2 <= n && !rxActive && target == frame
        && frame.data[..n] == got[..n] && frame.payloadSize == n - 1
        && if before.state == RecvRdmReplyData then View() == AnswerWithReply(before) && lock.history == history
           else
             && View() == Deliver(before, if got[0] == 0 && !late then IdleAfterDmxData00 else Idle)
             && (got[0] == 0 && !late ==> lock.matchingSlotCount == slots)
             && lock.history == history + if got[0] == 0 && late && slots < 512 then [Lost] else []
    }

    /** `got` has arrived of the reply to the discovery request `request`, which held `was`: the exchange goes
        on, or the reply area is full and the request has been answered with the outcome. */
    ghost predicate Replying(before: Ledger<Frame>, request: Frame, was: FrameData, got: seq<Octet>, broken: bool)
      requires before.tx.Some?
      reads this, rxFrame, request
    {
      if |got| < REPLY_SIZE then
        && hasData && rxFrame != null && target == rxFrame && offset == REPLY_AREA && transfered == |got| && validcount == REPLY_SIZE
        && rxFrame.data[REPLY_AREA..REPLY_AREA + |got|] == got
        && txFrame == request && request.data == was && View() == before
        && state == if broken then RecvDiscReplyCollision else RecvDiscReply
      else
        && !rxActive && View() == AnswerWithRequest(before)
        && request.data == OutcomeFrame(was, ReadOutcome(broken, got[..REPLY_SIZE]))
    }

    ghost predicate Holds(w: Watch, got: seq<Octet>, late: bool)
      reads this, lock, rxFrame, if w.OfStream? then {w.frame} else if w.OfReply? then {w.request} else {}
    {
      match w
      case Nothing => true
      case OfStream(before, frame, locked, slots, history) =>
        && Sound(before) && before.rx.Some? && (before.state == RecvRdmReplyData || !before.state.Busy())
        && Streaming(before, frame, got, locked, slots, history, late)
      case OfReply(before, request, was, broken) =>
        before.tx.Some? && Replying(before, request, was, got, broken)
    }

    lemma MidwayHasRoom()
      requires Midway()
      ensures HasRoom()
    {
      assert transfered > 0 ==> Got()[..transfered - 1] == rxFrame.data[..transfered - 1];
    }

    // ----- interrupts ------------------------------------------------------------------------------------------

    /** What is followed does not change while octets are flushed. */
    lemma Flushed(w: Watch, got: seq<Octet>, octets: seq<Octet>, late: bool)
      requires Inv() && !hasData && Holds(w, got, late)
      ensures Holds(w, got + octets, late)
    {
      RoomLeft(w, got, late);
      hide Sound, SlotCountLock.Valid, Segment, OutcomeFrame, ReadOutcome, Midway;
      if w.OfStream? {
        SegmentDecided(got, octets, w.locked, w.slots);
        assert (got + octets)[..Segment(got, w.locked, w.slots)] == got[..Segment(got, w.locked, w.slots)];
      } else if w.OfReply? {
        assert (got + octets)[..REPLY_SIZE] == got[..REPLY_SIZE];
      }
    }

    /** The receive branch of `pc16c550_handle_irq`: whether octets are handled or flushed is decided once for all
        that are read in one interrupt. */
    method RxInterrupt(octets: seq<Octet>, ghost w: Watch, ghost got: seq<Octet>, ghost late: bool) returns (ghost late': bool)
      requires Inv() && Holds(w, got, late)
      modifies this`state, this`transfered, this`validcount, this`lengthArmed, this`startcodeArmed, this`rxActive, this`hasData, this`armed,
               this`txFrame, this`rxFrame, this`answers, this`released, lock, txFrame, rxFrame, target
      ensures Inv() && Holds(w, got + octets, late')
      ensures late' <==> late || (old(hasData) && Overrun(w, got, octets))
      ensures !old(hasData) ==> View() == old(View()) && lock.history == old(lock.history) && !hasData
      ensures !old(hasData) && target != null ==> target.data == old(target.data)
      ensures (txFrame == null || txFrame == old(txFrame)) && (rxFrame == null || rxFrame == old(rxFrame))
      ensures (Orphaned() <==> old(Orphaned()) && hasData) && (old(Clocked()) ==> Clocked())
    {
      if hasData {
        ReadStarts(w, got, late);
        hide *;
        late' := ReadAll(octets, w, got, late);
      } else {
        Flushed(w, got, octets, late);
        late' := late;
      }
    }

    method ReadAll(octets: seq<Octet>, ghost w: Watch, ghost got: seq<Octet>, ghost late: bool) returns (ghost late': bool)
      requires Inv() && InInterrupt() && Holds(w, got, late) && (Orphaned() ==> hasData) && !Full(w, got)
      modifies this`state, this`transfered, this`validcount, this`lengthArmed, this`startcodeArmed, this`rxActive, this`hasData, this`armed,
               this`txFrame, this`rxFrame, this`answers, this`released, lock, txFrame, rxFrame, target
      ensures Inv() && Holds(w, got + octets, late') && (late' <==> late || Overrun(w, got, octets))
      ensures (txFrame == null || txFrame == old(txFrame)) && (rxFrame == null || rxFrame == old(rxFrame))
      ensures (Orphaned() <==> old(Orphaned()) && hasData) && (old(Clocked()) ==> Clocked())
    {
      hide *;
      late' := late;
      var i := 0;
      assert got + octets[..0] == got;
      OverrunStarts(w, got, octets);
      while i < |octets|
        invariant 0 <= i <= |octets| && Inv() && InInterrupt() && Holds(w, got + octets[..i], late')
        invariant late' <==> late || Overrun(w, got, octets[..i])
        invariant (txFrame == null || txFrame == old(txFrame)) && (rxFrame == null || rxFrame == old(rxFrame))
        invariant (Orphaned() <==> old(Orphaned()) && hasData) && (old(Clocked()) ==> Clocked())
      {
        assert got + octets[..i + 1] == got + octets[..i] + [octets[i]];
        LateNext(w, got, octets, i, late, late');
        ghost var over := Full(w, got + octets[..i]);
        ReceivedOctet(octets[i], w, got + octets[..i], late');
        late' := late' || over;
        i := i + 1;
      }
      assert octets[..i] == octets;
    }

    /** Whether an octet was read behind a full segment, one octet further on. */
    lemma LateNext(w: Watch, got: seq<Octet>, octets: seq<Octet>, i: nat, late: bool, late': bool)
      requires i < |octets| && !Full(w, got) && (late' <==> late || Overrun(w, got, octets[..i]))
      ensures Overrun(w, got, octets[..i + 1]) || late <==> late' || Full(w, got + octets[..i])
    {
      OverrunNext(w, got, octets, i);
    }

    lemma ReadStarts(w: Watch, got: seq<Octet>, late: bool)
      requires Inv() && hasData && Holds(w, got, late)
      ensures InInterrupt() && (Orphaned() ==> hasData) && !Full(w, got)
    {
      RoomLeft(w, got, late);
    }

    /** A whole stream of octets after a break, in groups as they are read by interrupts. One frame is delivered,
        cut where its segment ends, whatever follows; a stream that stops before that delivers nothing yet. After
        a DMX frame, surplus octets open the lock exactly if the interrupt that read the frame's last octet went
        on behind it; surplus octets of later interrupts are not noticed. */
    method ReceiveStream(groups: seq<seq<Octet>>)
      requires Inv() && Listening() && (state == ExpectStartcode || state == RecvRdmReplyData)
      modifies this`state, this`transfered, this`validcount, this`lengthArmed, this`startcodeArmed, this`rxActive, this`hasData, this`armed,
               this`txFrame, this`rxFrame, this`answers, this`released, lock, txFrame, rxFrame
      ensures Inv() && old(rxFrame) != null
      ensures var all := Concat(groups);
              Holds(OfStream(old(View()), old(rxFrame), old(Locked()), old(lock.matchingSlotCount), old(lock.history)), all,
                    Straddled(groups, Segment(all, old(Locked()), old(lock.matchingSlotCount))))
      ensures var all := Concat(groups);
              var n := Segment(all, old(Locked()), old(lock.matchingSlotCount));
              if |all| < n then
                && released == old(released) && answers == old(answers) && rxFrame == old(rxFrame) && transfered == |all|
                && old(rxFrame).data[..|all|] == all
                && state == if old(state) == RecvRdmReplyData then RecvRdmReplyData else if |all| < 2 then ExpectStartcode else ReceiveDmxData
              else
                && 2 <= n && old(rxFrame).data[..n] == all[..n] && old(rxFrame).payloadSize == n - 1 && rxFrame == null
                && if old(state) == RecvRdmReplyData then
                     && old(txFrame) != null && state == Idle && txFrame == null && answers == old(answers) + [Answer(old(txFrame), old(rxFrame))]
                     && released == old(released) + [old(txFrame), old(rxFrame)]
                   else
                     && state == (if all[0] == 0 && !Straddled(groups, n) then IdleAfterDmxData00 else Idle)
                     && answers == old(answers) && released == old(released) + [old(rxFrame)]
    {
      hide *;
      StartStream();
      ghost var request, w := txFrame, OfStream(View(), rxFrame, Locked(), lock.matchingSlotCount, lock.history);
      ReadStream(groups, w);
      Streamed(w, Concat(groups), Straddled(groups, Segment(Concat(groups), w.locked, w.slots)), request);
    }

    method ReadStream(groups: seq<seq<Octet>>, ghost w: Watch)
      requires Inv() && w.OfStream? && Holds(w, [], false) && rxFrame == target == w.frame
      modifies this`state, this`transfered, this`validcount, this`lengthArmed, this`startcodeArmed, this`rxActive, this`hasData, this`armed,
               this`txFrame, this`rxFrame, this`answers, this`released, lock, txFrame, rxFrame
      ensures Inv() && Holds(w, Concat(groups), Straddled(groups, Segment(Concat(groups), w.locked, w.slots)))
    {
      hide *;
      ghost var late, frame := false, w.frame;
      var i := 0;
      StraddledStarts(w, groups);
      while i < |groups|
        invariant 0 <= i <= |groups| && Inv() && Holds(w, Concat(groups[..i]), late)
        invariant late <==> Straddled(groups[..i], Segment(Concat(groups), w.locked, w.slots))
        invariant (txFrame == null || txFrame == old(txFrame)) && (rxFrame == null || rxFrame == frame) && target == frame
      {
        ConcatNext(groups, i);
        HandledUntilFull(w, Concat(groups[..i]), late, groups[i]);
        StraddledNext(w, groups, i);
        late := RxInterrupt(groups[i], w, Concat(groups[..i]), late);
        i := i + 1;
      }
      assert groups[..i] == groups;
    }

    /** What has become of the frame and the ledger, field by field. */
    lemma Streamed(w: Watch, got: seq<Octet>, late: bool, request: Frame?)
      requires Holds(w, got, late) && w.OfStream? && w.before.rx == Some(w.frame) && w.before.tx == ToOption(request)
      requires w.before.state == ExpectStartcode || w.before.state == RecvRdmReplyData
      ensures var n := Segment(got, w.locked, w.slots);
              if |got| < n then
                && released == w.before.released && answers == w.before.answers && rxFrame == w.frame && transfered == |got|
                && w.frame.data[..|got|] == got
                && state == if w.before.state == RecvRdmReplyData then RecvRdmReplyData else if |got| < 2 then ExpectStartcode else ReceiveDmxData
              else
                && 2 <= n && w.frame.data[..n] == got[..n] && w.frame.payloadSize == n - 1 && rxFrame == null
                && if w.before.state == RecvRdmReplyData then
                     && request != null && state == Idle && txFrame == null && answers == w.before.answers + [Answer(request, w.frame)]
                     && released == w.before.released + [request, w.frame]
                   else
                     && state == (if got[0] == 0 && !late then IdleAfterDmxData00 else Idle)
                     && answers == w.before.answers && released == w.before.released + [w.frame]
    {
      SoundFrames(w.before);
      hide Sound, Segment, GateAfter;
    }

    /** A stream that stops before its segment is full, and then a break: a frame of two or more octets is delivered
        as it came in, and the next one begins; a single octet is not noticed as a frame and stays in the buffer. */
    method BreakAfterStream(groups: seq<seq<Octet>>)
      requires Inv() && Listening() && state == ExpectStartcode
      requires |Concat(groups)| < Segment(Concat(groups), Locked(), lock.matchingSlotCount)
      modifies this`state, this`transfered, this`validcount, this`lengthArmed, this`startcodeArmed, this`rxActive, this`hasData, this`armed,
               this`txFrame, this`rxFrame, this`answers, this`released, this`driverOn, this`target, this`offset, lock, txFrame, rxFrame
      ensures Inv() && state == ExpectStartcode && old(rxFrame) != null && answers == old(answers)
      ensures var all := Concat(groups);
              && old(rxFrame).data[..|all|] == all
              && if |all| < 2 then rxFrame == old(rxFrame) && released == old(released) && transfered == |all|
                 else
                   && released == old(released) + [old(rxFrame)] && old(rxFrame).payloadSize == |all| - 1
                   && fresh(rxFrame) && Listening()
    {
      hide *;
      ReceiveStream(groups);
      RxBreak();
    }

    lemma StartStream()
      requires Inv() && Listening() && (state == ExpectStartcode || state == RecvRdmReplyData)
      ensures rxFrame != null && target == rxFrame && View().rx == Some(rxFrame) && View().tx == ToOption(txFrame)
      ensures View().state == state && View().released == released && View().answers == answers
      ensures Holds(OfStream(View(), rxFrame, Locked(), lock.matchingSlotCount, lock.history), [], false)
    {
    }

    /** Octets are handled exactly until the segment is full. */
    lemma HandledUntilFull(w: Watch, got: seq<Octet>, late: bool, octets: seq<Octet>)
      requires Inv() && Holds(w, got, late) && w.OfStream?
      ensures (hasData <==> !Full(w, got)) && (Overrun(w, got, octets) ==> hasData)
    {
      RoomLeft(w, got, late);
    }

    method ReceiveReply(groups: seq<seq<Octet>>, ghost w: Watch, ghost got: seq<Octet>)
      requires Inv() && Holds(w, got, false) && w.OfReply?
      modifies this`state, this`transfered, this`validcount, this`lengthArmed, this`startcodeArmed, this`rxActive, this`hasData, this`armed,
               this`txFrame, this`rxFrame, this`answers, this`released, lock, txFrame, rxFrame, target
      ensures Inv() && Holds(w, got + Concat(groups), false)
      ensures (txFrame == null || txFrame == old(txFrame)) && (rxFrame == null || rxFrame == old(rxFrame))
    {
      hide *;
      var i := 0;
      NothingYet(groups, got);
      while i < |groups|
        invariant 0 <= i <= |groups| && Inv() && Holds(w, got + Concat(groups[..i]), false)
        invariant (txFrame == null || txFrame == old(txFrame)) && (rxFrame == null || rxFrame == old(rxFrame))
      {
        ConcatNext(groups, i);
        assert got + Concat(groups[..i + 1]) == got + Concat(groups[..i]) + groups[i];
        RepliesDoNotOverrun(w, got + Concat(groups[..i]), groups[i]);
        ghost var late := RxInterrupt(groups[i], w, got + Concat(groups[..i]), false);
        i := i + 1;
      }
      assert groups[..i] == groups;
    }

    /** A whole discovery exchange, from the last octet of the request to the reply timeout: whatever octets come
        in, by whatever interrupts, the request is answered once, with the outcome that the decoder reads in the
        first 255 of them, or with a collision if there is a break among them. */
    method DiscoveryExchange(first: seq<seq<Octet>>, breaks: bool, second: seq<seq<Octet>>)
      requires Inv() && state == TransmitDataTwoway && txFrame != null && IsBranchRequest(txFrame.data)
      requires breaks ==> |Concat(first)| < REPLY_SIZE
      modifies this, lock, txFrame
      ensures Inv() && state == Idle && accepted == old(accepted) && answers == old(answers) + [Answer(old(txFrame), old(txFrame))]
      ensures var all := Concat(first) + Concat(second);
              old(txFrame).data ==
              OutcomeFrame(old(txFrame.data), ReadOutcome(breaks, if |all| < REPLY_SIZE then all else all[..REPLY_SIZE]))
    {
      hide Sound, SlotCountLock.Valid, IsBranchRequest, OutcomeFrame, ReadOutcome, Clocked;
      ghost var request: Frame, was: FrameData := txFrame, txFrame.data;
      TxEnd2();
      ghost var before := View();
      StartReply(request, was);
      hide Holds, Inv;
      ReceiveReply(first, OfReply(before, request, was, false), []);
      assert [] + Concat(first) == Concat(first);
      if breaks {
        Interrupted(before, request, was, Concat(first));
        before := before.(state := RecvDiscReplyCollision);
      }
      ReceiveReply(second, OfReply(before, request, was, breaks), Concat(first));
      EndReply(before, request, was, Concat(first) + Concat(second), breaks);
    }

    lemma StartReply(request: Frame, was: FrameData)
      requires Inv() && state == RecvDiscReply && hasData && transfered == 0 && txFrame == request && request.data == was && rxFrame != null
      ensures Holds(OfReply(View(), request, was, false), [], false)
    {
    }

    /** A break among the octets of a reply. */
    method Interrupted(ghost before: Ledger<Frame>, ghost request: Frame, ghost was: FrameData, ghost got: seq<Octet>)
      requires Inv() && Holds(OfReply(before, request, was, false), got, false) && |got| < REPLY_SIZE
      modifies this`state, this`driverOn, this`released, this`rxFrame, this`target, this`offset, this`validcount, this`startcodeArmed, this`lengthArmed, this`rxActive,
               this`transfered, this`hasData, lock, rxFrame
      ensures Inv() && Holds(OfReply(before.(state := RecvDiscReplyCollision), request, was, true), got, false)
      ensures target == old(target) && txFrame == old(txFrame) && rxFrame == old(rxFrame)
    {
      SoundFrames(View());
      hide Sound, SlotCountLock.Valid, OutcomeFrame, ReadOutcome, Clocked;
      RxBreak();
    }

    /** The timeout after a reply; if the reply area was filled before, it finds nothing to do. */
    method EndReply(ghost before: Ledger<Frame>, ghost request: Frame, ghost was: FrameData, ghost got: seq<Octet>, ghost broken: bool)
      requires Inv() && Holds(OfReply(before, request, was, broken), got, false)
      modifies this`txFrame, this`rxFrame, this`answers, this`released, this`state, this`armed, this`cancelled, txFrame
      ensures Inv() && before.tx.Some? && View() == AnswerWithRequest(before)
      ensures request.data == OutcomeFrame(was, ReadOutcome(broken, if |got| < REPLY_SIZE then got else got[..REPLY_SIZE]))
    {
      hide Sound, SlotCountLock.Valid, OutcomeFrame, ReadOutcome, Clocked;
      RdmTimeout();
    }

    // ----- late octets -----------------------------------------------------------------------------------------

    /** A reply that is late for its timeout is written into a frame that is no longer the port's: reception is
        not stopped when the timeout gives its frame away. */
    method LateReply(c: Octet)
      requires Inv() && state == RecvRdmReplyData && HasRoom()
      modifies this`state, this`transfered, this`validcount, this`lengthArmed, this`startcodeArmed, this`rxActive, this`hasData, this`armed,
               this`txFrame, this`rxFrame, this`answers, this`released, this`cancelled, lock, txFrame, rxFrame, target
      ensures Inv() && old(target) != null && old(target) in released
      ensures old(target).data == old(target.data)[offset + old(transfered) := c]
    {
      hide Sound, SlotCountLock.Valid, OutcomeFrame, ReadOutcome, Segment, GateAfter, Clocked;
      OrphanedExactly();
      RdmTimeout();
      OrphanedExactly();
      ReceivedOctet(c, Nothing, [], false);
    }

    /** Sending a frame ends that: octets that come after it are flushed and the frame is not touched. */
    method LateAfterSend(frame: Frame, octets: seq<Octet>, ghost into: Frame) returns (ghost late: bool)
      requires Inv() && Orphaned() && !state.Busy() && into == target
      requires New(View(), frame) && frame.payloadSize < FRAME_SIZE
      modifies this, lock, rxFrame, into, frame
      ensures Inv() && !Orphaned() && into in released && into.data == old(into.data)
    {
      OrphanedExactly();
      assert into != frame;
      hide *;
      SendQuietly(frame, into);
      late := RxInterrupt(octets, Nothing, [], false);
    }

    /** `SendFrame` on an idle port, seen from a frame that was given away. */
    method SendQuietly(frame: Frame, ghost into: Frame)
      requires Inv() && !state.Busy() && into == target && into != frame && into in released && Holds(Nothing, [], false)
      requires New(View(), frame) && frame.payloadSize < FRAME_SIZE
      modifies this`txFrame, this`txOctets, this`state, this`driverOn, this`accepted, this`hasData, this`armed, this`cancelled, this`lineBreak, frame
      ensures Inv() && !hasData && !Orphaned() && target == into && into in released && Holds(Nothing, [], false) && txFrame == frame
    {
      hide Sound, SlotCountLock.Valid, Clocked, IsTwoway, IsBranchReply, IsBranchRequest, IsRdmRequest, DiscoveryReply.EncodeReply;
      var ok := SendFrame(frame);
    }

    // ----- the reply timer ---------------------------------------------------------------------------------------

    /** A waiting request that was not left without a timer is answered at the latest when the timer has expired
        and the port is polled. */
    method TimeoutAnswers()
      requires Inv() && Clocked() && state.AwaitsReply() && !cancelled
      modifies this`txFrame, this`rxFrame, this`answers, this`released, this`state, this`armed, this`expired, this`cancelled, txFrame
      ensures Inv() && state == Idle && old(txFrame) != null && answers == old(answers) + [Answer(old(txFrame), old(txFrame))]
    {
      SoundFrames(View());
      hide Sound, SlotCountLock.Valid, OutcomeFrame, ReadOutcome;
      if !expired {
        TimerFires();
      }
      Periodical();
    }

    /** One that was is never answered by polling, however often, and every send is refused until a reply comes. */
    method NeverTimesOut(polls: nat, frame: Frame) returns (ok: bool)
      requires Inv() && Clocked() && state.AwaitsReply() && cancelled && New(View(), frame) && frame.payloadSize < FRAME_SIZE
      modifies this`txFrame, this`txOctets, this`rxFrame, this`accepted, this`answers, this`released, this`state, this`driverOn,
               this`hasData, this`armed, this`expired, this`cancelled, this`lineBreak, txFrame, frame
      ensures Inv() && Clocked() && View() == old(View()) && cancelled && !armed && !expired && !ok
    {
      hide Sound, SlotCountLock.Valid, OutcomeFrame, ReadOutcome, IsTwoway, IsBranchReply, IsBranchRequest, IsRdmRequest,
           DiscoveryReply.EncodeReply;
      var n := polls;
      while n > 0
        invariant Inv() && Clocked() && View() == old(View()) && cancelled && !armed && !expired
        invariant txFrame == old(txFrame) && frame.payloadSize == old(frame.payloadSize)
        decreases n
      {
        Periodical();
        n := n - 1;
      }
      ok := SendFrame(frame);
    }

    /** A timeout that expired before a request is sent and is polled after leaves that request without a timer. */
    method StaleTimeout(frame: Frame)
      requires Inv() && !state.Busy() && expired && New(View(), frame) && frame.payloadSize < FRAME_SIZE
      requires IsTwoway(frame.data) && !IsBranchReply(frame.data)
      modifies this, frame
      ensures Inv() && Clocked() && state.AwaitsReply() && cancelled && !armed && !expired && txFrame == frame
    {
      hide Sound, SlotCountLock.Valid, OutcomeFrame, ReadOutcome, IsTwoway, IsBranchReply, IsBranchRequest, IsRdmRequest,
           DiscoveryReply.EncodeReply;
      var ok := SendFrame(frame);
      Periodical();
      TxEnd2();
    }

    /** There is room for another octet exactly as long as what is followed is not complete. */
    lemma RoomLeft(w: Watch, got: seq<Octet>, late: bool)
      requires Inv() && Holds(w, got, late)
      ensures HasRoom() ==> Holds(w, got, false) && !Full(w, got) && (w.OfStream? ==> !late) && (w.OfReply? ==> |got| < REPLY_SIZE)
      ensures !HasRoom() ==> (w.OfStream? ==> Full(w, got)) && (w.OfReply? ==> |got| >= REPLY_SIZE)
    {
      if w.OfStream? && !Full(w, got) {
        MidwayHasRoom();
      }
    }

    lemma LateInStreams(w: Watch, got: seq<Octet>, was: bool, late: bool)
      requires Holds(w, got, was) && (w.OfStream? ==> late == was)
      ensures Holds(w, got, late)
    {
    }

    lemma GrowsBy(d: FrameData, off: nat, n: nat, c: Octet)
      requires off + n < FRAME_SIZE
      ensures d[off + n := c][off..off + n + 1] == d[off..off + n] + [c]
    {
    }

    lemma TargetOfRoom()
      requires Inv()
      ensures HasRoom() ==> hasData && target != null && target != txFrame && offset + transfered < FRAME_SIZE
    {
    }

    /** `handle_received_data`: one octet from the UART, within an interrupt. It is stored if there is room for it;
        `w` says what is followed in this, with `got` having arrived before. */
    method ReceivedOctet(c: Octet, ghost w: Watch, ghost got: seq<Octet>, ghost late: bool)
      requires Inv() && InInterrupt() && Holds(w, got, late)
      modifies this`state, this`transfered, this`validcount, this`lengthArmed, this`startcodeArmed, this`rxActive, this`hasData, this`armed,
               this`txFrame, this`rxFrame, this`answers, this`released, lock, txFrame, rxFrame, target
      ensures Inv() && InInterrupt() && Holds(w, got + [c], late || Full(w, got))
      ensures (txFrame == null || txFrame == old(txFrame)) && (rxFrame == null || rxFrame == old(rxFrame))
      ensures old(HasRoom()) ==> old(target) != null && old(target).data == old(target.data)[offset + old(transfered) := c]
      ensures old(HasRoom()) && !old(state).Receiving() ==> View() == old(View())
      ensures !old(HasRoom()) ==>
                && !hasData && View() == old(View()).(state := if old(state) == IdleAfterDmxData00 then Idle else old(state))
                && lock.history == old(lock.history) + if old(state == IdleAfterDmxData00 && lock.matchingSlotCount < 512) then [Lost] else []
      ensures (Orphaned() <==> old(Orphaned()) && hasData) && (old(Clocked()) ==> Clocked()) && (hasData ==> old(hasData))
    {
      hide *;
      RoomLeft(w, got, late);
      TargetOfRoom();
      if HasRoom() {
        ReceiveIntoBuffer(c, w, got, target, offset + transfered);
        LateInStreams(w, got + [c], false, late || Full(w, got));
        return;
      }
      Surplus(c, w, got, late);
      LateInStreams(w, got + [c], late || w.OfStream?, late || Full(w, got));
    }

    method ReceiveIntoBuffer(c: Octet, ghost w: Watch, ghost got: seq<Octet>, ghost into: Frame, ghost at: nat)
      requires hasData && into == target && into != txFrame && at == offset + transfered < FRAME_SIZE
      requires Inv() && HasRoom() && Holds(w, got, false) && !Full(w, got) && (w.OfReply? ==> |got| < REPLY_SIZE)
      modifies this`state, this`transfered, this`validcount, this`lengthArmed, this`startcodeArmed, this`rxActive, this`hasData, this`armed,
               this`txFrame, this`rxFrame, this`answers, this`released, txFrame, rxFrame, target
      ensures Inv() && InInterrupt() && Holds(w, got + [c], false)
      ensures (txFrame == null || txFrame == old(txFrame)) && (rxFrame == null || rxFrame == old(rxFrame))
      ensures into.data == old(into.data)[at := c]
      ensures !old(state).Receiving() ==> View() == old(View())
      ensures (Orphaned() <==> old(Orphaned()) && hasData) && (old(Clocked()) ==> Clocked())
    {
      hide *;
      Serve(c, w, got);
      SettleTarget(w, got + [c]);
    }

    method SettleTarget(ghost w: Watch, ghost got: seq<Octet>)
      requires Inv() && transfered > 0 && hasData && Stored(w, got) && target != null && target != txFrame
      modifies this`rxActive, this`hasData, this`armed, this`txFrame, this`rxFrame, this`answers, this`released, this`state, txFrame, rxFrame
      ensures Inv() && InInterrupt() && Holds(w, got, false)
      ensures (txFrame == null || txFrame == old(txFrame)) && (rxFrame == null || rxFrame == old(rxFrame))
      ensures target.data == old(target.data)
      ensures (Orphaned() <==> old(Orphaned()) && hasData) && (old(Clocked()) ==> Clocked())
      ensures !old(state).Receiving() ==> View() == old(View())
    {
      hide *;
      Settle(w, got);
    }

    /** What is followed, just after an octet has been stored and before its completion is looked at. */
    ghost predicate Stored(w: Watch, got: seq<Octet>)
      reads this, lock, rxFrame, if w.OfStream? then {w.frame} else if w.OfReply? then {w.request} else {}
    {
      match w
      case Nothing => true
      case OfStream(before, frame, locked, slots, history) =>
        && Sound(before) && before.rx.Some? && (before.state == RecvRdmReplyData || !before.state.Busy())
        && Served(before, frame, got, locked, slots) && lock.history == history
      case OfReply(before, request, was, broken) =>
        before.tx.Some? && Heard(before, request, was, got, broken)
    }

    /** `Take`, seen from the frame or the reply that is being received. */
    method Serve(c: Octet, ghost w: Watch, ghost got: seq<Octet>)
      requires Inv() && HasRoom() && Holds(w, got, false) && !Full(w, got) && (w.OfReply? ==> |got| < REPLY_SIZE)
      modifies this`state, this`transfered, this`validcount, this`lengthArmed, this`startcodeArmed, target`data
      ensures Inv() && transfered > 0 && (old(Clocked()) ==> Clocked())
      ensures !old(state).Receiving() ==> View() == old(View()) && state == old(state)
      ensures target.data == old(target.data)[offset + old(transfered) := c] && Stored(w, got + [c])
    {
      if w.OfStream? {
        StreamingIs(w, got);
      }
      assert w.Nothing? ==> Stored(w, got + [c]);
      assert w.OfReply? && w.before.tx.Some? && Heard(w.before, w.request, w.was, got + [c], w.broken) ==> Stored(w, got + [c]);
      hide *;
      TakeHeard(c, w, got);
      if w.OfStream? {
        StreamStored(w, got, c);
      }
    }

    /** The gates of a frame after another octet say whether it is complete. */
    lemma StreamStored(w: Watch, got: seq<Octet>, c: Octet)
      requires w.OfStream? && |got| < Segment(got, w.locked, w.slots) && hasData && rxFrame == w.frame && target == w.frame && offset == 0
      requires transfered == |got| + 1 <= FRAME_SIZE && Got() == got + [c] && View() == w.before.(state := state)
      requires Sound(w.before) && w.before.rx.Some? && (w.before.state == RecvRdmReplyData || !w.before.state.Busy())
      requires state == RecvRdmReplyData <==> w.before.state == RecvRdmReplyData
      requires state == RecvRdmReplyData || state == if transfered < 2 then ExpectStartcode else ReceiveDmxData
      requires Locked() == w.locked && lock.matchingSlotCount == w.slots && lock.history == w.history
      requires Arms() == GateAfter(got + [c], w.locked, w.slots)
      ensures Stored(w, got + [c])
    {
      hide Segment, GateAfter, Sound;
      assert (got + [c])[..|got + [c]| - 1] == got;
      GateSegment(got + [c], w.locked, w.slots);
    }

    lemma StreamingIs(w: Watch, got: seq<Octet>)
      requires Inv() && Holds(w, got, false) && w.OfStream? && !Full(w, got)
      ensures Midway() && rxFrame == w.frame && target == w.frame && offset == 0 && Got() == got && |got| == transfered < FRAME_SIZE
      ensures |got| < Segment(got, w.locked, w.slots) && View() == w.before.(state := state)
      ensures Sound(w.before) && w.before.rx.Some? && (w.before.state == RecvRdmReplyData || !w.before.state.Busy())
      ensures (state == RecvRdmReplyData <==> w.before.state == RecvRdmReplyData) && !state.Listens()
      ensures Locked() == w.locked && lock.matchingSlotCount == w.slots && lock.history == w.history
    {
    }

    lemma ReplyingIs(w: Watch, got: seq<Octet>)
      requires Inv() && Holds(w, got, false) && w.OfReply? && |got| < REPLY_SIZE
      ensures state.Listens() && rxFrame != null && txFrame == w.request && w.request.data == w.was && View() == w.before && w.before.tx.Some?
      ensures Area() == got && state == (if w.broken then RecvDiscReplyCollision else RecvDiscReply)
      ensures target == rxFrame && offset == REPLY_AREA && validcount == REPLY_SIZE && transfered == |got|
    {
    }

    /** An octet of a discovery reply has just been stored. */
    ghost predicate Heard(before: Ledger<Frame>, request: Frame, was: FrameData, got: seq<Octet>, broken: bool)
      reads this, rxFrame, request
    {
      && hasData && rxFrame != null && target == rxFrame && offset == REPLY_AREA && 0 < transfered == |got| <= REPLY_SIZE
      && validcount == REPLY_SIZE && rxFrame.data[REPLY_AREA..REPLY_AREA + |got|] == got
      && txFrame == request && request.data == was && View() == before
      && state == if broken then RecvDiscReplyCollision else RecvDiscReply
    }

    /** The triggers have been served for `got`, which has just grown; what the valid count now says. */
    ghost predicate Served(before: Ledger<Frame>, frame: Frame, got: seq<Octet>, locked: bool, slots: SlotCount)
      reads this, lock, rxFrame
    {
      && hasData && rxFrame == frame && target == frame && offset == 0 && 0 < transfered == |got| <= FRAME_SIZE && Got() == got
      && View() == before.(state := state) && (state == RecvRdmReplyData <==> before.state == RecvRdmReplyData)
      && (state == RecvRdmReplyData || state == if transfered < 2 then ExpectStartcode else ReceiveDmxData)
      && Locked() == locked && lock.matchingSlotCount == slots && Arms() == GateAfter(got, locked, slots)
      && 2 <= Segment(got, locked, slots) && |got| <= Segment(got, locked, slots) <= FRAME_SIZE
      && (|got| < Segment(got, locked, slots) <==> |got| < validcount && |got| < FRAME_SIZE)
    }

    /** `CheckComplete`, seen from what is followed. */
    method Settle(ghost w: Watch, ghost got: seq<Octet>)
      requires Inv() && transfered > 0 && hasData && Stored(w, got)
      modifies this`rxActive, this`hasData, this`armed, this`txFrame, this`rxFrame, this`answers, this`released, this`state, txFrame, rxFrame
      ensures Inv() && InInterrupt() && Holds(w, got, false)
      ensures (txFrame == null || txFrame == old(txFrame)) && (rxFrame == null || rxFrame == old(rxFrame))
      ensures old(rxFrame) != null ==> old(rxFrame).data == old(rxFrame.data)
      ensures (Orphaned() <==> old(Orphaned()) && hasData) && (old(Clocked()) ==> Clocked())
      ensures !old(state).Receiving() ==> View() == old(View())
    {
      hide Sound, SlotCountLock.Valid, Segment, GateAfter, AnswerWithReply, AnswerWithRequest, OutcomeFrame, ReadOutcome, Clocked;
      assert got[..|got|] == got;
      CheckComplete();
    }

    /** The octet is stored and the triggers are served. */
    method Take(c: Octet)
      requires Inv() && HasRoom()
      modifies this`state, this`transfered, this`validcount, this`lengthArmed, this`startcodeArmed, target`data
      ensures Inv() && transfered == old(transfered) + 1 && View() == old(View()).(state := state) && (old(Clocked()) ==> Clocked())
      ensures target.data == old(target.data)[offset + old(transfered) := c]
      ensures old(state) != ExpectStartcode ==> state == old(state)
      ensures old(Midway()) ==>
                && Got() == old(Got()) + [c] && Locked() == old(Locked())
                && Arms() == GateAfter(Got(), Locked(), lock.matchingSlotCount)
                && state == if old(state) == RecvRdmReplyData then RecvRdmReplyData
                            else if transfered < 2 then ExpectStartcode else ReceiveDmxData
    {
      hide Sound, SlotCountLock.Valid, Segment, Clocked;
      GrowsBy(target.data, 0, offset + transfered, c);
      Store(c);
      FireTriggers();
    }

    /** `Take`, seen from the reply that is being received. */
    method TakeHeard(c: Octet, ghost w: Watch, ghost got: seq<Octet>)
      requires Inv() && HasRoom() && (w.OfReply? ==> Holds(w, got, false) && |got| < REPLY_SIZE)
      modifies this`state, this`transfered, this`validcount, this`lengthArmed, this`startcodeArmed, target`data
      ensures Inv() && transfered == old(transfered) + 1 && View() == old(View()).(state := state) && (old(Clocked()) ==> Clocked())
      ensures target.data == old(target.data)[offset + old(transfered) := c]
      ensures old(state) != ExpectStartcode ==> state == old(state)
      ensures old(Midway()) ==>
                && Got() == old(Got()) + [c] && Locked() == old(Locked())
                && Arms() == GateAfter(Got(), Locked(), lock.matchingSlotCount)
                && state == if old(state) == RecvRdmReplyData then RecvRdmReplyData
                            else if transfered < 2 then ExpectStartcode else ReceiveDmxData
      ensures w.OfReply? ==> w.before.tx.Some? && Heard(w.before, w.request, w.was, got + [c], w.broken)
    {
      OrphanedExactly();
      if w.OfReply? {
        ReplyingIs(w, got);
      }
      hide Sound, SlotCountLock.Valid, Segment, Clocked, Midway, GateAfter, Arms, Locked, Holds, Inv;
      GrowsBy(target.data, offset, transfered, c);
      Take(c);
    }

    method Store(c: Octet)
      requires HasRoom() && target != null
      modifies this`transfered, target`data
      ensures transfered == old(transfered) + 1 && target.data == old(target.data)[offset + old(transfered) := c]
    {
      target.data := target.data[offset + transfered := c];
      transfered := transfered + 1;
    }

    /** Calls the trigger callback for what has fired and disarms that, and only that, afterwards. */
    method FireTriggers()
      requires Inv() && target != null
      modifies this`state, this`validcount, this`lengthArmed, this`startcodeArmed
      ensures Inv() && View() == old(View()).(state := if old(startcodeArmed) && transfered > 1 && old(state) == ExpectStartcode
                                                       then ReceiveDmxData else old(state))
      ensures transfered <= 1 ==> state == old(state) && validcount == old(validcount) &&
                                  startcodeArmed == old(startcodeArmed) && lengthArmed == old(lengthArmed)
      ensures transfered > 1 ==> !startcodeArmed
      ensures transfered > 2 && old(lengthArmed) ==> !lengthArmed || old(startcodeArmed)
      ensures !old(startcodeArmed) && !old(lengthArmed) ==> validcount == old(validcount) && !startcodeArmed && !lengthArmed
      ensures old((state == ExpectStartcode || state == RecvRdmReplyData) && startcodeArmed && !lengthArmed) && transfered == 2 && offset == 0 ==>
                (if target.data[0] == SC_RDM then validcount == old(validcount) && lengthArmed
                 else
                   && !lengthArmed
                   && validcount == if target.data[0] == 0 && old(state) == ExpectStartcode && lock.locked
                                    then lock.matchingSlotCount + 1 else old(validcount))
      ensures old((state == ReceiveDmxData || state == RecvRdmReplyData) && !startcodeArmed && lengthArmed) && transfered > 2 && offset == 0 ==>
                !lengthArmed && validcount == if target.data[1] == SC_SUB_MESSAGE then target.data[2] as int + 2 else old(validcount)
      ensures old(Clocked()) ==> Clocked()
    {
      hide Sound, SlotCountLock.Valid, Clocked;
      var startcode, length := startcodeArmed && transfered > 1, lengthArmed && transfered > 2;
      if startcode || length {
        RxTrigger(startcode, length);
        if startcode {
          startcodeArmed := false;
        }
        if length {
          lengthArmed := false;
        }
      }
    }

    /** Ends the reception once the buffer holds all it should. */
    method CheckComplete()
      requires Inv() && transfered > 0
      modifies this`rxActive, this`hasData, this`armed, this`txFrame, this`rxFrame, this`answers, this`released, this`state, txFrame, rxFrame
      ensures Inv() && (Orphaned() <==> old(Orphaned()) && hasData) && (old(Clocked()) ==> Clocked())
      ensures txFrame == null || txFrame == old(txFrame)
      ensures rxFrame == null || rxFrame == old(rxFrame)
      ensures old(rxFrame) != null ==> old(rxFrame).data == old(rxFrame.data)
      ensures if transfered < validcount && offset + transfered < FRAME_SIZE then
                View() == old(View()) && rxActive == old(rxActive) && hasData == old(hasData) && (txFrame != null ==> txFrame.data == old(txFrame.data))
              else
                !rxActive && !hasData && View() == Ended(old(View()), old(rxFrame != null && rxFrame.data[0] == 0))
      ensures transfered >= validcount || offset + transfered >= FRAME_SIZE ==>
              old(state == ReceiveDmxData || state == RecvRdmReplyData) ==> old(rxFrame).payloadSize == transfered - 1
      ensures transfered >= validcount || offset + transfered >= FRAME_SIZE ==>
              old(state).Listens() && old(rxFrame) != null ==>
                old(txFrame) != null &&
                old(txFrame).data == OutcomeFrame(old(txFrame.data), ReadOutcome(old(state.RecvDiscReplyCollision?), old(Area())))
    {
      hide Sound, SlotCountLock.Valid, OutcomeFrame, ReadOutcome, Ended;
      if transfered >= validcount || offset + transfered >= FRAME_SIZE {
        rxActive, hasData := false, false;
        RxEnd();
      }
    }
  }

  /** What the octets of a discovery reply say about the responders; a break among them is a collision. */
  function ReadOutcome(broken: bool, octets: seq<Octet>): (o: DiscoveryReply.Outcome)
    ensures o.Heard? ==> |o.uid| == 6
  {
    if broken then DiscoveryReply.Collided
    else
      HeardSixOctets(octets);
      DiscoveryReply.Decode(octets)
  }

  lemma HeardSixOctets(data: seq<Octet>)
    ensures DiscoveryReply.Decode(data).Heard? ==> |DiscoveryReply.Decode(data).uid| == 6
  {
  }
}
