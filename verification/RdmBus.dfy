/** Responders and the simulated bus that condenses their replies (`RdmDevice`, `DmxBus`). */
module RdmBus {
  import opened Octets
  import opened RdmPacket
  import opened DiscoverySearch

  /** A message with the fields that discovery leaves alone at zero. */
  function Message(src: Uid, dst: Uid, cc: Octet, pid: U16): Header {
    Header(dst, src, 0, 0, 0, 0, cc, pid)
  }

  /** The encoder chain that API, bus and devices use on a zeroed header. */
  method BuildMessage(src: nat, dst: nat, cc: Octet, pid: U16, fields: seq<Append>) returns (pkt: seq<Octet>)
    requires |Appended(fields)| <= 230
    ensures pkt == Encode(Message(src % UID_COUNT, dst % UID_COUNT, cc, pid), Appended(fields))
  {
    hide HeaderOf, Encode;
    var buffer := new Octet[256];
    forall i | 0 <= i < HEADER_SIZE {
      buffer[i] := 0;
    }
    ZeroHeader(buffer[..]);
    var e := new PacketEncoder(buffer);
    e.Source(src);
    e.Destination(dst);
    e.CommandClass(cc);
    e.Pid(pid);
    AddFields(e, fields);
    var size := e.Finalize();
    pkt := buffer[..size];
  }

  method AddFields(e: PacketEncoder, fields: seq<Append>)
    requires e.Valid() && e.Pd() == [] && |Appended(fields)| <= 231 && 26 + |Appended(fields)| <= e.buf.Length
    modifies e.buf
    ensures e.Valid() && e.Hdr() == old(e.Hdr()) && e.Pd() == Appended(fields)
  {
    hide HeaderOf, BigEndian;
    var i := 0;
    while i < |fields|
      invariant 0 <= i <= |fields|
      invariant e.Valid() && e.Hdr() == old(e.Hdr()) && e.Pd() == Appended(fields[..i])
    {
      assert fields[..i + 1][..i] == fields[..i];
      AppendedPrefix(fields, i + 1);
      e.AddPd(fields[i].value, fields[i].size);
      i := i + 1;
    }
    assert fields[..|fields|] == fields;
  }

  lemma ZeroHeader(s: seq<Octet>)
    requires |s| >= 24 && forall i | 0 <= i < 24 :: s[i] == 0
    ensures HeaderOf(s) == Message(0, 0, 0, 0)
  {
    ZeroValue(s[3..9]);
    ZeroValue(s[9..15]);
    ZeroValue(s[18..20]);
    ZeroValue(s[21..23]);
  }

  lemma {:induction false} ZeroValue(s: seq<Octet>)
    requires forall i | 0 <= i < |s| :: s[i] == 0
    ensures FromBigEndian(s) == 0
  {
    if s != [] {
      ZeroValue(s[..|s| - 1]);
    }
  }

  lemma {:induction false} AppendedPrefix(fields: seq<Append>, i: nat)
    requires i <= |fields|
    ensures |Appended(fields[..i])| <= |Appended(fields)|
  {
    if i == |fields| {
      assert fields[..i] == fields;
    } else {
      AppendedPrefix(fields[..|fields| - 1], i);
      assert fields[..|fields| - 1][..i] == fields[..i];
    }
  }

  // ----- responders --------------------------------------------------------------------------------

  datatype Responder = Responder(uid: Uid, muted: bool)

  datatype Response = Response(muted: bool, reply: Option<seq<Octet>>)

  predicate Readable(f: seq<Octet>) {
    |f| >= HEADER_SIZE && |f| >= HEADER_SIZE + Pdl(f)
  }

  function Acknowledge(uid: Uid, f: seq<Octet>): seq<Octet>
    requires Readable(f)
  {
    Encode(Message(uid, HeaderOf(f).src, DISCOVERY_COMMAND_RESPONSE, HeaderOf(f).pid), [])
  }

  predicate InRequestedRange(uid: Uid, f: seq<Octet>)
    requires Readable(f)
  {
    var lo, hi := PdAt(f, 0, 6), PdAt(f, 6, 6);
    lo.Some? && hi.Some? && lo.value <= uid <= hi.value
  }

  /** What a responder does with a frame: its new mute state and its reply, if any. */
  function Respond(d: Responder, f: seq<Octet>): Response
    requires Readable(f)
  {
    var h := HeaderOf(f);
    if !(IsRdm(f) && IsRequest(f) && ItIsForMe(f, d.uid) && h.cc == DISCOVERY_COMMAND) then
      Response(d.muted, None)
    else if h.pid == DISC_UNIQUE_BRANCH then
      Response(d.muted, if !d.muted && InRequestedRange(d.uid, f) then Some(Acknowledge(d.uid, f)) else None)
    else if h.pid == DISC_MUTE || h.pid == DISC_UN_MUTE then
      Response(h.pid == DISC_MUTE, if h.dst != BROADCAST then Some(Acknowledge(d.uid, f)) else None)
    else
      Response(d.muted, None)
  }

  /** What a responder does with any frame, by the fields of the frame: it is deaf to everything but discovery
      requests to itself or to all. It answers a branch request while it is not muted and in range, and a mute or
      un-mute request to itself alone, with an acknowledgement to the requester; only mute requests change it. */
  lemma RespondMeans(d: Responder, f: seq<Octet>)
    requires Readable(f)
    ensures var h, r := HeaderOf(f), Respond(d, f);
            var addressed := f[0] == 0xCC && f[1] == 0x01 && h.cc == 0x10 && (h.dst == d.uid || h.dst == 0xFFFF_FFFF_FFFF);
            && r.muted == (if addressed && h.pid == 0x0002 then true else if addressed && h.pid == 0x0003 then false else d.muted)
            && (r.reply.Some? <==>
                  && addressed
                  && ((h.pid == 0x0001 && !d.muted && InRequestedRange(d.uid, f)) ||
                      ((h.pid == 0x0002 || h.pid == 0x0003) && h.dst != 0xFFFF_FFFF_FFFF)))
            && (r.reply.Some? ==> IsAcknowledge(r.reply.value, d.uid, h.src, h.pid))
  {
    assert HeaderOf(f).cc == f[20];
    hide Encode, InRequestedRange, IsAcknowledge, HeaderOf;
    AcknowledgeMeans(d.uid, HeaderOf(f).src, HeaderOf(f).pid);
  }

  /** An acknowledgement of a discovery request, without parameter data. */
  ghost predicate IsAcknowledge(p: seq<Octet>, src: Uid, dst: Uid, pid: U16) {
    && |p| == 26 && IsRdm(p) && Pdl(p) == 0 && U16At(p, 24) == Checksum(p[..24])
    && HeaderOf(p) == Header(dst, src, 0, 0x00, 0, 0, 0x11, pid)
  }

  lemma AcknowledgeMeans(src: Uid, dst: Uid, pid: U16)
    ensures IsAcknowledge(Encode(Message(src, dst, DISCOVERY_COMMAND_RESPONSE, pid), []), src, dst, pid)
  {
    DecodeEncode(Message(src, dst, DISCOVERY_COMMAND_RESPONSE, pid), []);
  }

  class RdmDevice {
    const uid: Uid
    var muted: bool

    constructor (myUid: Uid)
      ensures uid == myUid && !muted
    {
      uid := myUid;
      muted := false;
    }

    ghost function View(): Responder
      reads this
    {
      Responder(uid, muted)
    }

    method Handle(f: seq<Octet>) returns (reply: Option<seq<Octet>>)
      requires Readable(f)
      modifies this
      ensures muted == Respond(old(View()), f).muted && reply == Respond(old(View()), f).reply
    {
      hide Encode, HeaderOf, PdAt;
      reply := None;
      if IsRdm(f) && IsRequest(f) && ItIsForMe(f, uid) {
        var h := HeaderOf(f);
        if h.cc == DISCOVERY_COMMAND {
          if h.pid == DISC_UNIQUE_BRANCH {
            if !muted {
              var lo, hi := PdAt(f, 0, 6), PdAt(f, 6, 6);
              if lo.None? || hi.None? {
                return;
              }
              if lo.value <= uid <= hi.value {
                var p := BuildMessage(uid, h.src, DISCOVERY_COMMAND_RESPONSE, DISC_UNIQUE_BRANCH, []);
                reply := Some(p);
              }
            }
          } else if h.pid == DISC_MUTE || h.pid == DISC_UN_MUTE {
            muted := h.pid == DISC_MUTE;
            if h.dst != BROADCAST {
              var p := BuildMessage(uid, h.src, DISCOVERY_COMMAND_RESPONSE, h.pid, []);
              reply := Some(p);
            }
          }
        }
      }
    }
  }

  // ----- the bus -----------------------------------------------------------------------------------

  function Replies(ds: seq<Responder>, f: seq<Octet>): seq<seq<Octet>>
    requires Readable(f)
  {
    if ds == [] then []
    else
      var r := Respond(ds[|ds| - 1], f).reply;
      Replies(ds[..|ds| - 1], f) + if r.Some? then [r.value] else []
  }

  lemma RepliesStart(ds: seq<Responder>, f: seq<Octet>)
    requires Readable(f)
    ensures Replies(ds[..0], f) == []
  {
  }

  lemma RepliesNext(ds: seq<Responder>, i: nat, f: seq<Octet>)
    requires Readable(f) && i < |ds|
    ensures var r := Respond(ds[i], f).reply;
            Replies(ds[..i + 1], f) == Replies(ds[..i], f) + if r.Some? then [r.value] else []
  {
    assert ds[..i + 1][..i] == ds[..i];
  }

  function After(ds: seq<Responder>, f: seq<Octet>): seq<Responder>
    requires Readable(f)
  {
    seq(|ds|, i requires 0 <= i < |ds| => ds[i].(muted := Respond(ds[i], f).muted))
  }

  predicate IsDiscoveryRequest(f: seq<Octet>)
    requires Readable(f)
  {
    IsRdm(f) && IsRequest(f) && HeaderOf(f).cc == DISCOVERY_COMMAND && HeaderOf(f).pid == DISC_UNIQUE_BRANCH
  }

  /** The one frame the master gets back for the frames the slaves sent. */
  function Condense(f: seq<Octet>, replies: seq<seq<Octet>>): Option<seq<Octet>>
    requires Readable(f)
  {
    if |replies| == 1 then Some(replies[0])
    else if IsDiscoveryRequest(f) then
      Some(Encode(Message(if |replies| > 1 then BROADCAST else ANY, HeaderOf(f).src,
                          DISCOVERY_COMMAND_RESPONSE, DISC_UNIQUE_BRANCH), []))
    else if |replies| > 0 then Some(replies[0])
    else None
  }

  /** How the bus condenses replies: a single one, or the first to anything but a branch request, is passed on; to
      a branch request silence is reported by UID zero and a collision by all ones. */
  lemma CondenseMeans(f: seq<Octet>, replies: seq<seq<Octet>>)
    requires Readable(f)
    ensures var c, branch := Condense(f, replies), IsDiscoveryRequest(f);
            && (|replies| == 1 || (|replies| > 1 && !branch) ==> c == Some(replies[0]))
            && (|replies| == 0 && !branch ==> c == None)
            && (|replies| != 1 && branch ==>
                  c.Some? && IsAcknowledge(c.value, if replies == [] then 0 else 0xFFFF_FFFF_FFFF, HeaderOf(f).src, 0x0001))
  {
    hide Encode, IsAcknowledge, HeaderOf, IsDiscoveryRequest;
    AcknowledgeMeans(ANY, HeaderOf(f).src, DISC_UNIQUE_BRANCH);
    AcknowledgeMeans(BROADCAST, HeaderOf(f).src, DISC_UNIQUE_BRANCH);
  }

  ghost function ViewOf(slaves: seq<RdmDevice>): seq<Responder>
    reads slaves
  {
    seq(|slaves|, i requires 0 <= i < |slaves| reads slaves => slaves[i].View())
  }

  lemma DistinctObjects(slaves: seq<RdmDevice>)
    requires DistinctUids(ViewOf(slaves))
    ensures forall i, j | 0 <= i < j < |slaves| :: slaves[i] != slaves[j]
  {
    assert forall i | 0 <= i < |slaves| :: ViewOf(slaves)[i].uid == slaves[i].uid;
  }

  class DmxBus {
    var slaves: seq<RdmDevice>
    var masterRequestActive: bool
    var rxqueue: seq<seq<Octet>>

    constructor ()
      ensures slaves == [] && rxqueue == [] && !masterRequestActive
    {
      slaves, rxqueue, masterRequestActive := [], [], false;
    }

    /** Device UIDs are distinct; the queue is empty between requests. */
    ghost predicate Valid()
      reads this, slaves
    {
      && rxqueue == [] && !masterRequestActive
      && DistinctUids(View())
    }

    ghost function View(): seq<Responder>
      reads this`slaves, slaves
    {
      ViewOf(slaves)
    }

    ghost function Unmuted(): set<nat>
      reads this`slaves, slaves
    {
      UnmutedUids(View())
    }

    method HandleSlave(f: seq<Octet>)
      modifies this`rxqueue
      ensures rxqueue == if masterRequestActive then old(rxqueue) + [f] else old(rxqueue)
    {
      if masterRequestActive {
        rxqueue := rxqueue + [f];
      }
    }

    /** One slave's turn: whatever it sends while a request is active is queued. */
    method Deliver(slave: RdmDevice, f: seq<Octet>)
      requires Readable(f) && masterRequestActive
      modifies this`rxqueue, slave
      ensures slave.muted == Respond(old(slave.View()), f).muted
      ensures var r := Respond(old(slave.View()), f).reply;
              rxqueue == old(rxqueue) + if r.Some? then [r.value] else []
    {
      hide Respond;
      var r := slave.Handle(f);
      if r.Some? {
        HandleSlave(r.value);
      }
    }

    lemma Served(before: seq<Responder>, f: seq<Octet>)
      requires Readable(f) && |before| == |slaves|
      requires forall k | 0 <= k < |slaves| :: slaves[k].uid == before[k].uid && slaves[k].muted == Respond(before[k], f).muted
      ensures View() == After(before, f)
    {
    }

    /** Hands the frame to every slave while replies are being collected. */
    method Broadcast(f: seq<Octet>)
      requires Valid() && Readable(f)
      modifies this`rxqueue, this`masterRequestActive, slaves
      ensures !masterRequestActive && View() == After(old(View()), f) && rxqueue == Replies(old(View()), f)
    {
      hide Respond, DistinctUids, After, Replies, Encode, HeaderOf;
      ghost var before := View();
      DistinctObjects(slaves);
      RepliesStart(before, f);
      masterRequestActive := true;
      var i := 0;
      while i < |slaves|
        invariant 0 <= i <= |slaves| == |before| && masterRequestActive
        invariant forall k | 0 <= k < i :: slaves[k].muted == Respond(before[k], f).muted
        invariant forall k | i <= k < |slaves| :: slaves[k].muted == before[k].muted
        invariant rxqueue == Replies(before[..i], f)
        modifies this`rxqueue, slaves
      {
        assert slaves[i].View() == before[i];
        RepliesNext(before, i, f);
        Deliver(slaves[i], f);
        i := i + 1;
      }
      assert before[..i] == before;
      Served(before, f);
      masterRequestActive := false;
    }

    /** Broadcasts a frame to all slaves and hands the condensed reply to the master. */
    method HandleMaster(f: seq<Octet>) returns (reply: Option<seq<Octet>>)
      requires Valid() && Readable(f)
      modifies this`rxqueue, this`masterRequestActive, slaves
      ensures Valid()
      ensures View() == After(old(View()), f)
      ensures reply == Condense(f, Replies(old(View()), f))
    {
      hide Encode, HeaderOf, PdAt, Respond, Replies;
      AfterKeepsUids(View(), f);
      Broadcast(f);
      if |rxqueue| == 1 {
        reply := Some(rxqueue[0]);
      } else if IsDiscoveryRequest(f) {
        var p := BuildMessage(if |rxqueue| > 1 then BROADCAST else ANY, HeaderOf(f).src,
                              DISCOVERY_COMMAND_RESPONSE, DISC_UNIQUE_BRANCH, []);
        reply := Some(p);
      } else if |rxqueue| > 0 {
        reply := Some(rxqueue[0]);
      } else {
        reply := None;
      }
      rxqueue := [];
    }
  }

  // ----- what the bus answers ------------------------------------------------------------------------

  ghost predicate DistinctUids(ds: seq<Responder>) {
    && (forall i | 0 <= i < |ds| :: ANY < ds[i].uid < BROADCAST)
    && (forall i, j | 0 <= i < j < |ds| :: ds[i].uid != ds[j].uid)
  }

  ghost function UnmutedUids(ds: seq<Responder>): set<nat> {
    set d | d in ds && !d.muted :: d.uid
  }

  lemma AfterKeepsUids(ds: seq<Responder>, f: seq<Octet>)
    requires Readable(f) && DistinctUids(ds)
    ensures DistinctUids(After(ds, f))
  {
    assert forall i | 0 <= i < |ds| :: After(ds, f)[i].uid == ds[i].uid;
  }

  /** The encoded request for one branch of the search. */
  function BranchRequest(me: Uid, r: Range): seq<Octet> {
    Encode(Message(me, BROADCAST, DISCOVERY_COMMAND, DISC_UNIQUE_BRANCH),
           BigEndian(r.lo, 6) + BigEndian(r.hi, 6))
  }

  function MuteRequest(me: Uid, whom: Uid, pid: U16): seq<Octet> {
    Encode(Message(me, whom, DISCOVERY_COMMAND, pid), [])
  }

  lemma BranchRequestDecoded(me: Uid, r: Range)
    requires r.lo < UID_COUNT && r.hi < UID_COUNT
    ensures var f := BranchRequest(me, r);
            Readable(f) && IsDiscoveryRequest(f) && HeaderOf(f).src == me && HeaderOf(f).dst == BROADCAST &&
            PdAt(f, 0, 6) == Some(r.lo) && PdAt(f, 6, 6) == Some(r.hi)
  {
    var f, pd := BranchRequest(me, r), BigEndian(r.lo, 6) + BigEndian(r.hi, 6);
    DecodeEncode(Message(me, BROADCAST, DISCOVERY_COMMAND, DISC_UNIQUE_BRANCH), pd);
    assert f[24..30] == f[24..36][0..6] == BigEndian(r.lo, 6);
    assert f[30..36] == f[24..36][6..12] == BigEndian(r.hi, 6);
    Pow256Values();
    BigEndianExact(r.lo, 6);
    BigEndianExact(r.hi, 6);
  }

  function BranchReply(u: Uid, me: Uid): seq<Octet> {
    Encode(Message(u, me, DISCOVERY_COMMAND_RESPONSE, DISC_UNIQUE_BRANCH), [])
  }

  lemma BranchRespond(d: Responder, me: Uid, r: Range)
    requires r.lo < UID_COUNT && r.hi < UID_COUNT
    ensures Readable(BranchRequest(me, r))
    ensures Respond(d, BranchRequest(me, r)) ==
            Response(d.muted, if !d.muted && r.lo <= d.uid <= r.hi then Some(BranchReply(d.uid, me)) else None)
  {
    hide Encode;
    BranchRequestDecoded(me, r);
  }

  /** The UIDs that answer a branch request, in bus order. */
  function Answering(ds: seq<Responder>, r: Range): seq<Uid> {
    if ds == [] then []
    else
      var d := ds[|ds| - 1];
      Answering(ds[..|ds| - 1], r) + if !d.muted && r.lo <= d.uid <= r.hi then [d.uid] else []
  }

  function BranchReplies(us: seq<Uid>, me: Uid): seq<seq<Octet>> {
    if us == [] then [] else BranchReplies(us[..|us| - 1], me) + [BranchReply(us[|us| - 1], me)]
  }

  /** Exactly the unmuted devices of the range reply, each with its own UID. */
  lemma {:induction false} AnsweringReplies(ds: seq<Responder>, me: Uid, r: Range)
    requires r.lo < UID_COUNT && r.hi < UID_COUNT && Readable(BranchRequest(me, r))
    ensures Replies(ds, BranchRequest(me, r)) == BranchReplies(Answering(ds, r), me)
  {
    hide Encode, Respond, HeaderOf, BranchReply, BranchRequest;
    if ds != [] {
      var init, d := ds[..|ds| - 1], ds[|ds| - 1];
      AnsweringReplies(init, me, r);
      BranchRespond(d, me, r);
      var us := Answering(init, r);
      if !d.muted && r.lo <= d.uid <= r.hi {
        assert (us + [d.uid])[..|us|] == us;
        assert BranchReplies(us + [d.uid], me) == BranchReplies(us, me) + [BranchReply(d.uid, me)];
      } else {
        assert Answering(ds, r) == us;
        assert Replies(ds, BranchRequest(me, r)) == Replies(init, BranchRequest(me, r));
      }
    }
  }

  lemma {:induction false} AnsweringUids(ds: seq<Responder>, r: Range)
    requires DistinctUids(ds)
    ensures |Answering(ds, r)| == |Within(UnmutedUids(ds), r)|
    ensures forall u | u in Answering(ds, r) :: u in Within(UnmutedUids(ds), r)
  {
    if ds == [] {
      assert Within(UnmutedUids(ds), r) == {};
    } else {
      hide UnmutedUids, Within;
      var init, d := ds[..|ds| - 1], ds[|ds| - 1];
      AnsweringUids(init, r);
      UnmutedSnoc(ds);
      WithinSnoc(UnmutedUids(init), d, UnmutedUids(ds), r);
    }
  }

  lemma WithinSnoc(before: set<nat>, d: Responder, after: set<nat>, r: Range)
    requires d.uid !in before && after == before + (if d.muted then {} else {d.uid})
    ensures Within(after, r) == Within(before, r) + if !d.muted && r.lo <= d.uid <= r.hi then {d.uid} else {}
    ensures |Within(after, r)| == |Within(before, r)| + if !d.muted && r.lo <= d.uid <= r.hi then 1 else 0
  {
    assert Within(after, r) == Within(before, r) + if !d.muted && r.lo <= d.uid <= r.hi then {d.uid} else {};
  }

  lemma UnmutedSnoc(ds: seq<Responder>)
    requires ds != [] && DistinctUids(ds)
    ensures var init, d := ds[..|ds| - 1], ds[|ds| - 1];
            && UnmutedUids(ds) == UnmutedUids(init) + (if d.muted then {} else {d.uid})
            && d.uid !in UnmutedUids(init)
  {
    var init, d := ds[..|ds| - 1], ds[|ds| - 1];
    assert ds == init + [d];
    assert forall e :: e in ds <==> e in init || e == d;
    assert forall i | 0 <= i < |init| :: init[i].uid == ds[i].uid != d.uid;
  }

  /** The answer to one branch request names the only unmuted device of the range, or says that there
      are none or several; it is addressed to the requester and mutes nobody. */
  lemma BranchAnswer(ds: seq<Responder>, me: Uid, r: Range)
    requires r.lo < UID_COUNT && r.hi < UID_COUNT && DistinctUids(ds)
    ensures Readable(BranchRequest(me, r)) && After(ds, BranchRequest(me, r)) == ds
    ensures var hits, f := Within(UnmutedUids(ds), r), BranchRequest(me, r);
            exists src: Uid ::
              && Condense(f, Replies(ds, f)) == Some(BranchReply(src, me))
              && (src == ANY <==> |hits| == 0)
              && (src == BROADCAST <==> |hits| >= 2)
              && (hits == {src} <==> |hits| == 1)
  {
    hide Encode, Respond, HeaderOf, BranchReply, Within;
    var f, hits := BranchRequest(me, r), Within(UnmutedUids(ds), r);
    BranchRequestDecoded(me, r);
    forall i | 0 <= i < |ds|
      ensures After(ds, f)[i] == ds[i]
    {
      BranchRespond(ds[i], me, r);
    }
    AnsweringReplies(ds, me, r);
    AnsweringUids(ds, r);
    var us := Answering(ds, r);
    var src: Uid := if |us| == 0 then ANY else if |us| == 1 then us[0] else BROADCAST;
    BranchRepliesLength(us, me);
    if |us| == 1 {
      assert us[0] in us;
      assert |hits - {src}| == 0;
      assert hits == {src};
      WithinUids(ds, r);
      assert us[..0] == [] && Replies(ds, f) == [BranchReply(src, me)];
    } else {
      CondenseMany(f, Replies(ds, f), me);
    }
    assert Condense(f, Replies(ds, f)) == Some(BranchReply(src, me));
  }

  lemma {:induction false} BranchRepliesLength(us: seq<Uid>, me: Uid)
    ensures |BranchReplies(us, me)| == |us|
  {
    if us != [] {
      BranchRepliesLength(us[..|us| - 1], me);
    }
  }

  lemma WithinUids(ds: seq<Responder>, r: Range)
    requires DistinctUids(ds)
    ensures forall u | u in Within(UnmutedUids(ds), r) :: ANY < u < BROADCAST
  {
  }

  lemma CondenseMany(f: seq<Octet>, replies: seq<seq<Octet>>, me: Uid)
    requires Readable(f) && IsDiscoveryRequest(f) && HeaderOf(f).src == me && |replies| != 1
    ensures Condense(f, replies) == Some(BranchReply(if |replies| > 1 then BROADCAST else ANY, me))
  {
  }

  lemma MuteRequestDecoded(me: Uid, whom: Uid, pid: U16)
    ensures var f := MuteRequest(me, whom, pid);
            Readable(f) && IsRdm(f) && IsRequest(f) &&
            HeaderOf(f) == Message(me, whom, DISCOVERY_COMMAND, pid)
  {
    DecodeEncode(Message(me, whom, DISCOVERY_COMMAND, pid), []);
  }

  function Mute(ds: seq<Responder>, whom: Uid, value: bool): seq<Responder> {
    seq(|ds|, i requires 0 <= i < |ds| => if ds[i].uid == whom || whom == BROADCAST then ds[i].(muted := value) else ds[i])
  }

  ghost predicate HasUid(ds: seq<Responder>, u: Uid) {
    exists d :: d in ds && d.uid == u
  }

  lemma HasUidSnoc(ds: seq<Responder>, u: Uid)
    requires ds != [] && DistinctUids(ds)
    ensures HasUid(ds, u) <==> HasUid(ds[..|ds| - 1], u) || ds[|ds| - 1].uid == u
    ensures !HasUid(ds[..|ds| - 1], ds[|ds| - 1].uid)
  {
    var init, d := ds[..|ds| - 1], ds[|ds| - 1];
    assert ds == init + [d];
    assert d in ds;
    assert forall i | 0 <= i < |init| :: init[i].uid == ds[i].uid != d.uid;
  }

  lemma MuteRespond(d: Responder, me: Uid, whom: Uid, pid: U16)
    requires pid == DISC_MUTE || pid == DISC_UN_MUTE
    ensures var f := MuteRequest(me, whom, pid);
            Readable(f) && Respond(d, f) ==
            if d.uid != whom && whom != BROADCAST then Response(d.muted, None)
            else Response(pid == DISC_MUTE,
                          if whom == BROADCAST then None
                          else Some(Encode(Message(d.uid, me, DISCOVERY_COMMAND_RESPONSE, pid), [])))
  {
    MuteRequestDecoded(me, whom, pid);
    hide Encode;
  }

  lemma {:induction false} MuteReplies(ds: seq<Responder>, me: Uid, whom: Uid, pid: U16)
    requires DistinctUids(ds) && (pid == DISC_MUTE || pid == DISC_UN_MUTE)
    requires Readable(MuteRequest(me, whom, pid))
    ensures var replies := Replies(ds, MuteRequest(me, whom, pid));
            if whom != BROADCAST && HasUid(ds, whom)
            then replies == [Encode(Message(whom, me, DISCOVERY_COMMAND_RESPONSE, pid), [])]
            else replies == []
  {
    if ds == [] {
      assert !HasUid(ds, whom);
    } else {
      hide Encode, Respond, HeaderOf, MuteRequest, HasUid;
      var init, d := ds[..|ds| - 1], ds[|ds| - 1];
      MuteReplies(init, me, whom, pid);
      MuteRespond(d, me, whom, pid);
      HasUidSnoc(ds, whom);
    }
  }

  /** A mute (or un-mute) request changes exactly its target, every device for a broadcast; a unicast
      one is answered if and only if the target exists. */
  lemma MuteAnswer(ds: seq<Responder>, me: Uid, whom: Uid, pid: U16)
    requires DistinctUids(ds) && (pid == DISC_MUTE || pid == DISC_UN_MUTE)
    ensures var f := MuteRequest(me, whom, pid);
            Readable(f) && After(ds, f) == Mute(ds, whom, pid == DISC_MUTE) &&
            Condense(f, Replies(ds, f)) ==
              if whom != BROADCAST && HasUid(ds, whom)
              then Some(Encode(Message(whom, me, DISCOVERY_COMMAND_RESPONSE, pid), [])) else None
  {
    hide Encode, Respond, HeaderOf;
    var f := MuteRequest(me, whom, pid);
    MuteRequestDecoded(me, whom, pid);
    forall i | 0 <= i < |ds|
      ensures After(ds, f)[i] == Mute(ds, whom, pid == DISC_MUTE)[i]
    {
      MuteRespond(ds[i], me, whom, pid);
    }
    MuteReplies(ds, me, whom, pid);
  }

  /** Muting one device removes exactly its UID from the unmuted set. */
  lemma MutedUids(ds: seq<Responder>, whom: Uid)
    requires DistinctUids(ds) && whom != BROADCAST
    ensures UnmutedUids(Mute(ds, whom, true)) == UnmutedUids(ds) - {whom} && DistinctUids(Mute(ds, whom, true))
  {
    var after := Mute(ds, whom, true);
    forall u | u in UnmutedUids(ds) - {whom}
      ensures u in UnmutedUids(after)
    {
      var d :| d in ds && !d.muted && d.uid == u;
      var i :| 0 <= i < |ds| && ds[i] == d;
      assert after[i] == d;
    }
    forall u | u in UnmutedUids(after)
      ensures u in UnmutedUids(ds) - {whom}
    {
      var d :| d in after && !d.muted && d.uid == u;
      var i :| 0 <= i < |after| && after[i] == d;
      assert ds[i] == d;
    }
  }
}
