/** The RDM controller (`RdmApi`): futures for pending replies, mute and un-mute, and the discovery loop. */
module RdmController {
  import opened Octets
  import opened RdmPacket
  import opened DiscoverySearch
  import opened RdmBus

  datatype FutureState = Busy | Ready | Timeout

  /** A reply that has not arrived yet. */
  class RdmFuture {
    var state: FutureState
    var buffer: seq<Octet>

    constructor ()
      ensures state == Busy && buffer == []
    {
      state, buffer := Busy, [];
    }

    method Set(data: seq<Octet>)
      modifies this
      ensures state == Ready && buffer == if |data| < 256 then data else data[..256]
    {
      buffer := if |data| < 256 then data else data[..256];
      state := Ready;
    }

    /** Replies arrive during the request call, so waiting on a busy future can only time out. */
    method Wait() returns (ready: bool)
      modifies this`state
      ensures state == (if old(state) == Busy then Timeout else old(state)) && ready == (state == Ready)
    {
      if state == Busy {
        state := Timeout;
      }
      ready := state == Ready;
    }
  }

  datatype Answer = Found(uid: Uid) | Collision | Nobody | Ignored

  /** How the discovery loop reads a reply. */
  function Classify(reply: seq<Octet>, me: Uid): Answer
    requires |reply| >= HEADER_SIZE
  {
    var h := HeaderOf(reply);
    if !(IsRdm(reply) && h.cc == DISCOVERY_COMMAND_RESPONSE && h.pid == DISC_UNIQUE_BRANCH && h.dst == me) then Ignored
    else if h.src == BROADCAST then Collision
    else if h.src == ANY then Nobody
    else Found(h.src)
  }

  /** The reading by the fields of the reply: anything but a response to this controller's branch request is
      ignored, and the source says who answered. */
  lemma ClassifyMeans(reply: seq<Octet>, me: Uid)
    requires |reply| >= HEADER_SIZE
    ensures var h, c := HeaderOf(reply), Classify(reply, me);
            && (c == Ignored <==> reply[0] != 0xCC || reply[1] != 0x01 || h.cc != 0x11 || h.pid != 0x0001 || h.dst != me)
            && (c != Ignored ==> c == if h.src == 0xFFFF_FFFF_FFFF then Collision else if h.src == 0 then Nobody else Found(h.src))
  {
  }

  lemma ClassifyReply(src: Uid, me: Uid)
    ensures |BranchReply(src, me)| == 26
    ensures Classify(BranchReply(src, me), me) ==
            if src == BROADCAST then Collision else if src == ANY then Nobody else Found(src)
  {
    DecodeEncode(Message(src, me, DISCOVERY_COMMAND_RESPONSE, DISC_UNIQUE_BRANCH), []);
  }

  method BuildMuteRequest(me: Uid, whom: Uid, pid: U16) returns (f: seq<Octet>)
    ensures f == MuteRequest(me, whom, pid)
  {
    hide Encode, Checksum;
    f := BuildMessage(me, whom, DISCOVERY_COMMAND, pid, []);
  }

  class Controller {
    const myUid: Uid := 0x1234_0000_0001
    const bus: DmxBus
    var futures: seq<RdmFuture>

    constructor (bus: DmxBus)
      ensures this.bus == bus && futures == []
    {
      this.bus := bus;
      futures := [];
    }

    /** A frame from the bus completes the oldest future and drops the rest. */
    method Handle(data: seq<Octet>)
      modifies this`futures, futures
      ensures futures == []
      ensures old(futures) != [] ==>
                old(futures)[0].state == Ready && old(futures)[0].buffer == if |data| < 256 then data else data[..256]
      ensures forall f | f in old(futures) && f != old(futures)[0] :: f.state == old(f.state) && f.buffer == old(f.buffer)
    {
      if futures != [] {
        futures[0].Set(data);
      }
      futures := [];
    }

    /** Sends a request and registers a future for its reply. If an older future is still waiting, the reply
        goes to that one and the new future stays without. */
    method Request(f: seq<Octet>) returns (reply: RdmFuture)
      requires bus.Valid() && Readable(f)
      modifies this`futures, futures, bus`rxqueue, bus`masterRequestActive, bus.slaves
      ensures bus.Valid() && bus.View() == After(old(bus.View()), f)
      ensures fresh(reply)
      ensures var answer := Condense(f, Replies(old(bus.View()), f));
              match answer
              case None => reply.state == Busy && futures == old(futures) + [reply]
              case Some(p) =>
                futures == [] &&
                if old(futures) == [] then reply.state == Ready && reply.buffer == if |p| < 256 then p else p[..256]
                else reply.state == Busy && old(futures)[0].state == Ready
    {
      hide Condense, Replies, After;
      reply := new RdmFuture();
      futures := futures + [reply];
      var answer := bus.HandleMaster(f);
      if answer.Some? {
        Handle(answer.value);
      }
    }

    /** Mutes or un-mutes one device, or all of them for the broadcast UID. An absent device does not answer,
        and the future for its reply stays behind. */
    method SetMute(whom: Uid, pid: U16)
      requires bus.Valid() && (pid == DISC_MUTE || pid == DISC_UN_MUTE)
      modifies this`futures, futures, bus`rxqueue, bus`masterRequestActive, bus.slaves
      ensures bus.Valid() && bus.View() == Mute(old(bus.View()), whom, pid == DISC_MUTE)
      ensures whom == BROADCAST ==> futures == old(futures)
      ensures whom != BROADCAST && HasUid(old(bus.View()), whom) ==> futures == []
      ensures whom != BROADCAST && !HasUid(old(bus.View()), whom) ==>
                |futures| == |old(futures)| + 1 && futures[..|old(futures)|] == old(futures) && fresh(futures[|old(futures)|])
    {
      hide Condense, Replies, After, Mute, HasUid, MuteRequest, HeaderOf, Encode;
      MuteAnswer(bus.View(), myUid, whom, pid);
      var f := BuildMuteRequest(myUid, whom, pid);
      if whom == BROADCAST {
        var silence := bus.HandleMaster(f);  // nobody answers a broadcast
      } else {
        var reply := Request(f);
        var ready := reply.Wait();
      }
    }

    /** One branch request and what its answer means. It is always replied to, and the reply is seen exactly
        if no older future is waiting. */
    method AskBranch(a: Range) returns (answer: Answer)
      requires bus.Valid() && a.lo < UID_COUNT && a.hi < UID_COUNT
      modifies this`futures, futures, bus`rxqueue, bus`masterRequestActive, bus.slaves
      ensures bus.Valid() && futures == [] && bus.View() == old(bus.View())
      ensures var hits := Within(bus.Unmuted(), a);
              match answer
              case Nobody => |hits| == 0 && old(futures) == []
              case Found(u) => hits == {u} && old(futures) == []
              case Collision => |hits| >= 2 && old(futures) == []
              case Ignored => old(futures) != []
    {
      hide Condense, Replies, After, Within, UnmutedUids, BranchReply, HeaderOf;
      BranchAnswer(bus.View(), myUid, a);
      ghost var hits := Within(bus.Unmuted(), a);
      var fields := [Append(a.lo, 6), Append(a.hi, 6)];
      BranchFields(a);
      var f := BuildMessage(myUid, BROADCAST, DISCOVERY_COMMAND, DISC_UNIQUE_BRANCH, fields);
      assert f == BranchRequest(myUid, a);
      ghost var src: Uid :|
        && Condense(f, Replies(bus.View(), f)) == Some(BranchReply(src, myUid))
        && (src == ANY <==> |hits| == 0)
        && (src == BROADCAST <==> |hits| >= 2)
        && (hits == {src} <==> |hits| == 1);
      var reply := Request(f);
      ClassifyReply(src, myUid);
      var ready := reply.Wait();
      answer := if ready then Classify(reply.buffer, myUid) else Ignored;
    }

    /** One turn of the discovery loop refines one step of the abstract search, unless an older future takes
        the reply: then the range is dropped. */
    method SearchTurn(space: seq<Range>, discovered: seq<Uid>, ghost s: Search)
      returns (searchSpace: seq<Range>, found: seq<Uid>)
      requires bus.Valid() && |space| > 0
      requires s.unmuted == bus.Unmuted() && s.pending == space && s.found == discovered && 0 !in s.unmuted
      requires forall i | 0 <= i < |space| :: space[i].lo < UID_COUNT && space[i].hi < UID_COUNT
      modifies this`futures, futures, bus`rxqueue, bus`masterRequestActive, bus.slaves
      ensures bus.Valid() && futures == []
      ensures old(futures) == [] ==>
                Step(s).unmuted == bus.Unmuted() && Step(s).pending == searchSpace && Step(s).found == found
      ensures old(futures) != [] ==> bus.Unmuted() == s.unmuted && searchSpace == space[1..] && found == discovered
      ensures forall i | 0 <= i < |searchSpace| :: searchSpace[i].lo < UID_COUNT && searchSpace[i].hi < UID_COUNT
    {
      hide Within, UnmutedUids, Mute, HasUid, DistinctUids;
      var a := space[0];
      searchSpace, found := space[1..], discovered;
      var answer := AskBranch(a);
      match answer
      case Collision =>
        CollisionMid(s.unmuted, a);
        ghost var rest := searchSpace;
        searchSpace := searchSpace + [Range(a.lo, (a.lo + a.hi) / 2 - 1)];
        searchSpace := searchSpace + [Range((a.lo + a.hi) / 2, a.hi)];
        assert searchSpace == rest + [Lower(a), Upper(a)];
      case Found(u) =>
        if u !in found {
          found := found + [u];
        }
        FoundIsKnown(bus.View(), u, a);
        MutedUids(bus.View(), u);
        assert Lone({u}) == u by { assert Lone({u}) in {u}; }
        SetMute(u, DISC_MUTE);
        searchSpace := searchSpace + [a];
      case _ =>
    }

    /** Binary search over the UID range; found devices are muted and their range searched again. The result
        is that of the abstract search, so a sufficient budget finds every device of the range if and only
        if splitting can separate them and no older request is waiting for its reply, or nobody is there. */
    method DiscoverDevices(from: Uid, to: Uid, maxSearchCount: nat) returns (found: seq<Uid>, ghost end: Search)
      requires bus.Valid()
      modifies this`futures, futures, bus`rxqueue, bus`masterRequestActive, bus.slaves
      ensures bus.Valid() && futures == if maxSearchCount == 0 then old(futures) else []
      ensures 0 !in old(bus.Unmuted())
      ensures end == Discover(old(bus.Unmuted()), Range(from, to), maxSearchCount, old(futures) == [])
      ensures found == end.found && bus.Unmuted() == end.unmuted
      ensures bus.Unmuted() == old(bus.Unmuted()) - (set u | u in found)
      ensures maxSearchCount > 0 && old(futures) != [] ==> found == [] && end.pending == [] && end.requests == 1
      ensures var hits := Within(old(bus.Unmuted()), Range(from, to));
              maxSearchCount >= Cost(Range(from, to), |hits|) ==>
                ((set u | u in found) == hits <==>
                 (old(futures) == [] && Separable(old(bus.Unmuted()), Range(from, to))) || hits == {})
    {
      hide Within, UnmutedUids, Separable, Cost, Mute, HasUid, DistinctUids, Run;
      ghost var devices, whole, clean := bus.Unmuted(), Range(from, to), futures == [];
      NoZeroUid(bus.View());
      found := [];
      var searchSpace := [Range(from, to)];
      var searchCount: nat := maxSearchCount;
      ghost var s := Start(devices, whole);
      CoversStart(devices, whole);
      while |searchSpace| > 0 && searchCount > 0
        invariant bus.Valid() && bus.slaves == old(bus.slaves) && searchCount <= maxSearchCount
        invariant futures == if searchCount == maxSearchCount then old(futures) else []
        invariant s.unmuted == bus.Unmuted() && s.pending == searchSpace && s.found == found
        invariant 0 !in s.unmuted && (clean ==> Covers(s, devices, whole))
        invariant clean ==> Run(Start(devices, whole), maxSearchCount) == Run(s, searchCount)
        invariant !clean ==> s == if searchCount == maxSearchCount then Start(devices, whole)
                                  else Start(devices, whole).(pending := [], requests := 1)
        invariant forall i | 0 <= i < |searchSpace| :: searchSpace[i].lo < UID_COUNT && searchSpace[i].hi < UID_COUNT
        decreases searchCount
      {
        if clean {
          CoversStep(s, devices, whole);
          RunEnds(s, searchCount);
        }
        searchCount := searchCount - 1;
        searchSpace, found := SearchTurn(searchSpace, found, s);
        s := if clean then Step(s) else s.(pending := searchSpace, requests := s.requests + 1);
      }
      end := s;
      RunEnds(s, searchCount);
      CoversRun(Start(devices, whole), maxSearchCount, devices, whole);
      if maxSearchCount >= Cost(whole, |Within(devices, whole)|) {
        DiscoverComplete(devices, whole, maxSearchCount, clean);
      }
    }

    /** Muting or un-muting an absent device spoils the discovery that follows: it reports nothing, with an
        empty work list, whatever devices there are. The one after that works again. */
    method DiscoverAfterAbsent(absent: Uid, pid: U16, from: Uid, to: Uid, maxSearchCount: nat)
      returns (spoiled: seq<Uid>, found: seq<Uid>)
      requires bus.Valid() && (pid == DISC_MUTE || pid == DISC_UN_MUTE) && maxSearchCount > 0
      requires absent != BROADCAST && !HasUid(bus.View(), absent)
      modifies this`futures, futures, bus`rxqueue, bus`masterRequestActive, bus.slaves
      ensures bus.Valid() && spoiled == []
      ensures 0 !in old(bus.Unmuted()) && found == Run(Start(old(bus.Unmuted()), Range(from, to)), maxSearchCount).found
    {
      hide Within, Separable, Cost, Run, Mute, UnmutedUids, DistinctUids, HasUid;
      MuteAbsent(bus.View(), absent, pid == DISC_MUTE);
      SetMute(absent, pid);
      ghost var end;
      spoiled, end := DiscoverDevices(from, to, maxSearchCount);
      found, end := DiscoverDevices(from, to, maxSearchCount);
    }
  }

  lemma MuteAbsent(ds: seq<Responder>, whom: Uid, value: bool)
    requires whom != BROADCAST && !HasUid(ds, whom)
    ensures Mute(ds, whom, value) == ds
  {
  }

  lemma BranchFields(a: Range)
    ensures Appended([Append(a.lo, 6), Append(a.hi, 6)]) == BigEndian(a.lo, 6) + BigEndian(a.hi, 6)
  {
    var fs := [Append(a.lo, 6), Append(a.hi, 6)];
    assert fs[..1] == [Append(a.lo, 6)] && fs[..1][..0] == [];
    assert Appended(fs[..1]) == Appended([]) + BigEndian(a.lo, 6) == BigEndian(a.lo, 6);
  }

  lemma NoZeroUid(ds: seq<Responder>)
    requires DistinctUids(ds)
    ensures 0 !in UnmutedUids(ds)
  {
  }

  lemma FoundIsKnown(ds: seq<Responder>, u: Uid, a: Range)
    requires DistinctUids(ds) && Within(UnmutedUids(ds), a) == {u}
    ensures HasUid(ds, u) && u != BROADCAST
  {
    assert u in Within(UnmutedUids(ds), a);
  }
}
