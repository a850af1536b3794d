/** The frames that the UART driver builds for the outcome of a discovery request, and how the discovery
    loop of the controller reads them. */
module DriverReplies {
  import opened Octets
  import opened RdmPacket
  import DiscoveryReply
  import RdmController

  const FRAME_SIZE := 513

  class Frame {
    const data: array<Octet>
    var payloadSize: nat

    constructor (content: seq<Octet>)
      requires |content| == FRAME_SIZE
      ensures Valid() && data[..] == content && fresh(data)
    {
      data := new Octet[FRAME_SIZE](i requires 0 <= i < |content| => content[i]);
      payloadSize := 0;
      new;
      assert data[..] == content;
    }

    ghost predicate Valid()
      reads this
    {
      data.Length == FRAME_SIZE
    }

    /** The octets of the message that the frame holds, start code included. */
    ghost function Message(): seq<Octet>
      requires Valid() && payloadSize < FRAME_SIZE
      reads this, data
    {
      data[..payloadSize + 1]
    }

    ghost function Hdr(): Header
      requires Valid()
      reads this, data
    {
      HeaderOf(data[..])
    }

    /** Destination becomes the requester, source is overwritten, and the message turns into a response
        without parameter data. */
    method TurnAround(src: seq<Octet>)
      requires Valid() && |src| == 6
      modifies data
      ensures Hdr() == old(Hdr()).(dst := old(Hdr()).src, src := UidAt(src, 0), cc := DISCOVERY_COMMAND_RESPONSE)
      ensures data[0] == old(data[0]) && data[1] == old(data[1]) && data[23] == 0
    {
      ghost var was := data[..];
      forall i | 0 <= i < 6 {
        data[3 + i] := data[9 + i];
      }
      forall i | 0 <= i < 6 {
        data[9 + i] := src[i];
      }
      data[20] := DISCOVERY_COMMAND_RESPONSE;
      data[23] := 0;
      ghost var now := data[..];
      assert now[3..9] == was[9..15];
      assert now[9..15] == src[0..6];
      assert now[18..20] == was[18..20];
      assert now[21..23] == was[21..23];
    }

    /** `update_rdm_sizes_from_pdl`. */
    method UpdateSizes()
      requires Valid() && data[23] == 0
      modifies this`payloadSize, data
      ensures payloadSize == 25 && data[..] == old(data[..])[2 := 24]
    {
      var size := HEADER_SIZE + data[23] as int;
      data[2] := size;
      payloadSize := size + 2 - 1;
    }

    /** The checksum of the first `payloadSize - 1` octets goes behind them. */
    method PutChecksum()
      requires Valid() && 1 <= payloadSize < FRAME_SIZE
      modifies data
      ensures data[..] == Put(old(data[..]), payloadSize - 1, BigEndian(Checksum(old(data[..payloadSize - 1])), 2))
    {
      hide Checksum, BigEndian;
      var size := payloadSize - 1;
      ghost var was := data[..];
      var c := DiscoveryReply.SumOctets(data[..], 0, size);
      assert was[0..size] == was[..size];
      DiscoveryReply.ChecksumOctets(c / 256, c % 256, c);
      data[size] := c / 256;
      data[size + 1] := c % 256;
    }

    /** `update_rdm_checksum`: marks the message as a response that no responder sent; a frame that is too
        long for an RDM message is left alone. */
    method UpdateChecksum()
      requires Valid() && 1 <= payloadSize
      modifies data
      ensures var n := payloadSize - 1;
              var marked := old(data[..])[16 := RESPONSE_TYPE_NOREPLY][20 := Or(old(data[20]), 1)];
              data[..] == if n > 254 then old(data[..]) else Put(marked, n, BigEndian(Checksum(marked[..n]), 2))
    {
      hide Checksum, BigEndian, Put;
      if payloadSize - 1 > 254 {
        return;
      }
      data[16] := RESPONSE_TYPE_NOREPLY;
      data[20] := Or(data[20], 1);
      assert data[..] == old(data[..])[16 := RESPONSE_TYPE_NOREPLY][20 := Or(old(data[20]), 1)];
      PutChecksum();
    }

    /** `rdm_discovery_reply_collision` (all ones) and `rdm_discovery_reply_timeout` (all zeros). */
    method NobodyReply(fill: Octet)
      requires Valid() && data[0] == SC_RDM && data[1] == SC_SUB_MESSAGE
      modifies this`payloadSize, data
      ensures payloadSize == 25
      ensures Message() == Encode(old(Hdr()).(dst := old(Hdr()).src, src := UidAt(Fill(fill), 0), portId := RESPONSE_TYPE_NOREPLY,
                                              cc := DISCOVERY_COMMAND_RESPONSE), [])
    {
      TurnAround(Fill(fill));
      ghost var h, turned := Hdr(), data[..];
      UpdateSizes();
      SizeKeepsHeader(turned);
      ghost var sized := data[..];
      UpdateChecksum();
      OddClass();
      PutOctet(sized, 16, RESPONSE_TYPE_NOREPLY);
      ghost var marked: seq<Octet> := sized[16 := RESPONSE_TYPE_NOREPLY];
      assert marked[20 := DISCOVERY_COMMAND_RESPONSE] == marked;
      SummedPacket(marked);
    }

    /** `dmx512rtuart_complete_rdm_discovery_reply`, building part, for a decoded UID. */
    method FoundReply(uid: seq<Octet>)
      requires Valid() && data[0] == SC_RDM && data[1] == SC_SUB_MESSAGE && |uid| == 6
      modifies this`payloadSize, data
      ensures payloadSize == 25
      ensures Message() == Encode(old(Hdr()).(dst := old(Hdr()).src, src := UidAt(uid, 0), cc := DISCOVERY_COMMAND_RESPONSE), [])
    {
      TurnAround(uid);
      ghost var h, turned := Hdr(), data[..];
      UpdateSizes();
      SizeKeepsHeader(turned);
      ghost var sized := data[..];
      PutChecksum();
      SummedPacket(sized);
    }
  }

  /** A message without parameter data is the encoding of its header once its checksum is in place. */
  lemma SummedPacket(d: seq<Octet>)
    requires |d| == FRAME_SIZE && IsRdm(d) && d[2] == 24 && d[23] == 0
    ensures Put(d, 24, BigEndian(Checksum(d[..24]), 2))[..26] == Encode(HeaderOf(d), [])
  {
    var c := Checksum(d[..24]);
    var p := Put(d, 24, BigEndian(c, 2))[..26];
    assert p[..24] == d[..24];
    assert p[24..26] == BigEndian(c, 2);
    Pow256Values();
    BigEndianExact(c, 2);
    hide Checksum, BigEndian, Put;
    HeaderPrefix(d);
    HeaderPrefix(p);
    assert p[0] == p[..24][0] && p[1] == p[..24][1] && p[2] == p[..24][2] && p[23] == p[..24][23];
    hide HeaderOf;
    EncodeDecode(p);
    assert p[24..24] == [];
  }

  lemma OddClass()
    ensures Or(DISCOVERY_COMMAND_RESPONSE, 1) == DISCOVERY_COMMAND_RESPONSE
  {
    assert Bits(0x11) == 0x11 && Bits(1) == 1;
    BitsValue(0x11);
  }

  lemma HeaderPrefix(s: seq<Octet>)
    requires |s| >= 24
    ensures HeaderOf(s[..24]) == HeaderOf(s)
  {
    var r := s[..24];
    assert r[3..9] == s[3..9];
    assert r[9..15] == s[9..15];
    assert r[18..20] == s[18..20];
    assert r[21..23] == s[21..23];
  }

  lemma SizeKeepsHeader(s: seq<Octet>)
    requires |s| >= 24
    ensures HeaderOf(s[2 := 24]) == HeaderOf(s)
  {
    var r := s[2 := 24];
    assert r[3..9] == s[3..9];
    assert r[9..15] == s[9..15];
    assert r[18..20] == s[18..20];
    assert r[21..23] == s[21..23];
  }

  /** A discovery request of the controller, as the driver holds it. */
  predicate FromController(h: Header, me: Uid) {
    h.src == me && h.pid == DISC_UNIQUE_BRANCH
  }

  /** The driver speaks the controller's language: each frame it builds is a complete packet for the
      requester, and the discovery loop reads a collision, silence, and the responder's UID. */
  lemma OutcomesClassified(request: Header, me: Uid, portId: Octet, src: Uid)
    requires FromController(request, me)
    ensures var p := Encode(request.(dst := request.src, src := src, portId := portId, cc := DISCOVERY_COMMAND_RESPONSE), []);
            |p| == 26 && RdmController.Classify(p, me) ==
              if src == BROADCAST then RdmController.Collision
              else if src == ANY then RdmController.Nobody else RdmController.Found(src)
  {
    DecodeEncode(request.(dst := request.src, src := src, portId := portId, cc := DISCOVERY_COMMAND_RESPONSE), []);
  }

  /** From request frame to the controller's reading of it, for each outcome. */
  method AnswerCollision(f: Frame, me: Uid) returns (answer: RdmController.Answer)
    requires f.Valid() && f.data[0] == SC_RDM && f.data[1] == SC_SUB_MESSAGE && FromController(f.Hdr(), me)
    modifies f`payloadSize, f.data
    ensures answer == RdmController.Collision
  {
    ghost var request := f.Hdr();
    f.NobodyReply(0xFF);
    FillValues();
    OutcomesClassified(request, me, RESPONSE_TYPE_NOREPLY, BROADCAST);
    answer := RdmController.Classify(f.data[..f.payloadSize + 1], me);
  }

  method AnswerTimeout(f: Frame, me: Uid) returns (answer: RdmController.Answer)
    requires f.Valid() && f.data[0] == SC_RDM && f.data[1] == SC_SUB_MESSAGE && FromController(f.Hdr(), me)
    modifies f`payloadSize, f.data
    ensures answer == RdmController.Nobody
  {
    ghost var request := f.Hdr();
    f.NobodyReply(0);
    FillValues();
    OutcomesClassified(request, me, RESPONSE_TYPE_NOREPLY, ANY);
    answer := RdmController.Classify(f.data[..f.payloadSize + 1], me);
  }

  method AnswerFound(f: Frame, me: Uid, uid: seq<Octet>) returns (answer: RdmController.Answer)
    requires f.Valid() && f.data[0] == SC_RDM && f.data[1] == SC_SUB_MESSAGE && FromController(f.Hdr(), me)
    requires |uid| == 6 && UidAt(uid, 0) != BROADCAST && UidAt(uid, 0) != ANY
    modifies f`payloadSize, f.data
    ensures answer == RdmController.Found(UidAt(uid, 0))
  {
    ghost var request := f.Hdr();
    f.FoundReply(uid);
    OutcomesClassified(request, me, request.portId, UidAt(uid, 0));
    answer := RdmController.Classify(f.data[..f.payloadSize + 1], me);
  }
}
