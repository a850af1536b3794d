/** Compiling a DMX512 or RDM frame into stream-UART events (`dmx512suart_create_frame`,
    `suart_event_data_inline`), and what the compiled frame looks like on the line. */
module DmxFrameEvents {
  import opened Octets
  import opened Pc16x50
  import opened StreamUart
  import RdmPacket
  import DiscoveryReply

  const CHUNK := 14

  // ----- octets in chunks ------------------------------------------------------------------------------

  function Bytes(es: seq<Event>): seq<Octet> {
    if es == [] then []
    else Bytes(es[..|es| - 1]) + if IsData(es[|es| - 1]) then es[|es| - 1].bytes else []
  }

  predicate AllInline(es: seq<Event>) {
    forall i | 0 <= i < |es| :: es[i].DataInline? && 1 <= |es[i].bytes| <= CHUNK
  }

  /** Splits a buffer into inline data events; refused when the (generous) estimate exceeds `maxevents`. */
  method DataInlineEvents(maxevents: nat, data: seq<Octet>) returns (r: Option<seq<Event>>)
    ensures r.None? <==> (|data| + 6) / CHUNK > maxevents
    ensures r.Some? ==> Bytes(r.value) == data && AllInline(r.value) && |r.value| == (|data| + 13) / CHUNK
  {
    if (|data| + 6) / CHUNK > maxevents {
      return None;
    }
    var es: seq<Event> := [];
    var remain := |data|;
    while remain > 0
      invariant 0 <= remain <= |data|
      invariant AllInline(es) && Bytes(es) == data[..|data| - remain]
      invariant remain == 0 ==> |es| == (|data| + 13) / CHUNK
      invariant remain > 0 ==> CHUNK * |es| == |data| - remain
    {
      var chunk := if remain > CHUNK then CHUNK else remain;
      var from := |data| - remain;
      var e := DataInline(data[from..from + chunk]);
      assert (es + [e])[..|es|] == es;
      assert data[..from + chunk] == data[..from] + data[from..from + chunk];
      es := es + [e];
      remain := remain - chunk;
    }
    assert data[..|data|] == data;
    r := Some(es);
  }

  /** The guard rounds the wrong way: it lets through exactly those sizes, up to seven octets too many,
      that need one event more than there is room for. */
  lemma InlineGuard(maxevents: nat, count: nat)
    ensures (count + 6) / CHUNK <= maxevents && (count + 13) / CHUNK > maxevents <==>
            CHUNK * maxevents < count <= CHUNK * maxevents + 7
  {
  }

  // ----- the frame -------------------------------------------------------------------------------------

  predicate IsDiscoveryReply(data: seq<Octet>)
    requires |data| >= 24
  {
    data[0] == RdmPacket.SC_RDM && data[1] == RdmPacket.SC_SUB_MESSAGE &&
    data[20] == RdmPacket.DISCOVERY_COMMAND_RESPONSE && data[21] == 0 && data[22] == 1 && data[23] == 0
  }

  function Prologue(): seq<Event> {
    [DisableRx, EnableTx, ChangeLine(LINE_RTS, LINE_RTS)]
  }

  function Break(): seq<Event> {
    [SetFormat(Format(8, 'n', 1)), SetBaudrate(100500), DataInline([0]),
     SetFormat(Format(8, 'n', 2)), SetBaudrate(250000)]
  }

  function Epilogue(): seq<Event> {
    [ChangeLine(LINE_RTS, 0), DisableTx, EnableRx, Echo(1)]
  }

  function BreakEvents(withBreak: bool): seq<Event> {
    if withBreak then Break() else []
  }

  function FrameEvents(withBreak: bool, chunks: seq<Event>): seq<Event> {
    Prologue() + BreakEvents(withBreak) + chunks + Epilogue()
  }

  /** The events of a frame, one by one: receiver off, transmitter and driver on, the break if there is one, the
      octets, driver off, receiver on, and the echo that reports the end. */
  lemma FrameInOrder(withBreak: bool, chunks: seq<Event>)
    ensures var f, n := FrameEvents(withBreak, chunks), if withBreak then 8 else 3;
            && |f| == n + |chunks| + 4 && f[n..n + |chunks|] == chunks
            && f[..3] == [DisableRx, EnableTx, ChangeLine(0x001, 0x001)]
            && (withBreak ==> f[3..8] == [SetFormat(Format(8, 'n', 1)), SetBaudrate(100500), DataInline([0]),
                                          SetFormat(Format(8, 'n', 2)), SetBaudrate(250000)])
            && f[n + |chunks|..] == [ChangeLine(0x001, 0x000), DisableTx, EnableRx, Echo(1)]
  {
  }

  /** Discovery replies are the responses to a unique-branch request without parameter data. */
  lemma DiscoveryReplies(h: RdmPacket.Header, pd: seq<Octet>)
    requires |pd| <= 231
    ensures IsDiscoveryReply(RdmPacket.Encode(h, pd)) <==> h.cc == 0x11 && h.pid == 0x0001 && pd == []
  {
    RdmPacket.EncodedOctets(h, pd);
    hide RdmPacket.Encode;
    var p := RdmPacket.Encode(h, pd);
    assert p[21] == p[21..23][0] && p[22] == p[21..23][1];
  }

  /** Events for a frame in a buffer of which `count` octets are payload. */
  method CreateFrame(maxevents: nat, noBreak: bool, data: seq<Octet>, count: nat) returns (r: Option<seq<Event>>)
    requires |data| >= 24 && count <= |data|
    ensures r.None? <==> 13 + (count + 13) / CHUNK > maxevents || (count == 0 && !IsDiscoveryReply(data)) ||
                         (IsDiscoveryReply(data) && maxevents < 15)
    ensures r.Some? ==> exists chunks ::
              && AllInline(chunks) && |chunks| == (|Bytes(chunks)| + 13) / CHUNK
              && Bytes(chunks) == (if IsDiscoveryReply(data) then DiscoveryReply.EncodeReply(data[9..15]) else data[..count])
              && r.value == FrameEvents(!IsDiscoveryReply(data) && !noBreak, chunks)
              && |r.value| <= maxevents
  {
    if 13 + (count + 13) / CHUNK > maxevents {
      return None;
    }
    var events := [DisableRx, EnableTx, ChangeLine(LINE_RTS, LINE_RTS)];
    var chunks: Option<seq<Event>>;
    if IsDiscoveryReply(data) {
      var buffer := new Octet[24];
      var size := DiscoveryReply.BuildReply(buffer, 0, data[9..15]);
      assert buffer[0..24] == buffer[..24];
      chunks := DataInlineEvents(maxevents - 13, buffer[..24]);
    } else {
      if !noBreak {
        events := events + [SetFormat(Format(8, 'n', 1))];
        events := events + [SetBaudrate(100500)];
        events := events + [DataInline([0])];
        events := events + [SetFormat(Format(8, 'n', 2))];
        events := events + [SetBaudrate(250000)];
      }
      chunks := DataInlineEvents(maxevents - 13, data[..count]);
    }
    ghost var withBreak := !IsDiscoveryReply(data) && !noBreak;
    assert events == Prologue() + BreakEvents(withBreak);
    if chunks.None? || |chunks.value| == 0 {
      return None;
    }
    events := events + chunks.value;
    events := events + [ChangeLine(LINE_RTS, 0), DisableTx, EnableRx, Echo(1)];
    assert events == FrameEvents(withBreak, chunks.value);
    r := Some(events);
  }

  // ----- on the line -----------------------------------------------------------------------------------

  /** The octets of a trace, without the driver's actions. */
  function Wire(t: Trace): Trace {
    if t == [] then [] else Wire(t[..|t| - 1]) + if t[|t| - 1].Sent? then [t[|t| - 1]] else []
  }

  lemma {:induction false} WireConcat(a: Trace, b: Trace)
    ensures Wire(a + b) == Wire(a) + Wire(b)
  {
    if b == [] {
      assert a + b == a;
    } else {
      WireConcat(a, b[..|b| - 1]);
      assert (a + b)[..|a + b| - 1] == a + b[..|b| - 1];
    }
  }

  lemma {:induction false} WireSendAll(octets: seq<Octet>, c: Config)
    ensures Wire(SendAll(octets, c)) == SendAll(octets, c)
  {
    if octets != [] {
      var init := octets[..|octets| - 1];
      WireSendAll(init, c);
      assert SendAll(octets, c)[..|octets| - 1] == SendAll(init, c);
    }
  }

  predicate Silent(es: seq<Event>) {
    forall i | 0 <= i < |es| :: !IsData(es[i]) && !es[i].Shutdown?
  }

  /** Control events alone put nothing on the line. */
  lemma {:induction false} SilentMeaning(c: Config, es: seq<Event>)
    requires Silent(es)
    ensures Wire(Meaning(c, es)) == [] && !Stops(es)
  {
    if es != [] {
      var init := es[..|es| - 1];
      SilentMeaning(c, init);
      MeaningSnoc(c, init, es[|es| - 1]);
      assert es == init + [es[|es| - 1]];
      var act := [Act(After(c, init), es[|es| - 1])];
      WireConcat(Meaning(c, init), act);
      assert act[..0] == [];
    }
  }

  /** Inline data events send their octets under the settings in force. */
  lemma {:induction false} ChunksMeaning(c: Config, es: seq<Event>)
    requires AllInline(es)
    ensures Meaning(c, es) == SendAll(Bytes(es), c) && After(c, es) == c && !Stops(es)
  {
    if es == [] {
      MeaningOfNothing(c);
    } else {
      var init := es[..|es| - 1];
      ChunksMeaning(c, init);
      MeaningSnoc(c, init, es[|es| - 1]);
      assert es == init + [es[|es| - 1]];
      SendAllConcat(Bytes(init), es[|es| - 1].bytes, c);
    }
  }

  lemma WireOfConcat(c: Config, a: seq<Event>, b: seq<Event>)
    requires !Stops(a)
    ensures Wire(Meaning(c, a + b)) == Wire(Meaning(c, a)) + Wire(Meaning(After(c, a), b))
    ensures After(c, a + b) == After(After(c, a), b)
    ensures Stops(a + b) <==> Stops(b)
  {
    hide *;
    MeaningConcat(c, a, b);
    WireConcat(Meaning(c, a), Meaning(After(c, a), b));
    StopsConcat(a, b);
  }

  lemma AfterOne(c: Config, a: Event)
    ensures After(c, [a]) == Effect(c, a)
  {
    MeaningOfNothing(c);
    MeaningSnoc(c, [], a);
    assert [] + [a] == [a];
  }

  lemma AfterTwo(c: Config, a: Event, b: Event)
    ensures After(c, [a, b]) == Effect(Effect(c, a), b)
  {
    hide *;
    AfterOne(c, a);
    MeaningSnoc(c, [a], b);
    assert [a] + [b] == [a, b];
  }

  lemma AfterThree(c: Config, a: Event, b: Event, d: Event)
    ensures After(c, [a, b, d]) == Effect(Effect(Effect(c, a), b), d)
  {
    hide *;
    AfterTwo(c, a, b);
    MeaningSnoc(c, [a, b], d);
    assert [a, b] + [d] == [a, b, d];
  }

  lemma AfterFour(c: Config, a: Event, b: Event, d: Event, e: Event)
    ensures After(c, [a, b, d, e]) == Effect(Effect(Effect(Effect(c, a), b), d), e)
  {
    hide *;
    AfterThree(c, a, b, d);
    MeaningSnoc(c, [a, b, d], e);
    assert [a, b, d] + [e] == [a, b, d, e];
  }

  lemma RtsLine(mcr: bv8)
    ensures ChangeMcr(mcr, LINE_RTS, LINE_RTS) == mcr | MCR_RTS
    ensures ChangeMcr(mcr, LINE_RTS, 0) == mcr & !MCR_RTS
  {
    assert LineToMcr(LINE_RTS) == MCR_RTS && LineToMcr(0) == 0;
  }

  /** Settings while the frame is on the line: driver enabled, receiver off. */
  function Enabled(c: Config): Config {
    c.(mcr := c.mcr | MCR_RTS, ier := (c.ier & !IER_RX) | IER_THRE)
  }

  function BreakSettings(c: Config): Config {
    c.(divisor := 62, lcr := UpdateFormatBits(c.lcr, Format(8, 'n', 1)))
  }

  function DataSettings(c: Config): Config {
    c.(divisor := 25, lcr := UpdateFormatBits(c.lcr, Format(8, 'n', 2)))
  }

  lemma FormatTwice(lcr: bv8, f: Format, g: Format)
    ensures UpdateFormatBits(UpdateFormatBits(lcr, f), g) == UpdateFormatBits(lcr, g)
  {
  }

  lemma PrologueMeaning(c: Config)
    ensures Wire(Meaning(c, Prologue())) == [] && !Stops(Prologue()) && After(c, Prologue()) == Enabled(c)
  {
    hide Meaning, After, Wire, Stops, ChangeMcr;
    SilentMeaning(c, Prologue());
    AfterThree(c, DisableRx, EnableTx, ChangeLine(LINE_RTS, LINE_RTS));
    RtsLine(c.mcr);
  }

  lemma BreakMeaning(c: Config)
    ensures Wire(Meaning(c, Break())) == [Sent(0, BreakSettings(c), BreakSettings(c))]
    ensures !Stops(Break()) && After(c, Break()) == DataSettings(c)
  {
    var a, b, d := [SetFormat(Format(8, 'n', 1)), SetBaudrate(100500)], [DataInline([0])],
                   [SetFormat(Format(8, 'n', 2)), SetBaudrate(250000)];
    assert Break() == a + b + d;
    BreakParts(c);
    hide *;
    WireOfConcat(c, a, b);
    WireOfConcat(c, a + b, d);
  }

  lemma BreakParts(c: Config)
    ensures var a := [SetFormat(Format(8, 'n', 1)), SetBaudrate(100500)];
            Wire(Meaning(c, a)) == [] && !Stops(a) && After(c, a) == BreakSettings(c)
    ensures var b, s := [DataInline([0])], BreakSettings(c);
            Wire(Meaning(s, b)) == [Sent(0, s, s)] && !Stops(b) && After(s, b) == s
    ensures var d, s := [SetFormat(Format(8, 'n', 2)), SetBaudrate(250000)], BreakSettings(c);
            Wire(Meaning(s, d)) == [] && !Stops(d) && After(s, d) == DataSettings(c)
  {
    hide Meaning, After, Wire, Stops, UpdateFormatBits;
    var a, b, d := [SetFormat(Format(8, 'n', 1)), SetBaudrate(100500)], [DataInline([0])],
                   [SetFormat(Format(8, 'n', 2)), SetBaudrate(250000)];
    SilentMeaning(c, a);
    AfterTwo(c, a[0], a[1]);
    ChunksMeaning(BreakSettings(c), b);
    assert b[..0] == [] && Bytes(b) == [0];
    WireSendAll([0], BreakSettings(c));
    assert SendAll([0], BreakSettings(c)) == [Sent(0, BreakSettings(c), BreakSettings(c))];
    SilentMeaning(BreakSettings(c), d);
    AfterTwo(BreakSettings(c), d[0], d[1]);
    FormatTwice(c.lcr, Format(8, 'n', 1), Format(8, 'n', 2));
  }

  lemma EpilogueMeaning(c: Config)
    ensures Wire(Meaning(c, Epilogue())) == [] && !Stops(Epilogue()) && After(c, Epilogue()) == Released(c)
  {
    assert Silent(Epilogue());
    EpilogueSettings(c);
    hide *;
    SilentMeaning(c, Epilogue());
  }

  lemma EpilogueSettings(c: Config)
    ensures After(c, Epilogue()) == Released(c)
  {
    var off := c.(mcr := c.mcr & !MCR_RTS);
    assert Effect(c, ChangeLine(LINE_RTS, 0)) == off by { RtsLine(c.mcr); }
    hide After, ChangeMcr, LineToMcr;
    AfterFour(c, ChangeLine(LINE_RTS, 0), DisableTx, EnableRx, Echo(1));
  }

  lemma WireOfParts(c: Config, a: seq<Event>, b: seq<Event>, d: seq<Event>, e: seq<Event>)
    requires !Stops(a) && !Stops(b) && !Stops(d)
    ensures var c1 := After(c, a);
            var c2 := After(c1, b);
            var c3 := After(c2, d);
            && Wire(Meaning(c, a + b + d + e)) ==
                 Wire(Meaning(c, a)) + Wire(Meaning(c1, b)) + Wire(Meaning(c2, d)) + Wire(Meaning(c3, e))
            && After(c, a + b + d + e) == After(c3, e)
            && (Stops(a + b + d + e) <==> Stops(e))
  {
    hide *;
    WireOfConcat(c, a, b);
    WireOfConcat(c, a + b, d);
    WireOfConcat(c, a + b + d, e);
  }

  /** Settings under which the frame's own octets are sent. */
  function Sending(c: Config, withBreak: bool): Config {
    if withBreak then DataSettings(Enabled(c)) else Enabled(c)
  }

  function BreakOnWire(c: Config, withBreak: bool): Trace {
    if withBreak then [Sent(0, BreakSettings(Enabled(c)), BreakSettings(Enabled(c)))] else []
  }

  /** Driver off, receiver on again. */
  function Released(c: Config): Config {
    c.(mcr := c.mcr & !MCR_RTS, ier := (c.ier & !IER_THRE) | IER_RX)
  }

  /** Exactly the break octet at divisor 62 in 8n1 (if the frame has one) and then the frame's octets in
      order, all with the line driver on from start to finish; afterwards the driver is off again and
      the data settings stay in force. */
  lemma FrameOnWire(c: Config, withBreak: bool, chunks: seq<Event>)
    requires AllInline(chunks)
    ensures var frame := FrameEvents(withBreak, chunks);
            && Wire(Meaning(c, frame)) == BreakOnWire(c, withBreak) + SendAll(Bytes(chunks), Sending(c, withBreak))
            && After(c, frame) == Released(Sending(c, withBreak))
            && !Stops(frame)
  {
    PrologueMeaning(c);
    WireOfBreak(c, withBreak);
    var sending := Sending(c, withBreak);
    ChunksMeaning(sending, chunks);
    WireSendAll(Bytes(chunks), sending);
    EpilogueMeaning(sending);
    var brk := BreakEvents(withBreak);
    hide *;
    WireOfParts(c, Prologue(), brk, chunks, Epilogue());
    DropEmpty(BreakOnWire(c, withBreak), SendAll(Bytes(chunks), sending));
  }

  lemma DropEmpty(a: Trace, b: Trace)
    ensures [] + a + b + [] == a + b
  {
  }

  lemma WireOfBreak(c: Config, withBreak: bool)
    ensures Wire(Meaning(Enabled(c), BreakEvents(withBreak))) == BreakOnWire(c, withBreak)
    ensures After(Enabled(c), BreakEvents(withBreak)) == Sending(c, withBreak) && !Stops(BreakEvents(withBreak))
  {
    BreakMeaning(Enabled(c));
    MeaningOfNothing(Enabled(c));
  }

  /** After the frame: driver off, receiver on, transmit interrupt off, and all other bits as they were before it;
      the rate and format of the data stay in force. */
  lemma FrameLeaves(c: Config, withBreak: bool, chunks: seq<Event>)
    requires AllInline(chunks)
    ensures var r := After(c, FrameEvents(withBreak, chunks));
            && r.mcr & 0x02 == 0 && r.mcr & 0xFD == c.mcr & 0xFD && r.ier & 0x03 == 1 && r.ier & 0xFC == c.ier & 0xFC
            && (if withBreak then r.divisor == 25 && DecodeFormat(r.lcr) == Format(8, 'n', 2) && r.lcr & 0xC0 == c.lcr & 0xC0
                else r.divisor == c.divisor && r.lcr == c.lcr)
  {
    FrameOnWire(c, withBreak, chunks);
    FormatRoundTrip(c.lcr, Format(8, 'n', 2));
    ReleasedBits(c.mcr, c.ier);
    hide After, FrameEvents, UpdateFormatBits, DecodeFormat;
  }

  lemma ReleasedBits(mcr: bv8, ier: bv8)
    ensures var m, i := (mcr | MCR_RTS) & !MCR_RTS, (((ier & !IER_RX) | IER_THRE) & !IER_THRE) | IER_RX;
            m & 0x02 == 0 && m & 0xFD == mcr & 0xFD && i & 0x03 == 1 && i & 0xFC == ier & 0xFC
  {
  }

  /** The settings mean what a DMX512 receiver expects: a break of nine low bits lasting at least 88
      microseconds in 8n1, data at 250 kbaud in 8n2, and the line driver on. */
  lemma FrameSettings(c: Config)
    ensures var b, d := BreakSettings(Enabled(c)), DataSettings(Enabled(c));
            && DecodeFormat(b.lcr) == Format(8, 'n', 1) && DecodeFormat(d.lcr) == Format(8, 'n', 2)
            && b.Rts() && d.Rts()
            && 9 * b.divisor * OVERSAMPLING * 1_000_000 >= 88 * BASE_CLOCK
            && DivisorToBaud(BASE_CLOCK / OVERSAMPLING, d.divisor) == 250_000
  {
    FormatRoundTrip(c.lcr, Format(8, 'n', 1));
    FormatRoundTrip(c.lcr, Format(8, 'n', 2));
  }

  // ----- frames never overrun the engine's buffer ----------------------------------------------------------

  lemma {:induction false} TrailingConcat(a: seq<Event>, b: seq<Event>)
    requires TrailingBytes(a) == 0
    ensures TrailingBytes(a + b) == TrailingBytes(b)
  {
    if b == [] {
      assert a + b == a;
    } else {
      TrailingConcat(a, b[..|b| - 1]);
      assert (a + b)[..|a + b| - 1] == a + b[..|b| - 1];
    }
  }

  lemma FramedConcat(a: seq<Event>, b: seq<Event>)
    requires RunsFit(a) && TrailingBytes(a) == 0 && RunsFit(b)
    ensures RunsFit(a + b)
  {
    hide TrailingBytes;
    forall k | 0 <= k <= |a + b| && !Stops((a + b)[..k])
      ensures TrailingBytes((a + b)[..k]) <= TXBUFFER_SIZE
    {
      if k <= |a| {
        assert (a + b)[..k] == a[..k];
      } else {
        assert (a + b)[..k] == a + b[..k - |a|];
        StopsConcat(a, b[..k - |a|]);
        TrailingConcat(a, b[..k - |a|]);
      }
    }
  }

  lemma {:induction false} TrailingOfChunks(es: seq<Event>)
    requires AllInline(es)
    ensures TrailingBytes(es) == |Bytes(es)|
  {
    if es != [] {
      TrailingOfChunks(es[..|es| - 1]);
    }
  }

  lemma {:induction false} BytesPrefix(es: seq<Event>, k: nat)
    requires k <= |es|
    ensures |Bytes(es[..k])| <= |Bytes(es)|
  {
    if k == |es| {
      assert es[..k] == es;
    } else {
      BytesPrefix(es[..|es| - 1], k);
      assert es[..|es| - 1][..k] == es[..k];
    }
  }

  lemma ChunksFit(es: seq<Event>)
    requires AllInline(es) && |Bytes(es)| <= TXBUFFER_SIZE
    ensures RunsFit(es)
  {
    forall k | 0 <= k <= |es| && !Stops(es[..k])
      ensures TrailingBytes(es[..k]) <= TXBUFFER_SIZE
    {
      TrailingOfChunks(es[..k]);
      BytesPrefix(es, k);
    }
  }

  lemma {:induction false} SilentFits(es: seq<Event>)
    requires Silent(es)
    ensures RunsFit(es) && TrailingBytes(es) == 0
  {
  }

  /** A frame of up to 513 octets satisfies the engine's condition on data runs, and so does any sequence
      of frames, because each begins and ends with control events. */
  lemma FrameFits(before: seq<Event>, chunks: seq<Event>, withBreak: bool)
    requires RunsFit(before) && TrailingBytes(before) == 0
    requires AllInline(chunks) && |Bytes(chunks)| <= 513
    ensures var frame := FrameEvents(withBreak, chunks);
            RunsFit(before + frame) && TrailingBytes(before + frame) == 0
  {
    var head := Prologue() + BreakEvents(withBreak);
    HeadFits(withBreak);
    ChunksFit(chunks);
    FramedConcat(head, chunks);
    hide RunsFit, TrailingBytes;
    var frame := head + chunks + Epilogue();
    FrameTail(head + chunks);
    FramedConcat(before, frame);
    TrailingConcat(before, frame);
  }

  lemma HeadFits(withBreak: bool)
    ensures var head := Prologue() + BreakEvents(withBreak);
            RunsFit(head) && TrailingBytes(head) == 0
  {
    SilentFits(Prologue());
    if withBreak {
      var a, b, d := [SetFormat(Format(8, 'n', 1)), SetBaudrate(100500)], [DataInline([0])],
                     [SetFormat(Format(8, 'n', 2)), SetBaudrate(250000)];
      assert Break() == a + b + d;
      SilentFits(a);
      assert b[..0] == [];
      assert Bytes(b) == [0];
      ChunksFit(b);
      FramedConcat(a, b);
      FrameEnd(a + b, d);
      FramedConcat(Prologue(), Break());
      TrailingConcat(Prologue(), Break());
    } else {
      assert Prologue() + [] == Prologue();
    }
  }

  lemma FrameTail(es: seq<Event>)
    requires RunsFit(es)
    ensures RunsFit(es + Epilogue()) && TrailingBytes(es + Epilogue()) == 0
  {
    FrameEnd(es, Epilogue());
  }

  /** Control events end a run. */
  lemma {:induction false} FrameEnd(es: seq<Event>, tail: seq<Event>)
    requires RunsFit(es) && Silent(tail)
    ensures RunsFit(es + tail) && (tail != [] ==> TrailingBytes(es + tail) == 0)
  {
    forall k | 0 <= k <= |es + tail| && !Stops((es + tail)[..k])
      ensures TrailingBytes((es + tail)[..k]) <= TXBUFFER_SIZE
    {
      if k <= |es| {
        assert (es + tail)[..k] == es[..k];
      } else {
        assert (es + tail)[..k][k - 1] == tail[k - 1 - |es|];
      }
    }
  }

  // ----- whole sessions --------------------------------------------------------------------------------

  /** What an observer with a logic analyser notes for one octet. */
  datatype Tag = Tag(octet: Octet, divisor: nat, format: Format, driverOn: bool, steady: bool)

  function TagOf(o: Obs<Action>): Tag
    requires o.Sent?
  {
    Tag(o.octet, o.start.divisor, DecodeFormat(o.start.lcr), o.start.Rts(), o.start == o.finish)
  }

  function Tags(t: Trace): seq<Tag> {
    if t == [] then [] else Tags(t[..|t| - 1]) + if t[|t| - 1].Sent? then [TagOf(t[|t| - 1])] else []
  }

  datatype FrameSpec = FrameSpec(withBreak: bool, chunks: seq<Event>)

  function Session(frames: seq<FrameSpec>): seq<Event> {
    if frames == [] then []
    else Session(frames[..|frames| - 1]) + FrameEvents(frames[|frames| - 1].withBreak, frames[|frames| - 1].chunks)
  }

  function DataTags(octets: seq<Octet>): seq<Tag> {
    seq(|octets|, i requires 0 <= i < |octets| => Tag(octets[i], 25, Format(8, 'n', 2), true, true))
  }

  function FrameTags(f: FrameSpec): seq<Tag> {
    (if f.withBreak then [Tag(0, 62, Format(8, 'n', 1), true, true)] else []) + DataTags(Bytes(f.chunks))
  }

  function SessionTags(frames: seq<FrameSpec>): seq<Tag> {
    if frames == [] then [] else SessionTags(frames[..|frames| - 1]) + FrameTags(frames[|frames| - 1])
  }

  /** What the init events leave behind: 250 kbaud, 8n2. */
  predicate Ready(c: Config) {
    c.divisor == 25 && DecodeFormat(c.lcr) == Format(8, 'n', 2)
  }

  function InitEvents(): seq<Event> {
    [SetFormat(Format(8, 'n', 2)), SetBaudrate(250000), DisableTx, EnableRx,
     ChangeLine(LINE_RTS | LINE_DTR, LINE_DTR), Echo(12345678)]
  }

  lemma {:induction false} TagsConcat(a: Trace, b: Trace)
    ensures Tags(a + b) == Tags(a) + Tags(b)
  {
    if b == [] {
      assert a + b == a;
    } else {
      TagsConcat(a, b[..|b| - 1]);
      assert (a + b)[..|a + b| - 1] == a + b[..|b| - 1];
    }
  }

  lemma {:induction false} TagsOfWire(t: Trace)
    ensures Tags(Wire(t)) == Tags(t)
  {
    if t != [] {
      var init, last := t[..|t| - 1], t[|t| - 1];
      TagsOfWire(init);
      if last.Sent? {
        TagsConcat(Wire(init), [last]);
        assert [last][..0] == [];
      } else {
        assert Wire(t) == Wire(init) && Tags(t) == Tags(init);
      }
    }
  }

  lemma {:induction false} TagsOfData(octets: seq<Octet>, c: Config)
    requires Ready(c) && c.Rts()
    ensures Tags(SendAll(octets, c)) == DataTags(octets)
  {
    if octets != [] {
      var init := octets[..|octets| - 1];
      TagsOfData(init, c);
      assert SendAll(octets, c)[..|octets| - 1] == SendAll(init, c);
      assert DataTags(octets) == DataTags(init) + [Tag(octets[|octets| - 1], 25, Format(8, 'n', 2), true, true)];
    }
  }

  lemma SendingReady(c: Config, withBreak: bool)
    requires Ready(c)
    ensures Ready(Sending(c, withBreak)) && Sending(c, withBreak).Rts() && Ready(Released(Sending(c, withBreak)))
    ensures Tags(BreakOnWire(c, withBreak)) == if withBreak then [Tag(0, 62, Format(8, 'n', 1), true, true)] else []
  {
    FrameSettings(c);
    var b := BreakSettings(Enabled(c));
    var t: Trace := [Sent(0, b, b)];
    assert t[..0] == [] && Tags(t) == [Tag(0, 62, Format(8, 'n', 1), true, true)];
  }

  lemma FrameTagged(c: Config, f: FrameSpec)
    requires Ready(c) && AllInline(f.chunks)
    ensures var frame := FrameEvents(f.withBreak, f.chunks);
            Tags(Meaning(c, frame)) == FrameTags(f) && Ready(After(c, frame)) && !Stops(frame)
  {
    var frame, sending := FrameEvents(f.withBreak, f.chunks), Sending(c, f.withBreak);
    FrameOnWire(c, f.withBreak, f.chunks);
    SendingReady(c, f.withBreak);
    hide Meaning, Wire, Tags, After, Ready, SendAll, Stops, Sending, BreakOnWire, Bytes, FrameEvents;
    TagsOfWire(Meaning(c, frame));
    TagsConcat(BreakOnWire(c, f.withBreak), SendAll(Bytes(f.chunks), sending));
    TagsOfData(Bytes(f.chunks), sending);
  }

  /** Any number of frames, each of at most 513 octets, meets the engine's condition on data runs and puts
      on the line, in order, for each frame its break and its octets, every one of them with the line
      driver on and the settings it was meant for from its first bit to its last. */
  lemma {:induction false} SessionOnWire(c: Config, frames: seq<FrameSpec>)
    requires Ready(c)
    requires forall i | 0 <= i < |frames| :: AllInline(frames[i].chunks) && |Bytes(frames[i].chunks)| <= 513
    ensures Tags(Meaning(c, Session(frames))) == SessionTags(frames)
    ensures Ready(After(c, Session(frames))) && !Stops(Session(frames))
    ensures RunsFit(Session(frames)) && TrailingBytes(Session(frames)) == 0
  {
    if frames == [] {
      MeaningOfNothing(c);
    } else {
      var init, f := frames[..|frames| - 1], frames[|frames| - 1];
      SessionOnWire(c, init);
      var before, frame := Session(init), FrameEvents(f.withBreak, f.chunks);
      FrameTagged(After(c, before), f);
      FrameFits(before, f.chunks, f.withBreak);
      hide Meaning, Tags, After, Ready, Stops, RunsFit, TrailingBytes, FrameEvents, FrameTags, AllInline, Bytes;
      MeaningConcat(c, before, frame);
      TagsConcat(Meaning(c, before), Meaning(After(c, before), frame));
      StopsConcat(before, frame);
    }
  }

  /** The init events put nothing on the line and leave the port ready for frames. */
  lemma InitMeaning(c: Config)
    ensures Tags(Meaning(c, InitEvents())) == [] && !Stops(InitEvents()) && Ready(After(c, InitEvents()))
  {
    assert Silent(InitEvents());
    assert Tags([]) == [];
    InitSettings(c);
    hide *;
    SilentMeaning(c, InitEvents());
    TagsOfWire(Meaning(c, InitEvents()));
  }

  /** They also leave the driver off, DTR on, the receiver on and the transmit interrupt off, and end in an echo. */
  lemma InitLeaves(c: Config)
    ensures var r := After(c, InitEvents());
            && r.mcr & 0x03 == 0x01 && r.mcr & 0xFC == c.mcr & 0xFC && r.ier & 0x03 == 1 && r.ier & 0xFC == c.ier & 0xFC
            && InitEvents()[|InitEvents()| - 1] == Echo(12345678)
  {
    var two := [SetFormat(Format(8, 'n', 2)), SetBaudrate(250000)];
    var rest := [DisableTx, EnableRx, ChangeLine(LINE_RTS | LINE_DTR, LINE_DTR), Echo(12345678)];
    assert InitEvents() == two + rest && Silent(two);
    InitBits(c.mcr, c.ier);
    hide *;
    SilentMeaning(c, two);
    MeaningConcat(c, two, rest);
    TwoSettings(c);
    FourSettings(After(c, two));
  }

  lemma TwoSettings(c: Config)
    ensures var r := After(c, [SetFormat(Format(8, 'n', 2)), SetBaudrate(250000)]); r.mcr == c.mcr && r.ier == c.ier
  {
    hide After, UpdateFormatBits;
    AfterTwo(c, SetFormat(Format(8, 'n', 2)), SetBaudrate(250000));
  }

  lemma FourSettings(c: Config)
    ensures var r := After(c, [DisableTx, EnableRx, ChangeLine(LINE_RTS | LINE_DTR, LINE_DTR), Echo(12345678)]);
            r.mcr == ChangeMcr(c.mcr, LINE_RTS | LINE_DTR, LINE_DTR) && r.ier == (c.ier & !IER_THRE) | IER_RX
  {
    hide After, ChangeMcr;
    AfterFour(c, DisableTx, EnableRx, ChangeLine(LINE_RTS | LINE_DTR, LINE_DTR), Echo(12345678));
  }

  lemma InitBits(mcr: bv8, ier: bv8)
    ensures var m, i := ChangeMcr(mcr, LINE_RTS | LINE_DTR, LINE_DTR), (ier & !IER_THRE) | IER_RX;
            m & 0x03 == 0x01 && m & 0xFC == mcr & 0xFC && i & 0x03 == 1 && i & 0xFC == ier & 0xFC
  {
    assert LineToMcr(LINE_RTS | LINE_DTR) == 0x03 && LineToMcr(LINE_DTR) == 0x01;
  }

  lemma InitSettings(c: Config)
    ensures Ready(After(c, InitEvents()))
  {
    var two := [SetFormat(Format(8, 'n', 2)), SetBaudrate(250000)];
    var rest := [DisableTx, EnableRx, ChangeLine(LINE_RTS | LINE_DTR, LINE_DTR), Echo(12345678)];
    assert InitEvents() == two + rest && Silent(two);
    assert forall i | 0 <= i < |rest| :: !rest[i].SetFormat? && !rest[i].SetBaudrate?;
    LineSettings(c);
    hide *;
    SilentMeaning(c, two);
    MeaningConcat(c, two, rest);
    KeepsReady(After(c, two), rest);
  }

  lemma LineSettings(c: Config)
    ensures Ready(After(c, [SetFormat(Format(8, 'n', 2)), SetBaudrate(250000)]))
  {
    FormatRoundTrip(c.lcr, Format(8, 'n', 2));
    AfterTwo(c, SetFormat(Format(8, 'n', 2)), SetBaudrate(250000));
    hide After, UpdateFormatBits, DecodeFormat;
  }

  lemma {:induction false} KeepsReady(c: Config, es: seq<Event>)
    requires Ready(c) && forall i | 0 <= i < |es| :: !es[i].SetFormat? && !es[i].SetBaudrate?
    ensures Ready(After(c, es))
  {
    if es != [] {
      KeepsReady(c, es[..|es| - 1]);
    }
  }
}
