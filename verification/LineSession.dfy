/** Sending frames through the stream UART: what `dmx512suart_send_frame` queues, and what an observer of the
    line sees of it while the event engine runs. */
module LineSession {
  import opened Octets
  import opened Pc16x50
  import opened StreamUart
  import opened DmxFrameEvents
  import DiscoveryReply

  const MAX_EVENTS := 128

  ghost predicate Sendable(frames: seq<FrameSpec>) {
    forall i | 0 <= i < |frames| :: AllInline(frames[i].chunks) && |Bytes(frames[i].chunks)| <= 513
  }

  // ----- from the queue to the line -----------------------------------------------------------------------

  lemma TagsPrefix(a: Trace, b: Trace)
    requires a <= b
    ensures Tags(a) <= Tags(b)
  {
    assert b == a + b[|a|..];
    TagsConcat(a, b[|a|..]);
  }

  lemma InitFits()
    ensures RunsFit(InitEvents()) && TrailingBytes(InitEvents()) == 0
  {
    SilentFits(InitEvents());
  }

  /** A freshly initialised port that is given frames. */
  lemma SessionMeaning(c: Config, frames: seq<FrameSpec>)
    requires Sendable(frames)
    ensures RunsFit(InitEvents() + Session(frames)) && Tags(Meaning(c, InitEvents() + Session(frames))) == SessionTags(frames)
  {
    InitMeaning(c);
    InitFits();
    SessionOnWire(After(c, InitEvents()), frames);
    hide *;
    FramedConcat(InitEvents(), Session(frames));
    MeaningConcat(c, InitEvents(), Session(frames));
    TagsConcat(Meaning(c, InitEvents()), Meaning(After(c, InitEvents()), Session(frames)));
    assert [] + SessionTags(frames) == SessionTags(frames);
  }

  /** At every moment of every run of the engine, while the events of these frames come in: the line has shown
      a prefix of the frames, and all of them once everything is queued and has drained. */
  lemma FramesOnLine(e: Engine, frames: seq<FrameSpec>)
    requires e.Inv() && Sendable(frames) && e.accepted <= InitEvents() + Session(frames)
    ensures Tags(e.chip.trace) <= SessionTags(frames)
    ensures e.accepted == InitEvents() + Session(frames) && e.txfifo == [] && e.InFlight() == [] ==>
              Tags(e.chip.trace) == SessionTags(frames)
  {
    hide *;
    e.Refinement();
    SessionMeaning(e.initial, frames);
    PrefixShows(e.initial, e.chip.trace, e.accepted, InitEvents() + Session(frames));
  }

  lemma PrefixShows(c: Config, trace: Trace, es: seq<Event>, whole: seq<Event>)
    requires es <= whole && RunsFit(whole) && (RunsFit(es) ==> trace <= Meaning(c, es))
    ensures RunsFit(es) && Tags(trace) <= Tags(Meaning(c, whole))
  {
    hide *;
    var rest := whole[|es|..];
    assert whole == es + rest;
    RunsFitPrefix(es, rest);
    MeaningPrefix(c, es, rest);
    TagsPrefix(trace, Meaning(c, whole));
  }

  /** The handler thread on such a queue, whatever else goes on. */
  method RunHandler(e: Engine, passes: nat, ghost frames: seq<FrameSpec>)
    requires e.Inv() && !e.stopped && e.held == [] && Sendable(frames)
    modifies e`txfifo, e`accepted, e`supply, e`txbuffer, e`held, e`fetched, e`kept, e`mcrShadow, e`stopped, e.chip
    ensures e.Inv()
    ensures passes > 0 ==>
              Progress(old(e.txfifo), old(e.txbuffer), old(e.chip.Thre()), |e.fetched| - |old(e.fetched)|, e.Out() - old(e.Out()))
    ensures e.accepted <= InitEvents() + Session(frames) ==> Tags(e.chip.trace) <= SessionTags(frames)
    ensures e.accepted == InitEvents() + Session(frames) && e.txfifo == [] && e.InFlight() == [] ==>
              Tags(e.chip.trace) == SessionTags(frames)
  {
    hide *;
    e.HandlerThread(passes);
    if e.accepted <= InitEvents() + Session(frames) {
      FramesOnLine(e, frames);
    }
  }

  // ----- from the frame to the queue ------------------------------------------------------------------------

  lemma SessionSnoc(frames: seq<FrameSpec>, f: FrameSpec)
    ensures Session(frames + [f]) == Session(frames) + FrameEvents(f.withBreak, f.chunks)
  {
    assert (frames + [f])[..|frames|] == frames;
  }

  /** Frames that `dmx512suart_create_frame` refuses for an array of 128 events. */
  predicate Refused(data: seq<Octet>, count: nat)
    requires |data| >= 24
  {
    13 + (count + 13) / CHUNK > MAX_EVENTS || (count == 0 && !IsDiscoveryReply(data))
  }

  /** `dmx512suart_send_frame`. A frame that compiles is queued as far as there is room; `f` is the frame.
      A refused one is not noticed: the count -1 makes the queue fill up with `stack`, whatever the array of
      events happens to hold. */
  method SendFrame(e: Engine, noBreak: bool, data: seq<Octet>, count: nat, stack: seq<Event>) returns (ghost f: FrameSpec)
    requires e.Inv() && |data| >= 24 && count <= |data| && |stack| == MAX_EVENTS
    modifies e`txfifo, e`accepted
    ensures e.Inv()
    ensures var room := TXFIFO_SIZE - |old(e.txfifo)|;
            if Refused(data, count) then e.accepted == old(e.accepted) + stack[..room]
            else
              var frame := FrameEvents(f.withBreak, f.chunks);
              && f.withBreak == (!IsDiscoveryReply(data) && !noBreak) && AllInline(f.chunks)
              && Bytes(f.chunks) == (if IsDiscoveryReply(data) then DiscoveryReply.EncodeReply(data[9..15]) else data[..count])
              && |f.chunks| == (|Bytes(f.chunks)| + 13) / CHUNK && |frame| <= MAX_EVENTS
              && e.accepted == old(e.accepted) + frame[..if |frame| <= room then |frame| else room]
              && e.txfifo == old(e.txfifo) + frame[..if |frame| <= room then |frame| else room]
  {
    hide Meaning, After, TrailingBytes, RunsFit, SendAll, Cuts, AllInline, Bytes, IsDiscoveryReply, FrameEvents;
    var events := CreateFrame(MAX_EVENTS, noBreak, data, count);
    f := FrameSpec(false, []);
    if events.Some? {
      ghost var withBreak := !IsDiscoveryReply(data) && !noBreak;
      ghost var chunks :|
        && AllInline(chunks) && |chunks| == (|Bytes(chunks)| + 13) / CHUNK
        && Bytes(chunks) == (if IsDiscoveryReply(data) then DiscoveryReply.EncodeReply(data[9..15]) else data[..count])
        && events.value == FrameEvents(withBreak, chunks)
        && |events.value| <= MAX_EVENTS;
      f := FrameSpec(withBreak, chunks);
      e.PutEvents(events.value);
    } else {
      e.PutEvents(stack);
    }
  }

  /** Every frame of 1 to 513 octets, and every discovery reply, compiles; with room for its events it extends
      the session by exactly that frame. */
  lemma SendExtends(accepted: seq<Event>, after: seq<Event>, frames: seq<FrameSpec>, f: FrameSpec)
    requires Sendable(frames) && AllInline(f.chunks) && |Bytes(f.chunks)| <= 513
    requires accepted == InitEvents() + Session(frames) && after == accepted + FrameEvents(f.withBreak, f.chunks)
    ensures after == InitEvents() + Session(frames + [f]) && Sendable(frames + [f])
  {
    SessionSnoc(frames, f);
    hide Session, FrameEvents, InitEvents, AllInline, Bytes;
    Concat3(InitEvents(), Session(frames), FrameEvents(f.withBreak, f.chunks));
  }

  lemma Concat3(a: seq<Event>, b: seq<Event>, c: seq<Event>)
    ensures (a + b) + c == a + (b + c)
  {
  }

  lemma OrdinaryFramesCompile(data: seq<Octet>, count: nat)
    requires |data| >= 24 && count <= 513
    ensures Refused(data, count) <==> count == 0 && !IsDiscoveryReply(data)
  {
  }

  /** Which frames of any length are refused. */
  lemma RefusedExactly(data: seq<Octet>, count: nat)
    requires |data| >= 24
    ensures Refused(data, count) <==> count > 1610 || (count == 0 && !IsDiscoveryReply(data))
  {
  }

  // ----- from the buffer to the line ---------------------------------------------------------------------------

  /** Whatever frames were sent before: a frame of 1 to 513 octets, or a discovery reply, that finds room in the
      queue is on the line after enough passes of the handler with pauses between them, behind the frames before
      it: a break unless the frame has none, and then octet by octet what the buffer held, at 250 kbaud in 8n2 with
      the driver on. */
  method SendAndDrain(e: Engine, ghost frames: seq<FrameSpec>, noBreak: bool, data: seq<Octet>, count: nat, stack: seq<Event>,
                      pauses: seq<nat>)
    requires e.Inv() && !e.stopped && e.held == [] && e.supply == 0 && |e.txfifo| + 49 <= TXFIFO_SIZE
    requires Sendable(frames) && e.accepted == InitEvents() + Session(frames)
    requires |data| >= 24 && count <= |data| && count <= 513 && (count > 0 || IsDiscoveryReply(data)) && |stack| == MAX_EVENTS
    requires LongPauses(pauses) >= e.Work() + 563
    modifies e`txfifo, e`accepted, e`supply, e`txbuffer, e`held, e`fetched, e`kept, e`mcrShadow, e`stopped, e.chip
    ensures e.Inv()
    ensures var t, n := Tags(e.chip.trace), |SessionTags(frames)|;
            var octets := if IsDiscoveryReply(data) then DiscoveryReply.EncodeReply(data[9..15]) else data[..count];
            var b := if !IsDiscoveryReply(data) && !noBreak then 1 else 0;
            && |t| == n + b + |octets| && t[..n] == SessionTags(frames)
            && (b == 1 ==> t[n] == Tag(0, 62, Format(8, 'n', 1), true, true))
            && forall i | 0 <= i < |octets| :: t[n + b..][i] == Tag(octets[i], 25, Format(8, 'n', 2), true, true)
  {
    hide *;
    ghost var f := Enqueue(e, frames, noBreak, data, count, stack);
    DrainFrames(e, frames + [f], pauses);
    FrameLast(frames, f);
  }

  method Enqueue(e: Engine, ghost frames: seq<FrameSpec>, noBreak: bool, data: seq<Octet>, count: nat, stack: seq<Event>)
    returns (ghost f: FrameSpec)
    requires e.Inv() && |e.txfifo| + 49 <= TXFIFO_SIZE && Sendable(frames) && e.accepted == InitEvents() + Session(frames)
    requires |data| >= 24 && count <= |data| && count <= 513 && (count > 0 || IsDiscoveryReply(data)) && |stack| == MAX_EVENTS
    modifies e`txfifo, e`accepted
    ensures e.Inv() && Sendable(frames + [f]) && e.accepted == InitEvents() + Session(frames + [f])
    ensures f.withBreak <==> !IsDiscoveryReply(data) && !noBreak
    ensures Bytes(f.chunks) == if IsDiscoveryReply(data) then DiscoveryReply.EncodeReply(data[9..15]) else data[..count]
    ensures e.Work() <= old(e.Work()) + 563
  {
    ghost var q, was := e.txfifo, e.accepted;
    hide Sendable, Session, InitEvents, IsDiscoveryReply, DiscoveryReply.EncodeReply, FrameEvents, Bytes, AllInline, Load, Engine.Inv;
    f := SendWhole(e, noBreak, data, count, stack);
    QueueGrows(q, FrameEvents(f.withBreak, f.chunks));
    SendExtends(was, e.accepted, frames, f);
  }

  /** `SendFrame` for an ordinary frame and with room for it. */
  method SendWhole(e: Engine, noBreak: bool, data: seq<Octet>, count: nat, stack: seq<Event>) returns (ghost f: FrameSpec)
    requires e.Inv() && |e.txfifo| + 49 <= TXFIFO_SIZE
    requires |data| >= 24 && count <= |data| && count <= 513 && (count > 0 || IsDiscoveryReply(data)) && |stack| == MAX_EVENTS
    modifies e`txfifo, e`accepted
    ensures e.Inv()
    ensures f.withBreak <==> !IsDiscoveryReply(data) && !noBreak
    ensures Bytes(f.chunks) == if IsDiscoveryReply(data) then DiscoveryReply.EncodeReply(data[9..15]) else data[..count]
    ensures AllInline(f.chunks) && |Bytes(f.chunks)| <= 513 && Load(FrameEvents(f.withBreak, f.chunks)) <= 563
    ensures e.accepted == old(e.accepted) + FrameEvents(f.withBreak, f.chunks)
    ensures e.txfifo == old(e.txfifo) + FrameEvents(f.withBreak, f.chunks)
  {
    OrdinaryFramesCompile(data, count);
    hide Refused, IsDiscoveryReply, DiscoveryReply.EncodeReply, FrameEvents, Bytes, AllInline, Load, Engine.Inv;
    f := SendFrame(e, noBreak, data, count, stack);
    FrameSize(f);
    ghost var frame := FrameEvents(f.withBreak, f.chunks);
    assert frame[..|frame|] == frame;
  }

  /** With no more frames to come the line shows all of them after enough pauses. */
  method DrainFrames(e: Engine, ghost frames: seq<FrameSpec>, pauses: seq<nat>)
    requires e.Inv() && !e.stopped && e.held == [] && e.supply == 0 && LongPauses(pauses) >= e.Work()
    requires Sendable(frames) && e.accepted == InitEvents() + Session(frames)
    modifies e`txfifo, e`accepted, e`supply, e`txbuffer, e`held, e`fetched, e`kept, e`mcrShadow, e`stopped, e.chip
    ensures e.Inv() && Tags(e.chip.trace) == SessionTags(frames)
  {
    SessionMeaning(e.initial, frames);
    hide *;
    e.RunDry(pauses);
  }

  /** Events and octets of an ordinary frame. */
  lemma FrameSize(f: FrameSpec)
    requires AllInline(f.chunks) && |Bytes(f.chunks)| <= 513 && |f.chunks| == (|Bytes(f.chunks)| + 13) / CHUNK
    ensures |FrameEvents(f.withBreak, f.chunks)| <= 49 && Load(FrameEvents(f.withBreak, f.chunks)) <= 563
  {
    var head, body := Prologue() + BreakEvents(f.withBreak), f.chunks;
    FrameInOrder(f.withBreak, f.chunks);
    HeadSize(f.withBreak);
    OctetsOfChunks(body);
    assert FrameEvents(f.withBreak, f.chunks) == head + body + Epilogue();
    hide FrameEvents, OctetCount;
    OctetCountConcat(head, body);
    OctetCountConcat(head + body, Epilogue());
  }

  lemma HeadSize(withBreak: bool)
    ensures OctetCount(Prologue() + BreakEvents(withBreak)) == (if withBreak then 1 else 0) && OctetCount(Epilogue()) == 0
  {
    ControlCount(Prologue());
    ControlCount(Epilogue());
    if withBreak {
      var a, b, d := [SetFormat(Format(8, 'n', 1)), SetBaudrate(100500)], [DataInline([0])],
                     [SetFormat(Format(8, 'n', 2)), SetBaudrate(250000)];
      assert Break() == a + b + d;
      ControlCount(a);
      ControlCount(d);
      assert b[..0] == [] && OctetCount(b) == 1;
      hide OctetCount;
      OctetCountConcat(a, b);
      OctetCountConcat(a + b, d);
      OctetCountConcat(Prologue(), Break());
    } else {
      assert Prologue() + [] == Prologue();
    }
  }

  lemma {:induction false} ControlCount(es: seq<Event>)
    requires Silent(es)
    ensures OctetCount(es) == 0
  {
    if es != [] {
      ControlCount(es[..|es| - 1]);
    }
  }

  lemma {:induction false} OctetsOfChunks(es: seq<Event>)
    requires AllInline(es)
    ensures OctetCount(es) == |Bytes(es)|
  {
    if es != [] {
      OctetsOfChunks(es[..|es| - 1]);
    }
  }

  /** With room for all of it a frame joins the queue, and so does the work it makes. */
  lemma QueueGrows(q: seq<Event>, frame: seq<Event>)
    ensures Load(q + frame) == Load(q) + Load(frame)
  {
    OctetCountConcat(q, frame);
  }

  /** The tags that the last frame of a session adds. */
  lemma FrameLast(frames: seq<FrameSpec>, f: FrameSpec)
    ensures var t, n, b := SessionTags(frames + [f]), |SessionTags(frames)|, if f.withBreak then 1 else 0;
            && |t| == n + b + |Bytes(f.chunks)| && t[..n] == SessionTags(frames)
            && (f.withBreak ==> t[n] == Tag(0, 62, Format(8, 'n', 1), true, true))
            && forall i | 0 <= i < |Bytes(f.chunks)| :: t[n + b..][i] == Tag(Bytes(f.chunks)[i], 25, Format(8, 'n', 2), true, true)
  {
    assert (frames + [f])[..|frames|] == frames;
    var t, n, b := SessionTags(frames + [f]), |SessionTags(frames)|, if f.withBreak then 1 else 0;
    assert t == SessionTags(frames) + FrameTags(f);
    assert t[n + b..] == DataTags(Bytes(f.chunks));
  }

  // ----- a frame that is cut off by a full queue --------------------------------------------------------------

  lemma {:induction false} KeepsLines(c: Config, es: seq<Event>)
    requires forall i | 0 <= i < |es| :: !es[i].ChangeLine?
    ensures After(c, es).mcr == c.mcr
  {
    if es != [] {
      KeepsLines(c, es[..|es| - 1]);
    }
  }

  /** What is left of a frame of which only the first `n` events found room: the line driver stays on unless
      nothing or nearly everything of it was queued. */
  lemma CutFrameDriver(c: Config, f: FrameSpec, n: nat)
    requires AllInline(f.chunks) && n <= |FrameEvents(f.withBreak, f.chunks)|
    ensures var frame := FrameEvents(f.withBreak, f.chunks);
            After(c, frame[..n]).Rts() <==> if n < 3 then c.Rts() else n + 4 <= |frame|
  {
    FrameParts(f);
    hide FrameEvents, After, AllInline, Epilogue;
    var frame := FrameEvents(f.withBreak, f.chunks);
    var last := |frame| - 4;
    if n < 3 {
      assert frame[..3][0] == DisableRx && frame[..3][1] == EnableTx;
      KeepsLines(c, frame[..n]);
    } else if n <= last {
      DriverOnMiddle(c, frame, n, last);
    } else {
      assert frame[last..n] == frame[last..][..n - last];
      DriverOffTail(After(c, frame[..last]), frame[last..n]);
      AfterSplit(c, frame, last, n);
    }
  }

  lemma FrameParts(f: FrameSpec)
    requires AllInline(f.chunks)
    ensures var frame := FrameEvents(f.withBreak, f.chunks);
            && |frame| >= 7 && frame[..3] == Prologue() && frame[|frame| - 4..] == Epilogue()
            && forall i | 3 <= i < |frame| - 4 :: !frame[i].ChangeLine? && frame[i] != Shutdown
  {
    var frame := FrameEvents(f.withBreak, f.chunks);
    var middle := BreakEvents(f.withBreak) + f.chunks;
    assert frame == Prologue() + middle + Epilogue();
    assert forall i | 0 <= i < |middle| :: !middle[i].ChangeLine? && middle[i] != Shutdown;
  }

  lemma {:induction false} AfterSplit(c: Config, es: seq<Event>, a: nat, b: nat)
    requires a <= b <= |es|
    ensures After(c, es[..b]) == After(After(c, es[..a]), es[a..b])
    decreases b
  {
    if a == b {
      assert es[a..b] == [];
    } else {
      AfterSplit(c, es, a, b - 1);
      assert es[..b][..b - 1] == es[..b - 1];
      assert es[a..b][..b - 1 - a] == es[a..b - 1];
    }
  }

  lemma DriverOnMiddle(c: Config, frame: seq<Event>, n: nat, last: nat)
    requires 3 <= n <= last <= |frame| && frame[..3] == Prologue()
    requires forall i | 3 <= i < last :: !frame[i].ChangeLine?
    ensures After(c, frame[..n]).Rts()
  {
    AfterSplit(c, frame, 3, n);
    PrologueMeaning(c);
    hide After;
    KeepsLines(Enabled(c), frame[3..n]);
    EnabledRts(c);
  }

  lemma EnabledRts(c: Config)
    ensures Enabled(c).Rts()
  {
  }

  lemma DriverOffTail(c: Config, tail: seq<Event>)
    requires 1 <= |tail| <= 4 && tail == Epilogue()[..|tail|]
    ensures !After(c, tail).Rts()
  {
    assert tail[0] == ChangeLine(LINE_RTS, 0);
    assert tail[..1] == [ChangeLine(LINE_RTS, 0)];
    AfterOne(c, ChangeLine(LINE_RTS, 0));
    AfterSplit(c, tail, 1, |tail|);
    assert tail[..|tail|] == tail;
    RtsLine(c.mcr);
    RtsCleared(c.mcr);
    hide After;
    KeepsLines(Effect(c, ChangeLine(LINE_RTS, 0)), tail[1..]);
  }

  lemma RtsCleared(mcr: bv8)
    ensures (mcr & !MCR_RTS) & MCR_RTS == 0
  {
  }
}
