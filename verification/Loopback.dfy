/** The DMX512 core of `dmx512.c` with the two cross-linked cards of `dmx512_dummy.c`: frames travel in the
    entries of a fixed pool from the free queue through the receive queue of the peer card and back. */
module Loopback {
  import opened Sequences
  import opened ListEntry
  import FrameQueue
  import KernelList

  const POOL_SIZE := 16
  const FRAME_BYTES := 555       // sizeof(struct dmx512frame)

  /** An entry of the pool, by its number. */
  type Entry = n: int | 0 <= n < 16

  type PortNumber = n: int | 0 <= n < 0x1_0000

  /** `struct dmx512frame`; `content` stands for all but the port number. */
  datatype DmxFrame<D> = DmxFrame(port: PortNumber, content: D)

  datatype Status = Transferred | OutOfMemory | Invalid | Again | Nothing

  type Card = n: int | 0 <= n < 2

  // ----- the pool ---------------------------------------------------------------------------------------

  datatype Pool<D> = Pool(
    frames: seq<DmxFrame<D>>,          // contents of the entries
    free: seq<Entry>,
    rx: seq<seq<Entry>>,               // receive queue of each card
    sent: seq<seq<DmxFrame<D>>>,       // accepted writes to each card
    got: seq<seq<DmxFrame<D>>>         // frames taken out of each card's queue for a reader
  )

  predicate Shaped<D>(p: Pool<D>) {
    |p.frames| == POOL_SIZE && |p.rx| == 2 && |p.sent| == 2 && |p.got| == 2
  }

  /** How often an entry is in a queue. */
  ghost function Count(e: Entry, q: seq<Entry>): nat {
    multiset(q)[e]
  }

  /** Every entry is in exactly one queue, once. */
  ghost predicate Conserved<D>(p: Pool<D>)
    requires Shaped(p)
  {
    forall e: Entry :: Count(e, p.free) + Count(e, p.rx[0]) + Count(e, p.rx[1]) == 1
  }

  function Contents<D>(frames: seq<DmxFrame<D>>, q: seq<Entry>): (r: seq<DmxFrame<D>>)
    requires |frames| == POOL_SIZE
    ensures |r| == |q|
  {
    seq(|q|, i requires 0 <= i < |q| => frames[q[i]])
  }

  /** What was read from a card and what waits there is what was written to the other, in order. */
  ghost predicate InOrder<D>(p: Pool<D>)
    requires Shaped(p)
  {
    forall d: Card :: p.got[1 - d] + Contents(p.frames, p.rx[1 - d]) == p.sent[d]
  }

  ghost predicate Sound<D>(p: Pool<D>) {
    Shaped(p) && Conserved(p) && InOrder(p)
  }

  // ----- what the operations do to it -----------------------------------------------------------------------

  /** A frame for card `d` goes into the first free entry and to the peer card. */
  function Accept<D>(p: Pool<D>, d: Card, f: DmxFrame<D>): Pool<D>
    requires Shaped(p) && p.free != []
  {
    var e := p.free[0];
    p.(free := p.free[1..], frames := p.frames[e := f], rx := p.rx[1 - d := p.rx[1 - d] + [e]],
       sent := p.sent[d := p.sent[d] + [f]])
  }

  /** The entry taken for a frame that cannot be sent goes back, with `f` left in it. */
  function Reject<D>(p: Pool<D>, f: DmxFrame<D>): Pool<D>
    requires Shaped(p) && p.free != []
  {
    p.(free := p.free[1..] + [p.free[0]], frames := p.frames[p.free[0] := f])
  }

  /** The oldest frame at card `d` is read and its entry becomes free. */
  function Fetch<D>(p: Pool<D>, d: Card): Pool<D>
    requires Shaped(p) && p.rx[d] != []
  {
    var e := p.rx[d][0];
    p.(free := p.free + [e], rx := p.rx[d := p.rx[d][1..]], got := p.got[d := p.got[d] + [p.frames[e]]])
  }

  function WriteStatus<D>(p: Pool<D>, copied: bool, known: bool): Status {
    if p.free == [] then OutOfMemory else if copied && known then Transferred else Invalid
  }

  /** A write, by whether the frame could be copied in and its port is known; `left` is what a failed copy leaves
      in the entry. */
  function WriteStep<D>(p: Pool<D>, d: Card, f: DmxFrame<D>, copied: bool, known: bool, left: DmxFrame<D>): Pool<D>
    requires Shaped(p)
  {
    if p.free == [] then p
    else if copied && known then Accept(p, d, f)
    else Reject(p, if copied then f else left)
  }

  lemma WriteStepSound<D>(p: Pool<D>, d: Card, f: DmxFrame<D>, copied: bool, known: bool, left: DmxFrame<D>)
    requires Sound(p)
    ensures Sound(WriteStep(p, d, f, copied, known, left))
  {
    if p.free != [] {
      AcceptConserves(p, d, f);
      AcceptInOrder(p, d, f);
      RejectSound(p, if copied then f else left);
    }
  }

  /** The frames that wait to be read from a card, oldest first. */
  function Waiting<D>(p: Pool<D>, d: Card): seq<DmxFrame<D>>
    requires Shaped(p)
  {
    Contents(p.frames, p.rx[d])
  }

  /** What a write comes to: exactly if the frame was copied, its port is known and there was a free entry, it is
      recorded as sent and waits behind the others at the other card. Otherwise nothing is sent and nothing that
      waits is touched. */
  lemma WriteMeans<D>(p: Pool<D>, d: Card, f: DmxFrame<D>, copied: bool, known: bool, left: DmxFrame<D>)
    requires Sound(p)
    ensures var q, done := WriteStep(p, d, f, copied, known, left), WriteStatus(p, copied, known) == Transferred;
            && (done <==> copied && known && |p.rx[0]| + |p.rx[1]| < POOL_SIZE)
            && q.sent == (if done then p.sent[d := p.sent[d] + [f]] else p.sent) && q.got == p.got
            && Waiting(q, 1 - d) == (if done then Waiting(p, 1 - d) + [f] else Waiting(p, 1 - d)) && Waiting(q, d) == Waiting(p, d)
  {
    PoolSize(p);
    if p.free != [] {
      FirstFree(p);
      var e, g := p.free[0], if copied then f else left;
      ContentsElsewhere(p.frames, p.rx[0], e, g);
      ContentsElsewhere(p.frames, p.rx[1], e, g);
      assert copied ==> Contents(p.frames[e := f], p.rx[1 - d] + [e]) == Contents(p.frames[e := f], p.rx[1 - d]) + [f];
    }
  }

  /** What a read comes to: the oldest waiting frame is handed out, and the rest waits on. */
  lemma FetchMeans<D>(p: Pool<D>, d: Card)
    requires Sound(p) && p.rx[d] != []
    ensures var q := Fetch(p, d);
            && Waiting(p, d) == [p.frames[p.rx[d][0]]] + Waiting(q, d) && Waiting(q, 1 - d) == Waiting(p, 1 - d)
            && q.got == p.got[d := p.got[d] + [p.frames[p.rx[d][0]]]] && q.sent == p.sent
  {
    assert p.rx[d] == [p.rx[d][0]] + p.rx[d][1..];
  }

  lemma CountSnoc(e: Entry, q: seq<Entry>, x: Entry)
    ensures Count(e, q + [x]) == Count(e, q) + if e == x then 1 else 0
  {
  }

  lemma CountFirst(e: Entry, q: seq<Entry>)
    requires q != []
    ensures Count(e, q) == Count(e, q[1..]) + if e == q[0] then 1 else 0
  {
    assert q == [q[0]] + q[1..];
  }

  lemma CountMember(e: Entry, q: seq<Entry>)
    ensures Count(e, q) > 0 <==> e in q
  {
  }

  /** The contents of a queue do not depend on entries that are not in it. */
  lemma ContentsElsewhere<D>(frames: seq<DmxFrame<D>>, q: seq<Entry>, e: Entry, f: DmxFrame<D>)
    requires |frames| == POOL_SIZE && e !in q
    ensures Contents(frames[e := f], q) == Contents(frames, q)
  {
  }

  lemma FirstFree<D>(p: Pool<D>)
    requires Sound(p) && p.free != []
    ensures p.free[0] !in p.rx[0] && p.free[0] !in p.rx[1]
  {
    var e := p.free[0];
    CountMember(e, p.free);
    CountMember(e, p.rx[0]);
    CountMember(e, p.rx[1]);
    assert Count(e, p.free) + Count(e, p.rx[0]) + Count(e, p.rx[1]) == 1;
  }

  lemma AcceptConserves<D>(p: Pool<D>, d: Card, f: DmxFrame<D>)
    requires Sound(p) && p.free != []
    ensures Conserved(Accept(p, d, f))
  {
    forall e: Entry ensures Count(e, p.free[1..]) + Count(e, p.rx[1 - d] + [p.free[0]]) + Count(e, p.rx[d]) == 1 {
      CountFirst(e, p.free);
      CountSnoc(e, p.rx[1 - d], p.free[0]);
      assert Count(e, p.free) + Count(e, p.rx[0]) + Count(e, p.rx[1]) == 1;
    }
  }

  lemma AcceptInOrder<D>(p: Pool<D>, d: Card, f: DmxFrame<D>)
    requires Sound(p) && p.free != []
    ensures InOrder(Accept(p, d, f))
  {
    var q := Accept(p, d, f);
    FirstFree(p);
    ContentsElsewhere(p.frames, p.rx[d], p.free[0], f);
    ContentsElsewhere(p.frames, p.rx[1 - d], p.free[0], f);
    assert Contents(q.frames, q.rx[1 - d]) == Contents(p.frames, p.rx[1 - d]) + [f];
    assert q.got[1 - d] + Contents(q.frames, q.rx[1 - d]) == q.sent[d];
    assert q.got[d] + Contents(q.frames, q.rx[d]) == q.sent[1 - d];
  }

  lemma RejectSound<D>(p: Pool<D>, f: DmxFrame<D>)
    requires Sound(p) && p.free != []
    ensures Sound(Reject(p, f))
  {
    FirstFree(p);
    ContentsElsewhere(p.frames, p.rx[0], p.free[0], f);
    ContentsElsewhere(p.frames, p.rx[1], p.free[0], f);
    forall e: Entry ensures Count(e, Reject(p, f).free) == Count(e, p.free) {
      CountFirst(e, p.free);
      CountSnoc(e, p.free[1..], p.free[0]);
    }
  }

  lemma FetchSound<D>(p: Pool<D>, d: Card)
    requires Sound(p) && p.rx[d] != []
    ensures Sound(Fetch(p, d)) && p.frames[p.rx[d][0]] == p.sent[1 - d][|p.got[d]|]
  {
    var q := Fetch(p, d);
    forall e: Entry ensures Count(e, q.free) + Count(e, q.rx[0]) + Count(e, q.rx[1]) == 1 {
      CountFirst(e, p.rx[d]);
      CountSnoc(e, p.free, p.rx[d][0]);
      assert Count(e, p.free) + Count(e, p.rx[0]) + Count(e, p.rx[1]) == 1;
    }
    assert Contents(p.frames, p.rx[d]) == [p.frames[p.rx[d][0]]] + Contents(p.frames, p.rx[d][1..]);
    assert p.got[d] + Contents(p.frames, p.rx[d]) == p.sent[1 - d];
    assert q.got[d] + Contents(q.frames, q.rx[d]) == q.sent[1 - d];
  }

  // ----- the sixteen entries --------------------------------------------------------------------------------

  ghost function Total(qs: seq<Entry>, n: nat): nat
    requires n <= POOL_SIZE
  {
    if n == 0 then 0 else Total(qs, n - 1) + Count(n - 1, qs)
  }

  lemma {:induction false} TotalSnoc(q: seq<Entry>, x: Entry, n: nat)
    requires n <= POOL_SIZE
    ensures Total(q + [x], n) == Total(q, n) + if x < n then 1 else 0
  {
    if n > 0 {
      TotalSnoc(q, x, n - 1);
      CountSnoc(n - 1, q, x);
    }
  }

  lemma {:induction false} TotalEmpty(n: nat)
    requires n <= POOL_SIZE
    ensures Total([], n) == 0
  {
    if n > 0 {
      TotalEmpty(n - 1);
    }
  }

  lemma {:induction false} TotalLength(q: seq<Entry>)
    ensures Total(q, POOL_SIZE) == |q|
  {
    if q == [] {
      TotalEmpty(POOL_SIZE);
    } else {
      TotalLength(q[..|q| - 1]);
      TotalSnoc(q[..|q| - 1], q[|q| - 1], POOL_SIZE);
      assert q == q[..|q| - 1] + [q[|q| - 1]];
    }
  }

  lemma {:induction false} TotalThree(a: seq<Entry>, b: seq<Entry>, c: seq<Entry>, n: nat)
    requires n <= POOL_SIZE && forall e: Entry :: Count(e, a) + Count(e, b) + Count(e, c) == 1
    ensures Total(a, n) + Total(b, n) + Total(c, n) == n
  {
    if n > 0 {
      TotalThree(a, b, c, n - 1);
      var e: Entry := n - 1;
      assert Count(e, a) + Count(e, b) + Count(e, c) == 1;
    }
  }

  /** A free entry is missing exactly when sixteen frames wait to be read. */
  lemma PoolSize<D>(p: Pool<D>)
    requires Sound(p)
    ensures |p.free| + |p.rx[0]| + |p.rx[1]| == POOL_SIZE
  {
    TotalThree(p.free, p.rx[0], p.rx[1], POOL_SIZE);
    TotalLength(p.free);
    TotalLength(p.rx[0]);
    TotalLength(p.rx[1]);
  }

  // ----- the start ------------------------------------------------------------------------------------------

  function AllEntries(n: nat): (s: seq<Entry>)
    requires n <= POOL_SIZE
    ensures |s| == n
  {
    if n == 0 then [] else AllEntries(n - 1) + [n - 1]
  }

  lemma {:induction false} CountInitial(e: Entry, n: nat)
    requires n <= POOL_SIZE
    ensures Count(e, AllEntries(n)) == if e < n then 1 else 0
  {
    if n > 0 {
      assert AllEntries(n) == AllEntries(n - 1) + [n - 1];
      hide AllEntries, Count;
      CountInitial(e, n - 1);
      CountSnoc(e, AllEntries(n - 1), n - 1);
    }
  }

  lemma InitialSound<D>(blank: DmxFrame<D>)
    ensures Sound(Initial(blank))
  {
    hide AllEntries;
    var p := Initial(blank);
    forall e: Entry ensures Count(e, p.free) == 1 {
      CountInitial(e, POOL_SIZE);
    }
  }

  // ----- every run ------------------------------------------------------------------------------------------

  datatype Operation<D> =
    | WriteTo(card: Card, frame: DmxFrame<D>, copied: bool, known: bool, left: DmxFrame<D>)
    | ReadFrom(card: Card)

  function Do<D>(p: Pool<D>, op: Operation<D>): (q: Pool<D>)
    requires Shaped(p)
    ensures Shaped(q)
  {
    match op
    case WriteTo(d, f, copied, known, left) => WriteStep(p, d, f, copied, known, left)
    case ReadFrom(d) => if p.rx[d] == [] then p else Fetch(p, d)
  }

  function Initial<D>(blank: DmxFrame<D>): Pool<D> {
    Pool(seq(POOL_SIZE, _ => blank), AllEntries(POOL_SIZE), [[], []], [[], []], [[], []])
  }

  function Run<D>(blank: DmxFrame<D>, ops: seq<Operation<D>>): (p: Pool<D>)
    ensures Shaped(p)
  {
    if ops == [] then Initial(blank) else Do(Run(blank, ops[..|ops| - 1]), ops[|ops| - 1])
  }

  lemma {:induction false} RunSound<D>(blank: DmxFrame<D>, ops: seq<Operation<D>>)
    ensures Sound(Run(blank, ops))
  {
    if ops == [] {
      InitialSound(blank);
    } else {
      RunSound(blank, ops[..|ops| - 1]);
      var p, op := Run(blank, ops[..|ops| - 1]), ops[|ops| - 1];
      match op
      case WriteTo(d, f, copied, known, left) => WriteStepSound(p, d, f, copied, known, left);
      case ReadFrom(d) =>
        if p.rx[d] != [] {
          FetchSound(p, d);
        }
    }
  }

  /** Over every sequence of reads and writes: no entry is lost or doubled, a write is short of memory exactly
      when sixteen frames wait, and what has been read is a prefix of what was written to the other card. */
  lemma EveryRun<D>(blank: DmxFrame<D>, ops: seq<Operation<D>>, d: Card)
    ensures var p := Run(blank, ops);
            && (forall e: Entry :: Count(e, p.free) + Count(e, p.rx[0]) + Count(e, p.rx[1]) == 1)
            && (forall copied, known :: WriteStatus(p, copied, known) == OutOfMemory <==> |p.rx[0]| + |p.rx[1]| == POOL_SIZE)
            && |p.got[1 - d]| + |p.rx[1 - d]| == |p.sent[d]| && p.got[1 - d] == p.sent[d][..|p.got[1 - d]|]
            && Contents(p.frames, p.rx[1 - d]) == p.sent[d][|p.got[1 - d]|..]
  {
    var p := Run(blank, ops);
    RunSound(blank, ops);
    PoolSize(p);
    hide Run;
    assert p.got[1 - d] + Contents(p.frames, p.rx[1 - d]) == p.sent[d];
  }

  /** What was sent stays sent. */
  lemma {:induction false} SentStays<D>(blank: DmxFrame<D>, before: seq<Operation<D>>, after: seq<Operation<D>>, d: Card)
    ensures Run(blank, before).sent[d] <= Run(blank, before + after).sent[d]
  {
    hide *;
    if after == [] {
      assert before + after == before;
    } else {
      var init, op := after[..|after| - 1], after[|after| - 1];
      RunNext(blank, before + init, op);
      RunSound(blank, before + init);
      SentStays(blank, before, init, d);
      assert before + after == before + init + [op];
      SentNext(Run(blank, before + init), op, d);
    }
  }

  lemma RunNext<D>(blank: DmxFrame<D>, ops: seq<Operation<D>>, op: Operation<D>)
    ensures Run(blank, ops + [op]) == Do(Run(blank, ops), op)
  {
    assert (ops + [op])[..|ops|] == ops;
  }

  lemma SentNext<D>(p: Pool<D>, op: Operation<D>, d: Card)
    requires Sound(p)
    ensures p.sent[d] <= Do(p, op).sent[d]
  {
    if op.WriteTo? {
      WriteMeans(p, op.card, op.frame, op.copied, op.known, op.left);
    } else if p.rx[op.card] != [] {
      FetchMeans(p, op.card);
    }
    hide WriteStep, Fetch, Conserved, InOrder;
  }

  /** A frame that is transferred after any operations is, after any others, handed out by the read of the other
      card whose turn it is: the one before which as many frames were read there as had been sent before it. */
  lemma InTurn<D>(blank: DmxFrame<D>, before: seq<Operation<D>>, f: DmxFrame<D>, d: Card, left: DmxFrame<D>, after: seq<Operation<D>>)
    requires var p := Run(blank, before); WriteStatus(p, true, true) == Transferred
    ensures var n, q := |Run(blank, before).sent[d]|, Run(blank, before + [WriteTo(d, f, true, true, left)] + after);
            && (|q.got[1 - d]| > n ==> q.got[1 - d][n] == f)
            && (|q.got[1 - d]| == n ==> q.rx[1 - d] != [] && Fetch(q, 1 - d).got[1 - d] == q.got[1 - d] + [f])
  {
    var p, write := Run(blank, before), WriteTo(d, f, true, true, left);
    RunSound(blank, before);
    WriteMeans(p, d, f, true, true, left);
    RunNext(blank, before, write);
    assert Run(blank, before + [write]).sent[d] == p.sent[d] + [f];
    hide WriteStep, WriteStatus, Run, Sound, Fetch;
    SentStays(blank, before + [write], after, d);
    EveryRun(blank, before + [write] + after, d);
    RunSound(blank, before + [write] + after);
    NextRead(Run(blank, before + [write] + after), 1 - d);
  }

  lemma NextRead<D>(q: Pool<D>, d: Card)
    requires Sound(q)
    ensures q.rx[d] != [] ==> |q.got[d]| < |q.sent[1 - d]| && Fetch(q, d).got[d] == q.got[d] + [q.sent[1 - d][|q.got[d]|]]
    ensures q.rx[d] == [] ==> |q.got[d]| == |q.sent[1 - d]|
  {
    if q.rx[d] != [] {
      FetchMeans(q, d);
      FetchSound(q, d);
    }
    assert q.got[d] + Contents(q.frames, q.rx[d]) == q.sent[1 - d];
  }

  // ----- queues on linked lists -------------------------------------------------------------------------------

  type EntryQueue = FrameQueue.Queue<Entry>

  /** The entries of a queue by their numbers. */
  function Numbers(q: seq<Node<Entry>>): (r: seq<Entry>)
    ensures |r| == |q|
  {
    seq(|q|, i requires 0 <= i < |q| => q[i].key)
  }

  lemma NumbersFirst(q: seq<Node<Entry>>)
    requires q != []
    ensures Numbers(q)[0] == q[0].key && Numbers(q[1..]) == Numbers(q)[1..]
  {
  }

  lemma NumbersSnoc(q: seq<Node<Entry>>, e: Node<Entry>)
    ensures Numbers(q + [e]) == Numbers(q) + [e.key]
  {
  }

  /** Two queues that share no node. */
  ghost predicate Separate(a: EntryQueue, b: EntryQueue)
    reads a`entries, b`entries
  {
    a != b && a.head != b.head && a.head !in b.entries && b.head !in a.entries && KernelList.Apart(a.entries, b.entries)
  }

  ghost predicate Outside(e: Node<Entry>, q: EntryQueue)
    reads q`entries
  {
    e != q.head && e !in q.entries
  }

  /** Three queues in good order. */
  ghost predicate Queues(q: EntryQueue, r: EntryQueue, s: EntryQueue)
    reads q, q.head, q.entries, r, r.head, r.entries, s, s.head, s.entries
  {
    q.Valid() && r.Valid() && s.Valid() && Separate(q, r) && Separate(q, s) && Separate(r, s)
  }

  lemma FirstOutside(q: EntryQueue)
    requires q.Valid() && q.entries != []
    ensures q.entries[0] != q.head && q.entries[0] !in q.entries[1..]
  {
    var p := [q.head] + q.entries;
    assert KernelList.Closed(p);
    assert p[0] == q.head && p[1] == q.entries[0];
    assert forall i | 0 <= i < |q.entries| :: p[i + 1] == q.entries[i];
  }

  method GetFrom(q: EntryQueue, ghost r: EntryQueue, ghost s: EntryQueue) returns (e: Node?<Entry>)
    requires Queues(q, r, s)
    modifies q, q.head, q.entries
    ensures Queues(q, r, s) && r.entries == old(r.entries) && s.entries == old(s.entries)
    ensures e == null <==> old(q.entries) == []
    ensures e == null ==> q.entries == []
    ensures e != null ==>
              e == old(q.entries)[0] && q.entries == old(q.entries)[1..] && Outside(e, q) && Outside(e, r) && Outside(e, s)
  {
    if q.entries != [] {
      FirstOutside(q);
      assert q.entries[0] in q.entries;
    }
    SeparateNodes(q, r);
    SeparateNodes(q, s);
    hide KernelList.Ring;
    e := q.Get();
    assert r.Valid() && s.Valid();
  }

  lemma SeparateNodes(a: EntryQueue, b: EntryQueue)
    requires Separate(a, b)
    ensures forall i | 0 <= i < |b.entries| :: b.entries[i] != a.head && b.entries[i] !in a.entries
  {
    forall i | 0 <= i < |b.entries| ensures b.entries[i] !in a.entries {
      assert b.entries[i] in b.entries;
    }
  }

  method PutInto(q: EntryQueue, e: Node<Entry>, ghost r: EntryQueue, ghost s: EntryQueue)
    requires Queues(q, r, s) && Outside(e, q) && Outside(e, r) && Outside(e, s)
    modifies q, q.head, q.entries, e
    ensures Queues(q, r, s) && q.entries == old(q.entries) + [e] && r.entries == old(r.entries) && s.entries == old(s.entries)
  {
    SeparateNodes(q, r);
    SeparateNodes(q, s);
    hide KernelList.Ring;
    q.Put(e);
    assert r.Valid() && s.Valid();
  }

  lemma QueuesAnyOrder(q: EntryQueue, r: EntryQueue, s: EntryQueue)
    requires Queues(q, r, s)
    ensures Queues(q, s, r) && Queues(r, q, s) && Queues(r, s, q) && Queues(s, q, r) && Queues(s, r, q)
  {
    hide KernelList.Ring;
  }

  // ----- cards and ports --------------------------------------------------------------------------------------

  class Port {
    const device: Device
    var userptr: Port?

    constructor (device: Device)
      ensures this.device == device && userptr == null
    {
      this.device := device;
      userptr := null;
    }
  }

  class Device {
    var ports: seq<Port>
    const rxframequeue: EntryQueue

    constructor ()
      ensures ports == [] && fresh(rxframequeue) && fresh(rxframequeue.head) && rxframequeue.Valid() && rxframequeue.entries == []
    {
      ports := [];
      rxframequeue := new FrameQueue.Queue<Entry>();
    }

    /** `_dmx512_port_by_index`. */
    method PortByIndex(index: int) returns (p: Port?)
      ensures p == if 0 <= index < |ports| then ports[index] else null
    {
      var i := 0;
      while i < |ports|
        invariant 0 <= i <= |ports| && !(0 <= index < i)
      {
        if index == i {
          return ports[i];
        }
        i := i + 1;
      }
      return null;
    }

    /** `_dmx512_port_index`. */
    method PortIndex(port: Port) returns (index: int)
      ensures index == -1 <==> port !in ports
      ensures index != -1 ==> 0 <= index < |ports| && ports[index] == port && port !in ports[..index]
    {
      index := 0;
      while index < |ports|
        invariant 0 <= index <= |ports| && port !in ports[..index]
      {
        if ports[index] == port {
          return;
        }
        index := index + 1;
      }
      return -1;
    }
  }

  /** Each port of `device` is linked to the port of the same number among `peers`. */
  ghost predicate Linked(device: Device, ports: seq<Port>, peers: seq<Port>)
    reads ports`userptr
  {
    |ports| == |peers| && Distinct(ports) &&
    forall i | 0 <= i < |ports| :: ports[i].device == device && ports[i].userptr == peers[i]
  }

  /** `create_dummy_dmx_device`. */
  method CreateDevice(portsCount: nat) returns (device: Device)
    ensures fresh(device) && |device.ports| == portsCount && Distinct(device.ports)
    ensures fresh(device.rxframequeue) && fresh(device.rxframequeue.head)
    ensures device.rxframequeue.Valid() && device.rxframequeue.entries == []
    ensures forall i | 0 <= i < portsCount :: fresh(device.ports[i]) && device.ports[i].device == device
  {
    device := new Device();
    var i := 0;
    while i < portsCount
      invariant 0 <= i <= portsCount && |device.ports| == i && Distinct(device.ports)
      invariant fresh(device.rxframequeue) && fresh(device.rxframequeue.head)
      invariant device.rxframequeue.Valid() && device.rxframequeue.entries == []
      invariant forall k | 0 <= k < i :: fresh(device.ports[k]) && device.ports[k].device == device
    {
      var port := new Port(device);
      device.ports := device.ports + [port];
      i := i + 1;
    }
  }

  /** The linking loop of `dmx512_dummy_driver_init`. */
  method CrossLink(dmx0: Device, dmx1: Device)
    requires dmx0 != dmx1 && |dmx0.ports| == |dmx1.ports| && Distinct(dmx0.ports) && Distinct(dmx1.ports)
    requires forall i | 0 <= i < |dmx0.ports| :: dmx0.ports[i].device == dmx0 && dmx1.ports[i].device == dmx1
    modifies dmx0.ports`userptr, dmx1.ports`userptr
    ensures Linked(dmx0, dmx0.ports, dmx1.ports) && Linked(dmx1, dmx1.ports, dmx0.ports)
  {
    var i := 0;
    while i < |dmx0.ports|
      invariant 0 <= i <= |dmx0.ports|
      invariant forall k | 0 <= k < i :: dmx0.ports[k].userptr == dmx1.ports[k] && dmx1.ports[k].userptr == dmx0.ports[k]
    {
      var p0 := dmx0.PortByIndex(i);
      var p1 := dmx1.PortByIndex(i);
      p0.userptr := p1;
      p1.userptr := p0;
      i := i + 1;
    }
  }

  class Core<D(0)> {
    var frames: seq<DmxFrame<D>>
    const free: EntryQueue
    const card0: Device
    const card1: Device
    ghost var sent: seq<seq<DmxFrame<D>>>
    ghost var got: seq<seq<DmxFrame<D>>>

    /** `dmx512_core_init` and `dmx512_dummy_driver_init`. */
    constructor (dmx0: Device, dmx1: Device, pool: EntryQueue, blank: DmxFrame<D>)
      requires dmx0 != dmx1 && Linked(dmx0, dmx0.ports, dmx1.ports) && Linked(dmx1, dmx1.ports, dmx0.ports)
      requires dmx0.rxframequeue.entries == [] && dmx1.rxframequeue.entries == []
      requires Numbers(pool.entries) == AllEntries(POOL_SIZE) && Queues(pool, dmx0.rxframequeue, dmx1.rxframequeue)
      ensures Inv() && card0 == dmx0 && card1 == dmx1 && free == pool
      ensures View() == Initial(blank)
    {
      card0, card1, free := dmx0, dmx1, pool;
      frames := seq(POOL_SIZE, _ => blank);
      sent, got := [[], []], [[], []];
      new;
      InitialSound(blank);
    }

    ghost function View(): Pool<D>
      reads this, free`entries, card0.rxframequeue`entries, card1.rxframequeue`entries
    {
      Pool(frames, Numbers(free.entries), [Numbers(card0.rxframequeue.entries), Numbers(card1.rxframequeue.entries)], sent, got)
    }

    /** Port i of one card and port i of the other are each other's peers. */
    ghost predicate Wired()
      reads card0`ports, card1`ports, card0.ports`userptr, card1.ports`userptr
    {
      card0 != card1 && Linked(card0, card0.ports, card1.ports) && Linked(card1, card1.ports, card0.ports)
    }

    ghost predicate Inv()
      reads this, card0`ports, card1`ports, card0.ports`userptr, card1.ports`userptr
      reads free, free.head, free.entries
      reads card0.rxframequeue, card0.rxframequeue.head, card0.rxframequeue.entries
      reads card1.rxframequeue, card1.rxframequeue.head, card1.rxframequeue.entries
    {
      Sound(View()) && Wired() && Queues(free, card0.rxframequeue, card1.rxframequeue)
    }

    ghost function CardOf(d: Card): Device {
      if d == 0 then card0 else card1
    }

    /** `dmx512_device_write` on card `d`: `fault` says that the frame cannot be copied from the caller, and
        `partial` what is then in the entry. A frame that is too short is not copied at all. */
    method Write(d: Card, size: nat, f: DmxFrame<D>, fault: bool, partial: DmxFrame<D>) returns (r: Status)
      requires Inv()
      modifies this`frames, this`sent, free, free.head, free.entries
      modifies card0.rxframequeue, card0.rxframequeue.head, card0.rxframequeue.entries
      modifies card1.rxframequeue, card1.rxframequeue.head, card1.rxframequeue.entries
      ensures Inv()
      ensures r == WriteStatus(old(View()), size >= FRAME_BYTES && !fault, f.port < |CardOf(d).ports|)
      ensures View() == WriteStep(old(View()), d, f, size >= FRAME_BYTES && !fault, f.port < |CardOf(d).ports|,
                                  if size >= FRAME_BYTES then partial else old(FirstFrame()))
      ensures r == OutOfMemory <==> old(|card0.rxframequeue.entries| + |card1.rxframequeue.entries|) == POOL_SIZE
      ensures r == Transferred <==> size >= FRAME_BYTES && !fault && f.port < |CardOf(d).ports| &&
                                    old(|card0.rxframequeue.entries| + |card1.rxframequeue.entries|) < POOL_SIZE
      ensures sent == (if r == Transferred then old(sent)[d := old(sent)[d] + [f]] else old(sent)) && got == old(got)
      ensures Pending(1 - d) == (if r == Transferred then old(Pending(1 - d)) + [f] else old(Pending(1 - d))) && Pending(d) == old(Pending(d))
    {
      hide *;
      Shapes();
      ghost var known := f.port < |CardOf(d).ports|;
      ghost var left := if size >= FRAME_BYTES then partial else FirstFrame();
      WriteFacts(d, f, size >= FRAME_BYTES && !fault, known, left);
      ViewFields(d);
      r := TrySend(d, f, size >= FRAME_BYTES, fault, partial, known, left);
      ViewFields(d);
      InvAgain();
    }

    /** The frames that wait at a card. */
    ghost function Pending(d: Card): seq<DmxFrame<D>>
      requires |frames| == POOL_SIZE
      reads this, free`entries, card0.rxframequeue`entries, card1.rxframequeue`entries
    {
      var q, contents := CardOf(d).rxframequeue.entries, frames;
      seq(|q|, i requires 0 <= i < |q| => contents[q[i].key])
    }

    lemma ViewFields(d: Card)
      requires Shaped(View())
      ensures |frames| == POOL_SIZE && View().sent == sent && View().got == got && |sent| == 2 && |got| == 2
      ensures Pending(d) == Waiting(View(), d) && Pending(1 - d) == Waiting(View(), 1 - d)
    {
    }

    /** What a write keeps, and when it finds no entry. */
    lemma WriteFacts(d: Card, f: DmxFrame<D>, copied: bool, known: bool, left: DmxFrame<D>)
      requires Inv()
      ensures var q := WriteStep(View(), d, f, copied, known, left);
              var done := WriteStatus(View(), copied, known) == Transferred;
              && Shaped(View()) && Shaped(q) && Sound(q)
              && (done <==> copied && known && |card0.rxframequeue.entries| + |card1.rxframequeue.entries| < POOL_SIZE)
              && q.sent == (if done then View().sent[d := View().sent[d] + [f]] else View().sent) && q.got == View().got
              && Waiting(q, 1 - d) == (if done then Waiting(View(), 1 - d) + [f] else Waiting(View(), 1 - d))
              && Waiting(q, d) == Waiting(View(), d)
      ensures WriteStatus(View(), copied, known) == OutOfMemory
          <==> |card0.rxframequeue.entries| + |card1.rxframequeue.entries| == POOL_SIZE
    {
      PoolSize(View());
      WriteStepSound(View(), d, f, copied, known, left);
      WriteMeans(View(), d, f, copied, known, left);
      Shapes();
    }

    /** What the entry holds that the next write takes. */
    ghost function FirstFrame(): DmxFrame<D>
      requires |frames| == POOL_SIZE
      reads this, free`entries
    {
      if free.entries == [] then frames[0] else frames[free.entries[0].key]
    }

    lemma Shapes()
      requires Inv()
      ensures Shaped(View()) && |frames| == POOL_SIZE && Wired() && Queues(free, card0.rxframequeue, card1.rxframequeue)
      ensures |View().rx[0]| == |card0.rxframequeue.entries| && |View().rx[1]| == |card1.rxframequeue.entries|
      ensures View().free == [] <==> |View().free| == 0
    {
    }

    lemma InvAgain()
      requires Sound(View()) && Wired() && Queues(free, card0.rxframequeue, card1.rxframequeue)
      ensures Inv()
    {
    }

    /** A free entry is taken, if there is one. */
    method TrySend(d: Card, f: DmxFrame<D>, tried: bool, fault: bool, partial: DmxFrame<D>, ghost known: bool, ghost left: DmxFrame<D>)
        returns (r: Status)
      requires Shaped(View()) && Wired() && Queues(free, card0.rxframequeue, card1.rxframequeue)
      requires known == (f.port < |CardOf(d).ports|) && left == if tried then partial else FirstFrame()
      modifies this`frames, this`sent, free, free.head, free.entries
      modifies card0.rxframequeue, card0.rxframequeue.head, card0.rxframequeue.entries
      modifies card1.rxframequeue, card1.rxframequeue.head, card1.rxframequeue.entries
      ensures Wired() && Queues(free, card0.rxframequeue, card1.rxframequeue)
      ensures known == (f.port < |CardOf(d).ports|) && r == WriteStatus(old(View()), tried && !fault, known)
      ensures View() == WriteStep(old(View()), d, f, tried && !fault, known, left)
    {
      hide Queues, Linked, Numbers, Separate;
      ghost var was, before := free.entries, View();
      var e := GetFrom(free, card0.rxframequeue, card1.rxframequeue);
      if e == null {
        return OutOfMemory;
      }
      NumbersFirst(was);
      assert before == View().(free := [e.key] + View().free);
      hide View, WriteStep, WriteStatus;
      r := UseEntry(e, d, f, tried, fault, partial, known, left);
    }

    /** With a free entry at hand. */
    method UseEntry(e: Node<Entry>, d: Card, f: DmxFrame<D>, tried: bool, fault: bool, partial: DmxFrame<D>,
                    ghost known: bool, ghost left: DmxFrame<D>)
        returns (r: Status)
      requires Shaped(View()) && Wired() && Queues(free, card0.rxframequeue, card1.rxframequeue)
      requires known == (f.port < |CardOf(d).ports|) && left == if tried then partial else frames[e.key]
      requires Outside(e, free) && Outside(e, card0.rxframequeue) && Outside(e, card1.rxframequeue)
      modifies this`frames, this`sent, free, free.head, free.entries, e
      modifies card0.rxframequeue, card0.rxframequeue.head, card0.rxframequeue.entries
      modifies card1.rxframequeue, card1.rxframequeue.head, card1.rxframequeue.entries
      ensures Wired() && Queues(free, card0.rxframequeue, card1.rxframequeue)
      ensures var before := old(View().(free := [e.key] + View().free));
              r == WriteStatus(before, tried && !fault, known) && View() == WriteStep(before, d, f, tried && !fault, known, left)
    {
      hide Linked, Queues, Numbers;
      if tried {
        frames := frames[e.key := if fault then partial else f];
      }
      if tried && !fault {
        var card := if d == 0 then card0 else card1;
        var port := card.PortByIndex(f.port);
        if port != null {
          SendFrame(port, e, d);
          return Transferred;
        }
      }
      NumbersSnoc(free.entries, e);
      PutInto(free, e, card0.rxframequeue, card1.rxframequeue);
      r := Invalid;
    }

    /** The peer of port i of card `d`. */
    lemma PeerOf(d: Card, i: nat)
      requires Wired() && i < |CardOf(d).ports|
      ensures var peer := CardOf(d).ports[i].userptr;
              && peer != null && peer.device == CardOf(1 - d) && i < |peer.device.ports| && peer.device.ports[i] == peer
              && forall k | 0 <= k < |peer.device.ports| :: peer.device.ports[k] == peer ==> k == i
    {
    }

    /** `dmx512_dummy_send_frame` and `dmx512_received_frame`, on the port of card `d` that entry `e` is for. */
    method SendFrame(port: Port, e: Node<Entry>, ghost d: Card)
      requires Wired() && Queues(free, card0.rxframequeue, card1.rxframequeue) && |frames| == POOL_SIZE && |sent| == 2
      requires Outside(e, free) && Outside(e, card0.rxframequeue) && Outside(e, card1.rxframequeue)
      requires frames[e.key].port < |CardOf(d).ports| && port == CardOf(d).ports[frames[e.key].port]
      modifies this`frames, this`sent, e
      modifies card0.rxframequeue, card0.rxframequeue.head, card0.rxframequeue.entries
      modifies card1.rxframequeue, card1.rxframequeue.head, card1.rxframequeue.entries
      ensures Wired() && Queues(free, card0.rxframequeue, card1.rxframequeue)
      ensures frames == old(frames) && sent == old(sent[d := sent[d] + [frames[e.key]]]) && free.entries == old(free.entries)
      ensures Numbers(CardOf(1 - d).rxframequeue.entries) == old(Numbers(CardOf(1 - d).rxframequeue.entries)) + [e.key]
      ensures CardOf(d).rxframequeue.entries == old(CardOf(d).rxframequeue.entries)
    {
      PeerOf(d, frames[e.key].port);
      hide Linked, Queues, Numbers, Separate;
      sent := sent[d := sent[d] + [frames[e.key]]];
      var peer := port.userptr;
      if peer != null {
        var index := NumberOf(peer, frames[e.key].port);
        frames := frames[e.key := frames[e.key].(port := index % 0x1_0000)];
        hide Wired, Outside;
        Enqueue(peer.device, e, d);
      }
    }

    /** `dmx512_port_index` of the i-th port of its device. */
    method NumberOf(port: Port, ghost i: nat) returns (index: int)
      requires i < |port.device.ports| && port.device.ports[i] == port
      requires forall k | 0 <= k < |port.device.ports| :: port.device.ports[k] == port ==> k == i
      ensures index == i
    {
      index := port.device.PortIndex(port);
    }

    method Enqueue(device: Device, e: Node<Entry>, ghost d: Card)
      requires device == CardOf(1 - d) && Wired() && Queues(free, card0.rxframequeue, card1.rxframequeue)
      requires Outside(e, free) && Outside(e, card0.rxframequeue) && Outside(e, card1.rxframequeue)
      modifies device.rxframequeue, device.rxframequeue.head, device.rxframequeue.entries, e
      ensures Wired() && Queues(free, card0.rxframequeue, card1.rxframequeue)
      ensures Numbers(device.rxframequeue.entries) == old(Numbers(device.rxframequeue.entries)) + [e.key]
      ensures free.entries == old(free.entries) && CardOf(d).rxframequeue.entries == old(CardOf(d).rxframequeue.entries)
    {
      hide Linked, Queues, Separate, Numbers;
      NumbersSnoc(device.rxframequeue.entries, e);
      QueuesAnyOrder(free, card0.rxframequeue, card1.rxframequeue);
      PutInto(device.rxframequeue, e, free, CardOf(d).rxframequeue);
      QueuesAnyOrder(device.rxframequeue, free, CardOf(d).rxframequeue);
    }

    /** `dmx512_device_read` on card `d` with nothing waiting or the wait over; `fault` says that the frame
        cannot be copied to the caller, who then has lost it. */
    method Read(d: Card, size: nat, nonblock: bool, fault: bool) returns (r: Status, f: DmxFrame<D>)
      requires Inv()
      modifies this`got, free, free.head, free.entries
      modifies card0.rxframequeue, card0.rxframequeue.head, card0.rxframequeue.entries
      modifies card1.rxframequeue, card1.rxframequeue.head, card1.rxframequeue.entries
      ensures Inv()
      ensures var waiting := old(CardOf(d).rxframequeue.entries) != [];
              && (r == Invalid <==> size < FRAME_BYTES)
              && (r == Transferred <==> size >= FRAME_BYTES && waiting && !fault)
              && (size >= FRAME_BYTES && !waiting ==> r == if nonblock then Again else Nothing)
              && (r == Transferred ==> f == sent[1 - d][|old(got)[d]|])
              && View() == if size >= FRAME_BYTES && waiting then Fetch(old(View()), d) else old(View())
      ensures if size >= FRAME_BYTES && old(Pending(d)) != []
              then old(Pending(d)) == [f] + Pending(d) && got == old(got)[d := old(got)[d] + [f]]
              else Pending(d) == old(Pending(d)) && got == old(got)
      ensures Pending(1 - d) == old(Pending(1 - d))
    {
      f := frames[0];
      if size < FRAME_BYTES {
        return Invalid, f;
      }
      var card := if d == 0 then card0 else card1;
      var empty := card.rxframequeue.IsEmpty();
      if empty {
        return if nonblock then Again else Nothing, f;
      }
      FetchNext(d);
      hide Sound, View, Wired, Queues, Linked, Fetch, Waiting, Pending;
      ViewFields(d);
      f := TakeOldest(card, d);
      ViewFields(d);
      r := if fault then Nothing else Transferred;
    }

    /** What a read from a queue that is not empty keeps and hands out. */
    lemma FetchNext(d: Card)
      requires Inv() && CardOf(d).rxframequeue.entries != []
      ensures View().rx[d] != [] && Pending(d) != [] && Shaped(Fetch(View(), d)) && Sound(Fetch(View(), d))
      ensures var q, f := Fetch(View(), d), frames[CardOf(d).rxframequeue.entries[0].key];
              && f == View().sent[1 - d][|View().got[d]|] && q.got == View().got[d := View().got[d] + [f]] && q.sent == View().sent
              && Waiting(View(), d) == [f] + Waiting(q, d) && Waiting(q, 1 - d) == Waiting(View(), 1 - d)
    {
      FetchSound(View(), d);
      FetchMeans(View(), d);
    }

    /** The oldest entry moves to the free queue. */
    method TakeOldest(card: Device, ghost d: Card) returns (f: DmxFrame<D>)
      requires Shaped(View()) && Wired() && Queues(free, card0.rxframequeue, card1.rxframequeue)
      requires card == CardOf(d) && card.rxframequeue.entries != []
      modifies this`got, free, free.head, free.entries, card.rxframequeue, card.rxframequeue.head, card.rxframequeue.entries
      ensures Wired() && Queues(free, card0.rxframequeue, card1.rxframequeue)
      ensures View() == Fetch(old(View()), d) && f == old(frames[card.rxframequeue.entries[0].key])
    {
      hide Linked, Queues, Numbers, Separate;
      ghost var was := card.rxframequeue.entries;
      NumbersFirst(was);
      QueuesAnyOrder(free, card0.rxframequeue, card1.rxframequeue);
      var e := GetFrom(card.rxframequeue, free, CardOf(1 - d).rxframequeue);
      QueuesAnyOrder(card.rxframequeue, free, CardOf(1 - d).rxframequeue);
      f := frames[e.key];
      NumbersSnoc(free.entries, e);
      PutInto(free, e, card.rxframequeue, CardOf(1 - d).rxframequeue);
      QueuesAnyOrder(free, card.rxframequeue, CardOf(1 - d).rxframequeue);
      got := got[d := got[d] + [f]];
    }
  }

  method NewQueue(ghost r: EntryQueue, ghost s: EntryQueue) returns (q: EntryQueue)
    requires r.Valid() && s.Valid() && Separate(r, s)
    ensures fresh(q) && fresh(q.head) && q.entries == [] && Queues(q, r, s)
  {
    hide KernelList.Ring;
    q := new FrameQueue.Queue<Entry>();
  }

  /** The sixteen entries of `dmx512_core_init`. */
  method CreatePool(ghost r: EntryQueue, ghost s: EntryQueue) returns (pool: EntryQueue)
    requires r.Valid() && s.Valid() && Separate(r, s)
    ensures fresh(pool) && Queues(pool, r, s) && Numbers(pool.entries) == AllEntries(POOL_SIZE)
  {
    pool := NewQueue(r, s);
    var i := 0;
    assert Numbers(pool.entries) == AllEntries(i);
    hide Queues, Numbers, Separate;
    while i < POOL_SIZE
      invariant 0 <= i <= POOL_SIZE && fresh(pool) && fresh(pool.head) && Queues(pool, r, s)
      invariant Numbers(pool.entries) == AllEntries(i) && forall k | 0 <= k < |pool.entries| :: fresh(pool.entries[k])
    {
      AddEntry(pool, i, r, s);
      i := i + 1;
    }
  }

  method AddEntry(pool: EntryQueue, i: Entry, ghost r: EntryQueue, ghost s: EntryQueue)
    requires Queues(pool, r, s) && Numbers(pool.entries) == AllEntries(i)
    modifies pool, pool.head, pool.entries
    ensures Queues(pool, r, s) && Numbers(pool.entries) == AllEntries(i + 1)
    ensures |pool.entries| == |old(pool.entries)| + 1 && pool.entries[..|old(pool.entries)|] == old(pool.entries)
    ensures fresh(pool.entries[|old(pool.entries)|])
  {
    var e := new Node<Entry>.Of(i);
    NumbersSnoc(pool.entries, e);
    PutInto(pool, e, r, s);
  }
}
