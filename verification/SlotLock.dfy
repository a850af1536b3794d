/** The slot-count lock of `t_dmxrtuart.c`: after enough DMX frames of one size the receiver expects that
    size, until a frame of another size or surplus data breaks the lock. */
module SlotLock {

  type SlotCount = n: int | 0 <= n < 1024

  datatype Lock = Lock(locked: bool, frames: nat, slots: SlotCount)

  const LOST := Lock(false, 0, 0)

  /** A start-code-0 frame, or surplus data after a locked frame. */
  datatype LockEvent = Received(size: SlotCount) | Lost

  function Step(required: nat, l: Lock, e: LockEvent): Lock {
    match e
    case Lost => LOST
    case Received(size) =>
      if l.locked then (if size != l.slots then LOST else l)
      else if l.frames > 0 && l.slots == size then
        if l.frames == required then l.(locked := true) else l.(frames := l.frames + 1)
      else Lock(false, 1, size)
  }

  function After(required: nat, history: seq<LockEvent>): Lock {
    if history == [] then LOST
    else Step(required, After(required, history[..|history| - 1]), history[|history| - 1])
  }

  // ----- an independent reading of the history -----------------------------------------------------------

  /** Length of the run of equal sizes at the end. */
  function Run(sizes: seq<SlotCount>): nat {
    if |sizes| <= 1 then |sizes|
    else if sizes[|sizes| - 1] == sizes[|sizes| - 2] then Run(sizes[..|sizes| - 1]) + 1 else 1
  }

  /** The frames that count: those since the last loss, where a frame that ends a run of more than
      `required` frames is itself a loss. */
  function Counted(required: nat, history: seq<LockEvent>): seq<SlotCount> {
    if history == [] then []
    else CountedNext(required, Counted(required, history[..|history| - 1]), history[|history| - 1])
  }

  function CountedNext(required: nat, before: seq<SlotCount>, e: LockEvent): seq<SlotCount> {
    if e.Lost? then []
    else if Run(before) > required && before != [] && before[|before| - 1] != e.size then []
    else before + [e.size]
  }

  lemma RunSnoc(sizes: seq<SlotCount>, n: SlotCount)
    ensures Run(sizes + [n]) == if sizes != [] && sizes[|sizes| - 1] == n then Run(sizes) + 1 else 1
  {
    assert (sizes + [n])[..|sizes|] == sizes;
  }

  /** Locked on s exactly when the frames end with more than `required` frames of size s; until then the
      counter is the length of that run. */
  predicate Agrees(required: nat, l: Lock, sizes: seq<SlotCount>) {
    && (l.locked <==> Run(sizes) > required)
    && l.frames == (if Run(sizes) <= required then Run(sizes) else required)
    && l.slots == (if sizes == [] then 0 else sizes[|sizes| - 1])
    && (sizes != [] ==> Run(sizes) >= 1)
  }

  lemma {:induction false} LockExact(required: nat, history: seq<LockEvent>)
    requires required >= 1
    ensures Agrees(required, After(required, history), Counted(required, history))
  {
    if history != [] {
      var init, e := history[..|history| - 1], history[|history| - 1];
      LockExact(required, init);
      AgreesNext(required, After(required, init), Counted(required, init), e);
    }
  }

  lemma AgreesNext(required: nat, l: Lock, sizes: seq<SlotCount>, e: LockEvent)
    requires required >= 1 && Agrees(required, l, sizes)
    ensures Agrees(required, Step(required, l, e), CountedNext(required, sizes, e))
  {
    if e.Received? {
      RunSnoc(sizes, e.size);
    }
    NoRun();
    hide Run;
  }

  lemma NoRun()
    ensures Run([]) == 0
  {
  }

  lemma AfterStep(required: nat, init: seq<LockEvent>, e: LockEvent)
    ensures After(required, init + [e]) == Step(required, After(required, init), e)
  {
    assert (init + [e])[..|init|] == init;
  }

  /** A run means what it says: the last `Run` sizes are equal and the one before them is not. */
  lemma {:induction false} RunMeans(sizes: seq<SlotCount>)
    ensures Run(sizes) <= |sizes|
    ensures forall i | |sizes| - Run(sizes) <= i < |sizes| :: sizes[i] == sizes[|sizes| - 1]
    ensures Run(sizes) < |sizes| ==> sizes[|sizes| - Run(sizes) - 1] != sizes[|sizes| - 1]
  {
    if |sizes| > 1 {
      RunMeans(sizes[..|sizes| - 1]);
    }
  }

  function Repeat(size: SlotCount, n: nat): seq<LockEvent> {
    seq(n, _ => Received(size))
  }

  /** From scratch, frames of one size lock it with the first one beyond the required number and not before. */
  lemma {:induction false} LockGained(required: nat, history: seq<LockEvent>, size: SlotCount, n: nat)
    requires required >= 1 && n >= 1 && After(required, history) == LOST
    ensures var l := After(required, history + Repeat(size, n));
            l.slots == size && (l.locked <==> n > required) && l.frames == if n < required then n else required
  {
    assert history + Repeat(size, n) == history + Repeat(size, n - 1) + [Received(size)];
    assert history + Repeat(size, 0) == history;
    hide After, Repeat;
    AfterStep(required, history + Repeat(size, n - 1), Received(size));
    if n > 1 {
      LockGained(required, history, size, n - 1);
    }
  }

  /** A lock is kept by frames of its size, and lost, with nothing counted, by a frame of another size or surplus
      data. Without a lock a frame of another size starts the count at one. */
  lemma LockKept(required: nat, history: seq<LockEvent>, size: SlotCount)
    ensures var l, next := After(required, history), After(required, history + [Received(size)]);
            && (l.locked ==> next == if size == l.slots then l else Lock(false, 0, 0))
            && (!l.locked && (size != l.slots || l.frames == 0) ==> next == Lock(false, 1, size))
            && After(required, history + [Lost]) == Lock(false, 0, 0)
  {
    AfterStep(required, history, Received(size));
    AfterStep(required, history, Lost);
  }

  class SlotCountLock {
    var enabled: bool
    var locked: bool
    var requiredCount: nat
    var matchingFrameCount: nat
    var matchingSlotCount: SlotCount
    ghost var history: seq<LockEvent>

    constructor ()
      ensures Valid() && !enabled && history == [] && requiredCount == 10
    {
      enabled, locked, requiredCount, matchingFrameCount, matchingSlotCount := false, false, 10, 0, 0;
      history := [];
    }

    ghost predicate Valid()
      reads this
    {
      1 <= requiredCount < 64 &&
      Lock(locked, matchingFrameCount, matchingSlotCount) == After(requiredCount, history)
    }

    method LostLock()
      requires Valid()
      modifies this`locked, this`matchingFrameCount, this`matchingSlotCount, this`history
      ensures Valid() && history == old(history) + [Lost] && !locked
    {
      locked, matchingFrameCount, matchingSlotCount := false, 0, 0;
      history := history + [Lost];
    }

    method ReceivedFrame(startcode: int, size: SlotCount)
      requires Valid()
      modifies this`locked, this`matchingFrameCount, this`matchingSlotCount, this`history
      ensures Valid()
      ensures history == if enabled && startcode == 0 then old(history) + [Received(size)] else old(history)
    {
      if enabled && startcode == 0 {
        AfterStep(requiredCount, history, Received(size));
        hide After;
        history := history + [Received(size)];
        if locked {
          if size != matchingSlotCount {
            locked, matchingFrameCount, matchingSlotCount := false, 0, 0;
          }
        } else if matchingFrameCount > 0 && matchingSlotCount == size {
          if matchingFrameCount == requiredCount {
            locked := true;
          } else {
            matchingFrameCount := matchingFrameCount + 1;
          }
        } else {
          matchingFrameCount := 1;
          matchingSlotCount := size;
        }
      }
    }
  }
}
