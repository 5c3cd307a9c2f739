/**
 The held-frame deques of the passthrough system.  Its fields are the two frame queues
 with their deques, updated by the steps of module RenderLoop; the render calls are proved
 to keep the deques paired and to account for every read they take.
 */
module PassthroughSystem {
  import opened Wrappers
  import opened FramePool
  import opened RenderLoop

  /** What is left of a deque when a render call has made room for one more frame. */
  function Trimmed(held: seq<nat>): (rest: seq<nat>)
    ensures |rest| < MAX_HELD
  {
    if |held| >= MAX_HELD then held[|held| - (MAX_HELD - 1)..] else held
  }

  /** That is the newest frame held, if two are held. */
  lemma TrimmedToOne(held: seq<nat>)
    ensures Trimmed(held) == if |held| >= 2 then [held[|held| - 1]] else held
  {
  }

  lemma TrimmedTail(held: seq<nat>)
    requires |held| >= MAX_HELD
    ensures Trimmed(held[1..]) == Trimmed(held)
  {
  }

  class Renderer {
    var camera: SoundClient
    var depth: SoundClient
    const depthMode: bool

    /** At rest no frame is in hand, and the deques pair up in depth mode. */
    ghost predicate Valid()
      reads this
    {
      && camera.taken.None? && depth.taken.None?
      && |depth.held| == (if depthMode then |camera.held| else 0)
    }

    constructor (depthMode: bool)
      ensures Valid() && this.depthMode == depthMode
      ensures camera == IdleClient(GPU_QUEUE_SLOTS) && depth == IdleClient(DEPTH_QUEUE_SLOTS)
    {
      camera, depth := IdleClient(GPU_QUEUE_SLOTS), IdleClient(DEPTH_QUEUE_SLOTS);
      this.depthMode := depthMode;
    }

    /** The loop that makes room in the camera deque, with a camera frame in hand. */
    method PopAll()
      requires camera.taken.Some?
      modifies this
      ensures camera.taken == old(camera.taken) && camera.held == Trimmed(old(camera.held)) && depth == old(depth)
    {
      while |camera.held| >= MAX_HELD
        invariant camera.taken == old(camera.taken) && depth == old(depth)
        invariant Trimmed(camera.held) == Trimmed(old(camera.held))
        decreases |camera.held|
      {
        TrimmedTail(camera.held);
        camera := Pop(camera);
      }
    }

    /** Takes a camera frame in hand, if there is one. */
    method TakeOne(cameraReady: bool)
      requires camera.taken.None?
      modifies this
      ensures camera.taken == if cameraReady then Newest(old(camera.ledger.pool)) else None
      ensures camera.held == old(camera.held) && depth == old(depth)
    {
      camera := if cameraReady then Take(camera) else camera;
    }

    /** Keeps the camera frame in hand. */
    method KeepOne()
      requires camera.taken.Some?
      modifies this
      ensures camera.taken == None && camera.held == Trimmed(old(camera.held)) + [old(camera.taken.value)]
      ensures depth == old(depth)
    {
      PopAll();
      camera := Keep(camera);
    }

    /** A render call in 2D mode: `frame` is what it draws, if it draws. */
    method RenderPassthrough2D(cameraReady: bool) returns (frame: Option<nat>)
      requires Valid() && !depthMode
      modifies this
      ensures Valid() && depth == old(depth)
      ensures frame == if cameraReady then Newest(old(camera.ledger.pool)) else None
      ensures camera.held == if frame.Some? then Trimmed(old(camera.held)) + [frame.value] else old(camera.held)
      ensures |old(camera.held)| == 2 && frame.Some? ==> camera.held == [old(camera.held)[1], frame.value]
    {
      TrimmedToOne(camera.held);
      TakeOne(cameraReady);
      frame := camera.taken;
      if frame.Some? {
        KeepOne();
      }
    }

    /** The loop that makes room in both deques at once, with a frame of each queue in hand. */
    method PopPairs()
      requires camera.taken.Some? && depth.taken.Some? && |camera.held| == |depth.held|
      modifies this
      ensures camera.taken == old(camera.taken) && depth.taken == old(depth.taken)
      ensures camera.held == Trimmed(old(camera.held)) && depth.held == Trimmed(old(depth.held))
      ensures |camera.held| == |depth.held|
    {
      while |camera.held| >= MAX_HELD
        invariant camera.taken == old(camera.taken) && depth.taken == old(depth.taken)
        invariant |camera.held| == |depth.held|
        invariant Trimmed(camera.held) == Trimmed(old(camera.held))
        invariant Trimmed(depth.held) == Trimmed(old(depth.held))
        decreases |camera.held|
      {
        TrimmedTail(camera.held);
        camera := Pop(camera);
        TrimmedTail(depth.held);
        depth := Pop(depth);
      }
    }

    /** Keeps the frames in hand, one in each deque. */
    method KeepPair()
      requires camera.taken.Some? && depth.taken.Some? && |camera.held| == |depth.held|
      modifies this
      ensures camera.taken == None && camera.held == Trimmed(old(camera.held)) + [old(camera.taken.value)]
      ensures depth.taken == None && depth.held == Trimmed(old(depth.held)) + [old(depth.taken.value)]
      ensures |camera.held| == |depth.held|
    {
      PopPairs();
      camera := Keep(camera);
      depth := Keep(depth);
    }

    /** Takes a frame of each queue in hand, or of neither: a camera frame without a depth frame is given back. */
    method TakePair(cameraReady: bool) returns (ok: bool)
      requires camera.taken.None? && depth.taken.None?
      modifies this
      ensures camera.held == old(camera.held) && depth.held == old(depth.held)
      ensures ok <==> cameraReady && Newest(old(camera.ledger.pool)).Some? && Newest(old(depth.ledger.pool)).Some?
      ensures camera.taken == if ok then Newest(old(camera.ledger.pool)) else None
      ensures depth.taken == if ok then Newest(old(depth.ledger.pool)) else None
    {
      camera := if cameraReady then Take(camera) else camera;
      if camera.taken.None? {
        return false;
      }
      depth := Take(depth);
      if depth.taken.None? {
        camera := Abandon(camera);
        return false;
      }
      return true;
    }

    /** A render call in depth mode: both frames are drawn and kept, or neither is. */
    method RenderPassthroughWithDepth(cameraReady: bool) returns (drawn: bool)
      requires Valid() && depthMode
      modifies this
      ensures Valid()
      ensures drawn <==> cameraReady && Newest(old(camera.ledger.pool)).Some? && Newest(old(depth.ledger.pool)).Some?
      ensures !drawn ==> camera.held == old(camera.held) && depth.held == old(depth.held)
      ensures drawn ==>
                && camera.held == Trimmed(old(camera.held)) + [Newest(old(camera.ledger.pool)).value]
                && depth.held == Trimmed(old(depth.held)) + [Newest(old(depth.ledger.pool)).value]
    {
      drawn := TakePair(cameraReady);
      if drawn {
        KeepPair();
      }
    }

    method StartOver()
      modifies this
      ensures camera == IdleClient(GPU_QUEUE_SLOTS) && depth == IdleClient(DEPTH_QUEUE_SLOTS) && Valid()
    {
      camera, depth := IdleClient(GPU_QUEUE_SLOTS), IdleClient(DEPTH_QUEUE_SLOTS);
    }

    /** Gives every held frame back and starts over with new queues. */
    method SetupProcessingPipeline() returns (ghost left: Ledger, ghost leftDepth: Ledger)
      requires Valid()
      modifies this
      ensures Valid() && camera == IdleClient(GPU_QUEUE_SLOTS) && depth == IdleClient(DEPTH_QUEUE_SLOTS)
      ensures left.reading == multiset{} == leftDepth.reading
    {
      left := DrainDeque(camera);
      leftDepth := DrainDeque(depth);
      StartOver();
    }
  }

  lemma HeldWithoutFirst(held: seq<nat>)
    requires held != []
    ensures held[0] in multiset(held) && multiset(held) - multiset{held[0]} == multiset(held[1..])
  {
    assert held == [held[0]] + held[1..];
  }

  /** One release for every element of a deque, in its order. */
  function Drops(held: seq<nat>): (es: seq<Event>)
    ensures |es| == |held|
  {
    seq(|held|, i requires 0 <= i < |held| => DropRead(held[i]))
  }

  lemma DropsSplit(all: seq<nat>, i: nat)
    requires i < |all|
    ensures Drops(all[..i + 1]) == Drops(all[..i]) + [DropRead(all[i])]
  {
  }

  /** The first `done` frames of a deque have been released, and nothing else has happened. */
  ghost predicate IsDrained(l: Ledger, held: seq<nat>, done: nat, l': Ledger) {
    && done <= |held|
    && AllowedRun(l, Drops(held[..done])) && l' == Run(l, Drops(held[..done]))
    && l'.reading == multiset(held[done..])
    && l'.stamps == l.stamps && l'.clock == l.clock && l'.writing == l.writing
  }

  lemma DrainNext(l: Ledger, held: seq<nat>, done: nat, l': SoundLedger)
    requires IsDrained(l, held, done, l') && done < |held|
    ensures held[done] in l'.reading && IsDrained(l, held, done + 1, Step(l', DropRead(held[done])))
  {
    HeldWithoutFirst(held[done..]);
    assert held[done..][1..] == held[done + 1..];
    DropsSplit(held, done);
    RunExtends(l, Drops(held[..done]), DropRead(held[done]));
  }

  /**
   Every read the deque stands for is released exactly once, in order, and no other one is
   left; frames, commits and slots being written stay as they are.
   */
  method DrainDeque(c: SoundClient) returns (ledger: SoundLedger)
    requires c.taken.None?
    ensures AllowedRun(c.ledger, Drops(c.held)) && ledger == Run(c.ledger, Drops(c.held))
    ensures ledger.reading == multiset{}
    ensures ledger.stamps == c.ledger.stamps && ledger.clock == c.ledger.clock && ledger.writing == c.ledger.writing
  {
    ledger := c.ledger;
    var held := c.held;
    ghost var done := 0;
    AtRestReadsAreHeld(c);
    assert held[..0] == [] && held[0..] == held && Drops([]) == [];
    while held != []
      invariant done <= |c.held| && held == c.held[done..] && IsDrained(c.ledger, c.held, done, ledger)
      decreases |held|
    {
      DrainNext(c.ledger, c.held, done, ledger);
      ledger := Advance(ledger, DropRead(held[0]));
      held := held[1..];
      done := done + 1;
    }
    assert c.held[..done] == c.held;
  }
}
