/**
 A render call in depth mode, statement by statement, with the producers of both queues free
 to step between any two statements.
 */
module PairedLoop {
  import opened Wrappers
  import opened FramePool
  import opened RenderLoop

  /** Which statement of the render call comes next. */
  datatype Phase =
    | Rest           // acquire a camera frame
    | HasCamera      // acquire a depth frame
    | HasNoDepth     // give the camera frame back
    | HasBoth        // release the oldest camera frame, or keep the new one
    | PopsDepth      // release the oldest depth frame
    | KeepsDepth     // keep the new depth frame

  datatype Pair = Pair(camera: SoundClient, depth: SoundClient, phase: Phase)

  datatype Action =
    | ProduceCamera(e: Event)
    | ProduceDepth(e: Event)
    | Render(cameraReady: bool)

  /** Where the deques and the frames in hand stand before each statement. */
  predicate Paired(p: Pair) {
    var c, d := p.camera, p.depth;
    match p.phase
    case Rest => c.taken.None? && d.taken.None? && |c.held| == |d.held|
    case HasCamera => c.taken.Some? && d.taken.None? && |c.held| == |d.held|
    case HasNoDepth => c.taken.Some? && d.taken.None? && |c.held| == |d.held|
    case HasBoth => c.taken.Some? && d.taken.Some? && |c.held| == |d.held|
    case PopsDepth => c.taken.Some? && d.taken.Some? && |c.held| + 1 == |d.held| == MAX_HELD
    case KeepsDepth => c.taken.None? && d.taken.Some? && |c.held| == |d.held| + 1
  }

  lemma HeldIsBounded(c: SoundClient)
    ensures |c.held| <= MAX_HELD
  {
  }

  /** The statements that take the two frames in hand. */
  function TakeStatement(p: Pair, cameraReady: bool): (p': Pair)
    requires Paired(p) && (p.phase.Rest? || p.phase.HasCamera? || p.phase.HasNoDepth?)
    ensures Paired(p')
  {
    match p.phase
    case Rest =>
      if cameraReady then
        var c := Take(p.camera);
        Pair(c, p.depth, if c.taken.Some? then HasCamera else Rest)
      else p
    case HasCamera =>
      var d := Take(p.depth);
      Pair(p.camera, d, if d.taken.Some? then HasBoth else HasNoDepth)
    case HasNoDepth => Pair(Abandon(p.camera), p.depth, Rest)
  }

  // The statements that make room in the deques and keep the two frames.

  function DropCamera(p: Pair): (p': Pair)
    requires Paired(p) && p.phase.HasBoth? && |p.camera.held| >= MAX_HELD
    ensures Paired(p') && p'.phase.PopsDepth? && p'.depth == p.depth
    ensures p'.camera.held == p.camera.held[1..] && p'.camera.taken == p.camera.taken
  {
    HeldIsBounded(p.camera);
    Pair(Pop(p.camera), p.depth, PopsDepth)
  }

  function DropDepth(p: Pair): (p': Pair)
    requires Paired(p) && p.phase.PopsDepth?
    ensures Paired(p') && p'.phase.HasBoth? && p'.camera == p.camera
    ensures p'.depth.held == p.depth.held[1..] && p'.depth.taken == p.depth.taken
  {
    Pair(p.camera, Pop(p.depth), HasBoth)
  }

  function KeepCamera(p: Pair): (p': Pair)
    requires Paired(p) && p.phase.HasBoth? && |p.camera.held| < MAX_HELD
    ensures Paired(p') && p'.phase.KeepsDepth? && p'.depth == p.depth
    ensures p'.camera.held == p.camera.held + [p.camera.taken.value]
  {
    Pair(Keep(p.camera), p.depth, KeepsDepth)
  }

  function KeepDepth(p: Pair): (p': Pair)
    requires Paired(p) && p.phase.KeepsDepth?
    ensures Paired(p') && p'.phase.Rest? && p'.camera == p.camera
    ensures p'.depth.held == p.depth.held + [p.depth.taken.value]
  {
    HeldIsBounded(p.camera);
    Pair(p.camera, Keep(p.depth), Rest)
  }

  function KeepStatement(p: Pair): (p': Pair)
    requires Paired(p) && (p.phase.HasBoth? || p.phase.PopsDepth? || p.phase.KeepsDepth?)
    ensures Paired(p')
  {
    match p.phase
    case HasBoth => if |p.camera.held| >= MAX_HELD then DropCamera(p) else KeepCamera(p)
    case PopsDepth => DropDepth(p)
    case KeepsDepth => KeepDepth(p)
  }

  function Statement(p: Pair, cameraReady: bool): (p': Pair)
    requires Paired(p)
    ensures Paired(p')
    ensures p.phase.Rest? || p.phase.HasCamera? || p.phase.HasNoDepth? ==> p' == TakeStatement(p, cameraReady)
    ensures p.phase.HasBoth? || p.phase.PopsDepth? || p.phase.KeepsDepth? ==> p' == KeepStatement(p)
  {
    if p.phase.Rest? || p.phase.HasCamera? || p.phase.HasNoDepth? then TakeStatement(p, cameraReady)
    else KeepStatement(p)
  }

  function FreshPair(cameraSlots: nat, depthSlots: nat): (p: Pair)
    ensures Paired(p)
  {
    Pair(IdleClient(cameraSlots), IdleClient(depthSlots), Rest)
  }

  type SoundPair = p: Pair | Paired(p) witness FreshPair(GPU_QUEUE_SLOTS, DEPTH_QUEUE_SLOTS)

  function AfterProducers(p: SoundPair, c: SoundClient, d: SoundClient): SoundPair
    requires c.held == p.camera.held && c.taken == p.camera.taken
    requires d.held == p.depth.held && d.taken == p.depth.taken
  {
    Pair(c, d, p.phase)
  }

  function Proceed(p: SoundPair, a: Action): SoundPair {
    match a
    case ProduceCamera(e) => AfterProducers(p, Produced(p.camera, e), p.depth)
    case ProduceDepth(e) => AfterProducers(p, p.camera, Produced(p.depth, e))
    case Render(cameraReady) => Statement(p, cameraReady)
  }

  function ProceedAll(p: SoundPair, actions: seq<Action>): SoundPair
    decreases |actions|
  {
    if actions == [] then p else ProceedAll(Proceed(p, actions[0]), actions[1..])
  }

  /**
   Over every interleaving: whenever no render call is in progress the deques are of equal
   length, at most two, and account for every read of both queues, so that neither the early
   return nor a finished call leaks one; and at no statement do they differ by more than one.
   */
  lemma DequesStayPaired(p: SoundPair, actions: seq<Action>)
    ensures var q := ProceedAll(p, actions);
            && -1 <= |q.camera.held| - |q.depth.held| <= 1
            && (q.phase.Rest? ==>
                  && |q.camera.held| == |q.depth.held| <= 2
                  && q.camera.ledger.reading == multiset(q.camera.held)
                  && q.depth.ledger.reading == multiset(q.depth.held))
  {
    var q := ProceedAll(p, actions);
    if q.phase.Rest? {
      AtRestReadsAreHeld(q.camera);
      AtRestReadsAreHeld(q.depth);
    }
  }

  /** A render call takes the newest camera frame in hand when there is one, and then the newest depth frame. */
  lemma CallsTakeNewest(p: SoundPair, s: nat)
    ensures p.phase.Rest? && Newest(p.camera.ledger.pool) == Some(s) ==>
              Proceed(p, Render(true)).phase.HasCamera? && Proceed(p, Render(true)).camera.taken == Some(s)
    ensures p.phase.HasCamera? && Newest(p.depth.ledger.pool) == Some(s) ==>
              Proceed(p, Render(true)).phase.HasBoth? && Proceed(p, Render(true)).depth.taken == Some(s)
    ensures p.phase.Rest? ==> Proceed(p, Render(false)) == p
  {
  }

  /** With both frames in hand it keeps the camera frame if fewer than two are held, and else drops the oldest. */
  lemma CallsKeepCamera(p: Pair)
    requires Paired(p) && p.phase.HasBoth?
    ensures var q := Statement(p, true);
            && q.depth == p.depth
            && if |p.camera.held| < 2
               then q.phase.KeepsDepth? && q.camera.held == p.camera.held + [p.camera.taken.value]
               else q.phase.PopsDepth? && q.camera.held == p.camera.held[1..] && q.camera.taken == p.camera.taken
  {
  }

  /** And the same with the depth frame, before the next camera frame. */
  lemma CallsKeepDepth(p: Pair)
    requires Paired(p) && (p.phase.KeepsDepth? || p.phase.PopsDepth?)
    ensures var q := Statement(p, true);
            && q.camera == p.camera
            && if p.phase.KeepsDepth? then q.phase.Rest? && q.depth.held == p.depth.held + [p.depth.taken.value]
               else q.phase.HasBoth? && q.depth.held == p.depth.held[1..] && q.depth.taken == p.depth.taken
  {
  }

  /** A call that finds no depth frame changes no deque and keeps the camera frame for its next statement. */
  lemma MissingDepthIsNoticed(p: Pair)
    requires Paired(p) && p.phase.HasCamera? && Newest(p.depth.ledger.pool) == None
    ensures var q := Statement(p, true);
            q.phase.HasNoDepth? && q.camera == p.camera && q.depth.held == p.depth.held && q.depth.taken == None
  {
  }

  /** Which gives it back. */
  lemma EarlyReturnLeavesDeques(p: Pair)
    requires Paired(p) && p.phase.HasNoDepth?
    ensures var q := Statement(p, true);
            q.phase.Rest? && q.depth == p.depth && q.camera.held == p.camera.held && q.camera.taken == None
  {
  }
}
