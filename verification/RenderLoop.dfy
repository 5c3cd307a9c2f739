/**
 The frame pool under its clients, with every lock-protected step of one thread free to
 fall between any two steps of another.  `Client` is the camera frame queue with its
 producer thread and the render loop, which keeps the last two frames it rendered.
 */
module RenderLoop {
  import opened Wrappers
  import opened FramePool

  /** The held-frame deque, the frame handle of a render call in progress, the stamps rendered. */
  datatype Client = Client(ledger: SoundLedger, held: seq<nat>, taken: Option<nat>, rendered: seq<nat>)

  datatype Action =
    | Produce(e: Event)
    | BeginRender
    | PopOldest
    | FinishRender
    | AbandonRender

  const MAX_HELD := 2
  const GPU_QUEUE_SLOTS := 4
  const DEPTH_QUEUE_SLOTS := 4

  function NewClient(slots: nat): Client {
    Client(FreshLedger(slots), [], None, [])
  }

  /** A single producer holds at most one slot; the render loop follows the order of its statements. */
  predicate Enabled(c: Client, a: Action) {
    match a
    case Produce(e) =>
      (match e
       case TakeWrite => c.ledger.writing == {}
       case Commit(s) => s in c.ledger.writing
       case Rescind(s) => s in c.ledger.writing
       case _ => false)
    case BeginRender => c.taken.None?
    case PopOldest => c.taken.Some? && |c.held| >= MAX_HELD && c.held[0] in c.ledger.reading
    case FinishRender => c.taken.Some? && |c.held| < MAX_HELD && c.taken.value < |c.ledger.stamps|
    case AbandonRender => c.taken.Some? && c.taken.value in c.ledger.reading
  }

  function Act(c: Client, a: Action): Client
    requires Enabled(c, a)
  {
    match a
    case Produce(e) => c.(ledger := Advance(c.ledger, e))
    case BeginRender => c.(ledger := Advance(c.ledger, TakeRead), taken := Newest(c.ledger.pool))
    case PopOldest => c.(ledger := Advance(c.ledger, DropRead(c.held[0])), held := c.held[1..])
    case FinishRender =>
      c.(held := c.held + [c.taken.value], taken := None,
         rendered := c.rendered + [c.ledger.stamps[c.taken.value]])
    case AbandonRender => c.(ledger := Advance(c.ledger, DropRead(c.taken.value)), taken := None)
  }

  predicate NonDecreasing(s: seq<nat>) {
    forall i, j :: 0 <= i < j < |s| ==> s[i] <= s[j]
  }

  function Handles(held: seq<nat>, taken: Option<nat>): multiset<nat> {
    multiset(held) + HandleOf(taken)
  }

  /** The deque ends in the last frame rendered, and the frame in hand is no older. */
  ghost predicate InOrder(held: seq<nat>, taken: Option<nat>, rendered: seq<nat>, stamps: seq<nat>) {
    && NonDecreasing(rendered)
    && (rendered == [] <==> held == [])
    && (held != [] ==> Last(held) < |stamps| && stamps[Last(held)] == Last(rendered))
    && (taken.Some? ==>
          && taken.value < |stamps|
          && (rendered != [] ==> Last(rendered) <= stamps[taken.value]))
  }

  /** The read handles are exactly the deque and the frame being rendered. */
  ghost predicate Inv(c: Client) {
    && c.ledger.reading == Handles(c.held, c.taken)
    && |c.held| <= MAX_HELD
    && |c.ledger.writing| <= 1
    && InOrder(c.held, c.taken, c.rendered, c.ledger.stamps)
  }

  lemma ReadHandleIsInRange(l: Ledger, s: nat)
    requires Consistent(l) && s in l.reading
    ensures s < |l.stamps| && s in l.pool.read && s !in l.writing
  {
    OnePlace(l, s);
  }

  /** The newest committed frame is at least as new as any frame still being read. */
  lemma NewestIsNewest(l: Ledger, s: nat)
    requires Consistent(l) && s in l.reading
    ensures l.pool.read != [] && s < |l.stamps| && Last(l.pool.read) < |l.stamps|
    ensures l.stamps[s] <= l.stamps[Last(l.pool.read)]
  {
  }

  lemma SameStampsKeepOrder(c: Client, stamps: seq<nat>)
    requires InOrder(c.held, c.taken, c.rendered, c.ledger.stamps)
    requires |stamps| == |c.ledger.stamps|
    requires forall s :: s in Handles(c.held, c.taken) ==> s < |stamps| && stamps[s] == c.ledger.stamps[s]
    ensures InOrder(c.held, c.taken, c.rendered, stamps)
  {
  }

  lemma ProduceKeepsOrder(c: Client, e: Event)
    requires Inv(c) && Enabled(c, Produce(e))
    ensures InOrder(c.held, c.taken, c.rendered, Step(c.ledger, e).stamps)
  {
    StampsOfReadSlots(c.ledger, e);
    SameStampsKeepOrder(c, Step(c.ledger, e).stamps);
  }

  lemma OneWriter(l: Ledger, e: Event)
    requires |l.writing| <= 1
    requires (e.TakeWrite? && l.writing == {}) || ((e.Commit? || e.Rescind?) && e.slot in l.writing)
    ensures |WritingAfter(l, e)| <= 1 && ReadingAfter(l, e) == l.reading
  {
  }

  lemma ProduceKeepsInv(c: Client, e: Event)
    requires Inv(c) && Enabled(c, Produce(e))
    ensures Inv(Act(c, Produce(e)))
  {
    ProduceKeepsOrder(c, e);
    OneWriter(c.ledger, e);
  }

  lemma TakenIsNewest(c: Client, t: nat)
    requires Inv(c) && c.taken.None? && Newest(c.ledger.pool) == Some(t)
    ensures InOrder(c.held, Some(t), c.rendered, c.ledger.stamps)
  {
    if c.held != [] {
      assert Last(c.held) in c.ledger.reading;
      NewestIsNewest(c.ledger, Last(c.held));
    }
  }

  lemma TakingAddsHandle(held: seq<nat>, got: Option<nat>)
    ensures Handles(held, None) + HandleOf(got) == Handles(held, got)
  {
  }

  lemma BeginRenderKeepsInv(c: Client)
    requires Inv(c) && c.taken.None?
    ensures Inv(Act(c, BeginRender))
  {
    var got, l' := Newest(c.ledger.pool), Step(c.ledger, TakeRead);
    assert l'.reading == c.ledger.reading + HandleOf(got) && l'.stamps == c.ledger.stamps;
    TakingAddsHandle(c.held, got);
    if got.Some? {
      TakenIsNewest(c, got.value);
    }
  }

  lemma PopKeepsDeque(held: seq<nat>, taken: Option<nat>, rendered: seq<nat>, stamps: seq<nat>)
    requires InOrder(held, taken, rendered, stamps) && |held| >= 2
    ensures InOrder(held[1..], taken, rendered, stamps)
    ensures Handles(held[1..], taken) == Handles(held, taken) - multiset{held[0]}
  {
    assert held == [held[0]] + held[1..];
    assert Last(held[1..]) == Last(held);
  }

  lemma PopKeepsInv(c: Client)
    requires Inv(c) && Enabled(c, PopOldest)
    ensures Inv(Act(c, PopOldest))
  {
    PopKeepsDeque(c.held, c.taken, c.rendered, c.ledger.stamps);
  }

  lemma FinishKeepsOrder(held: seq<nat>, t: nat, rendered: seq<nat>, stamps: seq<nat>)
    requires InOrder(held, Some(t), rendered, stamps)
    ensures InOrder(held + [t], None, rendered + [stamps[t]], stamps)
    ensures Handles(held + [t], None) == Handles(held, Some(t))
  {
  }

  lemma FinishKeepsInv(c: Client)
    requires Inv(c) && Enabled(c, FinishRender)
    ensures Inv(Act(c, FinishRender))
  {
    FinishKeepsOrder(c.held, c.taken.value, c.rendered, c.ledger.stamps);
  }

  lemma AbandonKeepsDeque(held: seq<nat>, t: nat, rendered: seq<nat>, stamps: seq<nat>)
    requires InOrder(held, Some(t), rendered, stamps)
    ensures InOrder(held, None, rendered, stamps)
    ensures Handles(held, Some(t)) - multiset{t} == Handles(held, None)
  {
  }

  lemma AbandonKeepsInv(c: Client)
    requires Inv(c) && Enabled(c, AbandonRender)
    ensures Inv(Act(c, AbandonRender))
  {
    var l' := Step(c.ledger, DropRead(c.taken.value));
    assert l'.reading == c.ledger.reading - multiset{c.taken.value} && l'.stamps == c.ledger.stamps;
    AbandonKeepsDeque(c.held, c.taken.value, c.rendered, c.ledger.stamps);
  }

  lemma ActKeepsInv(c: Client, a: Action)
    requires Inv(c) && Enabled(c, a)
    ensures Inv(Act(c, a))
  {
    match a
    case Produce(e) => ProduceKeepsInv(c, e);
    case BeginRender => BeginRenderKeepsInv(c);
    case PopOldest => PopKeepsInv(c);
    case FinishRender => FinishKeepsInv(c);
    case AbandonRender => AbandonKeepsInv(c);
  }

  lemma NewClientInv(slots: nat)
    ensures Inv(NewClient(slots))
  {
  }

  /** The states in which the invariant holds. */
  type SoundClient = c: Client | Inv(c) ghost witness (NewClientInv(0); NewClient(0))

  /** An action that is not enabled does not happen. */
  function Next(c: SoundClient, a: Action): (c': SoundClient)
    ensures c' == if Enabled(c, a) then Act(c, a) else c
  {
    if Enabled(c, a) then ActKeepsInv(c, a); Act(c, a) else c
  }

  /** In a sound state the statements of a render call can always be executed. */
  lemma RenderCanProceed(c: SoundClient)
    requires c.taken.Some?
    ensures Enabled(c, AbandonRender)
    ensures |c.held| >= MAX_HELD ==> Enabled(c, PopOldest)
    ensures |c.held| < MAX_HELD ==> Enabled(c, FinishRender)
  {
  }

  // The four statements by which a render call changes its queue and its deque.

  function Take(c: SoundClient): (c': SoundClient)
    requires c.taken.None?
    ensures c'.held == c.held && c'.taken == Newest(c.ledger.pool)
  {
    Next(c, BeginRender)
  }

  function Abandon(c: SoundClient): (c': SoundClient)
    requires c.taken.Some?
    ensures c'.held == c.held && c'.taken == None
  {
    RenderCanProceed(c);
    Next(c, AbandonRender)
  }

  function Pop(c: SoundClient): (c': SoundClient)
    requires c.taken.Some? && |c.held| >= MAX_HELD
    ensures c'.held == c.held[1..] && c'.taken == c.taken
  {
    RenderCanProceed(c);
    Next(c, PopOldest)
  }

  function Keep(c: SoundClient): (c': SoundClient)
    requires c.taken.Some? && |c.held| < MAX_HELD
    ensures c'.held == c.held + [c.taken.value] && c'.taken == None
  {
    RenderCanProceed(c);
    Next(c, FinishRender)
  }

  /** A step of the producer, which leaves the render loop's own state alone. */
  function Produced(c: SoundClient, e: Event): (c': SoundClient)
    ensures c'.held == c.held && c'.taken == c.taken
  {
    Next(c, Produce(e))
  }

  function Perform(c: SoundClient, actions: seq<Action>): SoundClient
    decreases |actions|
  {
    if actions == [] then c else Perform(Next(c, actions[0]), actions[1..])
  }

  /** A queue with its render loop before anything has happened. */
  function IdleClient(slots: nat): (c: SoundClient)
    ensures c == NewClient(slots) && c.held == [] && c.taken == None
  {
    NewClientInv(slots);
    NewClient(slots)
  }

  /** The commit stamps of the frames that the render calls of a run draw, one after the other. */
  function Drawn(c: SoundClient, actions: seq<Action>): seq<nat>
    decreases |actions|
  {
    if actions == [] then [] else DrawnBy(c, actions[0]) + Drawn(Next(c, actions[0]), actions[1..])
  }

  function DrawnBy(c: Client, a: Action): seq<nat> {
    if a.FinishRender? && Enabled(c, a) then [c.ledger.stamps[c.taken.value]] else []
  }

  lemma NextRecords(c: SoundClient, a: Action)
    ensures Next(c, a).rendered == c.rendered + DrawnBy(c, a)
  {
  }

  lemma {:induction false} DrawnIsRecorded(c: SoundClient, actions: seq<Action>)
    ensures Perform(c, actions).rendered == c.rendered + Drawn(c, actions)
    decreases |actions|
  {
    if actions != [] {
      NextRecords(c, actions[0]);
      DrawnIsRecorded(Next(c, actions[0]), actions[1..]);
      Regroup(c.rendered, DrawnBy(c, actions[0]), Drawn(Next(c, actions[0]), actions[1..]));
    }
  }

  lemma Regroup(a: seq<nat>, b: seq<nat>, c: seq<nat>)
    ensures (a + b) + c == a + (b + c)
  {
  }

  /** The render loop never goes back in time, whatever the producer does in between. */
  lemma RenderedFramesNeverGoBack(c: SoundClient, actions: seq<Action>)
    ensures NonDecreasing(c.rendered + Drawn(c, actions))
  {
    DrawnIsRecorded(c, actions);
  }

  /** When no render call is in progress, the deque accounts for every read handle. */
  lemma AtRestReadsAreHeld(c: SoundClient)
    requires c.taken.None?
    ensures c.ledger.reading == multiset(c.held) && |c.held| <= 2
  {
  }

  /** A slot the producer gets is not one the render loop holds or is about to draw. */
  lemma ProducerNeverTouchesHeldFrames(c: Client, s: nat)
    requires Inv(c) && s in c.ledger.writing
    ensures s !in c.held && c.taken != Some(s)
  {
    if s in c.held || c.taken == Some(s) {
      assert s in c.ledger.reading;
      ReadHandleIsInRange(c.ledger, s);
      assert false;
    }
  }

  lemma ActKeepsSlots(c: Client, a: Action)
    requires Enabled(c, a)
    ensures |Act(c, a).ledger.stamps| == |c.ledger.stamps|
  {
    match a
    case Produce(e) => StepKeepsSlots(c.ledger, e);
    case BeginRender => StepKeepsSlots(c.ledger, TakeRead);
    case PopOldest => StepKeepsSlots(c.ledger, DropRead(c.held[0]));
    case FinishRender =>
    case AbandonRender => StepKeepsSlots(c.ledger, DropRead(c.taken.value));
  }

  lemma {:induction false} PerformKeepsSlots(c: SoundClient, actions: seq<Action>)
    ensures |Perform(c, actions).ledger.stamps| == |c.ledger.stamps|
    decreases |actions|
  {
    if actions != [] {
      if Enabled(c, actions[0]) {
        ActKeepsSlots(c, actions[0]);
      }
      PerformKeepsSlots(Next(c, actions[0]), actions[1..]);
    }
  }

  lemma BusySlots(c: SoundClient)
    requires |c.ledger.stamps| == 4 && c.ledger.writing == {} && TopIdle(c.ledger.pool) == None
    ensures c.taken.Some? && |c.held| == MAX_HELD
  {
    SupportIsBounded(c.ledger.reading);
    if c.taken.None? || |c.held| < MAX_HELD {
      assert |c.ledger.reading| <= 2;
      ProducerGetsSlot(c.ledger);
      assert false;
    }
  }

  /**
   Over every schedule on the four-slot queue, the producer always gets a slot between
   render calls; it can only miss one during a call with a full deque.
   */
  lemma UnderrunOnlyWhileRendering(c: SoundClient, actions: seq<Action>)
    requires |c.ledger.stamps| == 4
    ensures var c' := Perform(c, actions);
            c'.ledger.writing == {} && TopIdle(c'.ledger.pool) == None ==> c'.taken.Some? && |c'.held| == 2
  {
    PerformKeepsSlots(c, actions);
    var c' := Perform(c, actions);
    if c'.ledger.writing == {} && TopIdle(c'.ledger.pool) == None {
      BusySlots(c');
    }
  }

  // ----- The CPU frame queue: its producer keeps a read of what it committed, one thread reads

  datatype CpuClient = CpuClient(ledger: SoundLedger, own: Option<nat>, reader: Option<nat>)

  const CPU_QUEUE_SLOTS := 3
  const NEW_CPU_CLIENT := CpuClient(FreshLedger(CPU_QUEUE_SLOTS), None, None)

  datatype CpuAction =
    | BeginWrite
    | CommitOnly(s: nat)
    | CommitKeepingRead(s: nat)
    | GiveUp(s: nat)
    | EndIteration
    | ReaderTakes
    | ReaderDrops

  /** The producer's handles live for one iteration of its loop, the reader's for one of its own. */
  predicate CpuEnabled(c: CpuClient, a: CpuAction) {
    match a
    case BeginWrite => c.own.None? && c.ledger.writing == {}
    case CommitOnly(s) => s in c.ledger.writing
    case CommitKeepingRead(s) => s in c.ledger.writing && c.own.None?
    case GiveUp(s) => s in c.ledger.writing
    case EndIteration => c.own.Some? && c.own.value in c.ledger.reading
    case ReaderTakes => c.reader.None?
    case ReaderDrops => c.reader.Some? && c.reader.value in c.ledger.reading
  }

  function Slot(handle: Option<nat>): nat {
    if handle.Some? then handle.value else 0
  }

  function QueueEvent(c: CpuClient, a: CpuAction): Event {
    match a
    case BeginWrite => TakeWrite
    case CommitOnly(s) => Commit(s)
    case CommitKeepingRead(s) => CommitAndRead(s)
    case GiveUp(s) => Rescind(s)
    case EndIteration => DropRead(Slot(c.own))
    case ReaderTakes => TakeRead
    case ReaderDrops => DropRead(Slot(c.reader))
  }

  function OwnAfter(c: CpuClient, a: CpuAction): Option<nat> {
    if a.CommitKeepingRead? then Some(a.s) else if a.EndIteration? then None else c.own
  }

  function ReaderAfter(c: CpuClient, a: CpuAction): Option<nat> {
    if a.ReaderTakes? then Newest(c.ledger.pool) else if a.ReaderDrops? then None else c.reader
  }

  function CpuAct(c: CpuClient, a: CpuAction): CpuClient
    requires CpuEnabled(c, a)
  {
    CpuClient(Advance(c.ledger, QueueEvent(c, a)), OwnAfter(c, a), ReaderAfter(c, a))
  }

  /** The read handles are the producer's own and the reader's; the producer holds a read or a slot. */
  ghost predicate CpuHandles(reading: multiset<nat>, writing: set<nat>, own: Option<nat>, reader: Option<nat>) {
    && reading == HandleOf(own) + HandleOf(reader)
    && (own.Some? ==> writing == {})
    && |writing| <= 1
  }

  ghost predicate CpuInv(c: CpuClient) {
    && |c.ledger.stamps| == CPU_QUEUE_SLOTS
    && CpuHandles(c.ledger.reading, c.ledger.writing, c.own, c.reader)
  }

  lemma WriterHandles(reading: multiset<nat>, writing: set<nat>, own: Option<nat>, reader: Option<nat>, s: nat)
    requires CpuHandles(reading, writing, own, reader) && s in writing
    ensures CpuHandles(reading, writing - {s}, own, reader)
    ensures own.None? && CpuHandles(reading + multiset{s}, writing - {s}, Some(s), reader)
  {
  }

  lemma ReaderHandles(reading: multiset<nat>, writing: set<nat>, own: Option<nat>, reader: Option<nat>)
    requires CpuHandles(reading, writing, own, reader)
    ensures own.Some? ==> CpuHandles(reading - multiset{own.value}, writing, None, reader)
    ensures reader.Some? ==> CpuHandles(reading - multiset{reader.value}, writing, own, None)
  {
  }

  lemma TakerHandles(reading: multiset<nat>, writing: set<nat>, own: Option<nat>, got: Option<nat>)
    requires CpuHandles(reading, writing, own, None)
    ensures CpuHandles(reading + HandleOf(got), writing, own, got)
  {
  }

  ghost predicate CpuHandlesAfter(c: CpuClient, a: CpuAction) {
    CpuHandles(ReadingAfter(c.ledger, QueueEvent(c, a)), WritingAfter(c.ledger, QueueEvent(c, a)),
               OwnAfter(c, a), ReaderAfter(c, a))
  }

  lemma BeginWriteHandlesKept(c: CpuClient)
    requires CpuEnabled(c, BeginWrite)
    requires CpuHandles(c.ledger.reading, c.ledger.writing, c.own, c.reader)
    ensures CpuHandlesAfter(c, BeginWrite)
  {
  }

  lemma CommitHandlesKept(c: CpuClient, a: CpuAction)
    requires CpuEnabled(c, a) && (a.CommitOnly? || a.GiveUp?)
    requires CpuHandles(c.ledger.reading, c.ledger.writing, c.own, c.reader)
    ensures CpuHandlesAfter(c, a)
  {
    assert QueueEvent(c, a) == if a.CommitOnly? then Commit(a.s) else Rescind(a.s);
    assert WritingAfter(c.ledger, QueueEvent(c, a)) == c.ledger.writing - {a.s};
    WriterHandles(c.ledger.reading, c.ledger.writing, c.own, c.reader, a.s);
  }

  lemma KeepingHandlesKept(c: CpuClient, s: nat)
    requires CpuEnabled(c, CommitKeepingRead(s))
    requires CpuHandles(c.ledger.reading, c.ledger.writing, c.own, c.reader)
    ensures CpuHandlesAfter(c, CommitKeepingRead(s))
  {
    WriterHandles(c.ledger.reading, c.ledger.writing, c.own, c.reader, s);
  }

  lemma ProducerHandlesKept(c: CpuClient, a: CpuAction)
    requires CpuEnabled(c, a) && !a.EndIteration? && !a.ReaderTakes? && !a.ReaderDrops?
    requires CpuHandles(c.ledger.reading, c.ledger.writing, c.own, c.reader)
    ensures CpuHandlesAfter(c, a)
  {
    if a.BeginWrite? {
      BeginWriteHandlesKept(c);
    } else if a.CommitKeepingRead? {
      KeepingHandlesKept(c, a.s);
    } else {
      CommitHandlesKept(c, a);
    }
  }

  lemma EndHandlesKept(c: CpuClient)
    requires CpuEnabled(c, EndIteration)
    requires CpuHandles(c.ledger.reading, c.ledger.writing, c.own, c.reader)
    ensures CpuHandlesAfter(c, EndIteration)
  {
    assert ReadingAfter(c.ledger, QueueEvent(c, EndIteration)) == c.ledger.reading - multiset{c.own.value};
    ReaderHandles(c.ledger.reading, c.ledger.writing, c.own, c.reader);
  }

  lemma TakingHandlesKept(c: CpuClient)
    requires CpuEnabled(c, ReaderTakes)
    requires CpuHandles(c.ledger.reading, c.ledger.writing, c.own, c.reader)
    ensures CpuHandlesAfter(c, ReaderTakes)
  {
    TakerHandles(c.ledger.reading, c.ledger.writing, c.own, Newest(c.ledger.pool));
  }

  lemma DroppingHandlesKept(c: CpuClient)
    requires CpuEnabled(c, ReaderDrops)
    requires CpuHandles(c.ledger.reading, c.ledger.writing, c.own, c.reader)
    ensures CpuHandlesAfter(c, ReaderDrops)
  {
    assert ReadingAfter(c.ledger, QueueEvent(c, ReaderDrops)) == c.ledger.reading - multiset{c.reader.value};
    ReaderHandles(c.ledger.reading, c.ledger.writing, c.own, c.reader);
  }

  lemma CpuActKeepsInv(c: CpuClient, a: CpuAction)
    requires CpuInv(c) && CpuEnabled(c, a)
    ensures CpuInv(CpuAct(c, a))
  {
    var c' := CpuAct(c, a);
    match a
    case EndIteration => EndHandlesKept(c);
    case ReaderTakes => TakingHandlesKept(c);
    case ReaderDrops => DroppingHandlesKept(c);
    case _ => ProducerHandlesKept(c, a);
  }

  lemma NewCpuClientInv()
    ensures CpuInv(NEW_CPU_CLIENT)
  {
  }

  type SoundCpuClient = c: CpuClient | CpuInv(c) ghost witness (NewCpuClientInv(); NEW_CPU_CLIENT)

  function CpuNext(c: SoundCpuClient, a: CpuAction): SoundCpuClient {
    if CpuEnabled(c, a) then CpuActKeepsInv(c, a); CpuAct(c, a) else c
  }

  function CpuPerform(c: SoundCpuClient, actions: seq<CpuAction>): SoundCpuClient
    decreases |actions|
  {
    if actions == [] then c else CpuPerform(CpuNext(c, actions[0]), actions[1..])
  }

  /** With one reader the three-slot CPU queue never runs out of write slots. */
  lemma CpuQueueNeverUnderruns(c: SoundCpuClient, actions: seq<CpuAction>)
    ensures var c' := CpuPerform(c, actions);
            CpuEnabled(c', BeginWrite) ==> TopIdle(c'.ledger.pool).Some?
  {
    CpuProducerGetsSlot(CpuPerform(c, actions));
  }

  lemma CpuProducerGetsSlot(c: SoundCpuClient)
    ensures CpuEnabled(c, BeginWrite) ==> TopIdle(c.ledger.pool).Some?
  {
    if CpuEnabled(c, BeginWrite) {
      SupportIsBounded(c.ledger.reading);
      ProducerGetsSlot(c.ledger);
    }
  }
}
