/**
 The depth thread gives each slot of its frame queue a texture the first time it writes to
 it.  `Slots` adds these assignments to the ledger of the queue.
 */
module DepthTextures {
  import opened Wrappers
  import opened FramePool
  import FrameQueues

  const NUM_BUFFERED_FRAMES := 4

  /** The texture index of every slot (negative while it has none) and the next index to give out. */
  datatype Assignment = Assignment(texture: seq<int>, next: nat)

  datatype Thread = Thread(ledger: SoundLedger, textures: Assignment)

  datatype Action =
    | Queue(e: Event)
    | Assign(slot: nat)

  function NewThread(): Thread {
    Thread(FreshLedger(NUM_BUFFERED_FRAMES), Assignment(seq(NUM_BUFFERED_FRAMES, _ => -1), 0))
  }

  /** A slot is written to, and given its texture, between its acquisition and its commit. */
  predicate Enabled(t: Thread, a: Action) {
    match a
    case Queue(e) =>
      && Allowed(t.ledger, e)
      && (e.Commit? || e.CommitAndRead? ==> HasTexture(t.textures, e.slot))
    case Assign(s) => s in t.ledger.writing && s < |t.ledger.stamps|
  }

  predicate HasTexture(a: Assignment, s: nat) {
    s < |a.texture| && a.texture[s] >= 0
  }

  function AssignTexture(a: Assignment, s: nat): Assignment
    requires s < |a.texture|
  {
    if a.texture[s] < 0 then Assignment(a.texture[s := a.next], a.next + 1) else a
  }

  function Act(t: Thread, a: Action): Thread
    requires |t.ledger.stamps| == |t.textures.texture| && Enabled(t, a)
  {
    match a
    case Queue(e) => t.(ledger := Advance(t.ledger, e))
    case Assign(s) => t.(textures := AssignTexture(t.textures, s))
  }

  function Assigned(texture: seq<int>): nat {
    if texture == [] then 0
    else Assigned(texture[..|texture| - 1]) + (if texture[|texture| - 1] >= 0 then 1 else 0)
  }

  /** Distinct slots have distinct textures, numbered in the order they were given out. */
  ghost predicate Sound(a: Assignment) {
    && a.next == Assigned(a.texture)
    && (forall s :: 0 <= s < |a.texture| ==> a.texture[s] < a.next)
    && (forall s, r :: 0 <= s < r < |a.texture| && a.texture[s] >= 0 ==> a.texture[s] != a.texture[r])
  }

  lemma {:induction false} AssignedIsBounded(texture: seq<int>)
    ensures Assigned(texture) <= |texture|
  {
    if texture != [] {
      AssignedIsBounded(texture[..|texture| - 1]);
    }
  }

  lemma {:induction false} AssigningCountsOne(texture: seq<int>, s: nat, v: nat)
    requires s < |texture| && texture[s] < 0
    ensures Assigned(texture[s := v]) == Assigned(texture) + 1
  {
    var n := |texture| - 1;
    if s < n {
      AssigningCountsOne(texture[..n], s, v);
      assert texture[s := v][..n] == texture[..n][s := v];
    } else {
      assert texture[s := v][..n] == texture[..n];
    }
  }

  lemma AssignTextureKeepsSound(a: Assignment, s: nat)
    requires Sound(a) && s < |a.texture|
    ensures Sound(AssignTexture(a, s)) && HasTexture(AssignTexture(a, s), s)
    ensures forall r | 0 <= r < |a.texture| && a.texture[r] >= 0 :: AssignTexture(a, s).texture[r] == a.texture[r]
    ensures a.texture[s] < 0 ==> AssignTexture(a, s).texture[s] == a.next
  {
    if a.texture[s] < 0 {
      AssigningCountsOne(a.texture, s, a.next);
    }
  }

  /** There are as many textures as slots of the depth queue: four. */
  lemma TexturesMatchSlots()
    ensures NUM_BUFFERED_FRAMES == 4 && |NewThread().ledger.stamps| == 4
  {
  }

  /** All indices are below the number of slots. */
  lemma IndicesAreBounded(a: Assignment, s: nat)
    requires Sound(a) && |a.texture| == NUM_BUFFERED_FRAMES && s < |a.texture|
    ensures a.texture[s] < NUM_BUFFERED_FRAMES
  {
    AssignedIsBounded(a.texture);
  }

  ghost predicate Inv(t: Thread) {
    && Sound(t.textures)
    && |t.ledger.stamps| == |t.textures.texture| == NUM_BUFFERED_FRAMES
    && (forall s :: s in t.ledger.pool.read ==> HasTexture(t.textures, s))
  }

  /** What a step adds to the read list has been committed by it. */
  lemma {:induction false} ReadGrowsByCommit(l: Ledger, e: Event, s: nat)
    requires Consistent(l) && Allowed(l, e) && s in Step(l, e).pool.read
    ensures s in l.pool.read || ((e.Commit? || e.CommitAndRead?) && s == e.slot)
  {
    match e
    case Commit(_) => StaleAndLive(l.pool.read, l.pool.readers);
    case CommitAndRead(_) => StaleAndLive(l.pool.read, l.pool.readers);
    case _ =>
  }

  lemma ActKeepsInv(t: Thread, a: Action)
    requires Inv(t) && Enabled(t, a)
    ensures Inv(Act(t, a))
  {
    match a
    case Queue(e) =>
      var t' := Act(t, a);
      forall s | s in t'.ledger.pool.read
        ensures HasTexture(t.textures, s)
      {
        ReadGrowsByCommit(t.ledger, e, s);
      }
    case Assign(s) =>
      AssignTextureKeepsSound(t.textures, s);
  }

  lemma NewThreadInv()
    ensures Inv(NewThread())
  {
    NothingAssigned(NUM_BUFFERED_FRAMES);
  }

  lemma {:induction false} NothingAssigned(n: nat)
    ensures Assigned(seq(n, _ => -1)) == 0
  {
    if n > 0 {
      NothingAssigned(n - 1);
      assert seq(n, _ => -1)[..n - 1] == seq(n - 1, _ => -1);
    }
  }

  type SoundThread = t: Thread | Inv(t) ghost witness (NewThreadInv(); NewThread())

  const FRESH: SoundThread := (NewThreadInv(); NewThread())

  /** An action that is not enabled does not happen. */
  function Next(t: SoundThread, a: Action): SoundThread {
    if Enabled(t, a) then ActKeepsInv(t, a); Act(t, a) else t
  }

  function Perform(t: SoundThread, actions: seq<Action>): SoundThread
    decreases |actions|
  {
    if actions == [] then t else Perform(Next(t, actions[0]), actions[1..])
  }

  /** The texture a slot is rendered to exists, and no frame that is being read refers to it. */
  lemma TargetIsExclusive(t: SoundThread, s: nat, r: nat)
    requires s in t.ledger.writing && HasTexture(t.textures, s) && r in t.ledger.reading
    ensures 0 <= t.textures.texture[s] < NUM_BUFFERED_FRAMES
    ensures HasTexture(t.textures, r) && t.textures.texture[r] < NUM_BUFFERED_FRAMES
    ensures t.textures.texture[s] != t.textures.texture[r]
  {
    OnePlace(t.ledger, s);
    OnePlace(t.ledger, r);
    AssignedIsBounded(t.textures.texture);
  }

  /** That holds after any actions of the depth thread and of the readers of its frames. */
  lemma RenderTargetIsExclusive(t: SoundThread, actions: seq<Action>, s: nat, r: nat)
    ensures var t' := Perform(t, actions);
            s in t'.ledger.writing && HasTexture(t'.textures, s) && r in t'.ledger.reading ==>
              && HasTexture(t'.textures, r)
              && t'.textures.texture[s] < NUM_BUFFERED_FRAMES && t'.textures.texture[r] < NUM_BUFFERED_FRAMES
              && t'.textures.texture[s] != t'.textures.texture[r]
  {
    var t' := Perform(t, actions);
    if s in t'.ledger.writing && HasTexture(t'.textures, s) && r in t'.ledger.reading {
      TargetIsExclusive(t', s, r);
    }
  }

  // ----- The thread's own fields

  class DepthThread {
    const textureIndex: array<int>
    var depthFrameIndex: nat

    ghost function Textures(): Assignment
      reads this, textureIndex
    {
      Assignment(textureIndex[..], depthFrameIndex)
    }

    constructor ()
      ensures Textures() == FRESH.textures && fresh(textureIndex)
    {
      textureIndex := new int[NUM_BUFFERED_FRAMES](_ => -1);
      depthFrameIndex := 0;
      new;
      assert textureIndex[..] == FRESH.textures.texture;
    }

    /**
     The last part of an iteration: takes a slot, gives it its texture, and commits it, or
     leaves it to the handle's destructor when the renderer is not ready.
     */
    method WriteFrame(queue: FrameQueues.FrameQueue, rendererReady: bool) returns (slot: Option<nat>)
      requires queue.Valid()
      requires queue.numReaders.Length == textureIndex.Length && queue.numReaders != textureIndex
      modifies this, textureIndex, queue
      ensures slot == TopIdle(old(queue.View()))
      ensures slot.None? ==> Textures() == old(Textures()) && queue.View() == old(queue.View())
      ensures slot.Some? ==> slot.value < textureIndex.Length
      ensures slot.Some? ==> Textures() == AssignTexture(old(Textures()), slot.value)
      ensures slot.Some? ==>
                var taken := AcquireWrite(old(queue.View()));
                queue.View() == if rendererReady then CommitWrite(taken, slot.value)
                                else RescindWrite(taken, slot.value)
    {
      slot := queue.AcquireWrite();
      if slot.None? {
        return;
      }
      var s := slot.value;
      if textureIndex[s] < 0 {
        textureIndex[s] := depthFrameIndex;
        depthFrameIndex := depthFrameIndex + 1;
      }
      if !rendererReady {
        queue.RescindWrite(s);
        return;
      }
      queue.CommitWrite(s);
    }
  }
}
