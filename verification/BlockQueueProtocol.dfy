/**
 The discipline of the thread that serves camera frames out of the block queue: which
 outside calls it may make when, as an automaton over its calls and their answers, and
 what every accepted run of calls then satisfies.
 */
module BlockQueueProtocol {
  import opened Wrappers

  /** A block as the queue hands it out: its sequence number, whether its age is over the timeout, its payload size. */
  datatype Block = Block(sequence: nat, isStale: bool, bytes: int)

  /** One outside call together with its answer. */
  datatype Event =
    | Polled(isRunning: bool)
    | Checked(isPaused: bool, isUsingBlockQueue: bool)     // before the inner loop
    | Rechecked(isPaused: bool, isUsingBlockQueue: bool)   // in each round of the inner loop
    | ColorAsked(usesColor: bool)
    | Unavailable
    | Failed
    | Acquired(block: Block)
    | Released
    | Posed(isKnown: bool)
    | CpuWrite(capacity: Option<nat>)
    | Copied(sequence: nat, bytes: int, room: nat)
    | CpuCommitted(stamp: nat)
    | CpuCommittedAndRead(stamp: nat)
    | CpuReadDropped
    | RendererFound(isAlive: bool)
    | GpuWrite(isGranted: bool)
    | Decoded(isDone: bool)
    | GpuCommitted(stamp: nat)
    | GpuRescinded

  datatype CpuHandle = NoFrame | Writing(capacity: nat) | Filled(sequence: nat) | Reading(stamp: nat)

  datatype GpuHandle = NoTexture | Empty | Ready | Spoilt

  datatype Protocol = Protocol(
    held: Option<Block>,  // the block acquired and not yet released
    isOwed: bool,         // the held block has to be copied, and nothing has excused that
    isPosed: bool,        // the pose at the exposure of the held block is known
    cpu: CpuHandle,
    gpu: GpuHandle,
    isOffered: bool,      // the frame being read has been offered to the GPU queue
    isTimedOut: bool,     // the queue has stalled since the last copy
    last: nat,            // the sequence number of the last copy
    isStopped: bool)

  const START := Idle(true, 0)

  /** The thread holds nothing; this is also how it starts. */
  function Idle(isTimedOut: bool, last: nat): Protocol {
    Protocol(None, false, false, NoFrame, NoTexture, false, isTimedOut, last, false)
  }

  predicate Rests(p: Protocol) {
    p.held.None? && p.cpu.NoFrame? && p.gpu.NoTexture?
  }

  predicate IsUsable(b: Block) {
    !b.isStale && b.bytes > 0
  }

  /** A usable block is wanted when it is a new one, or the first after a stall. */
  predicate IsWanted(p: Protocol, b: Block) {
    IsUsable(b) && (p.isTimedOut || b.sequence != p.last)
  }

  /** Frames carry their sequence number in 32 bits. */
  function Stamp(sequence: nat): nat {
    sequence % 0x1_0000_0000
  }

  predicate Allowed(p: Protocol, e: Event) {
    && (p.isStopped ==> e.Released?)
    && match e
       case Polled(_) => p.cpu.NoFrame?
       case Checked(_, _) | Rechecked(_, _) | ColorAsked(_) => Rests(p)
       case Unavailable | Failed | Acquired(_) => Rests(p)
       case Released => p.held.Some? && !p.isOwed && !p.cpu.Writing? && p.gpu.NoTexture?
       case Posed(_) => p.isOwed && p.cpu.NoFrame?
       case CpuWrite(_) => p.isOwed && p.isPosed && p.cpu.NoFrame?
       case Copied(s, n, room) =>
         && p.isOwed && p.cpu.Writing?
         && p.held.Some? && p.held.value.sequence == s && p.held.value.bytes == n
         && room == if p.cpu.capacity < n then n else p.cpu.capacity
       case CpuCommitted(t) => p.held.None? && p.cpu.Filled? && t == Stamp(p.cpu.sequence)
       case CpuCommittedAndRead(t) => p.held.None? && p.cpu.Filled? && t == Stamp(p.cpu.sequence)
       case CpuReadDropped => p.cpu.Reading? && p.gpu.NoTexture? && p.isOffered
       case RendererFound(_) => p.cpu.Reading? && p.gpu.NoTexture? && !p.isOffered
       case GpuWrite(_) => p.cpu.Reading? && p.gpu.NoTexture? && !p.isOffered
       case Decoded(_) => p.gpu.Empty?
       case GpuCommitted(t) => p.gpu.Ready? && p.cpu.Reading? && t == p.cpu.stamp
       case GpuRescinded => p.gpu.Spoilt?
  }

  function Step(p: Protocol, e: Event): Protocol {
    match e
    case Polled(b) => if b then p else p.(isStopped := true, isOwed := false)
    case Checked(_, _) | Rechecked(_, _) | ColorAsked(_) => p
    case Unavailable => p.(isTimedOut := true)
    case Failed => p
    case Acquired(b) =>
      p.(held := Some(b), isOwed := IsWanted(p, b), isPosed := false, isTimedOut := p.isTimedOut || b.isStale)
    case Released => p.(held := None, isPosed := false)
    case Posed(b) => p.(isPosed := b, isOwed := p.isOwed && b)
    case CpuWrite(room) => if room.Some? then p.(cpu := Writing(room.value)) else p.(isOwed := false)
    case Copied(s, _, _) => p.(cpu := Filled(s), isOwed := false, isTimedOut := false, last := s)
    case CpuCommitted(_) => p.(cpu := NoFrame)
    case CpuCommittedAndRead(t) => p.(cpu := Reading(t))
    case CpuReadDropped => p.(cpu := NoFrame, isOffered := false)
    case RendererFound(b) => p.(isOffered := !b)
    case GpuWrite(b) => if b then p.(gpu := Empty) else p.(isOffered := true)
    case Decoded(b) => p.(gpu := if b then Ready else Spoilt)
    case GpuCommitted(_) => p.(gpu := NoTexture, isOffered := true)
    case GpuRescinded => p.(gpu := NoTexture, isOffered := true)
  }

  function Next(p: Protocol, e: Event): Option<Protocol> {
    if Allowed(p, e) then Some(Step(p, e)) else None
  }

  /** The state after a run of calls, if every one of them was allowed. */
  function After(p: Protocol, calls: seq<Event>): Option<Protocol> {
    if calls == [] then Some(p)
    else
      match After(p, calls[..|calls| - 1])
      case None => None
      case Some(q) => Next(q, calls[|calls| - 1])
  }

  predicate Accepted(calls: seq<Event>) {
    After(START, calls).Some?
  }

  lemma AfterOne(p: Protocol, calls: seq<Event>, e: Event)
    ensures After(p, calls + [e])
            == match After(p, calls) case None => None case Some(q) => Next(q, e)
  {
  }

  lemma {:induction false} AfterBoth(p: Protocol, a: seq<Event>, b: seq<Event>)
    ensures After(p, a + b) == match After(p, a) case None => None case Some(q) => After(q, b)
  {
    if b == [] {
      assert a + b == a;
    } else {
      var front, e := b[..|b| - 1], b[|b| - 1];
      assert a + b == (a + front) + [e] && b == front + [e];
      AfterBoth(p, a, front);
      AfterOne(p, a + front, e);
    }
  }

  /** How many events of a run are of a kind. */
  function Count(calls: seq<Event>, kind: Event -> bool): nat {
    if calls == [] then 0 else Count(calls[..|calls| - 1], kind) + if kind(calls[|calls| - 1]) then 1 else 0
  }

  predicate IsAcquired(e: Event) {
    e.Acquired?
  }

  predicate IsReleased(e: Event) {
    e.Released?
  }

  predicate IsCpuGrant(e: Event) {
    e.CpuWrite? && e.capacity.Some?
  }

  predicate IsCpuCommit(e: Event) {
    e.CpuCommitted? || e.CpuCommittedAndRead?
  }

  predicate IsCpuRead(e: Event) {
    e.CpuCommittedAndRead?
  }

  predicate IsCpuDrop(e: Event) {
    e.CpuReadDropped?
  }

  predicate IsGpuGrant(e: Event) {
    e.GpuWrite? && e.isGranted
  }

  predicate IsGpuEnd(e: Event) {
    e.GpuCommitted? || e.GpuRescinded?
  }

  function One(b: bool): nat {
    if b then 1 else 0
  }

  lemma BlockBalance(p: Protocol, e: Event)
    requires Allowed(p, e)
    ensures One(Step(p, e).held.Some?) + One(IsReleased(e)) == One(p.held.Some?) + One(IsAcquired(e))
  {
  }

  lemma CpuBalance(p: Protocol, e: Event)
    requires Allowed(p, e)
    ensures var cpu, cpu' := p.cpu, Step(p, e).cpu;
            && One(cpu'.Writing? || cpu'.Filled?) + One(IsCpuCommit(e))
               == One(cpu.Writing? || cpu.Filled?) + One(IsCpuGrant(e))
            && One(cpu'.Reading?) + One(IsCpuDrop(e)) == One(cpu.Reading?) + One(IsCpuRead(e))
  {
  }

  lemma GpuBalance(p: Protocol, e: Event)
    requires Allowed(p, e)
    ensures One(!Step(p, e).gpu.NoTexture?) + One(IsGpuEnd(e)) == One(!p.gpu.NoTexture?) + One(IsGpuGrant(e))
  {
  }

  /**
   Acquiring and releasing alternate: in every accepted run they differ by the block held,
   of which there is at most one.
   */
  lemma {:induction false} BlocksAlternate(calls: seq<Event>)
    requires Accepted(calls)
    ensures Count(calls, IsAcquired) == Count(calls, IsReleased) + One(After(START, calls).value.held.Some?)
  {
    if calls != [] {
      BlocksAlternate(calls[..|calls| - 1]);
      BlockBalance(After(START, calls[..|calls| - 1]).value, calls[|calls| - 1]);
    }
  }

  /** Each CPU frame acquired for writing is committed once, and each read that a commit takes is dropped once. */
  lemma {:induction false} CpuHandlesAreConserved(calls: seq<Event>)
    requires Accepted(calls)
    ensures var cpu := After(START, calls).value.cpu;
            && Count(calls, IsCpuGrant) == Count(calls, IsCpuCommit) + One(cpu.Writing? || cpu.Filled?)
            && Count(calls, IsCpuRead) == Count(calls, IsCpuDrop) + One(cpu.Reading?)
  {
    if calls != [] {
      CpuHandlesAreConserved(calls[..|calls| - 1]);
      CpuBalance(After(START, calls[..|calls| - 1]).value, calls[|calls| - 1]);
    }
  }

  /** Each GPU frame acquired for writing is committed or rescinded once. */
  lemma {:induction false} GpuHandlesAreConserved(calls: seq<Event>)
    requires Accepted(calls)
    ensures Count(calls, IsGpuGrant) == Count(calls, IsGpuEnd) + One(!After(START, calls).value.gpu.NoTexture?)
  {
    if calls != [] {
      GpuHandlesAreConserved(calls[..|calls| - 1]);
      GpuBalance(After(START, calls[..|calls| - 1]).value, calls[|calls| - 1]);
    }
  }

  /** The sequence numbers of the frames copied, in order. */
  function CopiedSequences(calls: seq<Event>): seq<nat> {
    if calls == [] then [] else
      var e := calls[|calls| - 1];
      CopiedSequences(calls[..|calls| - 1]) + if e.Copied? then [e.sequence] else []
  }

  function CommittedStamps(calls: seq<Event>): seq<nat> {
    if calls == [] then [] else
      var e := calls[|calls| - 1];
      CommittedStamps(calls[..|calls| - 1]) + if e.CpuCommitted? || e.CpuCommittedAndRead? then [e.stamp] else []
  }

  predicate IsCommitted(copied: seq<nat>, committed: seq<nat>, cpu: CpuHandle) {
    && |copied| == |committed| + (if cpu.Filled? then 1 else 0)
    && (cpu.Filled? ==> copied[|copied| - 1] == cpu.sequence)
    && forall i | 0 <= i < |committed| :: committed[i] == copied[i] % 0x1_0000_0000
  }

  lemma CommitStep(p: Protocol, e: Event, copied: seq<nat>, committed: seq<nat>)
    requires Allowed(p, e) && IsCommitted(copied, committed, p.cpu)
    ensures IsCommitted(copied + (if e.Copied? then [e.sequence] else []),
                        committed + (if e.CpuCommitted? || e.CpuCommittedAndRead? then [e.stamp] else []),
                        Step(p, e).cpu)
  {
  }

  lemma {:induction false} CommitsMatchCopies(calls: seq<Event>)
    requires Accepted(calls)
    ensures IsCommitted(CopiedSequences(calls), CommittedStamps(calls), After(START, calls).value.cpu)
  {
    if calls != [] {
      var front := calls[..|calls| - 1];
      CommitsMatchCopies(front);
      CommitStep(After(START, front).value, calls[|calls| - 1], CopiedSequences(front), CommittedStamps(front));
    }
  }

  /**
   What reaches the CPU queue is what was copied, in that order, under the low 32 bits of
   its sequence number; at most the frame being filled is still to come.
   */
  lemma CommitsFollowCopies(calls: seq<Event>)
    requires Accepted(calls)
    ensures var copied, committed, cpu := CopiedSequences(calls), CommittedStamps(calls), After(START, calls).value.cpu;
            && |copied| == |committed| + (if cpu.Filled? then 1 else 0)
            && forall i | 0 <= i < |committed| :: committed[i] == copied[i] % 4294967296
  {
    CommitsMatchCopies(calls);
  }

  /** The held block was acquired by the latest acquire, which no release has followed. */
  ghost predicate HeldSince(calls: seq<Event>, b: Block) {
    exists k :: 0 <= k < |calls| && calls[k] == Acquired(b)
                && forall i :: k < i < |calls| ==> !calls[i].Released? && !calls[i].Acquired?
  }

  lemma {:induction false} HeldBlockWasAcquired(calls: seq<Event>)
    requires Accepted(calls)
    ensures var p := After(START, calls).value;
            && (p.held.Some? ==> HeldSince(calls, p.held.value))
            && (p.isOwed ==> p.held.Some? && IsUsable(p.held.value))
  {
    if calls != [] {
      var front, e := calls[..|calls| - 1], calls[|calls| - 1];
      HeldBlockWasAcquired(front);
      var q := After(START, front).value;
      if q.held.Some? && !e.Released? && !e.Acquired? {
        HeldStays(front, e, q.held.value);
        assert front + [e] == calls;
      } else if e.Acquired? {
        assert calls[|calls| - 1] == Acquired(e.block);
      }
    }
  }

  lemma HeldStays(calls: seq<Event>, e: Event, b: Block)
    requires HeldSince(calls, b) && !e.Released? && !e.Acquired?
    ensures HeldSince(calls + [e], b)
  {
    var k :| 0 <= k < |calls| && calls[k] == Acquired(b)
             && forall i :: k < i < |calls| ==> !calls[i].Released? && !calls[i].Acquired?;
    assert (calls + [e])[k] == Acquired(b);
  }

  /** A copy reads a block that is held: acquired, not stale, not empty and not yet released. It fits the buffer. */
  lemma CopiesAreOfHeldBlocks(calls: seq<Event>, sequence: nat, bytes: int, room: nat)
    requires Accepted(calls + [Copied(sequence, bytes, room)])
    ensures 0 < bytes <= room
    ensures HeldSince(calls, Block(sequence, false, bytes))
  {
    AfterOne(START, calls, Copied(sequence, bytes, room));
    HeldBlockWasAcquired(calls);
  }

  /** The buffer of the frame grows to the block when it is too small, and keeps its size otherwise. */
  lemma BufferGrowsIfNeeded(calls: seq<Event>, capacity: nat, sequence: nat, bytes: int, room: nat)
    requires Accepted(calls + [CpuWrite(Some(capacity))] + [Copied(sequence, bytes, room)])
    ensures room == if capacity < bytes then bytes else capacity
  {
    AfterOne(START, calls + [CpuWrite(Some(capacity))], Copied(sequence, bytes, room));
    AfterOne(START, calls, CpuWrite(Some(capacity)));
  }

  predicate IsStall(e: Event) {
    e.Unavailable? || (e.Acquired? && e.block.isStale)
  }

  /** Between copies and stalls, the last copy stays the same. */
  lemma {:induction false} LastStays(p: Protocol, calls: seq<Event>)
    requires After(p, calls).Some?
    requires forall e <- calls :: !e.Copied? && !IsStall(e)
    ensures After(p, calls).value.last == p.last && After(p, calls).value.isTimedOut == p.isTimedOut
  {
    if calls != [] {
      assert calls[|calls| - 1] in calls;
      LastStays(p, calls[..|calls| - 1]);
    }
  }

  /** A block that has come to be owed since then is not the one copied last. */
  lemma {:induction false} OwedBlockIsNew(p: Protocol, calls: seq<Event>)
    requires After(p, calls).Some? && !p.isTimedOut && !p.isOwed
    requires forall e <- calls :: !e.Copied? && !IsStall(e)
    ensures var q := After(p, calls).value; q.isOwed ==> q.held.Some? && q.held.value.sequence != p.last
  {
    if calls != [] {
      assert calls[|calls| - 1] in calls;
      OwedBlockIsNew(p, calls[..|calls| - 1]);
      LastStays(p, calls[..|calls| - 1]);
    }
  }

  /** No frame is copied twice in a row unless the queue stalled in between. */
  lemma NoFrameIsCopiedTwice(before: seq<Event>, first: Event, between: seq<Event>, second: Event)
    requires first.Copied? && second.Copied?
    requires Accepted(before + [first] + between + [second])
    requires forall e <- between :: !e.Copied? && !IsStall(e)
    ensures first.sequence != second.sequence
  {
    AfterOne(START, before + [first] + between, second);
    AfterBoth(START, before + [first], between);
    AfterOne(START, before, first);
    OwedBlockIsNew(After(START, before + [first]).value, between);
  }

  /** What excuses the thread from copying a block it wants. */
  predicate IsExcuse(e: Event) {
    e == Polled(false) || e == Posed(false) || e == CpuWrite(None)
  }

  lemma {:induction false} DebtStays(p: Protocol, calls: seq<Event>)
    requires After(p, calls).Some? && p.isOwed && p.held.Some?
    requires forall e <- calls :: !e.Copied? && !IsExcuse(e)
    ensures After(p, calls).value.isOwed && After(p, calls).value.held == p.held
  {
    if calls != [] {
      assert calls[|calls| - 1] in calls;
      DebtStays(p, calls[..|calls| - 1]);
    }
  }

  /** The sequence number of the latest copy in a run. */
  function LatestCopy(calls: seq<Event>): Option<nat> {
    if calls == [] then None
    else if calls[|calls| - 1].Copied? then Some(calls[|calls| - 1].sequence)
    else LatestCopy(calls[..|calls| - 1])
  }

  lemma LastStep(p: Protocol, e: Event)
    requires Allowed(p, e)
    ensures var q := Step(p, e);
            if e.Copied? then q.last == e.sequence else q.last == p.last && (p.isTimedOut ==> q.isTimedOut)
  {
  }

  lemma {:induction false} LastIsLatestCopy(calls: seq<Event>)
    requires Accepted(calls)
    ensures var p := After(START, calls).value; p.isTimedOut || LatestCopy(calls) == Some(p.last)
  {
    if calls != [] {
      LastIsLatestCopy(calls[..|calls| - 1]);
      LastStep(After(START, calls[..|calls| - 1]).value, calls[|calls| - 1]);
    }
  }

  /** A block that is owed is copied before its release, or there is an excuse. */
  lemma ReleasePaysDebt(p: Protocol, between: seq<Event>)
    requires After(p, between + [Released]).Some? && p.isOwed && p.held.Some?
    ensures exists e <- between :: e.Copied? || IsExcuse(e)
  {
    AfterOne(p, between, Released);
    if forall e <- between :: !e.Copied? && !IsExcuse(e) {
      DebtStays(p, between);
      assert false;
    }
  }

  lemma AfterEvent(before: seq<Event>, p: Protocol, e: Event, rest: seq<Event>)
    requires Accepted(before + [e] + rest) && After(START, before) == Some(p)
    ensures Allowed(p, e) && After(Step(p, e), rest).Some?
  {
    AfterBoth(START, before + [e], rest);
    AfterOne(START, before, e);
  }

  lemma Regroup(a: seq<Event>, e: Event, b: seq<Event>, f: Event)
    ensures a + [e] + b + [f] == a + [e] + (b + [f])
    ensures a + [e] + b + [f] == a + ([e] + b + [f])
  {
  }

  lemma OwedBlockIsCopied(before: seq<Event>, p: Protocol, b: Block, between: seq<Event>)
    requires Accepted(before + [Acquired(b)] + between + [Released])
    requires After(START, before) == Some(p) && IsWanted(p, b)
    ensures exists e <- between :: e.Copied? || IsExcuse(e)
  {
    Regroup(before, Acquired(b), between, Released);
    AfterEvent(before, p, Acquired(b), between + [Released]);
    ReleasePaysDebt(Step(p, Acquired(b)), between);
  }

  lemma PrefixIsAccepted(a: seq<Event>, b: seq<Event>)
    requires Accepted(a + b)
    ensures Accepted(a)
  {
    AfterBoth(START, a, b);
  }

  /**
   A usable block that is new is copied before its release, unless the thread is stopped,
   has no pose or no free frame.
   */
  lemma NewBlocksAreCopied(before: seq<Event>, b: Block, between: seq<Event>)
    requires Accepted(before + [Acquired(b)] + between + [Released])
    requires !b.isStale && b.bytes > 0 && LatestCopy(before) != Some(b.sequence)
    ensures exists e <- between :: e.Copied? || e == Polled(false) || e == Posed(false) || e == CpuWrite(None)
  {
    Regroup(before, Acquired(b), between, Released);
    PrefixIsAccepted(before, [Acquired(b)] + between + [Released]);
    LastIsLatestCopy(before);
    OwedBlockIsCopied(before, After(START, before).value, b, between);
  }

  lemma {:induction false} TimeoutStays(p: Protocol, calls: seq<Event>)
    requires After(p, calls).Some? && p.isTimedOut
    requires forall e <- calls :: !e.Copied?
    ensures After(p, calls).value.isTimedOut
  {
    if calls != [] {
      assert calls[|calls| - 1] in calls;
      TimeoutStays(p, calls[..|calls| - 1]);
      LastStep(After(p, calls[..|calls| - 1]).value, calls[|calls| - 1]);
    }
  }

  /**
   The first usable block after a stall is copied even if it has the number copied last,
   with the same excuses.
   */
  lemma StalledBlocksAreCopied(before: seq<Event>, stall: Event, after: seq<Event>, b: Block, between: seq<Event>)
    requires Accepted(before + [stall] + after + [Acquired(b)] + between + [Released])
    requires stall == Unavailable || (stall.Acquired? && stall.block.isStale)
    requires !b.isStale && b.bytes > 0 && forall e <- after :: !e.Copied?
    ensures exists e <- between :: e.Copied? || e == Polled(false) || e == Posed(false) || e == CpuWrite(None)
  {
    var upTo := before + [stall] + after;
    Regroup(upTo, Acquired(b), between, Released);
    PrefixIsAccepted(upTo, [Acquired(b)] + between + [Released]);
    StallIsRemembered(before, stall, after);
    OwedBlockIsCopied(upTo, After(START, upTo).value, b, between);
  }

  lemma StallIsRemembered(before: seq<Event>, stall: Event, after: seq<Event>)
    requires Accepted(before + [stall] + after) && forall e <- after :: !e.Copied?
    requires stall == Unavailable || (stall.Acquired? && stall.block.isStale)
    ensures After(START, before + [stall] + after).value.isTimedOut
  {
    AfterBoth(START, before + [stall], after);
    AfterOne(START, before, stall);
    TimeoutStays(After(START, before + [stall]).value, after);
  }

  /** How the offer of a frame with stamp `t` to the GPU queue can end. */
  predicate EndsOffer(e: Event, t: nat) {
    e == GpuCommitted(t) || e == GpuRescinded || e == GpuWrite(false) || e == RendererFound(false)
  }

  lemma {:induction false} OfferIsPending(p: Protocol, calls: seq<Event>, t: nat)
    requires After(p, calls).Some? && p.cpu == Reading(t) && !p.isOffered && p.held.None?
    requires forall e <- calls :: !EndsOffer(e, t)
    ensures var q := After(p, calls).value; q.cpu == Reading(t) && !q.isOffered && q.held.None?
  {
    if calls != [] {
      assert calls[|calls| - 1] in calls;
      OfferIsPending(p, calls[..|calls| - 1], t);
    }
  }

  /**
   On the color path the frame is put into the GPU queue under its stamp, unless decoding
   fails, no texture is free or the renderer is gone.
   */
  lemma ColorFramesAreOffered(before: seq<Event>, t: nat, between: seq<Event>)
    requires Accepted(before + [CpuCommittedAndRead(t)] + between + [CpuReadDropped])
    ensures exists e <- between :: EndsOffer(e, t)
  {
    AfterOne(START, before + [CpuCommittedAndRead(t)] + between, CpuReadDropped);
    AfterBoth(START, before + [CpuCommittedAndRead(t)], between);
    AfterOne(START, before, CpuCommittedAndRead(t));
    ReadsAreOffered(before);
    if forall e <- between :: !EndsOffer(e, t) {
      OfferIsPending(After(START, before + [CpuCommittedAndRead(t)]).value, between, t);
      assert false;
    }
  }

  lemma {:induction false} ReadsAreOffered(calls: seq<Event>)
    requires Accepted(calls)
    ensures var p := After(START, calls).value; p.isOffered || !p.gpu.NoTexture? ==> p.cpu.Reading?
  {
    if calls != [] { ReadsAreOffered(calls[..|calls| - 1]); }
  }

  lemma {:induction false} StoppedStays(p: Protocol, calls: seq<Event>)
    requires After(p, calls).Some? && p.isStopped && p.cpu.NoFrame?
    ensures After(p, calls).value.isStopped
    ensures |calls| <= One(p.held.Some?) && forall e <- calls :: e.Released?
    ensures After(p, calls).value.held.Some? <==> p.held.Some? && calls == []
  {
    if calls != [] { StoppedStays(p, calls[..|calls| - 1]); }
  }

  /** Once told to stop the thread makes at most one more call: the release of the block it holds. */
  lemma OnlyReleasesAfterStop(before: seq<Event>, after: seq<Event>)
    requires Accepted(before + [Polled(false)] + after)
    ensures after == [] || after == [Released]
  {
    AfterBoth(START, before + [Polled(false)], after);
    AfterOne(START, before, Polled(false));
    StoppedStays(After(START, before + [Polled(false)]).value, after);
  }
}
