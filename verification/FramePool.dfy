/**
 The pool of frame slots behind FrameQueue, as a value: every locked method is one atomic
 step on it.  `Ledger` adds what no field of the queue records, the outstanding handles
 and the order of commits, and is what the theorems are about.
 */
module FramePool {
  import opened Wrappers

  /** Idle slots (a stack), committed slots (oldest first), and the reader count of each slot. */
  datatype Pool = Pool(idle: seq<nat>, read: seq<nat>, readers: seq<int>)

  function NewPool(n: nat): Pool {
    Pool(seq(n, i => i), [], seq(n, _ => 0))
  }

  predicate InRange(p: Pool) {
    && (forall i :: 0 <= i < |p.idle| ==> p.idle[i] < |p.readers|)
    && (forall i :: 0 <= i < |p.read| ==> p.read[i] < |p.readers|)
  }

  function Find(s: seq<nat>, x: nat): (i: nat)
    ensures i <= |s|
    ensures i < |s| ==> s[i] == x
    ensures x !in s[..i]
  {
    if s == [] || s[0] == x then 0 else 1 + Find(s[1..], x)
  }

  /** The frame a reader would get. */
  function Newest(p: Pool): Option<nat> {
    if p.read == [] then None else Some(Last(p.read))
  }

  function AcquireRead(p: Pool): Pool
    requires InRange(p)
  {
    if p.read == [] then p else p.(readers := p.readers[Last(p.read) := p.readers[Last(p.read)] + 1])
  }

  function ReleaseRead(p: Pool, slot: nat): Pool
    requires InRange(p)
  {
    var i := Find(p.read, slot);
    if i == |p.read| then p
    else
      var count := p.readers[slot] - 1;
      if |p.read| > 1 && count <= 0 then
        Pool(p.idle + [slot], p.read[..i] + p.read[i + 1..], p.readers[slot := count])
      else
        p.(readers := p.readers[slot := count])
  }

  /** The slot a writer would get. */
  function TopIdle(p: Pool): Option<nat> {
    if p.idle == [] then None else Some(Last(p.idle))
  }

  function AcquireWrite(p: Pool): Pool {
    if p.idle == [] then p else p.(idle := p.idle[..|p.idle| - 1])
  }

  /** The committed slots nobody reads, newest first, as the backward loop finds them. */
  function Stale(read: seq<nat>, readers: seq<int>): seq<nat>
    requires forall i :: 0 <= i < |read| ==> read[i] < |readers|
  {
    if read == [] then []
    else (if readers[Last(read)] <= 0 then [Last(read)] else []) + Stale(read[..|read| - 1], readers)
  }

  /** The committed slots somebody reads, in their order. */
  function Live(read: seq<nat>, readers: seq<int>): seq<nat>
    requires forall i :: 0 <= i < |read| ==> read[i] < |readers|
  {
    if read == [] then []
    else Live(read[..|read| - 1], readers) + (if readers[Last(read)] <= 0 then [] else [Last(read)])
  }

  function CommitWrite(p: Pool, slot: nat): Pool
    requires InRange(p)
  {
    Pool(p.idle + Stale(p.read, p.readers), Live(p.read, p.readers) + [slot], p.readers)
  }

  function CommitWriteAndAcquireRead(p: Pool, slot: nat): Pool
    requires InRange(p) && slot < |p.readers|
  {
    var q := CommitWrite(p, slot);
    q.(readers := q.readers[slot := q.readers[slot] + 1])
  }

  function RescindWrite(p: Pool, slot: nat): Pool {
    p.(idle := p.idle + [slot])
  }

  /** Free slots are handed out again last in, first out; of the slots a commit frees, the oldest goes first. */
  lemma LastFreedIsNext(p: Pool, s: nat)
    requires InRange(p) && s < |p.readers|
    ensures TopIdle(RescindWrite(p, s)) == Some(s)
    ensures s in p.read && |p.read| > 1 && p.readers[s] <= 1 ==> TopIdle(ReleaseRead(p, s)) == Some(s)
    ensures p.read != [] && p.readers[p.read[0]] <= 0 ==> TopIdle(CommitWrite(p, s)) == Some(p.read[0])
  {
    if p.read != [] && p.readers[p.read[0]] <= 0 {
      OldestStaleIsLast(p.read, p.readers);
    }
    if s in p.read {
      assert p.read[..|p.read|] == p.read;
    }
  }

  lemma {:induction false} OldestStaleIsLast(read: seq<nat>, readers: seq<int>)
    requires forall i :: 0 <= i < |read| ==> read[i] < |readers|
    requires read != [] && readers[read[0]] <= 0
    ensures Stale(read, readers) != [] && Last(Stale(read, readers)) == read[0]
  {
    if |read| > 1 {
      OldestStaleIsLast(read[..|read| - 1], readers);
    }
  }

  // ----- Handles and commit stamps

  /**
   The pool together with its outstanding handles: `reading` has one entry per read
   handle, `writing` the slots held by a write handle.  `stamps` numbers the commits.
   */
  datatype Ledger = Ledger(pool: Pool, reading: multiset<nat>, writing: set<nat>, stamps: seq<nat>, clock: nat)

  function NewLedger(n: nat): Ledger {
    Ledger(NewPool(n), multiset{}, {}, seq(n, _ => 0), 0)
  }

  /** The slots of a queue of `n` frames. */
  function Slots(n: nat): (all: set<nat>)
    ensures forall s: nat :: s in all <==> s < n
    ensures |all| == n
  {
    if n == 0 then {} else Slots(n - 1) + {n - 1}
  }

  /** Idle, committed and write-held slots partition the slots the queue was built with. */
  ghost predicate Partition(l: Ledger) {
    multiset(l.pool.idle) + multiset(l.pool.read) + multiset(l.writing) == multiset(Slots(|l.pool.readers|))
  }

  ghost predicate CountsHandles(l: Ledger) {
    && (forall s: nat :: s < |l.pool.readers| ==> l.pool.readers[s] == l.reading[s])
    && (forall s :: s in l.reading ==> s in l.pool.read)
  }

  ghost predicate AllButNewestRead(l: Ledger) {
    forall i :: 0 <= i < |l.pool.read| - 1 ==> l.pool.read[i] in l.reading
  }

  ghost predicate CommitOrder(l: Ledger)
    requires WellTyped(l)
  {
    && Ascending(l.pool.read, l.stamps)
    && (forall i :: 0 <= i < |l.pool.read| ==> l.stamps[l.pool.read[i]] <= l.clock)
  }

  /** All slots mentioned are slots of the queue. */
  predicate WellTyped(l: Ledger) {
    && InRange(l.pool)
    && |l.stamps| == |l.pool.readers|
    && (forall s :: s in l.writing ==> s < |l.stamps|)
  }

  ghost predicate Consistent(l: Ledger) {
    WellTyped(l) && Partition(l) && CountsHandles(l) && AllButNewestRead(l) && CommitOrder(l)
  }

  datatype Event =
    | TakeRead
    | DropRead(slot: nat)
    | TakeWrite
    | Commit(slot: nat)
    | CommitAndRead(slot: nat)
    | Rescind(slot: nat)

  /** Handles are linear: only an outstanding one can be used up. */
  predicate Allowed(l: Ledger, e: Event) {
    match e
    case TakeRead => true
    case DropRead(s) => s in l.reading
    case TakeWrite => true
    case Commit(s) => s in l.writing
    case CommitAndRead(s) => s in l.writing
    case Rescind(s) => s in l.writing
  }

  function PoolAfter(l: Ledger, e: Event): Pool
    requires WellTyped(l) && Allowed(l, e)
  {
    match e
    case TakeRead => AcquireRead(l.pool)
    case DropRead(s) => ReleaseRead(l.pool, s)
    case TakeWrite => AcquireWrite(l.pool)
    case Commit(s) => CommitWrite(l.pool, s)
    case CommitAndRead(s) => CommitWriteAndAcquireRead(l.pool, s)
    case Rescind(s) => RescindWrite(l.pool, s)
  }

  function HandleOf(handle: Option<nat>): multiset<nat> {
    if handle.Some? then multiset{handle.value} else multiset{}
  }

  function ReadingAfter(l: Ledger, e: Event): multiset<nat> {
    match e
    case TakeRead => l.reading + HandleOf(Newest(l.pool))
    case DropRead(s) => l.reading - multiset{s}
    case CommitAndRead(s) => l.reading + multiset{s}
    case _ => l.reading
  }

  function WritingAfter(l: Ledger, e: Event): set<nat> {
    match e
    case TakeWrite =>
      if TopIdle(l.pool).Some? then l.writing + {TopIdle(l.pool).value} else l.writing
    case Commit(s) => l.writing - {s}
    case CommitAndRead(s) => l.writing - {s}
    case Rescind(s) => l.writing - {s}
    case _ => l.writing
  }

  /** Only a commit numbers a slot. */
  function Step(l: Ledger, e: Event): Ledger
    requires WellTyped(l) && Allowed(l, e)
  {
    var numbers := e.Commit? || e.CommitAndRead?;
    Ledger(PoolAfter(l, e), ReadingAfter(l, e), WritingAfter(l, e),
           if numbers then l.stamps[e.slot := l.clock + 1] else l.stamps,
           if numbers then l.clock + 1 else l.clock)
  }

  /** Every slot is in exactly one place, and in that place once. */
  lemma OnePlace(l: Ledger, s: nat)
    requires Partition(l)
    ensures multiset(l.pool.idle)[s] + multiset(l.pool.read)[s] + multiset(l.writing)[s]
            == (if s < |l.pool.readers| then 1 else 0)
    ensures s in l.writing ==> s < |l.pool.readers| && s !in l.pool.idle && s !in l.pool.read
    ensures s in l.pool.idle ==> s !in l.pool.read
  {
    var all := multiset(l.pool.idle) + multiset(l.pool.read) + multiset(l.writing);
    assert all[s] == multiset(Slots(|l.pool.readers|))[s];
  }

  lemma ReadIsDistinct(l: Ledger, i: nat, j: nat)
    requires Partition(l) && i < j < |l.pool.read|
    ensures l.pool.read[i] != l.pool.read[j]
  {
    var s := l.pool.read[i];
    if s == l.pool.read[j] {
      var r := l.pool.read;
      assert r == r[..j] + [r[j]] + r[j + 1..];
      assert s in r[..j];
      assert multiset(r)[s] >= 2;
      OnePlace(l, s);
    }
  }

  lemma {:induction false} StaleAndLive(read: seq<nat>, readers: seq<int>)
    requires forall i :: 0 <= i < |read| ==> read[i] < |readers|
    ensures multiset(Stale(read, readers)) + multiset(Live(read, readers)) == multiset(read)
    ensures forall s :: s in Stale(read, readers) <==> s in read && readers[s] <= 0
    ensures forall s :: s in Live(read, readers) <==> s in read && readers[s] > 0
  {
    if read != [] {
      var front := read[..|read| - 1];
      assert read == front + [Last(read)];
      StaleAndLive(front, readers);
    }
  }

  /** A sequence of slots ordered by the commit that filled them. */
  predicate Ascending(slots: seq<nat>, stamps: seq<nat>) {
    && (forall i :: 0 <= i < |slots| ==> slots[i] < |stamps|)
    && (forall i, j :: 0 <= i < j < |slots| ==> stamps[slots[i]] < stamps[slots[j]])
  }

  lemma AscendingAppend(slots: seq<nat>, x: nat, stamps: seq<nat>)
    requires Ascending(slots, stamps) && x < |stamps|
    requires forall i :: 0 <= i < |slots| ==> stamps[slots[i]] < stamps[x]
    ensures Ascending(slots + [x], stamps)
  {
  }

  /** Dropping the stale slots keeps the remaining ones in their order. */
  lemma {:induction false} LiveKeepsOrder(read: seq<nat>, readers: seq<int>, stamps: seq<nat>)
    requires |stamps| == |readers| && Ascending(read, stamps)
    ensures Ascending(Live(read, readers), stamps)
  {
    if read != [] {
      var front, x := read[..|read| - 1], Last(read);
      assert Ascending(front, stamps);
      LiveKeepsOrder(front, readers, stamps);
      StaleAndLive(front, readers);
      var live := Live(front, readers);
      forall i | 0 <= i < |live|
        ensures stamps[live[i]] < stamps[x]
      {
        assert live[i] in front;
      }
      AscendingAppend(live, x, stamps);
    }
  }

  lemma NewLedgerConsistent(n: nat)
    ensures Consistent(NewLedger(n)) && NewLedger(n).writing == {}
  {
    var p := NewPool(n);
    CountDown(n);
    assert multiset(NewLedger(n).writing) == multiset{};
  }

  lemma {:induction false} CountDown(n: nat)
    ensures multiset(seq(n, i => i)) == multiset(Slots(n))
  {
    if n > 0 {
      CountDown(n - 1);
      assert seq(n, i => i) == seq(n - 1, i => i) + [n - 1];
    }
  }

  // ----- Every step keeps the ledger consistent

  lemma PartitionIsWellTyped(l: Ledger)
    requires Partition(l) && |l.stamps| == |l.pool.readers|
    ensures WellTyped(l)
  {
    forall i | 0 <= i < |l.pool.idle| ensures l.pool.idle[i] < |l.stamps| {
      OnePlace(l, l.pool.idle[i]);
    }
    forall i | 0 <= i < |l.pool.read| ensures l.pool.read[i] < |l.stamps| {
      OnePlace(l, l.pool.read[i]);
    }
    forall s | s in l.writing ensures s < |l.stamps| {
      OnePlace(l, s);
    }
  }

  lemma TakeReadKeeps(l: Ledger)
    requires Consistent(l)
    ensures Consistent(Step(l, TakeRead))
  {
    if l.pool.read != [] {
      var s, l' := Last(l.pool.read), Step(l, TakeRead);
      assert l'.reading == l.reading + multiset{s} && l'.pool.read == l.pool.read;
      assert l'.pool.readers == l.pool.readers[s := l.pool.readers[s] + 1];
    }
  }

  lemma TakeWriteKeeps(l: Ledger)
    requires Consistent(l)
    ensures Consistent(Step(l, TakeWrite))
  {
    var p := l.pool;
    if p.idle != [] {
      var s := Last(p.idle);
      OnePlace(l, s);
      assert p.idle == p.idle[..|p.idle| - 1] + [s];
      assert multiset(l.writing + {s}) == multiset(l.writing) + multiset{s};
    }
  }

  lemma RescindKeeps(l: Ledger, s: nat)
    requires Consistent(l) && s in l.writing
    ensures Consistent(Step(l, Rescind(s)))
  {
  }

  lemma CommitKeepsPartition(l: Ledger, s: nat)
    requires WellTyped(l) && Partition(l) && s in l.writing
    ensures Partition(Step(l, Commit(s)))
  {
    StaleAndLive(l.pool.read, l.pool.readers);
    assert multiset(l.writing) == multiset(l.writing - {s}) + multiset{s};
  }

  lemma CommitKeepsCounts(l: Ledger, s: nat)
    requires WellTyped(l) && CountsHandles(l) && s in l.writing
    ensures CountsHandles(Step(l, Commit(s))) && AllButNewestRead(Step(l, Commit(s)))
  {
    StaleAndLive(l.pool.read, l.pool.readers);
    var live := Live(l.pool.read, l.pool.readers);
    forall i | 0 <= i < |live|
      ensures live[i] in l.reading
    {
      assert live[i] in live;
    }
  }

  lemma CommitKeepsOrder(l: Ledger, s: nat)
    requires Consistent(l) && s in l.writing
    requires WellTyped(Step(l, Commit(s)))
    ensures CommitOrder(Step(l, Commit(s)))
  {
    var p := l.pool;
    var live := Live(p.read, p.readers);
    var stamps' := l.stamps[s := l.clock + 1];
    LiveKeepsOrder(p.read, p.readers, l.stamps);
    forall i | 0 <= i < |live|
      ensures live[i] != s && l.stamps[live[i]] <= l.clock
    {
      LiveIsRead(l, s, i);
    }
    assert Ascending(live, stamps');
    AscendingAppend(live, s, stamps');
  }

  lemma LiveIsRead(l: Ledger, s: nat, i: nat)
    requires Consistent(l) && s in l.writing
    requires i < |Live(l.pool.read, l.pool.readers)|
    ensures var live := Live(l.pool.read, l.pool.readers);
            live[i] != s && live[i] < |l.stamps| && l.stamps[live[i]] <= l.clock
  {
    var live := Live(l.pool.read, l.pool.readers);
    StaleAndLive(l.pool.read, l.pool.readers);
    OnePlace(l, s);
    assert live[i] in live;
    assert live[i] in l.pool.read;
  }

  lemma CommitKeeps(l: Ledger, s: nat)
    requires Consistent(l) && s in l.writing
    ensures Consistent(Step(l, Commit(s)))
  {
    CommitKeepsPartition(l, s);
    PartitionIsWellTyped(Step(l, Commit(s)));
    CommitKeepsCounts(l, s);
    CommitKeepsOrder(l, s);
  }

  /** Committing and reading in one is a commit followed by a read of what was committed. */
  lemma CommitThenRead(l: Ledger, s: nat)
    requires WellTyped(l) && s in l.writing && WellTyped(Step(l, Commit(s)))
    ensures Step(Step(l, Commit(s)), TakeRead) == Step(l, CommitAndRead(s))
  {
    assert Last(Step(l, Commit(s)).pool.read) == s;
  }

  lemma CommitAndReadKeeps(l: Ledger, s: nat)
    requires Consistent(l) && s in l.writing
    ensures Consistent(Step(l, CommitAndRead(s)))
  {
    CommitKeeps(l, s);
    TakeReadKeeps(Step(l, Commit(s)));
    CommitThenRead(l, s);
  }

  /** A slot leaves the read list with its last reader, unless it is the only one there. */
  predicate Recycles(p: Pool, s: nat)
    requires InRange(p) && s < |p.readers|
  {
    |p.read| > 1 && p.readers[s] <= 1
  }

  lemma {:induction false} SplitAtFind(slots: seq<nat>, s: nat)
    requires s in slots
    ensures var i := Find(slots, s);
            i < |slots| && multiset(slots) == multiset(slots[..i] + slots[i + 1..]) + multiset{s}
  {
    var i := Find(slots, s);
    assert slots[..|slots|] == slots;
    var a, b := slots[..i], slots[i + 1..];
    assert slots == a + [s] + b;
    assert multiset(a + [s] + b) == multiset(a) + multiset{s} + multiset(b);
  }

  lemma DropReadKeepsPartition(l: Ledger, s: nat)
    requires WellTyped(l) && Partition(l) && s in l.reading && s in l.pool.read
    ensures Partition(Step(l, DropRead(s))) && WellTyped(Step(l, DropRead(s)))
  {
    SplitAtFind(l.pool.read, s);
    PartitionIsWellTyped(Step(l, DropRead(s)));
  }

  /** Where the elements of the read list are after slot `s` has lost a reader. */
  lemma ReadAfterDrop(l: Ledger, s: nat, k: nat)
    requires WellTyped(l) && s in l.reading && s in l.pool.read
    requires k < |Step(l, DropRead(s)).pool.read|
    ensures var j := if Recycles(l.pool, s) && k >= Find(l.pool.read, s) then k + 1 else k;
            && j < |l.pool.read|
            && Step(l, DropRead(s)).pool.read[k] == l.pool.read[j]
            && (Recycles(l.pool, s) ==> j != Find(l.pool.read, s))
  {
  }

  lemma OthersStayRead(l: Ledger, s: nat, x: nat)
    requires WellTyped(l) && s in l.reading && s in l.pool.read && x in l.pool.read
    requires Recycles(l.pool, s) ==> x != s
    ensures x in Step(l, DropRead(s)).pool.read
  {
  }

  lemma DropReadKeepsCounts(l: Ledger, s: nat)
    requires Consistent(l) && s in l.reading
    ensures CountsHandles(Step(l, DropRead(s)))
  {
    var l' := Step(l, DropRead(s));
    assert l'.pool.readers == l.pool.readers[s := l.pool.readers[s] - 1];
    assert l'.reading[s] == l.reading[s] - 1;
    forall x | x in l'.reading
      ensures x in l'.pool.read
    {
      assert x in l.reading;
      OthersStayRead(l, s, x);
    }
  }

  lemma DropReadKeepsReaders(l: Ledger, s: nat)
    requires Consistent(l) && s in l.reading
    ensures AllButNewestRead(Step(l, DropRead(s)))
  {
    var r, i := l.pool.read, Find(l.pool.read, s);
    var l' := Step(l, DropRead(s));
    forall k | 0 <= k < |l'.pool.read| - 1
      ensures l'.pool.read[k] in l'.reading
    {
      ReadAfterDrop(l, s, k);
      if Recycles(l.pool, s) {
        if k < i {
          ReadIsDistinct(l, k, i);
        } else {
          ReadIsDistinct(l, i, k + 1);
        }
      }
    }
  }

  lemma DropReadKeepsAscending(l: Ledger, s: nat, i: nat, j: nat)
    requires Consistent(l) && s in l.reading && i < j < |Step(l, DropRead(s)).pool.read|
    ensures var r' := Step(l, DropRead(s)).pool.read;
            r'[i] < |l.stamps| && r'[j] < |l.stamps| && l.stamps[r'[i]] < l.stamps[r'[j]] <= l.clock
  {
    ReadAfterDrop(l, s, i);
    ReadAfterDrop(l, s, j);
  }

  lemma DropReadKeepsOrder(l: Ledger, s: nat)
    requires Consistent(l) && s in l.reading
    requires WellTyped(Step(l, DropRead(s)))
    ensures CommitOrder(Step(l, DropRead(s)))
  {
    var r' := Step(l, DropRead(s)).pool.read;
    forall i, j | 0 <= i < j < |r'|
      ensures l.stamps[r'[i]] < l.stamps[r'[j]]
    {
      DropReadKeepsAscending(l, s, i, j);
    }
    forall i | 0 <= i < |r'|
      ensures l.stamps[r'[i]] <= l.clock
    {
      ReadAfterDrop(l, s, i);
    }
  }

  lemma DropReadKeeps(l: Ledger, s: nat)
    requires Consistent(l) && s in l.reading
    ensures Consistent(Step(l, DropRead(s)))
  {
    DropReadKeepsPartition(l, s);
    DropReadKeepsCounts(l, s);
    DropReadKeepsReaders(l, s);
    DropReadKeepsOrder(l, s);
  }

  /** The invariant of the queue under every interleaving: one atomic step at a time. */
  lemma StepKeepsConsistent(l: Ledger, e: Event)
    requires Consistent(l) && Allowed(l, e)
    ensures Consistent(Step(l, e))
  {
    match e
    case TakeRead => TakeReadKeeps(l);
    case DropRead(s) => DropReadKeeps(l, s);
    case TakeWrite => TakeWriteKeeps(l);
    case Commit(s) => CommitKeeps(l, s);
    case CommitAndRead(s) => CommitAndReadKeeps(l, s);
    case Rescind(s) => RescindKeeps(l, s);
  }

  lemma StepKeepsSlots(l: Ledger, e: Event)
    requires WellTyped(l) && Allowed(l, e)
    ensures |Step(l, e).stamps| == |l.stamps|
  {
  }

  /** A step does not renumber a slot that is being read. */
  lemma StampsOfReadSlots(l: Ledger, e: Event)
    requires Consistent(l) && Allowed(l, e)
    ensures |Step(l, e).stamps| == |l.stamps|
    ensures forall s :: s in l.reading ==> s < |l.stamps| && Step(l, e).stamps[s] == l.stamps[s]
  {
    forall s | s in l.reading
      ensures s < |l.stamps| && s !in l.writing
    {
      OnePlace(l, s);
    }
  }

  /** The ledgers in which the invariant holds; every step leads from one to another. */
  type SoundLedger = l: Ledger | Consistent(l) ghost witness (NewLedgerConsistent(0); NewLedger(0))

  function FreshLedger(n: nat): (l: SoundLedger)
    ensures l == NewLedger(n)
  {
    NewLedgerConsistent(n);
    NewLedger(n)
  }

  function Advance(l: SoundLedger, e: Event): (l': SoundLedger)
    requires Allowed(l, e)
    ensures l' == Step(l, e)
  {
    StepKeepsConsistent(l, e);
    Step(l, e)
  }

  predicate AllowedRun(l: Ledger, es: seq<Event>)
    decreases |es|
  {
    es == [] || (WellTyped(l) && Allowed(l, es[0]) && AllowedRun(Step(l, es[0]), es[1..]))
  }

  function Run(l: Ledger, es: seq<Event>): Ledger
    requires AllowedRun(l, es)
    decreases |es|
  {
    if es == [] then l else Run(Step(l, es[0]), es[1..])
  }

  /** Over any interleaving: no slot is lost or duplicated, and a committed frame stays readable. */
  lemma {:induction false} RunConserves(l: Ledger, es: seq<Event>)
    requires Consistent(l) && AllowedRun(l, es)
    ensures var l' := Run(l, es);
            && Consistent(l')
            && |l'.pool.readers| == |l.pool.readers|
            && |l'.pool.idle| + |l'.pool.read| + |l'.writing| == |l.pool.readers|
            && (l.pool.read != [] ==> Newest(l'.pool).Some?)
    decreases |es|
  {
    SlotsAreConserved(l);
    if es != [] {
      ReadStaysNonempty(l, es[0]);
      StepKeepsConsistent(l, es[0]);
      RunConserves(Step(l, es[0]), es[1..]);
    }
  }

  lemma {:induction false} RunExtends(l: Ledger, es: seq<Event>, e: Event)
    requires AllowedRun(l, es) && WellTyped(Run(l, es)) && Allowed(Run(l, es), e)
    ensures AllowedRun(l, es + [e]) && Run(l, es + [e]) == Step(Run(l, es), e)
    decreases |es|
  {
    if es == [] {
      assert [e][1..] == [];
    } else {
      assert (es + [e])[1..] == es[1..] + [e];
      RunExtends(Step(l, es[0]), es[1..], e);
    }
  }

  lemma DropReadLeavesNewest(l: Ledger, s: nat)
    requires WellTyped(l) && s in l.reading && s in l.pool.read
    ensures |Step(l, DropRead(s)).pool.read| == |l.pool.read| - (if Recycles(l.pool, s) then 1 else 0) > 0
  {
  }

  /** Once a frame has been committed there is always a frame to read. */
  lemma ReadStaysNonempty(l: Ledger, e: Event)
    requires Consistent(l) && Allowed(l, e)
    ensures l.pool.read != [] ==> Step(l, e).pool.read != []
    ensures (e.Commit? || e.CommitAndRead?) ==> Step(l, e).pool.read != []
  {
    match e
    case DropRead(s) => DropReadLeavesNewest(l, s);
    case _ =>
  }

  /** The number of the newest readable commit. */
  function NewestStamp(l: Ledger): nat
    requires WellTyped(l) && l.pool.read != []
  {
    l.stamps[Last(l.pool.read)]
  }

  lemma {:induction false} LastAfterDrop(l: Ledger, s: nat)
    requires WellTyped(l) && Partition(l) && s in l.reading && s in l.pool.read
    ensures var r, r' := l.pool.read, Step(l, DropRead(s)).pool.read;
            r' != [] && Last(r') == if Last(r) == s && Recycles(l.pool, s) then r[|r| - 2] else Last(r)
  {
    DropReadLeavesNewest(l, s);
    var r, r' := l.pool.read, Step(l, DropRead(s)).pool.read;
    var i := Find(r, s);
    ReadAfterDrop(l, s, |r'| - 1);
    if i < |r| - 1 {
      ReadIsDistinct(l, i, |r| - 1);
    }
  }

  lemma {:induction false} DropReadNewest(l: Ledger, s: nat)
    requires Consistent(l) && s in l.reading
    ensures var l' := Step(l, DropRead(s));
            && WellTyped(l') && l'.pool.read != []
            && (NewestStamp(l') < NewestStamp(l) <==> Last(l.pool.read) == s && Recycles(l.pool, s))
  {
    DropReadKeepsPartition(l, s);
    LastAfterDrop(l, s);
  }

  /**
   The newest readable frame gets older exactly when the last reader of the newest frame
   lets go of it while an older one is held.
   */
  lemma NewestGoesBackIff(l: Ledger, e: Event)
    requires Consistent(l) && Allowed(l, e) && l.pool.read != []
    ensures WellTyped(Step(l, e)) && Step(l, e).pool.read != []
    ensures NewestStamp(Step(l, e)) < NewestStamp(l)
            <==> e.DropRead? && e.slot == Last(l.pool.read) && Recycles(l.pool, e.slot)
  {
    StepKeepsConsistent(l, e);
    ReadStaysNonempty(l, e);
    if e.DropRead? {
      DropReadNewest(l, e.slot);
    }
  }

  /** One event leads from a ledger to another. */
  predicate Leads(l: Ledger, e: Event, l': Ledger) {
    WellTyped(l) && Allowed(l, e) && Step(l, e) == l'
  }

  lemma RunStarts(l: Ledger, e: Event, l': Ledger, rest: seq<Event>)
    requires Leads(l, e, l') && AllowedRun(l', rest)
    ensures AllowedRun(l, [e] + rest) && Run(l, [e] + rest) == Run(l', rest)
  {
    assert ([e] + rest)[1..] == rest;
  }

  lemma FirstIsTaken()
    ensures Leads(NewLedger(2), TakeWrite, Ledger(Pool([0], [], [0, 0]), multiset{}, {1}, [0, 0], 0))
  {
    assert NewPool(2).idle == [0, 1] && NewPool(2).readers == [0, 0];
  }

  lemma FirstIsHeld(l: Ledger)
    requires l == Ledger(Pool([0], [], [0, 0]), multiset{}, {1}, [0, 0], 0)
    ensures Leads(l, CommitAndRead(1), Ledger(Pool([0], [1], [0, 1]), multiset{1}, {}, [0, 1], 1))
  {
  }

  lemma SecondIsTaken(l: Ledger)
    requires l == Ledger(Pool([0], [1], [0, 1]), multiset{1}, {}, [0, 1], 1)
    ensures Leads(l, TakeWrite, Ledger(Pool([], [1], [0, 1]), multiset{1}, {0}, [0, 1], 1))
  {
  }

  lemma SecondIsHeld(l: Ledger)
    requires l == Ledger(Pool([], [1], [0, 1]), multiset{1}, {0}, [0, 1], 1)
    ensures Leads(l, CommitAndRead(0), Ledger(Pool([], [1, 0], [1, 1]), multiset{1, 0}, {}, [2, 1], 2))
  {
  }

  lemma SecondIsDropped(l: Ledger)
    requires l == Ledger(Pool([], [1, 0], [1, 1]), multiset{1, 0}, {}, [2, 1], 2)
    ensures Leads(l, DropRead(0), Ledger(Pool([0], [1], [0, 1]), multiset{1}, {}, [2, 1], 2))
  {
  }

  lemma TwoStart(l0: Ledger, e0: Event, l1: Ledger, e1: Event, l2: Ledger, rest: seq<Event>)
    requires Leads(l0, e0, l1) && Leads(l1, e1, l2) && AllowedRun(l2, rest)
    ensures var es := [e0] + ([e1] + rest); AllowedRun(l0, es) && Run(l0, es) == Run(l2, rest)
  {
    RunStarts(l1, e1, l2, rest);
    RunStarts(l0, e0, l1, [e1] + rest);
  }

  lemma FourStart(l0: Ledger, e0: Event, l1: Ledger, e1: Event, l2: Ledger, e2: Event, l3: Ledger, e3: Event,
                  l4: Ledger, rest: seq<Event>)
    requires Leads(l0, e0, l1) && Leads(l1, e1, l2) && Leads(l2, e2, l3) && Leads(l3, e3, l4)
    requires AllowedRun(l4, rest)
    ensures var es := [e0] + ([e1] + ([e2] + ([e3] + rest))); AllowedRun(l0, es) && Run(l0, es) == Run(l4, rest)
  {
    TwoStart(l2, e2, l3, e3, l4, rest);
    TwoStart(l0, e0, l1, e1, l2, [e2] + ([e3] + rest));
  }

  lemma InFours(e0: Event, e1: Event, e2: Event, e3: Event, rest: seq<Event>)
    ensures [e0, e1, e2, e3] + rest == [e0] + ([e1] + ([e2] + ([e3] + rest)))
  {
  }

  /**
   The newest readable frame does get older in a run of a queue with two slots: a reader
   holds the first frame, in slot 1, another takes the second, in slot 0, and returns it.
   */
  lemma NewestCanGoBack()
    ensures var es := [TakeWrite, CommitAndRead(1), TakeWrite, CommitAndRead(0)];
            && AllowedRun(NewLedger(2), es + []) && AllowedRun(NewLedger(2), es + [DropRead(0)])
            && var l, l' := Run(NewLedger(2), es + []), Run(NewLedger(2), es + [DropRead(0)]);
               && WellTyped(l) && l.pool.read != [] && NewestStamp(l) == 2
               && WellTyped(l') && l'.pool.read != [] && NewestStamp(l') == 1
  {
    var l1 := Ledger(Pool([0], [], [0, 0]), multiset{}, {1}, [0, 0], 0);
    var l2 := Ledger(Pool([0], [1], [0, 1]), multiset{1}, {}, [0, 1], 1);
    var l3 := Ledger(Pool([], [1], [0, 1]), multiset{1}, {0}, [0, 1], 1);
    var l4 := Ledger(Pool([], [1, 0], [1, 1]), multiset{1, 0}, {}, [2, 1], 2);
    var l5 := Ledger(Pool([0], [1], [0, 1]), multiset{1}, {}, [2, 1], 2);
    FirstIsTaken();
    FirstIsHeld(l1);
    SecondIsTaken(l2);
    SecondIsHeld(l3);
    SecondIsDropped(l4);
    InFours(TakeWrite, CommitAndRead(1), TakeWrite, CommitAndRead(0), []);
    InFours(TakeWrite, CommitAndRead(1), TakeWrite, CommitAndRead(0), [DropRead(0)]);
    FourStart(NewLedger(2), TakeWrite, l1, CommitAndRead(1), l2, TakeWrite, l3, CommitAndRead(0), l4, []);
    FourStart(NewLedger(2), TakeWrite, l1, CommitAndRead(1), l2, TakeWrite, l3, CommitAndRead(0), l4, [DropRead(0)]);
  }

  /** A slot handed to a writer is nobody else's: no reader holds it and no other writer does. */
  lemma WriterIsExclusive(l: Ledger, s: nat)
    requires Consistent(l) && TopIdle(l.pool) == Some(s)
    ensures s !in l.reading && s !in l.writing && s !in l.pool.read
    ensures s < |l.pool.readers| && l.pool.readers[s] == 0
  {
    OnePlace(l, s);
  }

  /** Idle and write-held slots have no reader. */
  lemma ReaderCounts(l: Ledger, s: nat)
    requires Consistent(l) && s < |l.pool.readers|
    ensures l.pool.readers[s] == l.reading[s]
    ensures s in l.pool.idle || s in l.writing ==> l.pool.readers[s] == 0
  {
    OnePlace(l, s);
  }

  // ----- How many slots can be busy

  function Elements(s: seq<nat>): set<nat> {
    set x | x in s
  }

  /** The slots some read handle refers to. */
  function Support(m: multiset<nat>): set<nat> {
    set s | s in m
  }

  lemma {:induction false} DistinctCardinality(s: seq<nat>)
    requires forall i, j :: 0 <= i < j < |s| ==> s[i] != s[j]
    ensures |Elements(s)| == |s|
  {
    if s != [] {
      var front := s[..|s| - 1];
      DistinctCardinality(front);
      assert s == front + [Last(s)];
      assert Elements(s) == Elements(front) + {Last(s)};
    }
  }

  lemma SubsetCardinality(a: set<nat>, b: set<nat>)
    requires a <= b
    ensures |a| <= |b|
  {
    assert b == a + (b - a);
  }

  /** Every committed slot but the newest is being read. */
  lemma ReadListIsBounded(l: Ledger)
    requires Consistent(l)
    ensures |l.pool.read| <= |Support(l.reading)| + 1
  {
    if l.pool.read != [] {
      var front := l.pool.read[..|l.pool.read| - 1];
      forall i, j | 0 <= i < j < |front|
        ensures front[i] != front[j]
      {
        ReadIsDistinct(l, i, j);
      }
      DistinctCardinality(front);
      SubsetCardinality(Elements(front), Support(l.reading));
    }
  }

  lemma SlotsAreConserved(l: Ledger)
    requires Consistent(l)
    ensures |l.pool.idle| + |l.pool.read| + |l.writing| == |l.pool.readers|
  {
    var n := |l.pool.readers|;
    assert |multiset(Slots(n))| == |Slots(n)|;
    assert |multiset(l.writing)| == |l.writing|;
    assert |multiset(l.pool.idle)| == |l.pool.idle| && |multiset(l.pool.read)| == |l.pool.read|;
    assert |multiset(l.pool.idle) + multiset(l.pool.read) + multiset(l.writing)|
           == |l.pool.idle| + |l.pool.read| + |l.writing|;
  }

  lemma {:induction false} SupportIsBounded(m: multiset<nat>)
    ensures |Support(m)| <= |m|
    decreases |m|
  {
    if m != multiset{} {
      var x :| x in m;
      var rest := m - multiset{x};
      SupportIsBounded(rest);
      SubsetCardinality(Support(m), Support(rest) + {x});
    }
  }

  /** A producer that holds no slot gets one whenever two slots more than the read handles exist. */
  lemma ProducerGetsSlot(l: Ledger)
    requires Consistent(l) && l.writing == {}
    requires |Support(l.reading)| + 1 < |l.pool.readers|
    ensures TopIdle(l.pool).Some?
  {
    ReadListIsBounded(l);
    SlotsAreConserved(l);
  }
}
