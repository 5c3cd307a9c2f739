/**
 When the thread that serves camera frames looks for one: the order of its polls, of its
 questions whether it is paused, and of its waits for a block.
 */
module BlockQueuePacing {
  import opened Wrappers
  import opened BlockQueueProtocol

  /** Outside the inner loop, inside it, or inside it and bound to wait for a block next. */
  datatype Loop = Outside | Inside | Due

  datatype Pace = Pace(polls: nat, loop: Loop, color: Option<bool>)

  const FIRST := Pace(0, Outside, None)

  predicate IsAttempt(e: Event) {
    e.Unavailable? || e.Failed? || e.Acquired?
  }

  predicate Fits(p: Pace, e: Event) {
    && (p.loop.Due? ==> IsAttempt(e))
    && match e
       case Polled(_) => p.polls < 2
       case Checked(_, _) => p.loop.Outside?
       case ColorAsked(_) => p.loop.Inside? && p.color.None?
       case Rechecked(_, _) => p.loop.Inside? && p.color.Some?
       case Unavailable | Failed | Acquired(_) => p.loop.Due?
       case CpuCommitted(_) => p.color == Some(false)
       case CpuCommittedAndRead(_) => p.color == Some(true)
       case _ => true
  }

  function LoopAfter(loop: Loop, e: Event): Loop {
    match e
    case Checked(isPaused, isUsing) => if !isPaused && isUsing then Inside else Outside
    case Rechecked(isPaused, isUsing) => if !isPaused && isUsing then Due else Outside
    case Unavailable | Failed | Acquired(_) => Inside
    case Posed(_) => Outside
    case _ => loop
  }

  function Keep(p: Pace, e: Event): Pace {
    Pace(if e.Polled? then p.polls + 1 else 0, LoopAfter(p.loop, e),
         if e.Checked? then None else if e.ColorAsked? then Some(e.usesColor) else p.color)
  }

  function Follow(p: Pace, e: Event): Option<Pace> {
    if Fits(p, e) then Some(Keep(p, e)) else None
  }

  function PaceAfter(p: Pace, calls: seq<Event>): Option<Pace> {
    if calls == [] then Some(p)
    else
      match PaceAfter(p, calls[..|calls| - 1])
      case None => None
      case Some(q) => Follow(q, calls[|calls| - 1])
  }

  /** A run of calls that keeps the pace from the start. */
  predicate IsPaced(calls: seq<Event>) {
    PaceAfter(FIRST, calls).Some?
  }

  datatype Run = Run(calls: seq<Event>, now: Protocol, pace: Pace)

  /** A run of calls that were all allowed and in pace, with the states it led to. */
  type SoundRun = r: Run | After(START, r.calls) == Some(r.now) && PaceAfter(FIRST, r.calls) == Some(r.pace)
    witness Run([], START, FIRST)

  /** One more call, if it is allowed now. */
  function Extended(r: SoundRun, e: Event): (s: SoundRun)
    requires Next(r.now, e).Some? && Follow(r.pace, e).Some?
    ensures s.calls == r.calls + [e] && Some(s.now) == Next(r.now, e) && Some(s.pace) == Follow(r.pace, e)
  {
    AfterOne(START, r.calls, e);
    PaceOne(FIRST, r.calls, e);
    Run(r.calls + [e], Next(r.now, e).value, Follow(r.pace, e).value)
  }

  lemma PaceOne(p: Pace, calls: seq<Event>, e: Event)
    ensures PaceAfter(p, calls + [e])
            == match PaceAfter(p, calls) case None => None case Some(q) => Follow(q, e)
  {
    assert (calls + [e])[..|calls|] == calls;
  }

  lemma {:induction false} PaceBoth(p: Pace, a: seq<Event>, b: seq<Event>)
    ensures PaceAfter(p, a + b) == match PaceAfter(p, a) case None => None case Some(q) => PaceAfter(q, b)
  {
    if b == [] {
      assert a + b == a;
    } else {
      var front, e := b[..|b| - 1], b[|b| - 1];
      assert a + b == (a + front) + [e] && b == front + [e];
      PaceBoth(p, a, front);
      PaceOne(p, a + front, e);
    }
  }

  lemma {:induction false} DueAfterCheck(calls: seq<Event>)
    requires IsPaced(calls) && PaceAfter(FIRST, calls).value.loop.Due?
    ensures calls != [] && calls[|calls| - 1] == Rechecked(false, true)
  {
  }

  /** The thread waits for a block only right after it was told that it is not paused and that the queue is used. */
  lemma AttemptsFollowChecks(calls: seq<Event>, e: Event)
    requires IsPaced(calls + [e]) && (e.Unavailable? || e.Failed? || e.Acquired?)
    ensures calls != [] && calls[|calls| - 1] == Rechecked(false, true)
  {
    PaceOne(FIRST, calls, e);
    DueAfterCheck(calls);
  }

  /** And having been told so in the inner loop, it waits for a block and does nothing else. */
  lemma ChecksLeadToAttempts(calls: seq<Event>, e: Event)
    requires IsPaced(calls + [Rechecked(false, true)] + [e])
    ensures e.Unavailable? || e.Failed? || e.Acquired?
  {
    PaceOne(FIRST, calls + [Rechecked(false, true)], e);
    PaceOne(FIRST, calls, Rechecked(false, true));
  }

  lemma {:induction false} OutsideStays(p: Pace, calls: seq<Event>)
    requires PaceAfter(p, calls).Some? && p.loop.Outside? && forall e <- calls :: !e.Checked?
    ensures PaceAfter(p, calls).value.loop.Outside?
    ensures forall e <- calls :: !e.Rechecked? && !e.Unavailable? && !e.Failed? && !e.Acquired?
  {
    if calls != [] {
      var front, e := calls[..|calls| - 1], calls[|calls| - 1];
      assert calls == front + [e];
      OutsideStays(p, front);
    }
  }

  /** While it is paused, or the queue is not used, it leaves the queue alone until it asks again. */
  lemma PauseIsObeyed(before: seq<Event>, isPaused: bool, isUsing: bool, after: seq<Event>)
    requires IsPaced(before + [Checked(isPaused, isUsing)] + after) && (isPaused || !isUsing)
    requires forall e <- after :: !e.Checked?
    ensures forall e <- after :: !e.Unavailable? && !e.Failed? && !e.Acquired?
  {
    PaceBoth(FIRST, before + [Checked(isPaused, isUsing)], after);
    PaceOne(FIRST, before, Checked(isPaused, isUsing));
    OutsideStays(PaceAfter(FIRST, before + [Checked(isPaused, isUsing)]).value, after);
  }

  /** Inside the loop, the thread is still there until a pause question is denied or an acquired block is taken up. */
  lemma {:induction false} InsideUntil(p: Pace, calls: seq<Event>)
    requires PaceAfter(p, calls).Some? && p.loop.Inside?
    requires forall e <- calls :: !e.Unavailable? && !e.Failed? && !e.Acquired? && !e.Posed?
    requires forall e <- calls :: e.Rechecked? ==> !e.isPaused && e.isUsingBlockQueue
    ensures !PaceAfter(p, calls).value.loop.Outside?
  {
    if calls != [] {
      var front, e := calls[..|calls| - 1], calls[|calls| - 1];
      assert calls == front + [e];
      InsideUntil(p, front);
    }
  }

  /**
   Between two rounds of the outer loop of which the first was not paused, the thread has
   waited for a block, unless it was told in between that it is paused or the queue not used.
   No pose is asked for before a block has been acquired.
   */
  lemma UnpausedRoundsWait(before: seq<Event>, between: seq<Event>, isPaused: bool, isUsing: bool)
    requires var calls := before + [Checked(false, true)] + between + [Checked(isPaused, isUsing)];
             IsPaced(calls) && Accepted(calls)
    ensures exists e <- between :: || e.Unavailable? || e.Failed? || e.Acquired?
                                   || (e.Rechecked? && (e.isPaused || !e.isUsingBlockQueue))
  {
    var upTo := before + [Checked(false, true)];
    if forall e <- between :: !(e.Unavailable? || e.Failed? || e.Acquired?
                                || (e.Rechecked? && (e.isPaused || !e.isUsingBlockQueue))) {
      NoPoseBetween(before, between, Checked(isPaused, isUsing));
      PaceOne(FIRST, upTo + between, Checked(isPaused, isUsing));
      PaceBoth(FIRST, upTo, between);
      PaceOne(FIRST, before, Checked(false, true));
      InsideUntil(PaceAfter(FIRST, upTo).value, between);
      assert false;
    }
  }

  lemma NoPoseBetween(before: seq<Event>, between: seq<Event>, last: Event)
    requires Accepted(before + [Checked(false, true)] + between + [last]) && forall e <- between :: !e.Acquired?
    ensures forall e <- between :: !e.Posed?
  {
    var upTo := before + [Checked(false, true)];
    AfterOne(START, upTo + between, last);
    AfterBoth(START, upTo, between);
    AfterOne(START, before, Checked(false, true));
    HeldBlockWasAcquired(before);
    NothingOwed(After(START, upTo).value, between);
  }

  lemma OwedStep(p: Protocol, e: Event)
    requires Allowed(p, e) && !p.isOwed && !e.Acquired?
    ensures !Step(p, e).isOwed && !e.Posed?
  {
  }

  lemma {:induction false} NothingOwed(p: Protocol, calls: seq<Event>)
    requires After(p, calls).Some? && !p.isOwed && forall e <- calls :: !e.Acquired?
    ensures !After(p, calls).value.isOwed && forall e <- calls :: !e.Posed?
  {
    if calls != [] {
      var front, e := calls[..|calls| - 1], calls[|calls| - 1];
      assert calls == front + [e];
      NothingOwed(p, front);
      OwedStep(After(p, front).value, e);
    }
  }

  lemma PollIsCounted(calls: seq<Event>, b: bool)
    requires IsPaced(calls + [Polled(b)])
    ensures IsPaced(calls)
    ensures PaceAfter(FIRST, calls + [Polled(b)]).value.polls == PaceAfter(FIRST, calls).value.polls + 1
  {
    PaceOne(FIRST, calls, Polled(b));
  }

  /** It never polls the run flag three times without asking or doing anything else. */
  lemma PollsLeadOn(calls: seq<Event>, a: bool, b: bool, e: Event)
    requires IsPaced(calls + [Polled(a)] + [Polled(b)] + [e])
    ensures !e.Polled?
  {
    PaceOne(FIRST, calls + [Polled(a)] + [Polled(b)], e);
    PollIsCounted(calls + [Polled(a)], b);
    PollIsCounted(calls, a);
  }

  lemma {:induction false} ColorWasAsked(calls: seq<Event>)
    requires IsPaced(calls)
    ensures var color := PaceAfter(FIRST, calls).value.color;
            color.Some? ==>
              exists k :: 0 <= k < |calls| && calls[k] == ColorAsked(color.value)
                          && forall i :: k < i < |calls| ==> !calls[i].ColorAsked? && !calls[i].Checked?
  {
    if calls != [] {
      var front, e := calls[..|calls| - 1], calls[|calls| - 1];
      ColorWasAsked(front);
      var color := PaceAfter(FIRST, front).value.color;
      if e.ColorAsked? {
        assert calls[|front|] == ColorAsked(e.usesColor);
      } else if !e.Checked? && color.Some? {
        var k :| 0 <= k < |front| && front[k] == ColorAsked(color.value)
                 && forall i :: k < i < |front| ==> !front[i].ColorAsked? && !front[i].Checked?;
        assert calls[k] == ColorAsked(color.value);
      }
    }
  }

  /** A frame takes the color path exactly if the color setting read in its round says so. */
  lemma ColorFollowsSetting(calls: seq<Event>, e: Event)
    requires IsPaced(calls + [e]) && (e.CpuCommitted? || e.CpuCommittedAndRead?)
    ensures exists k :: 0 <= k < |calls| && calls[k] == ColorAsked(e.CpuCommittedAndRead?)
                        && forall i :: k < i < |calls| ==> !calls[i].ColorAsked? && !calls[i].Checked?
  {
    PaceOne(FIRST, calls, e);
    ColorWasAsked(calls);
  }
}
