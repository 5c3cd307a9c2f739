/**
 The loop that serves camera frames out of the block queue, against an environment that
 answers as it likes.  Every outside call goes through a method that is only callable when
 the discipline of BlockQueueProtocol allows it.
 */
module BlockQueueServer {
  import opened Wrappers
  import opened BlockQueueProtocol
  import opened BlockQueuePacing

  /** A block is offered with what could be read of it. */
  datatype QueueAnswer = NotAvailable | Error | Offer(sequence: Option<nat>, isStale: bool, bytes: Option<int>)

  /** A sequence number that cannot be read stays what it was, a size that cannot be read counts as none. */
  function AsRead(a: QueueAnswer, previous: nat): Block
    requires a.Offer?
  {
    Block(if a.sequence.Some? then a.sequence.value else previous, a.isStale,
          if a.bytes.Some? then a.bytes.value else 0)
  }

  datatype Wait = Stopped | Interrupted | GotFrame(block: Block)

  class Server {
    // What the environment will still answer. A script that has run out answers no,
    // and so any finite run of the loop is a run under some scripts.
    var runs: seq<bool>           // m_bRunThread
    var answers: seq<bool>        // the other yes-or-no questions
    var offers: seq<QueueAnswer>  // WaitAndAcquireReadOnlyBlock
    var rooms: seq<Option<nat>>   // the buffer sizes of the frames the CPU queue hands out

    ghost var run: SoundRun

    ghost function Now(): Protocol
      reads this
    {
      run.now
    }

    ghost function Pacing(): Pace
      reads this
    {
      run.pace
    }

    /** The event may come next. */
    ghost predicate May(e: Event)
      reads this
    {
      Next(Now(), e).Some? && Follow(Pacing(), e).Some?
    }

    /** The event has been added to the run. */
    twostate predicate Noted(e: Event)
      reads this
    {
      && run.calls == old(run).calls + [e]
      && Some(Now()) == Next(old(Now()), e) && Some(Pacing()) == Follow(old(Pacing()), e)
    }

    constructor (runs: seq<bool>, answers: seq<bool>, offers: seq<QueueAnswer>, rooms: seq<Option<nat>>)
      ensures run == Run([], START, FIRST)
    {
      this.runs, this.answers, this.offers, this.rooms := runs, answers, offers, rooms;
      run := Run([], START, FIRST);
    }

    ghost method Note(e: Event)
      requires May(e)
      modifies this`run
      ensures Noted(e)
    {
      run := Extended(run, e);
    }

    /** Reads m_bRunThread. */
    method IsRunning() returns (b: bool)
      requires May(Polled(true)) && May(Polled(false))
      modifies this`run, this`runs
      ensures Noted(Polled(b))
      ensures b == (old(runs) != [] && old(runs)[0])
      ensures |runs| <= |old(runs)| && (b ==> |runs| < |old(runs)|)
    {
      b := runs != [] && runs[0];
      if runs != [] { runs := runs[1..]; }
      Note(Polled(b));
    }

    /** Puts a question to the environment; the answer becomes an event. */
    method Ask(ghost yes: Event, ghost no: Event) returns (b: bool)
      requires May(yes) && May(no)
      modifies this`run, this`answers
      ensures b == (old(answers) != [] && old(answers)[0])
      ensures Noted(if b then yes else no)
    {
      b := answers != [] && answers[0];
      if answers != [] { answers := answers[1..]; }
      Note(if b then yes else no);
    }

    /** Reads m_bIsPaused and m_bUseBlockQueue, before the inner loop or in it. */
    method AskServing(inner: bool) returns (isPaused: bool, isUsing: bool)
      requires Rests(Now()) && !Now().isStopped
      requires if inner then Pacing().loop.Inside? && Pacing().color.Some? else Pacing().loop.Outside?
      modifies this`run, this`answers
      ensures isPaused == (old(answers) != [] && old(answers)[0])
      ensures isUsing == (|old(answers)| > 1 && old(answers)[1])
      ensures Noted(if inner then Rechecked(isPaused, isUsing) else Checked(isPaused, isUsing))
    {
      isPaused := answers != [] && answers[0];
      isUsing := |answers| > 1 && answers[1];
      answers := if |answers| > 1 then answers[2..] else [];
      Note(if inner then Rechecked(isPaused, isUsing) else Checked(isPaused, isUsing));
    }

    method AcquireBlock(previous: nat) returns (a: QueueAnswer)
      requires Rests(Now()) && !Now().isStopped && Pacing().loop.Due?
      modifies this`run, this`offers
      ensures a == if old(offers) == [] then NotAvailable else old(offers)[0]
      ensures a.NotAvailable? ==> Noted(Unavailable)
      ensures a.Error? ==> Noted(Failed)
      ensures a.Offer? ==> Noted(Acquired(AsRead(a, previous)))
      ensures a.Offer? ==>
                var read := AsRead(a, previous);
                && (a.sequence.Some? ==> read.sequence == a.sequence.value)
                && (a.sequence.None? ==> read.sequence == previous)
                && read.isStale == a.isStale && read.bytes == if a.bytes.Some? then a.bytes.value else 0
    {
      a := NotAvailable;
      if offers != [] { a, offers := offers[0], offers[1..]; }
      match a
      case NotAvailable => Note(Unavailable);
      case Error => Note(Failed);
      case Offer(_, _, _) => Note(Acquired(AsRead(a, previous)));
    }

    method AcquireCpuWrite() returns (room: Option<nat>)
      requires Next(Now(), CpuWrite(None)).Some? && !Pacing().loop.Due?
      modifies this`run, this`rooms
      ensures room == if old(rooms) == [] then None else old(rooms)[0]
      ensures Noted(CpuWrite(room))
    {
      room := None;
      if rooms != [] { room, rooms := rooms[0], rooms[1..]; }
      Note(CpuWrite(room));
    }

    /** The thread has returned: it was told to stop and holds nothing. */
    ghost predicate HasEnded()
      reads this
    {
      Rests(Now()) && Now().isStopped
    }

    /** One wait for a block: keeps one that is worth copying, and gives any other back. */
    method TryAcquire(isWaiting: bool, lastFrameSequence: nat, previous: nat)
      returns (block: Option<Block>, isWaitingForCamera: bool, frameSequence: nat)
      requires Now() == Idle(isWaiting, lastFrameSequence) && Pacing().loop.Due?
      modifies this`run, this`offers
      ensures Pacing() == Pace(0, Inside, old(Pacing().color))
      ensures block.Some? ==> IsUsable(block.value)
      ensures Now() == if block.Some? then Idle(isWaitingForCamera, lastFrameSequence).(held := block, isOwed := true)
                       else Idle(isWaitingForCamera, lastFrameSequence)
    {
      block, isWaitingForCamera, frameSequence := None, isWaiting, previous;
      var a := AcquireBlock(frameSequence);
      if a.NotAvailable? {
        isWaitingForCamera := true;
      } else if a.Offer? {
        var read := AsRead(a, frameSequence);
        frameSequence := read.sequence;
        if read.isStale {
          isWaitingForCamera := true;
        } else if read.bytes <= 0 {
        } else if isWaitingForCamera {
          return Some(read), isWaitingForCamera, frameSequence;
        } else if read.sequence != lastFrameSequence {
          return Some(read), isWaitingForCamera, frameSequence;
        }
        Note(Released);
      }
    }

    /** The inner loop: wait until a block is worth copying. */
    method WaitForFrame(isWaiting: bool, lastFrameSequence: nat) returns (w: Wait, isWaitingForCamera: bool)
      requires Now() == Idle(isWaiting, lastFrameSequence)
      requires Pacing().polls == 0 && Pacing().loop.Inside? && Pacing().color.Some?
      modifies this
      ensures |runs| <= |old(runs)|
      ensures w.Stopped? ==> HasEnded()
      ensures w.Interrupted? ==>
                && Now() == Idle(isWaitingForCamera, lastFrameSequence)
                && Pacing() == Pace(0, Outside, old(Pacing().color))
      ensures w.GotFrame? ==>
                && IsUsable(w.block) && Pacing() == Pace(0, Inside, old(Pacing().color))
                && Now() == Idle(isWaitingForCamera, lastFrameSequence).(held := Some(w.block), isOwed := true)
    {
      isWaitingForCamera := isWaiting;
      var frameSequence := 0;
      while true
        invariant Now() == Idle(isWaitingForCamera, lastFrameSequence)
        invariant Pacing().polls <= 1 && Pacing().loop.Inside? && Pacing().color == old(Pacing().color)
        invariant |runs| <= |old(runs)|
        decreases |runs|
      {
        var isRunning := IsRunning();
        if !isRunning { return Stopped, isWaitingForCamera; }
        var isPaused, isUsingBlockQueue := AskServing(true);
        if isPaused || !isUsingBlockQueue { return Interrupted, isWaitingForCamera; }

        var block;
        block, isWaitingForCamera, frameSequence := TryAcquire(isWaitingForCamera, lastFrameSequence, frameSequence);
        if block.Some? { return GotFrame(block.value), isWaitingForCamera; }
        isRunning := IsRunning();
        if !isRunning { return Stopped, isWaitingForCamera; }
      }
    }

    /** Copies the block of a frame into a free CPU frame and releases it, unless something is in the way. */
    method CopyBlock(block: Block, isWaiting: bool, last: nat) returns (isStopped: bool, isFilled: bool)
      requires IsUsable(block) && Now() == Idle(isWaiting, last).(held := Some(block), isOwed := true)
      requires !Pacing().loop.Due?
      modifies this
      ensures |runs| <= |old(runs)|
      ensures isStopped ==> HasEnded()
      ensures !isStopped ==> Pacing() == Pace(0, Outside, old(Pacing().color))
      ensures !isStopped ==>
                Now() == if isFilled then Idle(false, block.sequence).(cpu := Filled(block.sequence))
                         else Idle(isWaiting, last)
    {
      var isPosed := Ask(Posed(true), Posed(false));
      if !isPosed {
        Note(Released);
        return false, false;
      }
      var isRunning := IsRunning();
      if !isRunning {
        Note(Released);
        return true, false;
      }
      isFilled := FillFrame(block, isWaiting, last);
      return false, isFilled;
    }

    /** Copies the block, its pose being known, if the CPU queue has a free frame. */
    method FillFrame(block: Block, isWaiting: bool, last: nat) returns (isFilled: bool)
      requires IsUsable(block)
      requires Now() == Idle(isWaiting, last).(held := Some(block), isOwed := true, isPosed := true)
      requires Pacing().loop.Outside?
      modifies this`run, this`rooms
      ensures Pacing() == Pace(0, Outside, old(Pacing().color))
      ensures Now() == if isFilled then Idle(false, block.sequence).(cpu := Filled(block.sequence))
                       else Idle(isWaiting, last)
    {
      var room := AcquireCpuWrite();
      if room.None? {
        Note(Released);
        return false;
      }
      var size := room.value;
      if size < block.bytes { size := block.bytes; }
      Note(Copied(block.sequence, block.bytes, size));
      Note(Released);
      return true;
    }

    /** The color path: decode the frame into a texture of the GPU queue. The frame itself is only read. */
    method CopyCPUFrameToGPU(stamp: nat, last: nat)
      requires Now() == Idle(false, last).(cpu := Reading(stamp)) && Pacing().loop.Outside?
      modifies this`run, this`answers
      ensures Pacing() == old(Pacing()).(polls := 0)
      ensures Now() == Idle(false, last).(cpu := Reading(stamp), isOffered := true)
      ensures old(run).calls <= run.calls
    {
      var hasRenderer := Ask(RendererFound(true), RendererFound(false));
      if !hasRenderer { return; }
      var hasFrame := Ask(GpuWrite(true), GpuWrite(false));
      if hasFrame { DecodeFrame(stamp, last); }
    }

    /** Decodes into the texture held: it is committed under the frame's stamp, or rescinded by its handle. */
    method DecodeFrame(stamp: nat, last: nat)
      requires Now() == Idle(false, last).(cpu := Reading(stamp), gpu := Empty) && Pacing().loop.Outside?
      modifies this`run, this`answers
      ensures Pacing() == old(Pacing()).(polls := 0)
      ensures Now() == Idle(false, last).(cpu := Reading(stamp), isOffered := true)
      ensures old(run).calls <= run.calls
    {
      var isDecoded := Ask(Decoded(true), Decoded(false));
      if isDecoded {
        Note(GpuCommitted(stamp));
      } else {
        Note(GpuRescinded);
      }
    }

    /** Hands a filled frame to the CPU queue, by way of the GPU queue if its color is used. */
    method CommitFrame(sequence: nat, usesColor: bool)
      requires Now() == Idle(false, sequence).(cpu := Filled(sequence))
      requires Pacing().loop.Outside? && Pacing().color == Some(usesColor)
      modifies this`run, this`answers
      ensures Now() == Idle(false, sequence) && Pacing() == old(Pacing()).(polls := 0)
    {
      var stamp := Stamp(sequence);
      if usesColor {
        Note(CpuCommittedAndRead(stamp));
        CopyCPUFrameToGPU(stamp, sequence);
        Note(CpuReadDropped);
      } else {
        Note(CpuCommitted(stamp));
      }
    }

    /** The thread: whatever the environment answers, every call is allowed, and on return nothing is held. */
    method ServeBlockQueueFrames()
      requires run == Run([], START, FIRST)
      modifies this
      ensures HasEnded() && Accepted(run.calls) && IsPaced(run.calls)
      ensures Count(run.calls, IsAcquired) == Count(run.calls, IsReleased)
      ensures Count(run.calls, IsCpuGrant) == Count(run.calls, IsCpuCommit)
      ensures Count(run.calls, IsCpuRead) == Count(run.calls, IsCpuDrop)
      ensures Count(run.calls, IsGpuGrant) == Count(run.calls, IsGpuEnd)
    {
      ServeFrames();
      BlocksAlternate(run.calls);
      CpuHandlesAreConserved(run.calls);
      GpuHandlesAreConserved(run.calls);
    }

    /** One round of the thread in which it is not paused: waits for a frame and serves it. */
    method ServeOne(isWaiting: bool, last: nat)
      returns (isStopped: bool, isWaitingForCamera: bool, lastFrameSequence: nat)
      requires Now() == Idle(isWaiting, last) && Pacing() == Pace(0, Inside, None)
      modifies this
      ensures |runs| <= |old(runs)|
      ensures isStopped ==> HasEnded()
      ensures !isStopped ==>
                && Now() == Idle(isWaitingForCamera, lastFrameSequence)
                && Pacing().polls == 0 && Pacing().loop.Outside?
    {
      lastFrameSequence := last;
      var usesColor := Ask(ColorAsked(true), ColorAsked(false));
      var w;
      w, isWaitingForCamera := WaitForFrame(isWaiting, last);
      if w.Stopped? { return true, isWaitingForCamera, last; }
      if w.GotFrame? {
        var isFilled;
        isStopped, isFilled := CopyBlock(w.block, isWaitingForCamera, last);
        if isStopped { return; }
        if isFilled {
          isWaitingForCamera, lastFrameSequence := false, w.block.sequence;
          CommitFrame(w.block.sequence, usesColor);
        }
      }
      isStopped := false;
    }

    /** One round of the thread: serves a frame unless it is paused or the queue is not used. */
    method ServeRound(isWaiting: bool, last: nat)
      returns (isStopped: bool, isWaitingForCamera: bool, lastFrameSequence: nat)
      requires Now() == Idle(isWaiting, last) && Pacing().loop.Outside?
      modifies this
      ensures |runs| <= |old(runs)|
      ensures isStopped ==> HasEnded()
      ensures !isStopped ==>
                && Now() == Idle(isWaitingForCamera, lastFrameSequence)
                && Pacing().polls == 0 && Pacing().loop.Outside?
    {
      isStopped, isWaitingForCamera, lastFrameSequence := false, isWaiting, last;
      var isPaused, isUsingBlockQueue := AskServing(false);
      if !isPaused && isUsingBlockQueue {
        isStopped, isWaitingForCamera, lastFrameSequence := ServeOne(isWaiting, last);
      }
    }

    method ServeFrames()
      requires run == Run([], START, FIRST)
      modifies this
      ensures HasEnded()
    {
      var isWaitingForCamera, lastFrameSequence := true, 0;
      var isRunning := IsRunning();
      while isRunning
        invariant isRunning ==> Now() == Idle(isWaitingForCamera, lastFrameSequence)
        invariant isRunning ==> Pacing().polls == 1 && Pacing().loop.Outside?
        invariant !isRunning ==> HasEnded()
        decreases |runs|, isRunning
      {
        isRunning := IsRunning();
        if !isRunning { return; }
        var isStopped;
        isStopped, isWaitingForCamera, lastFrameSequence := ServeRound(isWaitingForCamera, lastFrameSequence);
        if isStopped { return; }
        isRunning := IsRunning();
      }
    }
  }
}
