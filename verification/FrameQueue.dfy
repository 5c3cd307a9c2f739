/**
 FrameQueue and FramePtr as the objects they are.  An entry is known by its slot number,
 its reader count is a cell of `numReaders`.  Each locked method of the queue is proved to
 be the step of FramePool with the same name.
 */
module FrameQueues {
  import opened Wrappers
  import FramePool

  class FrameQueue {
    const numReaders: array<int>
    var idleEntries: seq<nat>
    var readEntries: seq<nat>

    ghost function View(): FramePool.Pool
      reads this, numReaders
    {
      FramePool.Pool(idleEntries, readEntries, numReaders[..])
    }

    /** Every entry of the lists is one the queue was built with. */
    ghost predicate Valid()
      reads this, numReaders
    {
      FramePool.InRange(View())
    }

    constructor (numFrames: nat)
      ensures Valid() && View() == FramePool.NewPool(numFrames)
      ensures fresh(numReaders)
    {
      numReaders := new int[numFrames](_ => 0);
      var entries: seq<nat> := [];
      for i := 0 to numFrames
        invariant entries == seq(i, k => k)
      {
        entries := entries + [i];
      }
      idleEntries := entries;
      readEntries := [];
      new;
      assert numReaders[..] == seq(numFrames, _ => 0);
    }

    method AcquireRead() returns (entry: Option<nat>)
      requires Valid()
      modifies numReaders
      ensures Valid() && View() == FramePool.AcquireRead(old(View()))
      ensures entry == FramePool.Newest(old(View()))
    {
      if readEntries == [] {
        return None;
      }
      var newest := readEntries[|readEntries| - 1];
      numReaders[newest] := numReaders[newest] + 1;
      return Some(newest);
    }

    method ReleaseRead(frame: nat)
      requires Valid()
      modifies this, numReaders
      ensures Valid() && View() == FramePool.ReleaseRead(old(View()), frame)
    {
      for i := 0 to |readEntries|
        invariant Valid() && View() == old(View())
        invariant frame !in readEntries[..i]
      {
        if readEntries[i] == frame {
          FindAt(readEntries, frame, i);
          numReaders[frame] := numReaders[frame] - 1;
          if |readEntries| > 1 && numReaders[frame] <= 0 {
            idleEntries := idleEntries + [readEntries[i]];
            readEntries := readEntries[..i] + readEntries[i + 1..];
          }
          return;
        }
      }
      assert readEntries[..|readEntries|] == readEntries;
    }

    method AcquireWrite() returns (entry: Option<nat>)
      modifies this
      ensures View() == FramePool.AcquireWrite(old(View()))
      ensures entry == FramePool.TopIdle(old(View()))
      ensures old(Valid()) ==> Valid()
    {
      if |idleEntries| > 0 {
        entry := Some(idleEntries[|idleEntries| - 1]);
        idleEntries := idleEntries[..|idleEntries| - 1];
        return;
      }
      return None;
    }

    /** The backward loop shared by the two commits. */
    method RemoveStale()
      requires Valid()
      modifies this
      ensures Valid()
      ensures idleEntries == old(idleEntries) + FramePool.Stale(old(readEntries), numReaders[..])
      ensures readEntries == FramePool.Live(old(readEntries), numReaders[..])
    {
      ghost var p := View();
      var i := |readEntries| - 1;
      assert p.read[..i + 1] == p.read;
      while i >= 0
        invariant Valid() && SortedOut(p, i + 1, idleEntries, readEntries)
      {
        SortOutStep(p, i, idleEntries, readEntries);
        if numReaders[readEntries[i]] <= 0 {
          idleEntries := idleEntries + [readEntries[i]];
          readEntries := readEntries[..i] + readEntries[i + 1..];
        }
        i := i - 1;
      }
    }

    method CommitWrite(frameEntry: nat)
      requires Valid() && frameEntry < numReaders.Length
      modifies this
      ensures Valid() && View() == FramePool.CommitWrite(old(View()), frameEntry)
    {
      RemoveStale();
      readEntries := readEntries + [frameEntry];
    }

    method CommitWriteAndAcquireRead(frameEntry: nat) returns (ok: bool)
      requires Valid() && frameEntry < numReaders.Length
      modifies this, numReaders
      ensures Valid() && ok
      ensures View() == FramePool.CommitWriteAndAcquireRead(old(View()), frameEntry)
    {
      RemoveStale();
      readEntries := readEntries + [frameEntry];
      numReaders[frameEntry] := numReaders[frameEntry] + 1;
      return true;
    }

    method RescindWrite(frameEntry: nat)
      requires Valid() && frameEntry < numReaders.Length
      modifies this
      ensures Valid() && View() == FramePool.RescindWrite(old(View()), frameEntry)
    {
      idleEntries := idleEntries + [frameEntry];
    }
  }

  /** The lists `idle` and `read` made from a pool `p` whose entries from `i` on have been sorted out. */
  predicate SortedOut(p: FramePool.Pool, i: int, idle: seq<nat>, read: seq<nat>)
    requires FramePool.InRange(p)
  {
    && 0 <= i <= |p.read| && i <= |read|
    && read[..i] == p.read[..i]
    && idle + FramePool.Stale(p.read[..i], p.readers) == p.idle + FramePool.Stale(p.read, p.readers)
    && FramePool.Live(p.read[..i], p.readers) + read[i..] == FramePool.Live(p.read, p.readers)
  }

  lemma SortOutStep(p: FramePool.Pool, i: nat, idle: seq<nat>, read: seq<nat>)
    requires FramePool.InRange(p) && SortedOut(p, i + 1, idle, read)
    ensures read[i] == p.read[i]
    ensures if p.readers[read[i]] <= 0 then SortedOut(p, i, idle + [read[i]], read[..i] + read[i + 1..])
            else SortedOut(p, i, idle, read)
  {
    assert p.read[..i + 1][..i] == p.read[..i];
    assert read[i] == read[..i + 1][i] == p.read[..i + 1][i];
    assert read[..i] == read[..i + 1][..i] == p.read[..i];
    assert read[i..] == [read[i]] + read[i + 1..];
    assert (read[..i] + read[i + 1..])[i..] == read[i + 1..];
  }

  lemma {:induction false} FindAt(s: seq<nat>, x: nat, i: nat)
    requires i < |s| && s[i] == x && x !in s[..i]
    ensures FramePool.Find(s, x) == i
  {
  }

  /**
   A scoped handle.  `Debt` is the queue event its destruction performs: a write handle is
   rescinded, a read handle dropped, and a handle that was used up owes nothing.
   */
  class FramePtr {
    var queue: FrameQueue?
    var entry: Option<nat>
    var isWrite: bool

    ghost predicate Valid()
      reads this, queue, if queue == null then {} else {queue.numReaders}
    {
      && (queue != null && entry.Some? ==> queue.Valid() && entry.value < queue.numReaders.Length)
      && (isWrite && entry.Some? ==> queue != null)
    }

    ghost function Debt(): Option<FramePool.Event>
      reads this
    {
      if queue == null || entry.None? then None
      else if isWrite then Some(FramePool.Rescind(entry.value))
      else Some(FramePool.DropRead(entry.value))
    }

    constructor (queue: FrameQueue?, entry: Option<nat>, isWrite: bool)
      requires queue != null && entry.Some? ==> queue.Valid() && entry.value < queue.numReaders.Length
      requires isWrite && entry.Some? ==> queue != null
      ensures Valid() && this.queue == queue && this.entry == entry && this.isWrite == isWrite
    {
      this.queue, this.entry, this.isWrite := queue, entry, isWrite;
    }

    method Destroy()
      requires Valid()
      modifies queue, if queue == null then {} else {queue.numReaders}
      ensures old(Debt()).Some? ==>
                queue.View() == match old(Debt()).value
                                case Rescind(s) => FramePool.RescindWrite(old(queue.View()), s)
                                case DropRead(s) => FramePool.ReleaseRead(old(queue.View()), s)
                                case _ => old(queue.View())
      ensures queue != null && old(Debt()).None? ==> queue.View() == old(queue.View())
    {
      if queue != null && entry.Some? {
        if isWrite {
          queue.RescindWrite(entry.value);
        } else {
          queue.ReleaseRead(entry.value);
        }
      }
    }

    method CommitWrite()
      requires Valid()
      modifies this, queue
      ensures Valid()
      ensures old(isWrite && entry.Some?) ==>
                && Debt() == None
                && old(queue).View() == FramePool.CommitWrite(old(queue.View()), old(entry).value)
      ensures !old(isWrite && entry.Some?) ==>
                && Debt() == old(Debt()) && queue == old(queue)
                && (queue != null ==> queue.View() == old(queue.View()))
    {
      if entry.Some? && isWrite {
        queue.CommitWrite(entry.value);
        queue := null;
        entry := None;
      }
    }

    method CommitWriteAndAcquireRead() returns (ok: bool)
      requires Valid()
      modifies this, queue, if queue == null then {} else {queue.numReaders}
      ensures Valid() && queue == old(queue) && entry == old(entry)
      ensures ok == old(isWrite && entry.Some?)
      ensures ok ==>
                && Debt() == Some(FramePool.DropRead(entry.value))
                && queue.View() == FramePool.CommitWriteAndAcquireRead(old(queue.View()), entry.value)
      ensures !ok ==> Debt() == old(Debt()) && (queue != null ==> queue.View() == old(queue.View()))
    {
      if entry.Some? && isWrite {
        isWrite := false;
        var _ := queue.CommitWriteAndAcquireRead(entry.value);
        return true;
      }
      return false;
    }

    /** Detaches the handle: the read has to be released by hand. */
    method AcquireManualRead() returns (frame: Option<nat>)
      modifies this
      ensures frame == old(entry)
      ensures Debt() == None
    {
      if entry.None? {
        return None;
      }
      frame := entry;
      queue := null;
      entry := None;
    }
  }
}
