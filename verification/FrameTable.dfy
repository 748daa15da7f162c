/** The table of physical frames (internal/memory/frame.go): a fixed array whose frames are
    replaced in place. */
module FrameTable {
  import opened Prelude
  import opened Frames
  import opened MemoryModel

  class FrameTable {
    const frames: array<Frame>

    constructor (numFrames: nat)
      ensures fresh(frames) && frames[..] == seq(numFrames, _ => NEW_FRAME)
    {
      frames := new Frame[numFrames](_ => NEW_FRAME);
      new;
      assert frames[..] == seq(numFrames, _ => NEW_FRAME);
    }

    /** AllocateFrame: the first free frame of the table, if any, is given to the page. */
    method AllocateFrame(pageId: nat, pid: Pid, now: int) returns (r: Option<nat>)
      modifies frames
      ensures r == FirstFree(old(frames[..]), 0, frames.Length)
      ensures frames[..] == if r.Some?
                            then old(frames[..])[r.value := old(frames[..])[r.value].Allocate(pageId, pid, now)]
                            else old(frames[..])
    {
      r := AllocateFrameInRange(0, frames.Length, pageId, pid, now);
    }

    /** AllocateFrameInRange: an end beyond the table is the end of the table, and there is no frame between a
        start and an end that is not behind it. */
    method AllocateFrameInRange(start: nat, end: int, pageId: nat, pid: Pid, now: int) returns (r: Option<nat>)
      modifies frames
      ensures r == if start < end && start < frames.Length
                   then FirstFree(old(frames[..]), start, Min(end, frames.Length)) else None
      ensures frames[..] == if r.Some?
                            then old(frames[..])[r.value := old(frames[..])[r.value].Allocate(pageId, pid, now)]
                            else old(frames[..])
    {
      var stop := end;
      if stop > frames.Length {
        stop := frames.Length;
      }
      var i := start;
      while i < stop
        invariant frames[..] == old(frames[..])
        invariant start < stop ==> i <= stop && FirstFree(frames[..], start, stop) == FirstFree(frames[..], i, stop)
        invariant start >= stop ==> i == start
      {
        if frames[i].free {
          frames[i] := frames[i].Allocate(pageId, pid, now);
          return Some(i);
        }
        i := i + 1;
      }
      return None;
    }

    method ReleaseFrame(id: int) returns (ok: bool)
      modifies frames
      ensures ok == (0 <= id < frames.Length)
      ensures frames[..] == if ok then old(frames[..])[id := old(frames[..])[id].Release()] else old(frames[..])
    {
      if id < 0 || id >= frames.Length {
        return false;
      }
      frames[id] := frames[id].Release();
      return true;
    }

    /** Pin and Unpin, on the frame that GetFrame gives. */
    method SetPinned(id: int, on: bool) returns (ok: bool)
      modifies frames
      ensures ok == (0 <= id < frames.Length)
      ensures frames[..] == if ok then old(frames[..])[id := old(frames[..])[id].SetPinned(on)] else old(frames[..])
    {
      if id < 0 || id >= frames.Length {
        return false;
      }
      frames[id] := frames[id].SetPinned(on);
      return true;
    }

    method GetUsedFrames() returns (ids: seq<nat>)
      ensures ids == Used(frames[..])
    {
      ids := [];
      for i := 0 to frames.Length
        invariant ids == UsedUpTo(frames[..], i)
      {
        if !frames[i].free {
          ids := ids + [i];
        }
      }
    }

    method Clear()
      modifies frames
      ensures frames[..] == seq(frames.Length, i requires 0 <= i < frames.Length => old(frames[..])[i].Release())
    {
      for i := 0 to frames.Length
        invariant forall k :: 0 <= k < i ==> frames[k] == old(frames[k]).Release()
        invariant forall k :: i <= k < frames.Length ==> frames[k] == old(frames[k])
      {
        frames[i] := frames[i].Release();
      }
    }
  }
}
