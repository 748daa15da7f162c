/** Physical frames (pkg/models/frame.go): a frame is a record that an allocation, an access,
    an eviction or a policy replaces in the frame table. */
module Frames {
  import opened Prelude

  datatype Frame = Frame(
    pageId: nat, processId: Pid,
    free: bool, pinned: bool, modified: bool,
    loadedAt: int, lastAccess: int, accessCount: int, referenceBit: bool)
  {
    predicate Evictable() {
      !free && !pinned
    }

    function Allocate(page: nat, pid: Pid, now: int): Frame {
      Frame(page, pid, false, pinned, false, now, now, 0, true)
    }

    function Release(): Frame {
      Frame(0, "", true, pinned, false, 0, 0, 0, false)
    }

    function Access(write: bool, now: int): Frame {
      this.(lastAccess := now, accessCount := accessCount + 1, referenceBit := true,
            modified := modified || write)
    }

    function SetPinned(on: bool): Frame {
      this.(pinned := on)
    }

    function ClearReferenceBit(): Frame {
      this.(referenceBit := false)
    }

    /** Same page tag and same free and pinned flags: all that a policy must leave alone. */
    predicate SameOwner(other: Frame) {
      && pageId == other.pageId
      && processId == other.processId
      && free == other.free
      && pinned == other.pinned
    }
  }

  const NEW_FRAME := Frame(0, "", true, false, false, 0, 0, 0, false)

  predicate InRange(frames: seq<Frame>, ids: seq<nat>) {
    forall k :: 0 <= k < |ids| ==> ids[k] < |frames|
  }

  /** A list of different frames of the table. */
  predicate FrameList(frames: seq<Frame>, ids: seq<nat>) {
    InRange(frames, ids) && Different(ids)
  }

  predicate Different(ids: seq<nat>) {
    forall j, k :: 0 <= j < k < |ids| ==> ids[j] != ids[k]
  }

  ghost predicate AnyEvictable(frames: seq<Frame>) {
    exists i :: 0 <= i < |frames| && frames[i].Evictable()
  }

  ghost predicate AllPinned(frames: seq<Frame>) {
    forall i :: 0 <= i < |frames| ==> !frames[i].free && frames[i].pinned
  }

  /** The contract every policy's victim choice meets: it fails exactly when no frame of the
      list is in use and unpinned, and otherwise answers such a frame. */
  ghost predicate VictimContract(frames: seq<Frame>, victim: Option<nat>) {
    match victim
    case Some(v) => v < |frames| && frames[v].Evictable()
    case None => !AnyEvictable(frames)
  }

  /** The first evictable frame of the list from i on. */
  function FirstEvictable(frames: seq<Frame>, i: nat): (r: Option<nat>)
    requires i <= |frames|
    ensures match r
            case Some(f) =>
              && i <= f < |frames| && frames[f].Evictable()
              && forall k :: i <= k < f ==> !frames[k].Evictable()
            case None => forall k :: i <= k < |frames| ==> !frames[k].Evictable()
    decreases |frames| - i
  {
    if i == |frames| then None
    else if frames[i].Evictable() then Some(i)
    else FirstEvictable(frames, i + 1)
  }

  method FindEvictable(frames: seq<Frame>) returns (r: Option<nat>)
    ensures r == FirstEvictable(frames, 0)
  {
    for k := 0 to |frames|
      invariant forall j :: 0 <= j < k ==> !frames[j].Evictable()
    {
      if !frames[k].free && !frames[k].pinned {
        return Some(k);
      }
    }
    return None;
  }

  ghost predicate SameOwners(a: seq<Frame>, b: seq<Frame>) {
    && |a| == |b|
    && forall i :: 0 <= i < |a| ==> a[i].SameOwner(b[i])
  }
}
