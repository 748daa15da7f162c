/** Runs of the manager: any sequence of its operations from a fresh start. Failed operations are part
    of a run and do not stop it. */
module Runs {
  import opened Prelude
  import opened Frames
  import opened MemoryModel

  datatype Op =
    | Spawn(pid: Pid)
    | Touch(pid: Pid, v: nat, write: bool)
    | Kill(pid: Pid)
    | ForkTo(parent: Pid, child: Pid)
    | HugeMap(pid: Pid, index: nat)
    | SetPin(frame: nat, on: bool)
    | ResetAll
    | SetNuma(on: bool) | SetCompression(on: bool) | SetClustering(on: bool)

  /** Pin and Unpin, for a frame had from GetFrame. */
  function PinFrame<S>(m: Mem<S>, i: nat, on: bool): Outcome<S> {
    if i < |m.frames| then Outcome(true, m.(frames := m.frames[i := m.frames[i].SetPinned(on)]))
    else Outcome(false, m)
  }

  ghost function Perform<S(!new)>(pol: Policy<S>, m: Mem<S>, op: Op, now: int): Outcome<S>
    requires Lawful(pol)
  {
    match op
    case Spawn(pid) => Create(m, pid)
    case Touch(pid, v, write) => Access(pol, m, pid, v, write, now)
    case Kill(pid) => Remove(m, pid)
    case ForkTo(parent, child) => Fork(m, parent, child)
    case HugeMap(pid, index) => MapHuge(pol, m, pid, index, now)
    case SetPin(i, on) => PinFrame(m, i, on)
    case ResetAll => Outcome(true, Reset(m, pol.reset(m.policy)))
    case SetNuma(on) => Outcome(true, m.(numa := on))
    case SetCompression(on) => Outcome(true, m.(compression := on))
    case SetClustering(on) => Outcome(true, m.(clustering := on))
  }

  /** The state after a run whose k-th operation happens at time times[k]. */
  ghost function History<S(!new)>(pol: Policy<S>, start: S, numFrames: nat, ops: seq<Op>, times: seq<int>): Mem<S>
    requires Lawful(pol) && |times| == |ops|
  {
    if ops == [] then Boot(numFrames, start)
    else
      var n := |ops| - 1;
      Perform(pol, History(pol, start, numFrames, ops[..n], times[..n]), ops[n], times[n]).mem
  }

  /** One more operation. */
  lemma HistorySnoc<S(!new)>(pol: Policy<S>, start: S, numFrames: nat, ops: seq<Op>, times: seq<int>, op: Op, now: int)
    requires Lawful(pol) && |times| == |ops|
    ensures History(pol, start, numFrames, ops + [op], times + [now])
            == Perform(pol, History(pol, start, numFrames, ops, times), op, now).mem
  {
    hide Perform, Lawful;
    assert (ops + [op])[..|ops|] == ops && (times + [now])[..|times|] == times;
  }

  /** A reset is a fresh start with the settings, the pins, the numbering of copies and the policy's state as they
      are. */
  lemma ResetIsFreshStart<S>(m: Mem<S>, policy: S)
    ensures var r, b := Reset(m, policy), Boot(|m.frames|, policy);
            && r == b.(frames := r.frames, cow := r.cow, numa := m.numa, compression := m.compression,
                       clustering := m.clustering)
            && r.cow == b.cow.(nextId := m.cow.nextId)
            && |r.frames| == |b.frames|
            && forall i :: 0 <= i < |b.frames| ==> r.frames[i] == b.frames[i].SetPinned(m.frames[i].pinned)
  {
  }

  /** A run without forks and huge pages. */
  ghost predicate Forkless(ops: seq<Op>) {
    forall k :: 0 <= k < |ops| ==> !ops[k].ForkTo? && !ops[k].HugeMap?
  }
}
