/** ARC as the manager's policy: its lists are the policy's state, and its list invariant is part of the
    state's type, so that it holds in every run of the manager. */
module ArcPolicy {
  import opened Prelude
  import opened Frames
  import opened MemoryModel
  import opened Runs
  import opened Coherence
  import Arc
  import Policies

  type ArcState = s: Arc.Lists | Arc.Invariant(s)
    ghost witness (Arc.NewInvariant(0); Arc.New(0))

  function Choose(s: ArcState, frames: seq<Frame>, ids: seq<nat>): (r: Selection<ArcState>)
    ensures FrameList(frames, ids) ==> LawfulSelection(frames, ids, r)
  {
    if FrameList(frames, ids) then
      var list := Policies.Listed(frames, ids);
      Arc.SelectInvariant(s, list);
      Arc.SelectContract(s, list);
      var (r, victim) := Arc.Select(s, list);
      var chosen := if victim.Some? then Some(ids[victim.value]) else None;
      assert LawfulSelection(frames, ids, Selection(chosen, r, frames)) by {
        Policies.ContractIsLawful(frames, ids, victim, list, r);
        Policies.WriteBackSame(frames, ids);
      }
      Selection(chosen, r, frames)
    else Selection(None, s, frames)
  }

  function Accessed(s: ArcState, page: nat): ArcState {
    Arc.AccessInvariant(s, page);
    Arc.OnAccess(s, page)
  }

  function Faulted(s: ArcState, page: nat): ArcState {
    Arc.FaultInvariant(s, page);
    Arc.OnFault(s, page)
  }

  function Start(c: nat): ArcState {
    Arc.NewInvariant(c);
    Arc.New(c)
  }

  ghost function ArcPolicy(): (p: Policy<ArcState>)
    ensures Lawful(p)
  {
    Policy(
      (s: ArcState, fs: seq<Frame>, ids: seq<nat>, now: int) => Choose(s, fs, ids),
      (s: ArcState, i: nat, f: Frame, write: bool, now: int) => (Accessed(s, f.pageId), f.Access(write, now)),
      (s: ArcState, i: nat, f: Frame, now: int) => (Faulted(s, f.pageId), f.Access(false, now)),
      (s: ArcState, i: nat, f: Frame) => (s, f),
      (s: ArcState) => None,
      (s: ArcState) => Start(s.c))
  }

  /** Under ARC, in every run without forks and huge pages: the views of the mapping agree, and ARC's lists
      are within their bounds, with every key in one place. */
  lemma ArcInEveryManagerRun(numFrames: nat, ops: seq<Op>, times: seq<int>)
    requires |times| == |ops| && Forkless(ops)
    ensures var m := History(ArcPolicy(), Start(numFrames), numFrames, ops, times);
            var s: Arc.Lists := m.policy;
            Coherent(m) && Arc.Invariant(s)
  {
    CoherentInEveryRun(ArcPolicy(), Start(numFrames), numFrames, ops, times);
  }
}
