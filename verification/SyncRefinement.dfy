/**
 A sync as a run of the protocol of `SyncProtocol`: the steps a process has taken since it started, and what
 holds of the state directory after any number of them. `SyncRun` records the steps of a sync.
 */
module SyncRefinement {
  import opened Wrappers
  import opened SyncPlan
  import opened SyncProtocol

  /** No process is alive. */
  function Quiet(d: Disk): System {
    System(d, None, map[])
  }

  /** One process is alive, past the lock. */
  function At(d: Disk, p: nat, phase: Phase): System {
    System(d, Some(p), map[p := phase])
  }

  lemma RunNext(o: Oracle, s: System, steps: Trace, p: nat, a: Action)
    requires Run(o, s, steps).Some?
    ensures Run(o, s, steps + [(p, a)]) == Apply(o, Run(o, s, steps).value, p, a)
  {
    hide Apply;
    assert (steps + [(p, a)])[..|steps|] == steps;
  }

  /**
   These steps lead a process from `start` to this disk and phase, and what it finishes on the way is as
   trusted, provided that the steps are taken lawfully.
   */
  ghost predicate Follows(lawful: bool, o: Oracle, t: Trust, start: Disk, steps: Trace, d: Disk, p: nat, phase: Phase) {
    lawful ==> Run(o, Quiet(start), steps) == Some(At(d, p, phase)) && Trusted(o, t, Quiet(start), steps)
  }

  /** Can the process take this step, from one disk to the other? */
  ghost predicate Takes(o: Oracle, d: Disk, p: nat, phase: Phase, a: Action, e: Disk, next: Phase) {
    Apply(o, At(d, p, phase), p, a) == Some(At(e, p, next))
  }

  /** The files it finishes there are as trusted. */
  ghost predicate Finishing(o: Oracle, t: Trust, d: Disk, p: nat, phase: Phase, a: Action) {
    a.FinishFiles? && phase.Filling? && (phase.id, p) in d.temps ==> Finishes(o, t, phase.id, d.temps[(phase.id, p)].files)
  }

  lemma TrustedNext(o: Oracle, t: Trust, s: System, steps: Trace, p: nat, a: Action)
    requires Trusted(o, t, s, steps) && Run(o, s, steps).Some? && Kept(o, t, Run(o, s, steps).value, p, a)
    ensures Trusted(o, t, s, steps + [(p, a)])
  {
    hide Kept, Run;
    assert (steps + [(p, a)])[..|steps|] == steps;
  }

  lemma FollowsNext(lawful: bool, o: Oracle, t: Trust, start: Disk, steps: Trace, d: Disk, p: nat, phase: Phase, a: Action,
                    e: Disk, next: Phase)
    requires Follows(lawful, o, t, start, steps, d, p, phase)
    requires lawful ==> Takes(o, d, p, phase, a, e, next) && Finishing(o, t, d, p, phase, a)
    ensures Follows(lawful, o, t, start, steps + [(p, a)], e, p, next)
  {
    hide Apply, Run, Trusted, Finishes;
    if lawful {
      RunNext(o, Quiet(start), steps, p, a);
      TrustedNext(o, t, Quiet(start), steps, p, a);
    }
  }

  lemma MoveOnly(d: Disk, p: nat, phase: Phase, e: Disk, next: Phase)
    ensures Move(At(d, p, phase), p, next, e) == Some(At(e, p, next))
  {
    assert map[p := phase][p := next] == map[p := next];
  }

  /** The process starts and takes the lock. */
  lemma Enters(o: Oracle, t: Trust, d: Disk, p: nat)
    ensures Run(o, Quiet(d), [(p, Start), (p, Acquire)]) == Some(At(d, p, Locked))
    ensures Trusted(o, t, Quiet(d), [(p, Start), (p, Acquire)])
  {
    hide Trusted;
    var none: Trace := [];
    assert none + [(p, Start)] + [(p, Acquire)] == [(p, Start), (p, Acquire)];
    assert Trusted(o, t, Quiet(d), none) by { NoSteps(o, t, Quiet(d)); }
    RunNext(o, Quiet(d), none, p, Start);
    TrustedNext(o, t, Quiet(d), none, p, Start);
    RunNext(o, Quiet(d), none + [(p, Start)], p, Acquire);
    TrustedNext(o, t, Quiet(d), none + [(p, Start)], p, Acquire);
    assert map[][p := Starting] == map[p := Starting] && map[p := Starting][p := Locked] == map[p := Locked];
  }

  lemma NoSteps(o: Oracle, t: Trust, s: System)
    ensures Trusted(o, t, s, [])
  {
  }

  lemma Exits(o: Oracle, t: Trust, start: Disk, steps: Trace, d: Disk, p: nat, phase: Phase)
    requires Run(o, Quiet(start), steps) == Some(At(d, p, phase)) && Trusted(o, t, Quiet(start), steps)
    ensures Run(o, Quiet(start), steps + [(p, Exit)]) == Some(Quiet(d))
    ensures Trusted(o, t, Quiet(start), steps + [(p, Exit)])
  {
    hide Run, Trusted;
    RunNext(o, Quiet(start), steps, p, Exit);
    TrustedNext(o, t, Quiet(start), steps, p, Exit);
    assert map[p := phase] - {p} == map[];
  }

  // ----- wherever it stops -----

  /** After `k` steps the state directory is consistent, and what was complete at the start is still there. */
  ghost predicate SafeAfter(o: Oracle, t: Trust, start: Disk, steps: Trace, k: nat)
    requires k <= |steps|
  {
    var s := Run(o, Quiet(start), steps[..k]);
    s.Some? && Consistent(o, t, s.value.disk) && KeepsComplete(o, start, s.value.disk)
  }

  /** A run is safe wherever it is stopped. */
  lemma TraceSafe(o: Oracle, t: Trust, start: Disk, steps: Trace)
    requires RemovalSound(o) && Consistent(o, t, start)
    requires Run(o, Quiet(start), steps).Some? && Trusted(o, t, Quiet(start), steps)
    ensures forall k :: 0 <= k <= |steps| ==> SafeAfter(o, t, start, steps, k)
  {
    hide Run, RemovalSound, Complete, Consistent, KeepsComplete, Trusted;
    forall k | 0 <= k <= |steps| ensures SafeAfter(o, t, start, steps, k) {
      RunPrefix(o, t, Quiet(start), steps, k);
      RunSafe(o, t, Quiet(start), steps[..k]);
    }
  }
}
