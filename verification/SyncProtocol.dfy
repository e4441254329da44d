/**
 arcana/src/cli_sync.rs, cli_sync_build.rs and cli_sync_state.rs: publication as a protocol.

 Any number of processes run syncs over one state directory. A step is one process doing one thing to
 the disk, so a process may stop between any two of its steps: `Exit` is a crash as well as an error
 return, and the kernel then drops its lock. Removing and writing a directory take many steps. The main
 results: at most one process is past the lock, no step touches a complete generation, `CURRENT` names a
 complete one if what the writers finish opens, and when a sync recovers from a state left behind. That the
 writers keep their contract is a hypothesis on a run, not a part of its steps.
 */
module SyncProtocol {
  import opened Wrappers
  import opened Lexicon
  import opened SnapshotManifest
  import opened SyncPlan
  import opened StoreContents
  import BaseStore
  import SnapshotLoad

  datatype Phase =
    | Starting
    | Locked
    | Reading(id: Text)
    | RemovingOutput(id: Text)
    | RemovingTemp(id: Text)
    | Filling(id: Text)
    | Discarding(id: Text)
    | Filled(id: Text)
    | Marked(id: Text)
    | InPlace(id: Text)
    | Staging(id: Text)
    | Staged(id: Text)
    | Finished

  datatype System = System(disk: Disk, lock: Option<nat>, procs: map<nat, Phase>)

  datatype Action =
    | Start | Acquire | Refuse | Exit
    | ReadLexicon(id: Text)
    | Keep | Replace | Build
    | ShrinkOutput(rest: Generation) | RemoveOutput
    | ShrinkTemp(rest: Generation) | RemoveTemp | CreateTemp
    | WriteFiles(files: RepositoryFiles) | Abandon | FinishFiles
    | WriteMarker(text: Text) | FinishMarker | WriteWarnings(text: Text) | Rename
    | Stage | StageTaken | WritePending(text: Text) | FinishPending | ReplaceCurrent

  const EMPTY_DISK := Disk(map[], map[], None, map[])
  const INITIAL := System(EMPTY_DISK, None, map[])

  predicate Within(part: RepositoryFiles, whole: RepositoryFiles) {
    forall name :: name in part ==> name in whole && part[name] == whole[name]
  }

  /** What is left of a directory some entries of which are gone. */
  predicate Shrinks(rest: Generation, g: Generation) {
    && Within(rest.files, g.files)
    && (rest.marker.Some? ==> rest.marker == g.marker)
    && (rest.warnings.Some? ==> rest.warnings == g.warnings)
  }

  function Move(s: System, p: nat, phase: Phase, disk: Disk): Option<System> {
    Some(s.(disk := disk, procs := s.procs[p := phase]))
  }

  /** Lock, read Lexicon's snapshot, and decide. */
  function Planning(o: Oracle, s: System, p: nat, phase: Phase, a: Action): Option<System> {
    var d := s.disk;
    match (phase, a)
    case (Starting, Acquire) => if s.lock.None? then Some(s.(lock := Some(p), procs := s.procs[p := Locked])) else None
    case (Starting, Refuse) => if s.lock.Some? then Some(s.(procs := s.procs - {p})) else None
    case (Locked, ReadLexicon(id)) => if ValidId(id) then Move(s, p, Reading(id), d) else None
    case (Reading(id), Keep) =>
      if id in d.snapshots && Complete(o, d.snapshots[id], id) then Move(s, p, InPlace(id), d) else None
    case (Reading(id), Replace) =>
      if id in d.snapshots && !Complete(o, d.snapshots[id], id) then Move(s, p, RemovingOutput(id), d) else None
    case (Reading(id), Build) => if id !in d.snapshots then Move(s, p, RemovingTemp(id), d) else None
    case _ => None
  }

  /** Remove what is in the way, entry by entry. */
  function Removing(o: Oracle, s: System, p: nat, phase: Phase, a: Action): Option<System> {
    var d := s.disk;
    match (phase, a)
    case (RemovingOutput(id), ShrinkOutput(rest)) =>
      if id in d.snapshots && Shrinks(rest, d.snapshots[id]) then
        Move(s, p, RemovingOutput(id), d.(snapshots := d.snapshots[id := rest]))
      else None
    case (RemovingOutput(id), RemoveOutput) => Move(s, p, RemovingTemp(id), d.(snapshots := d.snapshots - {id}))
    case (RemovingTemp(id), ShrinkTemp(rest)) => ShrinkTempOf(s, p, phase, id, rest)
    case (RemovingTemp(id), RemoveTemp) => Move(s, p, RemovingTemp(id), d.(temps := d.temps - {(id, p)}))
    case (RemovingTemp(id), CreateTemp) =>
      if (id, p) in d.temps then None else Move(s, p, Filling(id), d.(temps := d.temps[(id, p) := EMPTY]))
    case (Discarding(id), ShrinkTemp(rest)) => ShrinkTempOf(s, p, phase, id, rest)
    case (Discarding(id), RemoveTemp) => Move(s, p, Discarding(id), d.(temps := d.temps - {(id, p)}))
    case _ => None
  }

  /** Fill the temporary directory and rename it. */
  function Building(o: Oracle, s: System, p: nat, phase: Phase, a: Action): Option<System> {
    var d := s.disk;
    match (phase, a)
    case (Filling(id), WriteFiles(files)) =>
      if (id, p) !in d.temps then None
      else Move(s, p, Filling(id), d.(temps := d.temps[(id, p) := d.temps[(id, p)].(files := d.temps[(id, p)].files + files)]))
    case (Filling(id), Abandon) => Move(s, p, Discarding(id), d)
    case (Filling(id), FinishFiles) =>
      if (id, p) in d.temps then Move(s, p, Filled(id), d) else None
    case (Filled(id), WriteMarker(text)) => Mark(s, p, id, text, Filled(id))
    case (Filled(id), FinishMarker) => Mark(s, p, id, id, Marked(id))
    case (Marked(id), WriteWarnings(text)) =>
      if (id, p) !in d.temps then None
      else Move(s, p, Marked(id), d.(temps := d.temps[(id, p) := d.temps[(id, p)].(warnings := Some(text))]))
    case (Marked(id), Rename) =>
      if (id, p) !in d.temps || id in d.snapshots then None
      else Move(s, p, InPlace(id), d.(snapshots := d.snapshots[id := d.temps[(id, p)]], temps := d.temps - {(id, p)}))
    case _ => None
  }

  /** Replace `CURRENT`. */
  function Publishing(o: Oracle, s: System, p: nat, phase: Phase, a: Action): Option<System> {
    var d := s.disk;
    match (phase, a)
    case (InPlace(id), Stage) =>
      if p in d.pending then None else Move(s, p, Staging(id), d.(pending := d.pending[p := []]))
    case (InPlace(id), StageTaken) =>
      if p in d.pending then Move(s, p, Finished, d.(pending := d.pending - {p})) else None
    case (Staging(id), WritePending(text)) => Move(s, p, Staging(id), d.(pending := d.pending[p := text]))
    case (Staging(id), FinishPending) => Move(s, p, Staged(id), d.(pending := d.pending[p := id]))
    case (Staged(id), ReplaceCurrent) =>
      if p !in d.pending then None
      else Move(s, p, Finished, d.(current := Some(d.pending[p]), pending := d.pending - {p}))
    case _ => None
  }

  /** The state after one action of one process, if the action is possible. */
  function Apply(o: Oracle, s: System, p: nat, a: Action): Option<System> {
    if a.Start? then
      if p in s.procs then None else Some(s.(procs := s.procs[p := Starting]))
    else if p !in s.procs then None
    else if a.Exit? then Some(s.(lock := if s.lock == Some(p) then None else s.lock, procs := s.procs - {p}))
    else
      match s.procs[p]
      case Starting => Planning(o, s, p, s.procs[p], a)
      case Locked => Planning(o, s, p, s.procs[p], a)
      case Reading(_) => Planning(o, s, p, s.procs[p], a)
      case RemovingOutput(_) => Removing(o, s, p, s.procs[p], a)
      case RemovingTemp(_) => Removing(o, s, p, s.procs[p], a)
      case Discarding(_) => Removing(o, s, p, s.procs[p], a)
      case Filling(_) => Building(o, s, p, s.procs[p], a)
      case Filled(_) => Building(o, s, p, s.procs[p], a)
      case Marked(_) => Building(o, s, p, s.procs[p], a)
      case InPlace(_) => Publishing(o, s, p, s.procs[p], a)
      case Staging(_) => Publishing(o, s, p, s.procs[p], a)
      case Staged(_) => Publishing(o, s, p, s.procs[p], a)
      case Finished => None
  }

  function ShrinkTempOf(s: System, p: nat, phase: Phase, id: Text, rest: Generation): Option<System> {
    if (id, p) in s.disk.temps && Shrinks(rest, s.disk.temps[(id, p)]) then
      Move(s, p, phase, s.disk.(temps := s.disk.temps[(id, p) := rest]))
    else None
  }

  function Mark(s: System, p: nat, id: Text, text: Text, next: Phase): Option<System> {
    if (id, p) !in s.disk.temps then None
    else Move(s, p, next, s.disk.(temps := s.disk.temps[(id, p) := s.disk.temps[(id, p)].(marker := Some(text))]))
  }

  // ----- the invariant -----

  /**
   The contract of opening that removal rests on: a directory that does not open does not open with fewer
   files either, and one that serves as the base of an update holds what it held with all of them.
   */
  ghost predicate RemovalSound(o: Oracle) {
    && (forall part, whole :: Within(part, whole) && !o.open(whole).Opened? ==> !o.open(part).Opened?)
    && (forall part, whole :: Within(part, whole) && UpdateBase(o, part) ==> UpdateBase(o, whole) && o.read(part) == o.read(whole))
  }

  /** What is trusted of files the writers finish. */
  ghost predicate Finishes(o: Oracle, t: Trust, id: Text, files: RepositoryFiles) {
    (t.stores ==> Remembers(o, id, files)) && (t.opens ==> o.open(files).Opened?)
  }

  /** What a process past the lock knows of the disk in each of its phases. */
  ghost predicate PhaseOk(o: Oracle, t: Trust, d: Disk, p: nat, phase: Phase) {
    match phase
    case Starting => true
    case Locked => true
    case Reading(id) => ValidId(id)
    case RemovingOutput(id) => ValidId(id) && id in d.snapshots && !Complete(o, d.snapshots[id], id)
    case RemovingTemp(id) => ValidId(id) && id !in d.snapshots
    case Filling(id) => ValidId(id) && id !in d.snapshots && (id, p) in d.temps
    case Discarding(id) => true
    case Filled(id) =>
      ValidId(id) && id !in d.snapshots && (id, p) in d.temps && Finishes(o, t, id, d.temps[(id, p)].files)
    case Marked(id) =>
      && ValidId(id) && id !in d.snapshots && (id, p) in d.temps && d.temps[(id, p)].marker == Some(id)
      && Finishes(o, t, id, d.temps[(id, p)].files)
    case InPlace(id) => Named(o, t, d, id)
    case Staging(id) => Named(o, t, d, id) && p in d.pending
    case Staged(id) => Named(o, t, d, id) && p in d.pending && d.pending[p] == id
    case Finished => true
  }

  /** A generation of this name is in place, and is complete if what is finished is trusted to open. */
  ghost predicate Named(o: Oracle, t: Trust, d: Disk, id: Text) {
    ValidId(id) && id in d.snapshots && (t.opens ==> Complete(o, d.snapshots[id], id))
  }

  /** At most one process is past the lock, and it is the one that holds it. */
  ghost predicate Exclusive(s: System) {
    && (s.lock.Some? ==> s.lock.value in s.procs && !s.procs[s.lock.value].Starting?)
    && (forall p :: p in s.procs && !s.procs[p].Starting? ==> s.lock == Some(p))
  }

  ghost predicate Invariant(o: Oracle, t: Trust, s: System) {
    && Exclusive(s)
    && Consistent(o, t, s.disk)
    && (forall p :: p in s.procs ==> PhaseOk(o, t, s.disk, p, s.procs[p]))
  }

  /** Every complete generation is still there, unaltered. */
  ghost predicate KeepsComplete(o: Oracle, before: Disk, after: Disk) {
    forall id :: id in before.snapshots && Complete(o, before.snapshots[id], id) ==>
                   id in after.snapshots && after.snapshots[id] == before.snapshots[id]
  }

  /** What a step of a process leaves, but for the other processes. */
  ghost predicate Steps(o: Oracle, t: Trust, s: System, p: nat, r: System) {
    && KeepsComplete(o, s.disk, r.disk)
    && Consistent(o, t, r.disk)
    && (p in r.procs ==> PhaseOk(o, t, r.disk, p, r.procs[p]))
  }

  /** A step past the lock keeps it and concerns one process. */
  ghost predicate Moves(s: System, p: nat, r: System) {
    r.lock == s.lock && p in r.procs && !r.procs[p].Starting? && r.procs == s.procs[p := r.procs[p]]
  }

  /** The writers' contract, at the step at which they finish: the files they leave are as trusted. */
  ghost predicate Kept(o: Oracle, t: Trust, s: System, p: nat, a: Action) {
    a.FinishFiles? && p in s.procs && s.procs[p].Filling? && (s.procs[p].id, p) in s.disk.temps ==>
      Finishes(o, t, s.procs[p].id, s.disk.temps[(s.procs[p].id, p)].files)
  }

  lemma ShrunkIncomplete(o: Oracle, g: Generation, rest: Generation, id: Text)
    requires RemovalSound(o) && Shrinks(rest, g) && !Complete(o, g, id)
    ensures !Complete(o, rest, id)
  {
  }

  lemma ShrunkRemembers(o: Oracle, g: Generation, rest: Generation, id: Text)
    requires RemovalSound(o) && Shrinks(rest, g) && (UpdateBase(o, g.files) ==> Remembers(o, id, g.files))
    ensures UpdateBase(o, rest.files) ==> Remembers(o, id, rest.files)
  {
    hide UpdateBase, SnapshotLoad.SlotsOf;
  }

  lemma PlanningStep(o: Oracle, t: Trust, s: System, p: nat, a: Action)
    requires Consistent(o, t, s.disk) && p in s.procs && PhaseOk(o, t, s.disk, p, s.procs[p])
    requires Planning(o, s, p, s.procs[p], a).Some?
    ensures Steps(o, t, s, p, Planning(o, s, p, s.procs[p], a).value)
    ensures Planning(o, s, p, s.procs[p], a).value.disk == s.disk
    ensures !s.procs[p].Starting? ==> Moves(s, p, Planning(o, s, p, s.procs[p], a).value)
  {
    hide ValidId, Complete, Remembers, UpdateBase;
  }

  lemma RemovingStep(o: Oracle, t: Trust, s: System, p: nat, a: Action)
    requires RemovalSound(o) && Consistent(o, t, s.disk) && p in s.procs && PhaseOk(o, t, s.disk, p, s.procs[p])
    requires Removing(o, s, p, s.procs[p], a).Some?
    ensures Steps(o, t, s, p, Removing(o, s, p, s.procs[p], a).value)
    ensures Moves(s, p, Removing(o, s, p, s.procs[p], a).value)
  {
    hide ValidId, Complete, RemovalSound, Shrinks, Remembers, UpdateBase;
    if a.ShrinkOutput? && s.procs[p].RemovingOutput? {
      var id := s.procs[p].id;
      ShrunkIncomplete(o, s.disk.snapshots[id], a.rest, id);
      if t.stores { ShrunkRemembers(o, s.disk.snapshots[id], a.rest, id); }
    }
  }

  lemma BuildingStep(o: Oracle, t: Trust, s: System, p: nat, a: Action)
    requires Consistent(o, t, s.disk) && p in s.procs && PhaseOk(o, t, s.disk, p, s.procs[p]) && Kept(o, t, s, p, a)
    requires Building(o, s, p, s.procs[p], a).Some?
    ensures Steps(o, t, s, p, Building(o, s, p, s.procs[p], a).value)
    ensures Moves(s, p, Building(o, s, p, s.procs[p], a).value)
  {
    hide ValidId, Remembers, UpdateBase;
  }

  lemma PublishingStep(o: Oracle, t: Trust, s: System, p: nat, a: Action)
    requires Consistent(o, t, s.disk) && p in s.procs && PhaseOk(o, t, s.disk, p, s.procs[p])
    requires Publishing(o, s, p, s.procs[p], a).Some?
    ensures Steps(o, t, s, p, Publishing(o, s, p, s.procs[p], a).value)
    ensures Moves(s, p, Publishing(o, s, p, s.procs[p], a).value)
  {
    hide ValidId, Complete, Remembers, UpdateBase;
  }

  /** The steps that do not touch the disk: a process starts, takes the lock, is refused, or stops. */
  predicate AroundLock(s: System, p: nat, a: Action) {
    a.Start? || a.Exit? || (p in s.procs && s.procs[p].Starting?)
  }

  lemma AroundLockStep(o: Oracle, s: System, p: nat, a: Action)
    requires Exclusive(s) && AroundLock(s, p, a) && Apply(o, s, p, a).Some?
    ensures var r := Apply(o, s, p, a).value;
      && Exclusive(r) && r.disk == s.disk
      && (forall q :: q in r.procs && q != p ==> q in s.procs && r.procs[q] == s.procs[q])
      && (p in r.procs ==> r.procs[p].Starting? || r.procs[p].Locked?)
  {
    hide Removing, Building, Publishing;
  }

  lemma PastLockStep(o: Oracle, t: Trust, s: System, p: nat, a: Action)
    requires RemovalSound(o) && Invariant(o, t, s) && !AroundLock(s, p, a) && Kept(o, t, s, p, a) && Apply(o, s, p, a).Some?
    ensures Steps(o, t, s, p, Apply(o, s, p, a).value) && Moves(s, p, Apply(o, s, p, a).value)
  {
    hide Planning, Removing, Building, Publishing, Exclusive, Consistent, RemovalSound, Steps, Moves, Kept;
    assert PhaseOk(o, t, s.disk, p, s.procs[p]);
    hide PhaseOk;
    match s.procs[p]
    case Locked => PlanningStep(o, t, s, p, a);
    case Reading(_) => PlanningStep(o, t, s, p, a);
    case RemovingOutput(_) => RemovingStep(o, t, s, p, a);
    case RemovingTemp(_) => RemovingStep(o, t, s, p, a);
    case Discarding(_) => RemovingStep(o, t, s, p, a);
    case Filling(_) => BuildingStep(o, t, s, p, a);
    case Filled(_) => BuildingStep(o, t, s, p, a);
    case Marked(_) => BuildingStep(o, t, s, p, a);
    case InPlace(_) => PublishingStep(o, t, s, p, a);
    case Staging(_) => PublishingStep(o, t, s, p, a);
    case Staged(_) => PublishingStep(o, t, s, p, a);
    case _ =>
  }

  /** Every step keeps the invariant, as far as what is finished is trusted, and every complete generation. */
  lemma StepSafe(o: Oracle, t: Trust, s: System, p: nat, a: Action)
    requires RemovalSound(o) && Invariant(o, t, s) && Kept(o, t, s, p, a) && Apply(o, s, p, a).Some?
    ensures Invariant(o, t, Apply(o, s, p, a).value)
    ensures KeepsComplete(o, s.disk, Apply(o, s, p, a).value.disk)
  {
    hide Apply, Consistent, Complete, RemovalSound, Kept, Remembers;
    var r := Apply(o, s, p, a).value;
    if AroundLock(s, p, a) {
      AroundLockStep(o, s, p, a);
    } else {
      PastLockStep(o, t, s, p, a);
      assert p in s.procs && !s.procs[p].Starting? by { PastLockAlive(o, s, p, a); }
    }
  }

  lemma PastLockAlive(o: Oracle, s: System, p: nat, a: Action)
    requires !AroundLock(s, p, a) && Apply(o, s, p, a).Some?
    ensures p in s.procs && !s.procs[p].Starting?
  {
    hide Planning, Removing, Building, Publishing;
  }

  // ----- runs -----

  type Trace = seq<(nat, Action)>

  function Run(o: Oracle, s: System, steps: Trace): Option<System> {
    if steps == [] then Some(s)
    else
      match Run(o, s, steps[..|steps| - 1])
      case None => None
      case Some(r) => Apply(o, r, steps[|steps| - 1].0, steps[|steps| - 1].1)
  }

  /** A run in which the writers keep their contract whenever they finish. */
  ghost predicate Trusted(o: Oracle, t: Trust, s: System, steps: Trace) {
    steps == [] ||
    (var before, last := steps[..|steps| - 1], steps[|steps| - 1];
     && Trusted(o, t, s, before)
     && (Run(o, s, before).Some? ==> Kept(o, t, Run(o, s, before).value, last.0, last.1)))
  }

  /**
   Safety over every run, with processes stopping anywhere: one process past the lock, every generation
   complete at the start is still there at the end, and, if what is finished opens, `CURRENT` names a
   complete generation.
   */
  lemma {:induction false} RunSafe(o: Oracle, t: Trust, s: System, steps: Trace)
    requires RemovalSound(o) && Invariant(o, t, s) && Trusted(o, t, s, steps) && Run(o, s, steps).Some?
    ensures Invariant(o, t, Run(o, s, steps).value)
    ensures KeepsComplete(o, s.disk, Run(o, s, steps).value.disk)
    decreases |steps|
  {
    hide Apply, Invariant, RemovalSound, Complete, Kept;
    if steps != [] {
      var before, last := steps[..|steps| - 1], steps[|steps| - 1];
      RunSafe(o, t, s, before);
      StepSafe(o, t, Run(o, s, before).value, last.0, last.1);
    }
  }

  lemma InitialSafe(o: Oracle, t: Trust)
    ensures Invariant(o, t, INITIAL)
  {
  }

  lemma {:induction false} RunPrefix(o: Oracle, t: Trust, s: System, steps: Trace, k: nat)
    requires Run(o, s, steps).Some? && k <= |steps|
    ensures Run(o, s, steps[..k]).Some?
    ensures Trusted(o, t, s, steps) ==> Trusted(o, t, s, steps[..k])
    decreases |steps|
  {
    hide Apply, Kept;
    if k < |steps| {
      var before := steps[..|steps| - 1];
      RunPrefix(o, t, s, before, k);
      assert before[..k] == steps[..k];
    } else {
      assert steps[..k] == steps;
    }
  }

  /** Without any trust every run is trusted. */
  lemma {:induction false} AllTrusted(o: Oracle, s: System, steps: Trace)
    ensures Trusted(o, Trust(false, false), s, steps)
  {
    hide Run, Apply;
    if steps != [] { AllTrusted(o, s, steps[..|steps| - 1]); }
  }

  /** Between two points of a run no complete generation is lost or altered. */
  lemma {:induction false} CompleteSurvive(o: Oracle, s: System, steps: Trace, i: nat, j: nat)
    requires RemovalSound(o) && Invariant(o, Trust(false, false), s) && Run(o, s, steps).Some? && i <= j <= |steps|
    ensures Run(o, s, steps[..i]).Some? && Run(o, s, steps[..j]).Some?
    ensures KeepsComplete(o, Run(o, s, steps[..i]).value.disk, Run(o, s, steps[..j]).value.disk)
    decreases j
  {
    hide Apply, Invariant, RemovalSound, Complete, Kept, Run;
    RunPrefix(o, Trust(false, false), s, steps, i);
    RunPrefix(o, Trust(false, false), s, steps, j);
    if i < j {
      CompleteSurvive(o, s, steps, i, j - 1);
      RunPrefix(o, Trust(false, false), s, steps, j - 1);
      AllTrusted(o, s, steps[..j - 1]);
      RunSafe(o, Trust(false, false), s, steps[..j - 1]);
      OneMore(o, s, steps, j);
      StepSafe(o, Trust(false, false), Run(o, s, steps[..j - 1]).value, steps[j - 1].0, steps[j - 1].1);
    }
  }

  lemma OneMore(o: Oracle, s: System, steps: Trace, j: nat)
    requires 0 < j <= |steps| && Run(o, s, steps[..j]).Some?
    ensures Run(o, s, steps[..j - 1]).Some?
    ensures Run(o, s, steps[..j]) == Apply(o, Run(o, s, steps[..j - 1]).value, steps[j - 1].0, steps[j - 1].1)
    ensures Kept(o, Trust(false, false), Run(o, s, steps[..j - 1]).value, steps[j - 1].0, steps[j - 1].1)
  {
    hide Apply;
    assert steps[..j][..j - 1] == steps[..j - 1];
  }

  /**
   From an empty state directory, without the invariant: at most one process is past the lock; no complete
   generation is ever lost or altered; and, if what the writers finish opens, `CURRENT` names a complete one.
   */
  lemma PublicationSafe(o: Oracle, steps: Trace)
    requires RemovalSound(o) && Run(o, INITIAL, steps).Some?
    ensures var s := Run(o, INITIAL, steps).value;
      && (forall p, q :: p in s.procs && q in s.procs && !s.procs[p].Starting? && !s.procs[q].Starting? ==> p == q)
      && (Trusted(o, Trust(false, true), INITIAL, steps) && s.disk.current.Some? ==> InSync(o, s.disk, s.disk.current.value))
    ensures forall i, j :: 0 <= i <= j <= |steps| ==>
              && Run(o, INITIAL, steps[..i]).Some? && Run(o, INITIAL, steps[..j]).Some?
              && KeepsComplete(o, Run(o, INITIAL, steps[..i]).value.disk, Run(o, INITIAL, steps[..j]).value.disk)
  {
    hide Run, PhaseOk, Complete, RemovalSound, Trusted, Remembers, KeepsComplete;
    InitialSafe(o, Trust(false, false));
    InitialSafe(o, Trust(false, true));
    AllTrusted(o, INITIAL, steps);
    RunSafe(o, Trust(false, false), INITIAL, steps);
    if Trusted(o, Trust(false, true), INITIAL, steps) { RunSafe(o, Trust(false, true), INITIAL, steps); }
    forall i: nat, j: nat | i <= j <= |steps|
      ensures Run(o, INITIAL, steps[..i]).Some? && Run(o, INITIAL, steps[..j]).Some?
      ensures KeepsComplete(o, Run(o, INITIAL, steps[..i]).value.disk, Run(o, INITIAL, steps[..j]).value.disk)
    {
      CompleteSurvive(o, INITIAL, steps, i, j);
    }
  }

  /**
   Recovery: whatever run led to a state without live processes, one uninterrupted sync by a process with an
   unused number succeeds, if Lexicon's snapshot can be loaded and nothing fails to be read or written, exactly
   when it is not blocked. If it succeeds, `CURRENT` names Lexicon's snapshot, and a further sync leaves it on a
   complete generation, the one in place if that is complete and a rebuilt one if not. If it fails it leaves the
   generations and `CURRENT` as they were, and a further sync fails too.
   */
  lemma Recovers(o: Oracle, steps: Trace, p: nat, q: nat, current: Metadata, control: Text -> bool)
    requires RemovalSound(o) && Sound(o) && BaseStore.UsesPaths(o.world.s, control)
    requires Run(o, INITIAL, steps).Some? && Run(o, INITIAL, steps).value.procs == map[] && Trusted(o, STORES, INITIAL, steps)
    requires FromLexicon(o, current) && FullLoad(o, current.id).Success?
    requires p !in Run(o, INITIAL, steps).value.disk.pending && NoIoErrors(o, Run(o, INITIAL, steps).value.disk, current)
    ensures var d := Run(o, INITIAL, steps).value.disk;
      var (after, r) := Synced(o, d, p, Some(current));
      && (r.Success? <==> !Blocked(o, d, current))
      && (r.Success? && q !in after.pending ==>
            && after.current == Some(current.id)
            && Synced(o, after, q, Some(current)).1.Success? && InSync(o, Synced(o, after, q, Some(current)).0, current.id)
            && (InSync(o, after, current.id) ==> Synced(o, after, q, Some(current)).0 == after))
      && (r.Failure? ==>
            && after.snapshots == d.snapshots && after.current == d.current
            && (q !in after.pending ==> Synced(o, after, q, Some(current)).1.Failure?))
  {
    hide Run, Synced, PlanSnapshot, Sound, NoIoErrors, RemovalSound, InSync, BaseStore.UsesPaths, FromLexicon, FullLoad;
    hide Blocked, Trusted, WriteSnapshot;
    InitialSafe(o, STORES);
    RunSafe(o, STORES, INITIAL, steps);
    var d := Run(o, INITIAL, steps).value.disk;
    hide Consistent;
    RecoverySucceeds(o, d, p, current, control);
    if Synced(o, d, p, Some(current)).1.Success? {
      SecondSync(o, d, p, q, current);
    } else {
      BlockedRepeats(o, d, p, q, current, control);
    }
  }

  lemma SecondSync(o: Oracle, d: Disk, p: nat, q: nat, current: Metadata)
    requires Sound(o) && Consistent(o, STORES, d) && p !in d.pending && FromLexicon(o, current)
    requires FullLoad(o, current.id).Success? && NoIoErrors(o, d, current)
    requires Synced(o, d, p, Some(current)).1.Success?
    ensures var after := Synced(o, d, p, Some(current)).0;
      && after.current == Some(current.id)
      && (q !in after.pending ==>
            && Synced(o, after, q, Some(current)).1.Success? && InSync(o, Synced(o, after, q, Some(current)).0, current.id)
            && (InSync(o, after, current.id) ==> Synced(o, after, q, Some(current)).0 == after))
  {
    hide Synced, PlanSnapshot, Sound, FromLexicon, FullLoad, WriteSnapshot, Consistent, UpdateIoHolds, Standing, Coherent;
    RecoveryExact(o, d, p, current);
    OpensExactly(o, d, p, current);
    var after := Synced(o, d, p, Some(current)).0;
    if InSync(o, after, current.id) {
      SecondSyncExisting(o, after, q, current);
    } else {
      SecondSyncRebuilds(o, after, q, current);
    }
  }
}
