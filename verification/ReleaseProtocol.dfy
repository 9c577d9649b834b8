/** What one release run does to the shared host, as a sequence of acts, and what follows
    for any number of runs that share one canonical file and its lock. */
module ReleaseProtocol {
  import opened Common

  datatype Phase =
    | Preflight
    | BackupCheck
    | DependencyCheck
    | ImageCheck
    | Activation
    | Health
    | Canonical
    | Verification

  datatype Outcome =
    | Raised
    | Failed(phase: Phase)
    | Complete
    | RolledBack(phase: Phase)
    | RecoveryIncomplete(phase: Phase)

  datatype Act = LockDenied | LockTaken | Loaded | Switched | Rewrote | LockFreed | Finished(outcome: Outcome)

  /** Where a run stands: `dirty` once it has switched the server or rewritten the file. */
  datatype Stage = Outside | Inside(dirty: bool) | Freed(dirty: bool) | Ended(outcome: Outcome) | Broken

  function Next(stage: Stage, act: Act): Stage {
    match (stage, act)
    case (Outside, LockDenied) => Outside
    case (Outside, LockTaken) => Inside(false)
    case (Outside, Finished(o)) => if o.Raised? then Ended(o) else Broken
    case (Inside(dirty), Loaded) => Inside(dirty)
    case (Inside(_), Switched) => Inside(true)
    case (Inside(_), Rewrote) => Inside(true)
    case (Inside(dirty), LockFreed) => Freed(dirty)
    case (Inside(true), Finished(o)) => if o.RecoveryIncomplete? then Ended(o) else Broken
    case (Freed(false), Finished(o)) => if o.Raised? || o.Failed? then Ended(o) else Broken
    case (Freed(true), Finished(o)) => if o.Complete? || o.RolledBack? then Ended(o) else Broken
    case _ => Broken
  }

  // ---------- Many runs, one lock ----------

  type Run = nat

  /** The shared world: the lock directory, who took it last and has not freed it, each run's
      stage, the runs that died, and how often the server or the file was changed. */
  datatype System = System(lock: bool, owner: Option<Run>, stages: map<Run, Stage>, dead: set<Run>, changes: nat)

  const START := System(false, None, map[], {}, 0)

  datatype Step =
    | Start(run: Run)
    | Does(run: Run, act: Act)
    | Dies(run: Run)
    | Clears

  predicate Changing(act: Act) {
    act.Switched? || act.Rewrote?
  }

  /** A run proceeds along its protocol; taking the lock needs it free. An operator clears the
      lock only once the run that took it is dead or has ended, as the documentation asks. */
  predicate Enabled(s: System, step: Step) {
    match step
    case Start(r) => r !in s.stages
    case Does(r, act) =>
      && r in s.stages && r !in s.dead && Next(s.stages[r], act) != Broken
      && (act.LockTaken? ==> !s.lock)
    case Dies(r) => r in s.stages
    case Clears => s.owner.Some? && s.owner.value in s.stages
                   && (s.owner.value in s.dead || s.stages[s.owner.value].Ended?)
  }

  function After(s: System, step: Step): System
    requires Enabled(s, step)
  {
    match step
    case Start(r) => s.(stages := s.stages[r := Outside])
    case Dies(r) => s.(dead := s.dead + {r})
    case Clears => s.(lock := false, owner := None)
    case Does(r, act) =>
      var moved := s.(stages := s.stages[r := Next(s.stages[r], act)],
                      changes := s.changes + if Changing(act) then 1 else 0);
      if act.LockTaken? then moved.(lock := true, owner := Some(r))
      else if act.LockFreed? then moved.(lock := false, owner := None)
      else moved
  }

  ghost predicate Runs(s: System, steps: seq<Step>, t: System)
    decreases |steps|
  {
    if steps == [] then s == t else Enabled(s, steps[0]) && Runs(After(s, steps[0]), steps[1..], t)
  }

  ghost predicate Reachable(s: System) {
    exists steps :: Runs(START, steps, s)
  }

  /** Inside the locked section and able to act. */
  predicate Live(s: System, r: Run) {
    r in s.stages && s.stages[r].Inside? && r !in s.dead
  }

  /** Holding the lock without being able to act: ended without recovering, or dead inside. */
  predicate Stuck(s: System, r: Run) {
    && r in s.stages
    && ((s.stages[r].Ended? && s.stages[r].outcome.RecoveryIncomplete?) || (s.stages[r].Inside? && r in s.dead))
  }

  ghost predicate Inv(s: System) {
    && (s.lock <==> s.owner.Some?)
    && (s.owner.Some? ==> Live(s, s.owner.value) || Stuck(s, s.owner.value))
    && (forall r: Run :: Live(s, r) ==> s.owner == Some(r))
    && (forall r: Run :: r in s.stages ==> s.stages[r] != Broken)
  }

  lemma {:induction false} InvStep(s: System, step: Step)
    requires Inv(s) && Enabled(s, step)
    ensures Inv(After(s, step))
  {
    var t := After(s, step);
    forall r: Run | Live(t, r) ensures t.owner == Some(r) {
      assert step.Does? && s.stages[step.run].Inside? ==> Live(s, step.run);
      assert (step.Does? && step.run == r && step.act.LockTaken?) || Live(s, r);
    }
  }

  lemma {:induction false} InvRuns(s: System, steps: seq<Step>, t: System)
    requires Inv(s) && Runs(s, steps, t)
    ensures Inv(t)
    decreases |steps|
  {
    if steps != [] {
      InvStep(s, steps[0]);
      InvRuns(After(s, steps[0]), steps[1..], t);
    }
  }

  lemma {:induction false} ReachableInv(s: System)
    requires Reachable(s)
    ensures Inv(s)
  {
    var steps :| Runs(START, steps, s);
    InvRuns(START, steps, s);
  }

  /** In every interleaving, at most one run is inside the locked section. */
  lemma {:induction false} MutualExclusion(s: System, a: Run, b: Run)
    requires Reachable(s) && Live(s, a) && Live(s, b)
    ensures a == b
  {
    ReachableInv(s);
  }

  /** The lock is held exactly by its owner: the one run inside, or a run that ended with
      recovery incomplete or died inside and has not been cleared. */
  lemma {:induction false} LockHeldMeans(s: System)
    requires Reachable(s)
    ensures s.lock <==> s.owner.Some?
    ensures s.lock ==> (Live(s, s.owner.value) || Stuck(s, s.owner.value))
    ensures forall r: Run :: Live(s, r) ==> s.lock && s.owner == Some(r)
  {
    ReachableInv(s);
  }

  /** A run's finishing step leaves the lock its own exactly when recovery was incomplete. */
  lemma {:induction false} FinishingReleases(s: System, r: Run, o: Outcome)
    requires Reachable(s) && Enabled(s, Does(r, Finished(o)))
    ensures After(s, Does(r, Finished(o))).owner == Some(r) <==> o.RecoveryIncomplete?
  {
    ReachableInv(s);
  }

  /** While a stuck run owns the lock, no step of any run changes the server or the file. */
  lemma {:induction false} StuckFreezesStep(s: System, step: Step)
    requires Inv(s) && s.owner.Some? && Stuck(s, s.owner.value) && Enabled(s, step) && !step.Clears?
    ensures var t := After(s, step);
      t.changes == s.changes && t.lock && t.owner == s.owner && Stuck(t, t.owner.value)
  {
    if step.Does? && Live(s, step.run) {
      assert false;
    }
  }

  /** After a run ends with recovery incomplete, nothing any run does changes the server or the
      canonical file, and the lock stays held, until an operator clears it. */
  lemma {:induction false} StuckFreezes(s: System, steps: seq<Step>, t: System)
    requires Inv(s) && s.owner.Some? && Stuck(s, s.owner.value)
    requires Runs(s, steps, t) && Clears !in steps
    ensures t.changes == s.changes && t.lock && t.owner == s.owner
    decreases |steps|
  {
    if steps != [] {
      assert steps[0] in steps;
      StuckFreezesStep(s, steps[0]);
      InvStep(s, steps[0]);
      StuckFreezes(After(s, steps[0]), steps[1..], t);
    }
  }
}
