/** The operation record of a release run: which writes a run makes, in which order, and what
    is on disk afterwards when some of them fail. */
module ReleaseRecord {
  import opened Common
  import opened ReleaseModel
  import opened ReleaseProtocol

  /** The fate of one external call: it works, fails before its effect, or fails after it. */
  datatype Fault = NoFault | Before | Late

  datatype RecordPhase =
    | Prepared | PreflightFailed | Recovering | RecordComplete | RecordRolledBack | RecordRecoveryIncomplete

  datatype Record = Record(phase: RecordPhase, plan: Plan)

  /** What preflight establishes. Hashes are injective, so contents stand for them. */
  datatype Plan = Plan(original: string, updated: string, previousTag: string, previousId: string,
                       baseline: ComposeModel)

  /** One attempt to write the record; only a failure before its effect leaves the old one. */
  datatype RecordWrite = RecordWrite(entry: Record, fault: Fault)

  /** The record on disk: the last attempt that took effect. */
  function OnDisk(log: seq<RecordWrite>): Option<Record> {
    if log == [] then None
    else
      var last := log[|log| - 1];
      if last.fault != Before then Some(last.entry) else OnDisk(log[..|log| - 1])
  }

  /** Which attempt may come next, and after what fate of the one before. */
  predicate Follows(w: RecordWrite, next: RecordPhase) {
    match w.entry.phase
    case Prepared => next.PreflightFailed? || (w.fault.NoFault? && (next.RecordComplete? || next.Recovering?))
    case RecordComplete => !w.fault.NoFault? && next.Recovering?
    case Recovering => next.RecordRolledBack? || next.RecordRecoveryIncomplete?
    case RecordRolledBack => !w.fault.NoFault? && next.RecordRecoveryIncomplete?
    case _ => false
  }

  /** The attempts of one run: prepared first, then as `Follows` says, all of one plan. */
  predicate InOrder(log: seq<RecordWrite>, plan: Plan) {
    && (log != [] ==> log[0].entry.phase.Prepared?)
    && (forall i :: 0 <= i < |log| ==> log[i].entry.plan == plan)
    && (forall i :: 0 < i < |log| ==> Follows(log[i - 1], log[i].entry.phase))
  }

  predicate Ends(log: seq<RecordWrite>, phase: RecordPhase) {
    log != [] && log[|log| - 1].entry.phase == phase
  }

  /** The last attempt has this phase and reported success. */
  predicate EndsWell(log: seq<RecordWrite>, phase: RecordPhase) {
    Ends(log, phase) && log[|log| - 1].fault.NoFault?
  }

  /** How the attempts of a finished run end: a reported success was written, a failure of the
      preflight or of the recovery was at least attempted. */
  predicate RecordFits(o: Outcome, log: seq<RecordWrite>) {
    match o
    case Raised => log == []
    case Failed(_) => log == [] || Ends(log, PreflightFailed)
    case Complete => EndsWell(log, RecordComplete)
    case RolledBack(_) => EndsWell(log, RecordRolledBack)
    case RecoveryIncomplete(_) => Ends(log, RecordRecoveryIncomplete)
  }

  predicate MayFollow(log: seq<RecordWrite>, next: RecordPhase) {
    log != [] && Follows(log[|log| - 1], next)
  }

  lemma {:induction false} Appended(log: seq<RecordWrite>, plan: Plan, w: RecordWrite)
    requires InOrder(log, plan) && w.entry.plan == plan
    requires if log == [] then w.entry.phase.Prepared? else MayFollow(log, w.entry.phase)
    ensures InOrder(log + [w], plan) && Ends(log + [w], w.entry.phase)
  {
  }

  lemma {:induction false} PreparedIsFirst(log: seq<RecordWrite>, plan: Plan, i: nat)
    requires InOrder(log, plan) && i < |log| && log[i].entry.phase.Prepared?
    ensures i == 0
  {
    assert i > 0 ==> Follows(log[i - 1], log[i].entry.phase);
  }

  /** The record before the last attempt. */
  lemma {:induction false} OneBack(log: seq<RecordWrite>)
    requires log != []
    ensures OnDisk(log) == if log[|log| - 1].fault != Before then Some(log[|log| - 1].entry)
                           else OnDisk(log[..|log| - 1])
  {
  }

  /** A reported success is on disk. */
  lemma {:induction false} RecordAfterSuccess(log: seq<RecordWrite>, plan: Plan, o: Outcome)
    requires InOrder(log, plan) && RecordFits(o, log)
    ensures o.Complete? ==> OnDisk(log) == Some(Record(RecordComplete, plan))
    ensures o.RolledBack? ==> OnDisk(log) == Some(Record(RecordRolledBack, plan))
  {
    if log != [] {
      OneBack(log);
    }
  }

  /** What a preflight failure leaves: its own phase exactly when that write took effect, else
      the first record if that one did, else nothing. */
  lemma {:induction false} RecordAfterFailure(log: seq<RecordWrite>, plan: Plan)
    requires InOrder(log, plan) && Ends(log, PreflightFailed)
    ensures |log| == 2
    ensures OnDisk(log) == if log[1].fault != Before then Some(Record(PreflightFailed, plan))
                           else if log[0].fault != Before then Some(Record(Prepared, plan)) else None
  {
    assert |log| > 1;
    assert Follows(log[|log| - 2], PreflightFailed);
    PreparedIsFirst(log, plan, |log| - 2);
    assert log[..1][..0] == [];
    OneBack(log);
    OneBack(log[..1]);
  }

  /** The attempts of a run whose recovery did not finish: after the first record, perhaps a
      failed completion, the start of recovery, perhaps a failed rollback, and the last one. */
  lemma {:induction false} IncompleteShape(log: seq<RecordWrite>, plan: Plan) returns (recovering: nat)
    requires InOrder(log, plan) && Ends(log, RecordRecoveryIncomplete)
    ensures 1 <= recovering <= 2 && |log| - 3 <= recovering <= |log| - 2
    ensures log[recovering].entry.phase.Recovering? && log[0] == RecordWrite(Record(Prepared, plan), NoFault)
    ensures recovering == 2 ==> log[1].entry.phase.RecordComplete?
    ensures recovering == |log| - 3 ==> log[|log| - 2].entry.phase.RecordRolledBack?
  {
    assert |log| > 1;
    assert Follows(log[|log| - 2], RecordRecoveryIncomplete);
    recovering := if log[|log| - 2].entry.phase.Recovering? then |log| - 2 else |log| - 3;
    if log[|log| - 2].entry.phase.RecordRolledBack? {
      assert Follows(log[|log| - 3], RecordRolledBack);
    }
    assert Follows(log[recovering - 1], Recovering);
    if recovering > 1 {
      assert Follows(log[recovering - 2], log[recovering - 1].entry.phase);
    }
    PreparedIsFirst(log, plan, if log[recovering - 1].entry.phase.Prepared? then recovering - 1 else recovering - 2);
  }

  /** What an incomplete recovery leaves on disk, exactly: its own phase unless the last write
      was lost; then whatever took effect last, which can be a success that was not reported. */
  lemma {:induction false} RecordAfterIncomplete(log: seq<RecordWrite>, plan: Plan, recovering: nat)
    requires InOrder(log, plan) && Ends(log, RecordRecoveryIncomplete)
    requires recovering < |log| && log[recovering].entry.phase.Recovering?
    ensures OnDisk(log).Some? && OnDisk(log).value.plan == plan
    ensures OnDisk(log).value.phase ==
      if log[|log| - 1].fault != Before then RecordRecoveryIncomplete
      else if recovering == |log| - 3 && log[|log| - 2].fault != Before then RecordRolledBack
      else if log[recovering].fault != Before then Recovering
      else if recovering == 2 && log[1].fault != Before then RecordComplete
      else Prepared
  {
    var r := IncompleteShape(log, plan);
    assert recovering == r by {
      assert forall i :: 0 <= i < |log| && i != r ==> !log[i].entry.phase.Recovering?;
    }
    OneBack(log);
    var rest := log[..|log| - 1];
    OneBack(rest);
    if recovering == |log| - 3 {
      assert rest[..|rest| - 1] == log[..recovering + 1];
    } else {
      assert rest == log[..recovering + 1];
    }
    UpToRecovering(log[..recovering + 1], plan);
  }

  lemma {:induction false} UpToRecovering(log: seq<RecordWrite>, plan: Plan)
    requires InOrder(log, plan) && Ends(log, Recovering) && 2 <= |log| <= 3
    requires log[0] == RecordWrite(Record(Prepared, plan), NoFault)
    requires |log| == 3 ==> log[1].entry.phase.RecordComplete?
    ensures OnDisk(log).Some? && OnDisk(log).value.plan == plan
    ensures OnDisk(log).value.phase ==
      if log[|log| - 1].fault != Before then Recovering
      else if |log| == 3 && log[1].fault != Before then RecordComplete
      else Prepared
  {
    OneBack(log);
    OneBack(log[..|log| - 1]);
    assert log[..1][..0] == [];
    OneBack(log[..1]);
    assert log[..|log| - 1][..|log| - 2] == log[..|log| - 2];
  }
}
