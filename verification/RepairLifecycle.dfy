/** The repair lifecycle: legal transitions, sealing, and what every legal run satisfies. */
module RepairLifecycle {

  datatype Status =
    | EvidenceFrozen | Proposed | ReviewAccepted | RequestChanges | WaitingG10 | ApprovedPendingExecution
    | Executing | Applying | Applied | AppliedVerified | ValidationPassed | ValidationFailed | MigrationRetried
    | Revalidating | RevalidatingAffected | WaitingG11 | ApplyFailed | ApplyRecoveryRequired
    | Rejected | Superseded | Cancelled

  /** A status as callers pass it. */
  datatype Name = Known(status: Status) | Unknown(text: string) | Absent

  const SEALED: set<Status> := {Superseded, Rejected, Cancelled}

  function Successors(s: Status): set<Status> {
    match s
    case EvidenceFrozen => {Proposed, Superseded, Cancelled}
    case Proposed => {ReviewAccepted, RequestChanges, Rejected, Superseded, Cancelled}
    case ReviewAccepted => {WaitingG10, Superseded, Cancelled}
    case RequestChanges => {Rejected, Superseded, WaitingG10, Cancelled}
    case WaitingG10 => {ApprovedPendingExecution, Superseded, Cancelled}
    case ApprovedPendingExecution => {Executing, AppliedVerified, ApplyFailed, Cancelled}
    case Executing => {AppliedVerified, ApplyFailed, ApplyRecoveryRequired, Cancelled}
    case Applying => {AppliedVerified, ApplyFailed, ApplyRecoveryRequired, Superseded, Cancelled}
    case Applied => {WaitingG11, Superseded, Cancelled}
    case AppliedVerified => {MigrationRetried, Revalidating, RevalidatingAffected, WaitingG11, Cancelled}
    case ValidationPassed => {Cancelled}
    case ValidationFailed => {Cancelled}
    case MigrationRetried => {Revalidating, RevalidatingAffected, WaitingG11, Cancelled}
    case Revalidating => {WaitingG11, Superseded, Cancelled}
    case RevalidatingAffected => {Revalidating, WaitingG11, Superseded, Cancelled}
    case WaitingG11 => {ValidationPassed, ValidationFailed, Cancelled}
    case ApplyRecoveryRequired => {Executing, AppliedVerified, Cancelled}
    case _ => {}
  }

  predicate Can(from: Status, to: Status) { to in Successors(from) }

  predicate CanTransition(from: Name, to: Name) {
    from.Known? && to.Known? && Can(from.status, to.status)
  }

  datatype Reason = IsSealed | UnknownStatus | IllegalTransition | Legal

  datatype Transition = Transition(allowed: bool, sealed: bool, reason: Reason)

  function Evaluate(from: Name, to: Name): Transition {
    if from.Known? && from.status in SEALED then Transition(false, true, IsSealed)
    else if !from.Known? || !to.Known? then Transition(false, false, UnknownStatus)
    else if !CanTransition(from, to) then Transition(false, false, IllegalTransition)
    else Transition(true, false, Legal)
  }

  /** The evaluation allows exactly the table's transitions; sealing never hides a legal one. */
  lemma EvaluateIff(from: Name, to: Name)
    ensures Evaluate(from, to).allowed <==> CanTransition(from, to)
    ensures Evaluate(from, to).sealed <==> from.Known? && from.status in SEALED
    ensures Evaluate(from, to).reason == IsSealed <==> Evaluate(from, to).sealed
    ensures Evaluate(from, to).reason == Legal <==> Evaluate(from, to).allowed
    ensures Evaluate(from, to).reason == UnknownStatus <==>
      !Evaluate(from, to).sealed && !(from.Known? && to.Known?)
  {
  }

  /** The same table, read backwards: from where a status can be entered. */
  function Predecessors(s: Status): set<Status> {
    match s
    case EvidenceFrozen => {}
    case Proposed => {EvidenceFrozen}
    case ReviewAccepted => {Proposed}
    case RequestChanges => {Proposed}
    case WaitingG10 => {ReviewAccepted, RequestChanges}
    case ApprovedPendingExecution => {WaitingG10}
    case Executing => {ApprovedPendingExecution, ApplyRecoveryRequired}
    case Applying => {}
    case Applied => {}
    case AppliedVerified => {ApprovedPendingExecution, Executing, Applying, ApplyRecoveryRequired}
    case ValidationPassed => {WaitingG11}
    case ValidationFailed => {WaitingG11}
    case MigrationRetried => {AppliedVerified}
    case Revalidating => {AppliedVerified, MigrationRetried, RevalidatingAffected}
    case RevalidatingAffected => {AppliedVerified, MigrationRetried}
    case WaitingG11 => {Applied, AppliedVerified, MigrationRetried, Revalidating, RevalidatingAffected}
    case ApplyFailed => {ApprovedPendingExecution, Executing, Applying}
    case ApplyRecoveryRequired => {Executing, Applying}
    case Rejected => {Proposed, RequestChanges}
    case Superseded =>
      {EvidenceFrozen, Proposed, ReviewAccepted, RequestChanges, WaitingG10, Applying, Applied, Revalidating,
       RevalidatingAffected}
    case Cancelled =>
      {EvidenceFrozen, Proposed, ReviewAccepted, RequestChanges, WaitingG10, ApprovedPendingExecution, Executing,
       Applying, Applied, AppliedVerified, ValidationPassed, ValidationFailed, MigrationRetried, Revalidating,
       RevalidatingAffected, WaitingG11, ApplyRecoveryRequired}
  }

  const EARLY: set<Status> := {
    EvidenceFrozen, Proposed, ReviewAccepted, RequestChanges, WaitingG10, ApprovedPendingExecution, Executing, Applying,
    Applied
  }

  lemma CanEarly(from: Status, to: Status)
    requires from in EARLY
    ensures Can(from, to) <==> from in Predecessors(to)
  {
  }

  lemma CanLate(from: Status, to: Status)
    requires from !in EARLY
    ensures Can(from, to) <==> from in Predecessors(to)
  {
  }

  lemma CanIff(from: Status, to: Status)
    ensures Can(from, to) <==> from in Predecessors(to)
  {
    if from in EARLY {
      CanEarly(from, to);
    } else {
      CanLate(from, to);
    }
  }

  /** A repair ends for good exactly in the sealed statuses and where applying has failed. */
  lemma DeadEnds(s: Status)
    ensures Successors(s) == {} <==> s in {Superseded, Rejected, Cancelled, ApplyFailed}
    ensures s in SEALED <==> s in {Superseded, Rejected, Cancelled}
  {
    assert s !in {Superseded, Rejected, Cancelled, ApplyFailed} ==> Cancelled in Successors(s);
  }

  // ----- runs

  ghost predicate IsRun(run: seq<Status>) {
    run != [] && forall i :: 0 <= i < |run| - 1 ==> Can(run[i], run[i + 1])
  }

  predicate IsRecovery(from: Status, to: Status) { from == ApplyRecoveryRequired && to == Executing }

  function Recoveries(run: seq<Status>): nat {
    if |run| < 2 then 0 else (if IsRecovery(run[0], run[1]) then 1 else 0) + Recoveries(run[1..])
  }

  /** Longest number of steps left when no recovery is taken. */
  function Rank(s: Status): nat {
    match s
    case EvidenceFrozen => 13
    case Proposed => 12
    case ReviewAccepted => 11
    case RequestChanges => 11
    case WaitingG10 => 10
    case ApprovedPendingExecution => 9
    case Executing => 8
    case Applying => 8
    case ApplyRecoveryRequired => 7
    case AppliedVerified => 6
    case MigrationRetried => 5
    case RevalidatingAffected => 4
    case Revalidating => 3
    case Applied => 3
    case WaitingG11 => 2
    case ValidationPassed => 1
    case ValidationFailed => 1
    case _ => 0
  }

  lemma StepRank(from: Status, to: Status)
    requires Can(from, to)
    ensures Rank(to) + 1 <= Rank(from) + if IsRecovery(from, to) then 2 else 0
  {
  }

  lemma {:induction false} RunLength(run: seq<Status>)
    requires IsRun(run)
    ensures |run| - 1 + Rank(run[|run| - 1]) <= Rank(run[0]) + 2 * Recoveries(run)
  {
    if |run| > 1 {
      StepRank(run[0], run[1]);
      assert IsRun(run[1..]) by {
        forall i | 0 <= i < |run[1..]| - 1 ensures Can(run[1..][i], run[1..][i + 1]) {
          assert Can(run[i + 1], run[i + 2]);
        }
      }
      RunLength(run[1..]);
    }
  }

  /** A repair takes at most 13 steps plus two per recovery. */
  lemma RepairLength(run: seq<Status>)
    requires IsRun(run) && run[0] == EvidenceFrozen
    ensures |run| - 1 <= 13 + 2 * Recoveries(run)
  {
    RunLength(run);
  }

  /** Coming back to a status takes a recovery: it is on the machine's only cycle. */
  lemma RevisitNeedsRecovery(run: seq<Status>, i: nat, j: nat)
    requires IsRun(run) && i < j < |run| && run[i] == run[j]
    ensures Recoveries(run[i..j + 1]) >= 1
  {
    var loop := run[i..j + 1];
    forall k | 0 <= k < |loop| - 1 ensures Can(loop[k], loop[k + 1]) {
      assert Can(run[i + k], run[i + k + 1]);
    }
    RunLength(loop);
  }

  const OPENING: seq<Status> := [EvidenceFrozen, Proposed, RequestChanges, WaitingG10, ApprovedPendingExecution]
  const ENDING: seq<Status> := [Revalidating, WaitingG11, ValidationPassed, Cancelled]
  const CLOSING: seq<Status> :=
    [ApplyRecoveryRequired, AppliedVerified, MigrationRetried, RevalidatingAffected] + ENDING

  /** Execution with `k` recoveries, then the longest way to the end. */
  function Retrying(k: nat): seq<Status> {
    if k == 0 then [Executing] + CLOSING else [Executing] + ([ApplyRecoveryRequired] + Retrying(k - 1))
  }

  lemma {:induction false} RetryingRun(k: nat)
    ensures var mid := Retrying(k); IsRun(mid) && |mid| == 2 * k + 9 && Recoveries(mid) == k && mid[0] == Executing
  {
    if k == 0 {
      ClosingRun();
      Prepend(Executing, CLOSING);
    } else {
      RetryingRun(k - 1);
      Prepend(ApplyRecoveryRequired, Retrying(k - 1));
      Prepend(Executing, [ApplyRecoveryRequired] + Retrying(k - 1));
    }
  }

  lemma EndingRun()
    ensures IsRun(ENDING) && Recoveries(ENDING) == 0 && |ENDING| == 4 && ENDING[0] == Revalidating
  {
    var a := [Cancelled];
    Prepend(ValidationPassed, a);
    var b := [ValidationPassed] + a;
    Prepend(WaitingG11, b);
    Prepend(Revalidating, [WaitingG11] + b);
    assert ENDING == [Revalidating] + ([WaitingG11] + b);
  }

  lemma ClosingRun()
    ensures IsRun(CLOSING) && Recoveries(CLOSING) == 0 && |CLOSING| == 8 && CLOSING[0] == ApplyRecoveryRequired
  {
    EndingRun();
    var d := [RevalidatingAffected] + ENDING;
    Prepend(RevalidatingAffected, ENDING);
    var e := [MigrationRetried] + d;
    Prepend(MigrationRetried, d);
    var f := [AppliedVerified] + e;
    Prepend(AppliedVerified, e);
    Prepend(ApplyRecoveryRequired, f);
    assert CLOSING == [ApplyRecoveryRequired] + f;
  }

  lemma Prepend(s: Status, run: seq<Status>)
    requires IsRun(run) && Can(s, run[0])
    ensures IsRun([s] + run) && Recoveries([s] + run) == Recoveries(run) + if IsRecovery(s, run[0]) then 1 else 0
  {
    var r := [s] + run;
    assert r[1..] == run;
    forall i | 0 <= i < |r| - 1 ensures Can(r[i], r[i + 1]) {
      if i > 0 {
        assert Can(run[i - 1], run[i]);
      }
    }
  }

  lemma OpeningRun(mid: seq<Status>)
    requires IsRun(mid) && mid[0] == Executing
    ensures IsRun(OPENING + mid) && Recoveries(OPENING + mid) == Recoveries(mid)
  {
    var a := [ApprovedPendingExecution] + mid;
    Prepend(ApprovedPendingExecution, mid);
    var b := [WaitingG10] + a;
    Prepend(WaitingG10, a);
    var c := [RequestChanges] + b;
    Prepend(RequestChanges, b);
    var d := [Proposed] + c;
    Prepend(Proposed, c);
    Prepend(EvidenceFrozen, d);
    assert OPENING + mid == [EvidenceFrozen] + d;
  }

  /** The bound is reached for every number of recoveries. */
  lemma RepairLengthIsTight(k: nat)
    ensures var run := OPENING + Retrying(k);
      IsRun(run) && run[0] == EvidenceFrozen && Recoveries(run) == k && |run| - 1 == 13 + 2 * k
  {
    RetryingRun(k);
    OpeningRun(Retrying(k));
  }

  // ----- what can be reached

  /** There is a legal run from the one status to the other. */
  ghost predicate Leads(from: Status, to: Status) {
    exists run :: IsRun(run) && run[0] == from && run[|run| - 1] == to
  }

  lemma LeadsToItself(s: Status)
    ensures Leads(s, s)
  {
    assert IsRun([s]);
  }

  lemma LeadsFirst(from: Status, next: Status, to: Status)
    requires Can(from, next) && Leads(next, to)
    ensures Leads(from, to)
  {
    var run :| IsRun(run) && run[0] == next && run[|run| - 1] == to;
    Prepend(from, run);
    assert ([from] + run)[|run|] == to;
  }

  lemma LeadsLast(from: Status, last: Status, to: Status)
    requires Leads(from, last) && Can(last, to)
    ensures Leads(from, to)
  {
    var run :| IsRun(run) && run[0] == from && run[|run| - 1] == last;
    var longer := run + [to];
    forall i | 0 <= i < |longer| - 1 ensures Can(longer[i], longer[i + 1]) {
      if i < |run| - 1 {
        assert Can(run[i], run[i + 1]);
      }
    }
    assert longer[|longer| - 1] == to;
  }

  /** A step from which the status can be entered, closer to the start. */
  function Parent(s: Status): Status {
    match s
    case Proposed => EvidenceFrozen
    case ReviewAccepted => Proposed
    case RequestChanges => Proposed
    case WaitingG10 => ReviewAccepted
    case ApprovedPendingExecution => WaitingG10
    case Executing => ApprovedPendingExecution
    case AppliedVerified => Executing
    case ApplyFailed => Executing
    case ApplyRecoveryRequired => Executing
    case MigrationRetried => AppliedVerified
    case Revalidating => AppliedVerified
    case RevalidatingAffected => AppliedVerified
    case WaitingG11 => Revalidating
    case ValidationPassed => WaitingG11
    case ValidationFailed => WaitingG11
    case Rejected => Proposed
    case _ => EvidenceFrozen
  }

  lemma {:induction false} ReachedFromStart(s: Status)
    requires s !in {Applying, Applied}
    ensures Leads(EvidenceFrozen, s)
    decreases 13 - Rank(if s == ApplyRecoveryRequired then MigrationRetried else s)
  {
    if s == EvidenceFrozen {
      LeadsToItself(s);
    } else {
      ReachedFromStart(Parent(s));
      LeadsLast(EvidenceFrozen, Parent(s), s);
    }
  }

  lemma NeverEntered(run: seq<Status>, i: nat)
    requires IsRun(run) && 0 < i < |run|
    ensures run[i] !in {EvidenceFrozen, Applying, Applied}
  {
    assert Can(run[i - 1], run[i - 1 + 1]);
    CanIff(run[i - 1], run[i]);
  }

  /** A repair can get into every status but `applying` and `applied`, which nothing leads to. */
  lemma ReachableIff(s: Status)
    ensures Leads(EvidenceFrozen, s) <==> s != Applying && s != Applied
  {
    if Leads(EvidenceFrozen, s) {
      var run :| IsRun(run) && run[0] == EvidenceFrozen && run[|run| - 1] == s;
      if |run| > 1 {
        NeverEntered(run, |run| - 1);
      }
    } else if s != Applying && s != Applied {
      ReachedFromStart(s);
    }
  }

  const LOST: set<Status> := {ValidationFailed, ApplyFailed, Rejected, Superseded, Cancelled}

  /** The next step towards a passed validation. */
  function Toward(s: Status): Status {
    match s
    case EvidenceFrozen => Proposed
    case Proposed => ReviewAccepted
    case ReviewAccepted => WaitingG10
    case RequestChanges => WaitingG10
    case WaitingG10 => ApprovedPendingExecution
    case Applied => WaitingG11
    case AppliedVerified => WaitingG11
    case MigrationRetried => WaitingG11
    case Revalidating => WaitingG11
    case RevalidatingAffected => WaitingG11
    case WaitingG11 => ValidationPassed
    case _ => AppliedVerified
  }

  lemma {:induction false} CanPass(s: Status)
    requires s !in LOST
    ensures Leads(s, ValidationPassed)
    decreases Rank(s)
  {
    if s == ValidationPassed {
      LeadsToItself(s);
    } else {
      CanPass(Toward(s));
      LeadsFirst(s, Toward(s), ValidationPassed);
    }
  }

  lemma {:induction false} LostStays(run: seq<Status>, i: nat)
    requires IsRun(run) && i < |run| && run[0] in LOST
    ensures run[i] in LOST
  {
    if i > 0 {
      LostStays(run, i - 1);
      assert Can(run[i - 1], run[i - 1 + 1]);
    }
  }

  /** Validation can still be passed from exactly the statuses that are no failure and not sealed. */
  lemma CanPassIff(s: Status)
    ensures Leads(s, ValidationPassed) <==> s !in LOST
  {
    if s !in LOST {
      CanPass(s);
    } else if Leads(s, ValidationPassed) {
      var run :| IsRun(run) && run[0] == s && run[|run| - 1] == ValidationPassed;
      LostStays(run, |run| - 1);
    }
  }

  // ----- sealing and milestones

  /** A sealed status ends its run. */
  lemma SealedIsLast(run: seq<Status>, i: nat)
    requires IsRun(run) && i < |run| && run[i] in SEALED
    ensures i == |run| - 1
  {
    assert i < |run| - 1 ==> Can(run[i], run[i + 1]);
  }

  ghost predicate LeavesOnlyTo(inside: set<Status>, gate: Status) {
    forall x, y :: x in inside && Can(x, y) && y !in inside ==> y == gate
  }

  /** A run that starts inside and ends outside goes through the gate. */
  lemma {:induction false} ThroughGate(run: seq<Status>, from: nat, inside: set<Status>, gate: Status) returns (i: nat)
    requires IsRun(run) && from < |run| && run[from] in inside && run[|run| - 1] !in inside
    requires LeavesOnlyTo(inside, gate)
    ensures from < i < |run| && run[i] == gate
    decreases |run| - from
  {
    assert Can(run[from], run[from + 1]);
    if run[from + 1] in inside {
      i := ThroughGate(run, from + 1, inside, gate);
    } else {
      i := from + 1;
    }
  }

  const BEFORE_G10: set<Status> :=
    {EvidenceFrozen, Proposed, ReviewAccepted, RequestChanges, Rejected, Superseded, Cancelled}
  const AT_G10: set<Status> := {WaitingG10, Superseded, Cancelled}
  const APPLICATION: set<Status> := {ApprovedPendingExecution, Executing, ApplyFailed, ApplyRecoveryRequired, Cancelled}
  const REVALIDATION: set<Status> :=
    {AppliedVerified, MigrationRetried, Revalidating, RevalidatingAffected, Superseded, Cancelled}

  lemma GateG10() ensures LeavesOnlyTo(BEFORE_G10, WaitingG10) {}

  lemma GateApproval() ensures LeavesOnlyTo(AT_G10, ApprovedPendingExecution) {}

  lemma GateVerified() ensures LeavesOnlyTo(APPLICATION, AppliedVerified) {}

  lemma GateG11() ensures LeavesOnlyTo(REVALIDATION, WaitingG11) {}

  /** Passing validation means having passed both human gates and a verified application, in order. */
  lemma PassingOrder(run: seq<Status>) returns (g10: nat, approved: nat, verified: nat, g11: nat)
    requires IsRun(run) && run[0] == EvidenceFrozen && run[|run| - 1] == ValidationPassed
    ensures 0 < g10 < approved < verified < g11 < |run| - 1
    ensures run[g10] == WaitingG10 && run[approved] == ApprovedPendingExecution
    ensures run[verified] == AppliedVerified && run[g11] == WaitingG11
  {
    GateG10();
    g10 := ThroughGate(run, 0, BEFORE_G10, WaitingG10);
    GateApproval();
    approved := ThroughGate(run, g10, AT_G10, ApprovedPendingExecution);
    GateVerified();
    verified := ThroughGate(run, approved, APPLICATION, AppliedVerified);
    GateG11();
    g11 := ThroughGate(run, verified, REVALIDATION, WaitingG11);
  }
}
