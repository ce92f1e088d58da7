/** Proof of done: two append-only logs of validation runs and of evidence, and the
    state of each acceptance criterion derived from them. */
module Validation {
  import opened Basics

  datatype Status = Passed | Failed | Skipped | RunBlocked

  /** Runs and evidence of the empty task are stored without a task, and no query
      for a task finds them. */
  datatype Run = Run(id: nat, task: string, command: string, fingerprint: string, status: Status, createdAt: int)

  datatype Kind = Executable(run: nat) | Waiver | OtherKind

  datatype Evidence = Evidence(task: string, criterion: string, kind: Kind)

  datatype Log = Log(runs: seq<Run>, evidence: seq<Evidence>)

  datatype CriterionState = Uncovered | Claimed | PartiallyEvidenced | Validated | Blocked | WaivedByUser

  function Rank(s: CriterionState): nat {
    match s
    case Uncovered => 0
    case Claimed => 1
    case PartiallyEvidenced => 2
    case Validated => 3
    case Blocked => 4
    case WaivedByUser => 5
  }

  // ------------------------------------------------------------ derived state

  predicate OfTask(task: string, query: string) {
    task == query && query != ""
  }

  /** The status the task's runs give an id; none if no run of this task has it. */
  function StatusIn(runs: seq<Run>, task: string, id: nat): Option<Status> {
    if runs == [] then None
    else
      var last := runs[|runs| - 1];
      if OfTask(last.task, task) && last.id == id then Some(last.status)
      else StatusIn(runs[..|runs| - 1], task, id)
  }

  datatype Flags = Flags(passing: bool, failing: bool, waiver: bool, other: bool)

  /** What one piece of evidence says about its criterion. */
  function Says(runs: seq<Run>, task: string, e: Evidence): Flags {
    match e.kind
    case Waiver => Flags(false, false, true, false)
    case OtherKind => Flags(false, false, false, true)
    case Executable(run) =>
      match StatusIn(runs, task, run)
      case Some(Passed) => Flags(true, false, false, false)
      case Some(Failed) => Flags(false, true, false, false)
      case Some(RunBlocked) => Flags(false, true, false, false)
      case _ => Flags(false, false, false, true)
  }

  predicate About(e: Evidence, task: string, criterion: string) {
    OfTask(e.task, task) && e.criterion == criterion
  }

  predicate HasEvidence(log: Log, task: string, criterion: string) {
    exists e :: e in log.evidence && About(e, task, criterion)
  }

  predicate SomePass(log: Log, task: string, criterion: string) {
    exists e :: e in log.evidence && About(e, task, criterion) && Says(log.runs, task, e).passing
  }

  predicate SomeFail(log: Log, task: string, criterion: string) {
    exists e :: e in log.evidence && About(e, task, criterion) && Says(log.runs, task, e).failing
  }

  predicate SomeWaiver(log: Log, task: string, criterion: string) {
    exists e :: e in log.evidence && About(e, task, criterion) && Says(log.runs, task, e).waiver
  }

  /** The state of a criterion: a waiver outranks a failure, a failure outranks a pass. */
  function StateOf(log: Log, task: string, criterion: string): CriterionState {
    if SomeWaiver(log, task, criterion) then WaivedByUser
    else if SomeFail(log, task, criterion) then Blocked
    else if SomePass(log, task, criterion) then Validated
    else if HasEvidence(log, task, criterion) then PartiallyEvidenced
    else Uncovered
  }

  function Join(a: Flags, b: Flags): Flags {
    Flags(a.passing || b.passing, a.failing || b.failing, a.waiver || b.waiver, a.other || b.other)
  }

  const QUIET := Flags(false, false, false, false)

  function AllSay(log: Log, task: string, criterion: string): Flags {
    AllSayOf(log.evidence, log.runs, task, criterion)
  }

  function AllSayOf(evidence: seq<Evidence>, runs: seq<Run>, task: string, criterion: string): Flags {
    if evidence == [] then QUIET
    else
      var init, last := evidence[..|evidence| - 1], evidence[|evidence| - 1];
      Join(AllSayOf(init, runs, task, criterion), if About(last, task, criterion) then Says(runs, task, last) else QUIET)
  }

  lemma {:induction false} FlagsMean(log: Log, task: string, criterion: string)
    ensures AllSay(log, task, criterion) ==
      Flags(SomePass(log, task, criterion), SomeFail(log, task, criterion), SomeWaiver(log, task, criterion),
            AllSay(log, task, criterion).other)
    ensures AllSay(log, task, criterion) == QUIET <==> !HasEvidence(log, task, criterion)
    decreases |log.evidence|
  {
    hide Says, About;
    if log.evidence != [] {
      var init, last := log.evidence[..|log.evidence| - 1], log.evidence[|log.evidence| - 1];
      FlagsMean(Log(log.runs, init), task, criterion);
      assert log.evidence == init + [last];
      SaysSomething(log.runs, task, last);
    }
  }

  lemma SaysSomething(runs: seq<Run>, task: string, e: Evidence)
    ensures Says(runs, task, e) != QUIET
  {
  }

  // -------------------------------------------------------------- appending

  datatype Step = AddRun(run: Run) | AddEvidence(evidence: Evidence)

  predicate Knows(runs: seq<Run>, id: nat) {
    exists r :: r in runs && r.id == id
  }

  /** Run ids are fresh, and evidence names a run that was recorded before it. */
  predicate Allowed(log: Log, step: Step) {
    match step
    case AddRun(run) => !Knows(log.runs, run.id) && forall e :: e in log.evidence ==> e.kind != Executable(run.id)
    case AddEvidence(e) => e.kind.Executable? ==> Knows(log.runs, e.kind.run)
  }

  function Append(log: Log, step: Step): Log {
    match step
    case AddRun(run) => log.(runs := log.runs + [run])
    case AddEvidence(e) => log.(evidence := log.evidence + [e])
  }

  function AppendAll(log: Log, steps: seq<Step>): Log {
    if steps == [] then log else Append(AppendAll(log, steps[..|steps| - 1]), steps[|steps| - 1])
  }

  predicate AllAllowed(log: Log, steps: seq<Step>) {
    steps == [] ||
    (AllAllowed(log, steps[..|steps| - 1]) && Allowed(AppendAll(log, steps[..|steps| - 1]), steps[|steps| - 1]))
  }

  lemma StatusAfterRun(runs: seq<Run>, run: Run, task: string, id: nat)
    requires id != run.id
    ensures StatusIn(runs + [run], task, id) == StatusIn(runs, task, id)
  {
    assert (runs + [run])[..|runs|] == runs;
  }

  /** What a log says stays said. */
  lemma SaysStays(log: Log, step: Step, task: string, e: Evidence)
    requires Allowed(log, step) && e in log.evidence
    ensures Says(Append(log, step).runs, task, e) == Says(log.runs, task, e)
  {
    if step.AddRun? && e.kind.Executable? {
      StatusAfterRun(log.runs, step.run, task, e.kind.run);
    }
  }

  /** Recording a run changes no state; recording evidence only moves states up. */
  lemma StepOnlyUp(log: Log, step: Step, task: string, criterion: string)
    requires Allowed(log, step)
    ensures Rank(StateOf(log, task, criterion)) <= Rank(StateOf(Append(log, step), task, criterion))
    ensures step.AddRun? ==> StateOf(Append(log, step), task, criterion) == StateOf(log, task, criterion)
    ensures step.AddEvidence? && !About(step.evidence, task, criterion) ==>
      StateOf(Append(log, step), task, criterion) == StateOf(log, task, criterion)
  {
    var after := Append(log, step);
    forall e | e in log.evidence ensures e in after.evidence && Says(after.runs, task, e) == Says(log.runs, task, e) {
      SaysStays(log, step, task, e);
    }
    hide Says, About;
  }

  /** Over every run of the two logs, whatever the interleaving of the calls that
      append to them, a criterion's state only moves up. */
  lemma {:induction false} StatesOnlyMoveUp(log: Log, steps: seq<Step>, task: string, criterion: string)
    requires AllAllowed(log, steps)
    ensures Rank(StateOf(log, task, criterion)) <= Rank(StateOf(AppendAll(log, steps), task, criterion))
  {
    if steps != [] {
      hide StateOf, Append, Allowed;
      var init := steps[..|steps| - 1];
      StatesOnlyMoveUp(log, init, task, criterion);
      StepOnlyUp(AppendAll(log, init), steps[|steps| - 1], task, criterion);
    }
  }

  /** A failure is not undone by any later pass, only by a waiver. */
  lemma BlockedStaysBlocked(log: Log, steps: seq<Step>, task: string, criterion: string)
    requires AllAllowed(log, steps) && StateOf(log, task, criterion) == Blocked
    ensures StateOf(AppendAll(log, steps), task, criterion) == Blocked || StateOf(AppendAll(log, steps), task, criterion) == WaivedByUser
  {
    StatesOnlyMoveUp(log, steps, task, criterion);
  }

  lemma {:induction false} StatusFound(runs: seq<Run>, task: string, id: nat)
    ensures StatusIn(runs, task, id).Some? ==>
      exists r :: r in runs && r.id == id && OfTask(r.task, task) && r.status == StatusIn(runs, task, id).value
    ensures (exists r :: r in runs && r.id == id && OfTask(r.task, task)) ==> StatusIn(runs, task, id).Some?
  {
    if runs != [] {
      StatusFound(runs[..|runs| - 1], task, id);
      assert runs == runs[..|runs| - 1] + [runs[|runs| - 1]];
    }
  }

  /** A criterion is never claimed, and it is validated only if a passing run of this
      same task is attached, with no failing run of the task and no waiver. */
  lemma ValidatedMeans(log: Log, task: string, criterion: string)
    ensures StateOf(log, task, criterion) != Claimed
    ensures StateOf(log, task, criterion) == Validated ==>
      && !SomeFail(log, task, criterion) && !SomeWaiver(log, task, criterion)
      && exists e: Evidence, r: Run :: e in log.evidence && About(e, task, criterion) && e.kind == Executable(r.id)
           && r in log.runs && OfTask(r.task, task) && r.status == Passed
  {
    if StateOf(log, task, criterion) == Validated {
      var e :| e in log.evidence && About(e, task, criterion) && Says(log.runs, task, e).passing;
      StatusFound(log.runs, task, e.kind.run);
    }
  }

  // ------------------------------------------- the state, read off the two logs

  /** A run of the task with this status is attached to the criterion. */
  predicate RunAttached(log: Log, task: string, criterion: string, status: Status) {
    exists r :: r in log.runs && r.task == task && r.status == status
      && Evidence(task, criterion, Executable(r.id)) in log.evidence
  }

  predicate SomethingAttached(log: Log, task: string, criterion: string) {
    exists e :: e in log.evidence && e.task == task && e.criterion == criterion
  }

  /** The state of a criterion in a named task, from its records alone: waived exactly
      if the user waived it, otherwise blocked exactly if a failed or blocked run of
      the task is attached, otherwise validated exactly if a passed one is. */
  lemma StateMeans(log: Log, task: string, criterion: string)
    requires forall a, b :: a in log.runs && b in log.runs && a.id == b.id ==> a == b
    requires task != ""
    ensures StateOf(log, task, criterion) ==
      if Evidence(task, criterion, Waiver) in log.evidence then WaivedByUser
      else if RunAttached(log, task, criterion, Failed) || RunAttached(log, task, criterion, RunBlocked) then Blocked
      else if RunAttached(log, task, criterion, Passed) then Validated
      else if SomethingAttached(log, task, criterion) then PartiallyEvidenced
      else Uncovered
  {
    forall e | e in log.evidence && About(e, task, criterion)
      ensures Says(log.runs, task, e).waiver <==> e == Evidence(task, criterion, Waiver)
      ensures Says(log.runs, task, e).passing ==> RunAttached(log, task, criterion, Passed)
      ensures Says(log.runs, task, e).failing ==>
        RunAttached(log, task, criterion, Failed) || RunAttached(log, task, criterion, RunBlocked)
    {
      if e.kind.Executable? {
        StatusFound(log.runs, task, e.kind.run);
      }
    }
    forall r | r in log.runs && r.task == task
      ensures StatusIn(log.runs, task, r.id) == Some(r.status)
    {
      StatusFound(log.runs, task, r.id);
    }
    AttachedSays(log, task, criterion, Failed);
    AttachedSays(log, task, criterion, RunBlocked);
    AttachedSays(log, task, criterion, Passed);
  }

  lemma AttachedSays(log: Log, task: string, criterion: string, status: Status)
    requires task != "" && forall r :: r in log.runs && r.task == task ==> StatusIn(log.runs, task, r.id) == Some(r.status)
    ensures RunAttached(log, task, criterion, status) ==>
      match status
      case Passed => SomePass(log, task, criterion)
      case Failed => SomeFail(log, task, criterion)
      case RunBlocked => SomeFail(log, task, criterion)
      case Skipped => HasEvidence(log, task, criterion)
  {
    if RunAttached(log, task, criterion, status) {
      var r :| r in log.runs && r.task == task && r.status == status
        && Evidence(task, criterion, Executable(r.id)) in log.evidence;
      assert About(Evidence(task, criterion, Executable(r.id)), task, criterion);
    }
  }

  // -------------------------------------------------------- one validation run

  /** How executing the command ended. */
  datatype Ending = PermissionDenied | RunnerError | Exited(code: int)

  function StatusFor(ending: Ending, cancelled: bool): Status {
    if ending.PermissionDenied? || cancelled then Skipped
    else if ending.RunnerError? then Failed
    else if ending.code == 0 then Passed
    else Failed
  }

  function WithEvidence(log: Log, task: string, criteria: seq<string>, run: nat): Log {
    if criteria == [] then log
    else Append(WithEvidence(log, task, criteria[..|criteria| - 1], run),
                AddEvidence(Evidence(task, criteria[|criteria| - 1], Executable(run))))
  }

  /** Attaching a known run keeps everything allowed, leaves other criteria alone, and
      tells each of its criteria what the run says. */
  lemma {:induction false} EvidenceMeans(log: Log, task: string, criteria: seq<string>, run: nat, query: string, c: string)
    requires Knows(log.runs, run)
    ensures
      var after := WithEvidence(log, task, criteria, run);
      && after.runs == log.runs
      && Rank(StateOf(log, query, c)) <= Rank(StateOf(after, query, c))
      && (!(OfTask(task, query) && c in criteria) ==> StateOf(after, query, c) == StateOf(log, query, c))
      && (forall e :: e in log.evidence ==> e in after.evidence)
      && (forall e :: e in after.evidence ==> e in log.evidence || (e.kind == Executable(run) && e.criterion in criteria))
      && (OfTask(task, query) && c in criteria ==> Evidence(task, c, Executable(run)) in after.evidence)
  {
    if criteria != [] {
      var init, last := criteria[..|criteria| - 1], criteria[|criteria| - 1];
      assert criteria == init + [last];
      EvidenceMeans(log, task, init, run, query, c);
      hide StateOf;
      StepOnlyUp(WithEvidence(log, task, init, run), AddEvidence(Evidence(task, last, Executable(run))), query, c);
    }
  }

  /** One piece of evidence per criterion, in their order. */
  function Pieces(task: string, criteria: seq<string>, run: nat): seq<Evidence> {
    seq(|criteria|, i requires 0 <= i < |criteria| => Evidence(task, criteria[i], Executable(run)))
  }

  lemma {:induction false} WithEvidenceIs(log: Log, task: string, criteria: seq<string>, run: nat)
    ensures WithEvidence(log, task, criteria, run) == Log(log.runs, log.evidence + Pieces(task, criteria, run))
  {
    if criteria == [] {
      assert log.evidence + Pieces(task, criteria, run) == log.evidence;
    } else {
      var init, last := criteria[..|criteria| - 1], criteria[|criteria| - 1];
      WithEvidenceIs(log, task, init, run);
      assert Pieces(task, criteria, run) == Pieces(task, init, run) + [Evidence(task, last, Executable(run))];
      assert log.evidence + Pieces(task, criteria, run) ==
        log.evidence + Pieces(task, init, run) + [Evidence(task, last, Executable(run))];
    }
  }

  /** What attaching a run does to one of its criteria, by the run's status in the
      task: a pass validates what was not failed or waived; a failure blocks what was
      not waived; a run of another task is only partial evidence. */
  lemma AttachedMeans(log: Log, task: string, criteria: seq<string>, run: nat, c: string)
    requires Knows(log.runs, run) && task != "" && c in criteria
    ensures
      var before, after := StateOf(log, task, c), StateOf(WithEvidence(log, task, criteria, run), task, c);
      match StatusIn(log.runs, task, run)
      case Some(Passed) => after == if Rank(before) >= Rank(Blocked) then before else Validated
      case Some(Skipped) => after == if before == Uncovered then PartiallyEvidenced else before
      case None => after == if before == Uncovered then PartiallyEvidenced else before
      case Some(_) => after == if before == WaivedByUser then before else Blocked
  {
    var after := WithEvidence(log, task, criteria, run);
    EvidenceMeans(log, task, criteria, run, task, c);
    var mine := Evidence(task, c, Executable(run));
    assert mine in after.evidence && About(mine, task, c);
    forall e | e in after.evidence && e !in log.evidence && About(e, task, c)
      ensures Says(after.runs, task, e) == Says(log.runs, task, mine)
    {
    }
    assert Says(after.runs, task, mine) == Says(log.runs, task, mine);
    AttachedFlags(log, after, task, c, mine);
  }

  lemma AttachedFlags(log: Log, after: Log, task: string, c: string, mine: Evidence)
    requires after.runs == log.runs && mine in after.evidence && About(mine, task, c)
    requires forall e :: e in log.evidence ==> e in after.evidence
    requires forall e :: e in after.evidence && e !in log.evidence && About(e, task, c) ==>
      Says(after.runs, task, e) == Says(log.runs, task, mine)
    ensures SomePass(after, task, c) <==> SomePass(log, task, c) || Says(log.runs, task, mine).passing
    ensures SomeFail(after, task, c) <==> SomeFail(log, task, c) || Says(log.runs, task, mine).failing
    ensures SomeWaiver(after, task, c) <==> SomeWaiver(log, task, c) || Says(log.runs, task, mine).waiver
    ensures HasEvidence(after, task, c)
  {
    hide Says, About;
  }

  // --------------------------------------------------- what one call achieves

  /** The logs after a call that ran its command: the run, and unless it was skipped
      its evidence for the first criteria. */
  function AfterFresh(log: Log, criteria: seq<string>, run: Run): Log {
    var recorded := Append(log, AddRun(run));
    if run.status == Skipped then recorded else WithEvidence(recorded, run.task, criteria, run.id)
  }

  lemma FreshIs(log: Log, criteria: seq<string>, run: Run)
    ensures AfterFresh(log, criteria, run) ==
      Log(log.runs + [run], log.evidence + if run.status == Skipped then [] else Pieces(run.task, criteria, run.id))
  {
    WithEvidenceIs(Append(log, AddRun(run)), run.task, criteria, run.id);
  }

  lemma FreshStatus(log: Log, run: Run, task: string)
    ensures StatusIn(Append(log, AddRun(run)).runs, task, run.id) ==
      if OfTask(run.task, task) then Some(run.status) else StatusIn(log.runs, task, run.id)
  {
    assert (log.runs + [run])[..|log.runs|] == log.runs;
  }

  /** A denied or cancelled command leaves every state of every task as it was. */
  lemma SkippedChangesNothing(log: Log, criteria: seq<string>, run: Run, task: string, c: string)
    requires Allowed(log, AddRun(run)) && run.status == Skipped
    ensures StateOf(AfterFresh(log, criteria, run), task, c) == StateOf(log, task, c)
  {
    StepOnlyUp(log, AddRun(run), task, c);
  }

  /** A call that ran its command validates or blocks exactly its own criteria: after
      a failure each is blocked or waived, after a pass none is merely partial. */
  lemma FreshRunMeans(log: Log, criteria: seq<string>, run: Run, task: string, c: string)
    requires Allowed(log, AddRun(run)) && run.status != Skipped
    ensures
      var before, after := StateOf(log, task, c), StateOf(AfterFresh(log, criteria, run), task, c);
      if OfTask(run.task, task) && c in criteria then
        if run.status == Passed then after == (if Rank(before) >= Rank(Blocked) then before else Validated)
        else after == if before == WaivedByUser then before else Blocked
      else after == before
  {
    var recorded := Append(log, AddRun(run));
    StepOnlyUp(log, AddRun(run), task, c);
    assert Knows(recorded.runs, run.id);
    EvidenceMeans(recorded, run.task, criteria, run.id, task, c);
    FreshStatus(log, run, task);
    hide StateOf, Append, WithEvidence, StatusIn, Allowed;
    if OfTask(run.task, task) && c in criteria {
      AttachedMeans(recorded, task, criteria, run.id, c);
    }
  }

  /** The cached run's evidence validates a criterion that nothing else decides exactly
      when the cached run is this task's own. */
  lemma CachedRunValidatesIff(log: Log, criteria: seq<string>, run: Run, task: string, c: string)
    requires run in log.runs && run.status == Passed && task != "" && c in criteria
    requires forall a, b :: a in log.runs && b in log.runs && a.id == b.id ==> a == b
    requires Rank(StateOf(log, task, c)) < Rank(Validated)
    ensures StateOf(WithEvidence(log, task, criteria, run.id), task, c) ==
      if run.task == task then Validated else PartiallyEvidenced
  {
    StatusFound(log.runs, task, run.id);
    AttachedMeans(log, task, criteria, run.id, c);
    hide StatusIn, WithEvidence;
    ValidatedMeans(log, task, c);
  }

  /** When a failing run's evidence is lost from the k-th criterion on, those criteria
      keep their state, so a validated one still reads validated; the call reports
      the lost write. */
  lemma LostEvidenceChangesNothing(log: Log, criteria: seq<string>, run: Run, k: nat, c: string)
    requires Allowed(log, AddRun(run)) && k <= |criteria| && c !in criteria[..k]
    ensures StateOf(AfterFresh(log, criteria[..k], run), run.task, c) == StateOf(log, run.task, c)
  {
    if run.status == Skipped {
      SkippedChangesNothing(log, criteria[..k], run, run.task, c);
    } else {
      FreshRunMeans(log, criteria[..k], run, run.task, c);
    }
  }

  // --------------------------------------- a call and the states read after it

  /** The states after a call that ran its command, from how the command ended. An exit
      code of 0 validates each of the call's criteria that was neither blocked nor
      waived; an error or another code blocks each that was not waived; after a denial
      or a cancellation, and for every other criterion, nothing changes. */
  ghost predicate Settles(before: Log, after: Log, task: string, criteria: seq<string>, ending: Ending, cancelled: bool) {
    forall t, c ::
      var was, now := StateOf(before, t, c), StateOf(after, t, c);
      if ending == PermissionDenied || cancelled || t != task || t == "" || c !in criteria then now == was
      else if ending == Exited(0) then now == if was == Blocked || was == WaivedByUser then was else Validated
      else now == if was == WaivedByUser then was else Blocked
  }

  /** A criterion reads validated that did not before only if it is the call's own and,
      where a pass of the command on these inputs is known, the task has one; where none
      is, the command ended with code 0. */
  ghost predicate ValidatesOnlyByPass(before: Log, after: Log, task: string, command: string, criteria: seq<string>,
                                      fingerprint: string, ending: Ending, cancelled: bool) {
    forall t, c :: StateOf(after, t, c) == Validated && StateOf(before, t, c) != Validated ==>
      && t == task && t != "" && c in criteria
      && if PassKnown(before.runs, command, fingerprint) then PassedBefore(before.runs, task, command, fingerprint)
         else ending == Exited(0) && !cancelled
  }

  /** A run of the task that passed with this command on these known inputs. */
  predicate PassedBefore(runs: seq<Run>, task: string, command: string, fingerprint: string) {
    fingerprint != "" &&
    exists r :: r in runs && r.task == task && r.command == command && r.fingerprint == fingerprint && r.status == Passed
  }

  predicate PassKnown(runs: seq<Run>, command: string, fingerprint: string) {
    fingerprint != "" && exists r :: r in runs && r.command == command && r.fingerprint == fingerprint && r.status == Passed
  }

  lemma EndingSettles(log: Log, criteria: seq<string>, run: Run, ending: Ending, cancelled: bool)
    requires Allowed(log, AddRun(run)) && run.status == StatusFor(ending, cancelled)
    ensures Settles(log, AfterFresh(log, criteria, run), run.task, criteria, ending, cancelled)
  {
    hide StateOf, AfterFresh, Allowed;
    forall t, c
      ensures
        var was, now := StateOf(log, t, c), StateOf(AfterFresh(log, criteria, run), t, c);
        if ending == PermissionDenied || cancelled || t != run.task || t == "" || c !in criteria then now == was
        else if ending == Exited(0) then now == if was == Blocked || was == WaivedByUser then was else Validated
        else now == if was == WaivedByUser then was else Blocked
    {
      if run.status == Skipped {
        SkippedChangesNothing(log, criteria, run, t, c);
      } else {
        FreshRunMeans(log, criteria, run, t, c);
      }
    }
  }

  lemma FreshValidates(log: Log, criteria: seq<string>, k: nat, run: Run, ending: Ending, cancelled: bool)
    requires Allowed(log, AddRun(run)) && run.status == StatusFor(ending, cancelled) && k <= |criteria|
    requires !PassKnown(log.runs, run.command, run.fingerprint)
    ensures ValidatesOnlyByPass(log, AfterFresh(log, criteria[..k], run), run.task, run.command, criteria, run.fingerprint, ending, cancelled)
  {
    EndingSettles(log, criteria[..k], run, ending, cancelled);
    hide StateOf, AfterFresh, Allowed, PassedBefore, PassKnown;
  }

  lemma CachedValidates(log: Log, task: string, criteria: seq<string>, k: nat, run: Run, ending: Ending, cancelled: bool)
    requires run in log.runs && run.status == Passed && run.fingerprint != "" && k <= |criteria|
    requires forall a, b :: a in log.runs && b in log.runs && a.id == b.id ==> a == b
    ensures ValidatesOnlyByPass(log, WithEvidence(log, task, criteria[..k], run.id), task, run.command, criteria, run.fingerprint,
                                ending, cancelled)
  {
    hide StateOf, WithEvidence, StatusIn, PassedBefore, PassKnown;
    var after := WithEvidence(log, task, criteria[..k], run.id);
    assert Knows(log.runs, run.id);
    OwnPass(log.runs, run);
    forall t, c | StateOf(after, t, c) == Validated && StateOf(log, t, c) != Validated
      ensures t == task && t != "" && c in criteria && PassedBefore(log.runs, task, run.command, run.fingerprint)
    {
      EvidenceMeans(log, task, criteria[..k], run.id, t, c);
      CachedRunValidatesIff(log, criteria[..k], run, t, c);
    }
  }

  lemma NothingValidates(log: Log, task: string, command: string, criteria: seq<string>, fingerprint: string,
                         ending: Ending, cancelled: bool)
    ensures ValidatesOnlyByPass(log, log, task, command, criteria, fingerprint, ending, cancelled)
  {
  }

  lemma OwnPass(runs: seq<Run>, run: Run)
    requires run in runs && run.status == Passed && run.fingerprint != ""
    ensures PassedBefore(runs, run.task, run.command, run.fingerprint) && PassKnown(runs, run.command, run.fingerprint)
  {
  }

  /** Calls append only what is allowed. */
  lemma {:induction false} FreshIsAllowed(log: Log, criteria: seq<string>, run: Run)
    requires Allowed(log, AddRun(run))
    ensures exists steps :: AllAllowed(log, steps) && AppendAll(log, steps) == AfterFresh(log, criteria, run)
  {
    var recorded := Append(log, AddRun(run));
    var steps := [AddRun(run)];
    assert steps[..0] == [];
    assert AppendAll(log, []) == log;
    assert AppendAll(log, steps) == recorded && AllAllowed(log, steps);
    if run.status != Skipped {
      AttachIsAllowed(log, steps, run.task, criteria, run.id);
    }
  }

  lemma {:induction false} AttachIsAllowed(log: Log, steps: seq<Step>, task: string, criteria: seq<string>, run: nat)
    requires AllAllowed(log, steps) && Knows(AppendAll(log, steps).runs, run)
    ensures exists more :: AllAllowed(log, more) && AppendAll(log, more) == WithEvidence(AppendAll(log, steps), task, criteria, run)
  {
    if criteria != [] {
      var init, last := criteria[..|criteria| - 1], criteria[|criteria| - 1];
      AttachIsAllowed(log, steps, task, init, run);
      var more :| AllAllowed(log, more) && AppendAll(log, more) == WithEvidence(AppendAll(log, steps), task, init, run);
      var step := AddEvidence(Evidence(task, last, Executable(run)));
      EvidenceMeans(AppendAll(log, steps), task, init, run, task, last);
      assert (more + [step])[..|more|] == more;
      assert AllAllowed(log, more + [step]);
    }
  }

  /** Only the user's waiver waives, and it always does. */
  lemma WaiverMeans(log: Log, step: Step, task: string, c: string)
    requires Allowed(log, step) && task != ""
    ensures StateOf(Append(log, step), task, c) == WaivedByUser <==>
      StateOf(log, task, c) == WaivedByUser || step == AddEvidence(Evidence(task, c, Waiver))
  {
    StepOnlyUp(log, step, task, c);
    if step.AddEvidence? {
      assert step.evidence in Append(log, step).evidence;
    }
  }

  // ------------------------------------------------------- reading the state

  /** A criterion's evidence in a task, oldest first. */
  function Bucket(evidence: seq<Evidence>, task: string, criterion: string): seq<Evidence> {
    if evidence == [] then []
    else
      var init, last := evidence[..|evidence| - 1], evidence[|evidence| - 1];
      Bucket(init, task, criterion) + if About(last, task, criterion) then [last] else []
  }

  ghost predicate Reports(status: map<nat, Status>, runs: seq<Run>, task: string) {
    forall id: nat :: (id in status <==> StatusIn(runs, task, id).Some?) && (id in status ==> StatusIn(runs, task, id) == Some(status[id]))
  }

  function FlagsOf(bucket: seq<Evidence>, runs: seq<Run>, task: string): Flags {
    if bucket == [] then QUIET
    else Join(FlagsOf(bucket[..|bucket| - 1], runs, task), Says(runs, task, bucket[|bucket| - 1]))
  }

  lemma {:induction false} BucketSays(evidence: seq<Evidence>, runs: seq<Run>, task: string, criterion: string)
    ensures FlagsOf(Bucket(evidence, task, criterion), runs, task) == AllSayOf(evidence, runs, task, criterion)
    ensures Bucket(evidence, task, criterion) == [] <==> AllSayOf(evidence, runs, task, criterion) == QUIET
  {
    hide Says, About;
    if evidence != [] {
      var init, last := evidence[..|evidence| - 1], evidence[|evidence| - 1];
      BucketSays(init, runs, task, criterion);
      SaysSomething(runs, task, last);
      var b := Bucket(init, task, criterion);
      if About(last, task, criterion) {
        assert (b + [last])[..|b|] == b;
      } else {
        assert b + [] == b;
      }
    }
  }

  function Concluded(f: Flags): CriterionState {
    if f.waiver then WaivedByUser
    else if f.failing then Blocked
    else if f.passing then Validated
    else if f.other then PartiallyEvidenced
    else Uncovered
  }

  lemma ConcludedIsState(log: Log, task: string, criterion: string)
    ensures Concluded(FlagsOf(Bucket(log.evidence, task, criterion), log.runs, task)) == StateOf(log, task, criterion)
  {
    BucketSays(log.evidence, log.runs, task, criterion);
    FlagsMean(log, task, criterion);
    hide Bucket, FlagsOf, AllSayOf, SomePass, SomeFail, SomeWaiver, HasEvidence;
  }

  /** The switch over one criterion's evidence; its default case is never taken. */
  method DeriveState(bucket: seq<Evidence>, status: map<nat, Status>, ghost runs: seq<Run>, ghost task: string)
    returns (state: CriterionState)
    requires Reports(status, runs, task)
    ensures state == Concluded(FlagsOf(bucket, runs, task)) && state != Claimed
  {
    if |bucket| == 0 {
      assert FlagsOf(bucket, runs, task) == QUIET;
      return Uncovered;
    }
    var passing, failing, waiver, other := false, false, false, false;
    var k := 0;
    assert bucket[..0] == [];
    while k < |bucket|
      invariant k <= |bucket|
      invariant Flags(passing, failing, waiver, other) == FlagsOf(bucket[..k], runs, task)
      invariant k > 0 ==> passing || failing || waiver || other
    {
      assert bucket[..k + 1][..k] == bucket[..k];
      var e := bucket[k];
      match e.kind {
        case Waiver => waiver := true;
        case Executable(run) =>
          if run in status && status[run] == Passed {
            passing := true;
          } else if run in status && (status[run] == Failed || status[run] == RunBlocked) {
            failing := true;
          } else {
            other := true;
          }
        case OtherKind => other := true;
      }
      k := k + 1;
    }
    assert bucket[..k] == bucket;
    if waiver {
      state := WaivedByUser;
    } else if failing {
      state := Blocked;
    } else if passing {
      state := Validated;
    } else if other {
      state := PartiallyEvidenced;
    } else {
      state := Claimed;
    }
  }

  // ------------------------------------------------------------ the service

  predicate PassOf(r: Run, command: string, fingerprint: string) {
    r.command == command && r.fingerprint == fingerprint && r.status == Passed
  }

  /** There is a pass of the same command on the same inputs, and the inputs are known. */
  predicate Reusable(runs: seq<Run>, command: string, fingerprint: string) {
    fingerprint != "" && exists r :: r in runs && PassOf(r, command, fingerprint)
  }

  /** The run is such a pass, and none is newer. */
  predicate Reuses(runs: seq<Run>, run: Run, command: string, fingerprint: string) {
    && fingerprint != "" && run in runs && PassOf(run, command, fingerprint)
    && forall r :: r in runs && PassOf(r, command, fingerprint) ==> r.createdAt <= run.createdAt
  }

  /** How often a call writes to the store. */
  function WritesOf(reused: bool, status: Status, criteria: seq<string>): nat {
    if reused then |criteria| else if status == Skipped then 1 else 1 + |criteria|
  }

  datatype RunResult = StoreFailed | Finished(run: Run, cached: bool)

  class Service {
    var runs: seq<Run>
    var evidence: seq<Evidence>
    var nextId: nat

    ghost function Logs(): Log
      reads this
    {
      Log(runs, evidence)
    }

    /** Run ids are unique, and evidence names recorded runs. */
    ghost predicate Valid()
      reads this
    {
      && (forall r :: r in runs ==> r.id < nextId)
      && (forall a, b :: a in runs && b in runs && a.id == b.id ==> a == b)
      && (forall e :: e in evidence && e.kind.Executable? ==> Knows(runs, e.kind.run) && e.kind.run < nextId)
    }

    constructor ()
      ensures Valid() && Logs() == Log([], [])
    {
      runs, evidence, nextId := [], [], 0;
    }

    /** The newest passing run of the same command on the same, known inputs. */
    method CachedPass(command: string, fingerprint: string) returns (found: Option<Run>)
      ensures found.Some? <==> Reusable(runs, command, fingerprint)
      ensures found.Some? ==> Reuses(runs, found.value, command, fingerprint)
      ensures found.None? <==>
        (fingerprint == "" ||
         forall r :: r in runs && r.status == Passed && r.command == command ==> r.fingerprint != fingerprint)
      ensures match found
        case None => true
        case Some(r) =>
          && r in runs && r.status == Passed && r.command == command && r.fingerprint == fingerprint
          && forall s :: s in runs && s.status == Passed && s.command == command && s.fingerprint == fingerprint ==>
               s.createdAt <= r.createdAt
    {
      found := None;
      if fingerprint == "" {
        return;
      }
      var k := 0;
      while k < |runs|
        invariant k <= |runs|
        invariant found.Some? <==> Reusable(runs[..k], command, fingerprint)
        invariant found.Some? ==> Reuses(runs[..k], found.value, command, fingerprint)
      {
        var r := runs[k];
        assert runs[..k + 1] == runs[..k] + [r];
        if PassOf(r, command, fingerprint) {
          if found.None? || found.value.createdAt < r.createdAt {
            found := Some(r);
          }
        }
        k := k + 1;
      }
      assert runs[..k] == runs;
    }

    method InsertRun(run: Run)
      requires Valid() && Allowed(Logs(), AddRun(run)) && run.id < nextId
      modifies this`runs
      ensures Valid() && Logs() == Append(old(Logs()), AddRun(run))
    {
      runs := runs + [run];
    }

    method InsertEvidence(e: Evidence)
      requires Valid() && Allowed(Logs(), AddEvidence(e))
      modifies this`evidence
      ensures Valid() && Logs() == Append(old(Logs()), AddEvidence(e))
    {
      evidence := evidence + [e];
    }

    /** One write per criterion, in order, until one fails. */
    method AttachEvidence(task: string, criteria: seq<string>, run: nat, failAt: nat) returns (ok: bool)
      requires Valid() && Knows(runs, run)
      modifies this`evidence
      ensures Valid() && (ok <==> |criteria| <= failAt)
      ensures Logs() == WithEvidence(old(Logs()), task, if ok then criteria else criteria[..failAt], run)
    {
      var k := 0;
      assert criteria[..0] == [];
      while k < |criteria|
        invariant k <= |criteria| && k <= failAt && Valid()
        invariant Logs() == WithEvidence(old(Logs()), task, criteria[..k], run) && runs == old(runs)
      {
        if k == failAt {
          return false;
        }
        assert criteria[..k + 1][..k] == criteria[..k];
        InsertEvidence(Evidence(task, criteria[k], Executable(run)));
        k := k + 1;
      }
      assert criteria[..k] == criteria;
      ok := true;
    }

    /** Run a command, or reuse a passing run, and record what it says. `failAt` is the
        number of the store's writes in this call before the first that fails; the
        call reports a failure exactly when it gets that far. */
    method RunIntent(task: string, command: string, criteria: seq<string>, fingerprint: string,
                     ending: Ending, cancelled: bool, now: int, failAt: nat) returns (result: RunResult)
      requires Valid()
      modifies this
      ensures Valid()
      ensures
        var reused := Reusable(old(runs), command, fingerprint);
        && (result.StoreFailed? <==> failAt < WritesOf(reused, StatusFor(ending, cancelled), criteria))
        && (result.Finished? ==> (result.cached <==> reused))
      ensures result.Finished? && result.cached ==>
        && Reuses(old(runs), result.run, command, fingerprint)
        && Logs() == WithEvidence(old(Logs()), task, criteria, result.run.id)
      ensures result.Finished? && !result.cached ==>
        && result.run == Run(old(nextId), task, command, fingerprint, StatusFor(ending, cancelled), now)
        && Allowed(old(Logs()), AddRun(result.run))
        && Logs() == AfterFresh(old(Logs()), criteria, result.run)
      ensures result.StoreFailed? && Reusable(old(runs), command, fingerprint) ==>
        failAt < |criteria| &&
        exists r :: Reuses(old(runs), r, command, fingerprint) && Logs() == WithEvidence(old(Logs()), task, criteria[..failAt], r.id)
      ensures result.StoreFailed? && !Reusable(old(runs), command, fingerprint) ==>
        if failAt == 0 then Logs() == old(Logs())
        else
          failAt - 1 < |criteria| &&
          var run := Run(old(nextId), task, command, fingerprint, StatusFor(ending, cancelled), now);
          Logs() == AfterFresh(old(Logs()), criteria[..failAt - 1], run)
      ensures result.Finished? ==>
        && runs == (if result.cached then old(runs) else old(runs) + [result.run])
        && evidence == old(evidence) +
             if !result.cached && (ending == PermissionDenied || cancelled) then [] else Pieces(task, criteria, result.run.id)
      ensures result.Finished? && !result.cached ==> Settles(old(Logs()), Logs(), task, criteria, ending, cancelled)
      ensures ValidatesOnlyByPass(old(Logs()), Logs(), task, command, criteria, fingerprint, ending, cancelled)
    {
      hide WithEvidence, AfterFresh, Settles, ValidatesOnlyByPass;
      ghost var log := Logs();
      var cached := CachedPass(command, fingerprint);
      if cached.Some? {
        assert Reuses(runs, cached.value, command, fingerprint);
        assert Knows(runs, cached.value.id);
        var attached := AttachEvidence(task, criteria, cached.value.id, failAt);
        CachedValidates(log, task, criteria, if attached then |criteria| else failAt, cached.value, ending, cancelled);
        WithEvidenceIs(log, task, criteria, cached.value.id);
        assert criteria[..|criteria|] == criteria;
        if !attached {
          return StoreFailed;
        }
        return Finished(cached.value, true);
      }
      assert !Reusable(runs, command, fingerprint);
      ghost var run := Run(nextId, task, command, fingerprint, StatusFor(ending, cancelled), now);
      result := RunFresh(Run(nextId, task, command, fingerprint, StatusFor(ending, cancelled), now), criteria, failAt);
      if result.Finished? {
        EndingSettles(log, criteria, run, ending, cancelled);
        assert criteria[..|criteria|] == criteria;
        FreshValidates(log, criteria, |criteria|, run, ending, cancelled);
        FreshIs(log, criteria, run);
      } else if failAt > 0 {
        FreshValidates(log, criteria, failAt - 1, run, ending, cancelled);
      } else {
        NothingValidates(log, task, command, criteria, fingerprint, ending, cancelled);
      }
    }

    /** Record a run that was just executed, and its evidence. */
    method RunFresh(run: Run, criteria: seq<string>, failAt: nat) returns (result: RunResult)
      requires Valid() && run.id == nextId
      modifies this
      ensures Valid() && Allowed(old(Logs()), AddRun(run))
      ensures result == if failAt < WritesOf(false, run.status, criteria) then StoreFailed else Finished(run, false)
      ensures result.Finished? ==> Logs() == AfterFresh(old(Logs()), criteria, run)
      ensures result.StoreFailed? ==>
        if failAt == 0 then Logs() == old(Logs())
        else failAt - 1 < |criteria| && Logs() == AfterFresh(old(Logs()), criteria[..failAt - 1], run)
    {
      hide WithEvidence;
      assert Allowed(Logs(), AddRun(run));
      nextId := nextId + 1;
      if failAt == 0 {
        return StoreFailed;
      }
      InsertRun(run);
      if run.status == Skipped {
        return Finished(run, false);
      }
      assert run in runs;
      var attached := AttachEvidence(run.task, criteria, run.id, failAt - 1);
      if !attached {
        return StoreFailed;
      }
      result := Finished(run, false);
    }

    /** A waiver decides its criterion and no other. */
    method WaiveCriterion(task: string, criterion: string)
      requires Valid()
      modifies this`evidence
      ensures Valid() && Logs() == Append(old(Logs()), AddEvidence(Evidence(task, criterion, Waiver)))
    {
      InsertEvidence(Evidence(task, criterion, Waiver));
    }

    method StatusesForTask(task: string) returns (status: map<nat, Status>)
      ensures Reports(status, runs, task)
    {
      status := map[];
      var k := 0;
      while k < |runs|
        invariant k <= |runs| && Reports(status, runs[..k], task)
      {
        var r := runs[k];
        assert runs[..k + 1][..k] == runs[..k];
        if OfTask(r.task, task) {
          status := status[r.id := r.status];
        }
        k := k + 1;
      }
      assert runs[..k] == runs;
    }

    method EvidenceByCriterion(task: string) returns (buckets: map<string, seq<Evidence>>)
      ensures forall c :: (if c in buckets then buckets[c] else []) == Bucket(evidence, task, c)
    {
      buckets := map[];
      var k := 0;
      while k < |evidence|
        invariant k <= |evidence|
        invariant forall c :: (if c in buckets then buckets[c] else []) == Bucket(evidence[..k], task, c)
      {
        var e := evidence[k];
        assert evidence[..k + 1][..k] == evidence[..k];
        if OfTask(e.task, task) {
          buckets := buckets[e.criterion := (if e.criterion in buckets then buckets[e.criterion] else []) + [e]];
        }
        k := k + 1;
      }
      assert evidence[..k] == evidence;
    }

    /** Every asked criterion gets the state its recorded evidence gives it. */
    method ProofOfDone(task: string, criteria: seq<string>) returns (out: map<string, CriterionState>)
      ensures out.Keys == set c | c in criteria
      ensures forall c :: c in out ==> out[c] == StateOf(Logs(), task, c)
    {
      hide Bucket, FlagsOf, StateOf, Reports;
      var buckets := EvidenceByCriterion(task);
      var status := StatusesForTask(task);
      out := map[];
      var k := 0;
      while k < |criteria|
        invariant k <= |criteria| && out.Keys == set c | c in criteria[..k]
        invariant forall c :: c in out ==> out[c] == StateOf(Logs(), task, c)
      {
        var c := criteria[k];
        assert criteria[..k + 1] == criteria[..k] + [c];
        var state := DeriveState(if c in buckets then buckets[c] else [], status, runs, task);
        ConcludedIsState(Logs(), task, c);
        out := out[c := state];
        k := k + 1;
      }
      assert criteria[..k] == criteria;
    }
  }
}
