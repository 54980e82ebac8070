/** The reconciler: each call settles at most one leg, by reading an execution the leg has recorded. */
module RunnerReconciler {
  import opened Options
  import opened RunnerStates
  import opened RunnerStore

  // ---------- What the server says ----------

  datatype ExecutionStatus =
    | Received | RiskReserved | AwaitingSignature | Submitting | Submitted | PendingFill
    | Filled | Rejected | CancelledThere | ExpiredThere

  predicate Final(status: ExecutionStatus) {
    status.Filled? || status.Rejected? || status.CancelledThere? || status.ExpiredThere?
  }

  datatype Read = Read(status: ExecutionStatus, digest: Option<string>, fillDigest: Option<string>)

  /** What each execution answers when read now; `None` when the read itself fails. */
  type Gateway = string -> Option<Read>

  function JobTerminal(status: ExecutionStatus): JobState
    requires Final(status)
  {
    match status
    case Filled => FILLED
    case CancelledThere => CANCELLED
    case ExpiredThere => EXPIRED
    case _ => FAILED
  }

  function LegTerminal(status: ExecutionStatus): LegStatus
    requires Final(status)
  {
    if status.Filled? then SUCCEEDED else LEG_FAILED
  }

  predicate SubmissionObserved(read: Read) {
    || read.digest.Some?
    || read.status.Submitting? || read.status.Submitted? || read.status.PendingFill? || read.status.Filled?
  }

  function OutcomeOf(kind: Kind, read: Read): AttemptOutcome {
    if kind == SUBMIT_EXECUTION && !SubmissionObserved(read) then REFUSED else TOOK_EFFECT
  }

  /** What a read teaches the leg. */
  function PatchFor(read: Read): Patch {
    Patch(if Final(read.status) then Some(LegTerminal(read.status)) else None, None, read.digest, read.fillDigest, NO_QUOTES)
  }

  // ---------- Choosing the leg ----------

  predicate Resolved(leg: Leg) {
    leg.status == SUCCEEDED || leg.status == LEG_FAILED || leg.status == SKIPPED
  }

  predicate AllResolved(legs: seq<Leg>) {
    forall p :: 0 <= p < |legs| ==> Resolved(legs[p])
  }

  predicate Attempted(db: Db, job: string, index: nat) {
    exists a | a in db.attempts :: db.attempts[a].job == job && db.attempts[a].leg == index
  }

  predicate Unsent(db: Db, job: string, leg: Leg) {
    !Resolved(leg) && leg.execution.None? && !Attempted(db, job, leg.index)
  }

  predicate Readable(leg: Leg) {
    !Resolved(leg) && leg.execution.Some?
  }

  /** The first leg a condition holds of. */
  function Find(legs: seq<Leg>, condition: Leg -> bool): (p: Option<nat>)
    ensures p.Some? ==> p.value < |legs| && condition(legs[p.value])
    ensures p.Some? ==> forall q :: 0 <= q < p.value ==> !condition(legs[q])
    ensures p.None? ==> forall q :: 0 <= q < |legs| ==> !condition(legs[q])
  {
    FindFrom(legs, condition, 0)
  }

  function FindFrom(legs: seq<Leg>, condition: Leg -> bool, from: nat): (p: Option<nat>)
    requires from <= |legs|
    ensures p.Some? ==> from <= p.value < |legs| && condition(legs[p.value])
    ensures p.Some? ==> forall q :: from <= q < p.value ==> !condition(legs[q])
    ensures p.None? ==> forall q :: from <= q < |legs| ==> !condition(legs[q])
    decreases |legs| - from
  {
    if from == |legs| then None else if condition(legs[from]) then Some(from) else FindFrom(legs, condition, from + 1)
  }

  /** Looked for before anything is read: such a leg is for the driver, with a new price. */
  function FirstUnsent(db: Db, job: string, legs: seq<Leg>): (p: Option<nat>)
    ensures p.Some? ==> p.value < |legs| && Unsent(db, job, legs[p.value])
    ensures p.Some? ==> forall q :: 0 <= q < p.value ==> !Unsent(db, job, legs[q])
    ensures p.None? ==> forall q :: 0 <= q < |legs| ==> !Unsent(db, job, legs[q])
  {
    Find(legs, leg => Unsent(db, job, leg))
  }

  function FirstReadable(legs: seq<Leg>): (p: Option<nat>)
    ensures p.Some? ==> p.value < |legs| && Readable(legs[p.value])
    ensures p.Some? ==> forall q :: 0 <= q < p.value ==> !Readable(legs[q])
    ensures p.None? ==> forall q :: 0 <= q < |legs| ==> !Readable(legs[q])
  {
    Find(legs, leg => Readable(leg))
  }

  function FirstUnresolved(legs: seq<Leg>): (p: Option<nat>)
    ensures p.Some? ==> p.value < |legs| && !Resolved(legs[p.value])
    ensures p.Some? ==> forall q :: 0 <= q < p.value ==> Resolved(legs[q])
    ensures p.None? ==> AllResolved(legs)
  {
    Find(legs, leg => !Resolved(leg))
  }

  predicate SomeSucceeded(legs: seq<Leg>) {
    exists p :: 0 <= p < |legs| && legs[p].status == SUCCEEDED
  }

  predicate UnderWay(db: Db, job: string)
    requires job in db.jobs
  {
    || (exists a | a in db.attempts :: db.attempts[a].job == job)
    || (exists p :: 0 <= p < |db.jobs[job].legs| && db.jobs[job].legs[p].execution.Some?)
  }

  // ---------- One call ----------

  datatype Disposition =
    | TERMINAL | LEG_RESOLVED | STILL_PENDING | INCONCLUSIVE | REPLAYABLE | REARMED | NOT_APPLICABLE

  datatype Reconciled = Reconciled(from: JobState, to: JobState, disposition: Disposition, leg: Option<nat>,
    status: Option<ExecutionStatus>)

  datatype Answer = Answer(result: Reconciled) | Refusal(error: StoreError) | ReadFailed

  /** One transaction for the outcome of a read: the leg's new fields, and the end of its open attempt. */
  method ApplyLeg(store: JobStore, lease: Lease, index: nat, read: Read) returns (r: Result<()>)
    requires Valid(store.Contents())
    modifies store
    ensures Answers(old(store.Contents()), store.Contents(), Learned(old(store.Contents()), lease, index, read), r)
  {
    var db := Db(store.instances, store.jobs, store.attempts, store.spends);
    var patch := PatchFor(read);
    if HasOpen(db, lease.job, index) {
      var open :| open in store.attempts && IsOpen(db, open, lease.job, index);
      assert open == OpenAttempt(db, lease.job, index);
      r := store.CompleteSideEffect(lease, open, OutcomeOf(store.attempts[open].kind, read), Some(patch));
    } else if patch == NOTHING {
      r := Ok(());
    } else {
      r := store.UpdateLeg(lease, index, patch);
    }
  }

  ghost function Learned(db: Db, lease: Lease, index: nat, read: Read): Result<Db> {
    if HasOpen(db, lease.job, index) then
      var open := OpenAttempt(db, lease.job, index);
      Apply(db, lease, Complete(open, OutcomeOf(db.attempts[open].kind, read), Some(PatchFor(read))))
    else if PatchFor(read) == NOTHING then Ok(db)
    else Apply(db, lease, Update(index, PatchFor(read)))
  }

  // ---------- A call as a function of the database ----------

  ghost function Moving(db: Db, lease: Lease, answer: Reconciled): (Db, Answer) {
    match Apply(db, lease, MoveTo(answer.to))
    case Ok(after) => (after, Answer(answer))
    case Refused(error) => (db, Refusal(error))
  }

  /** The job-level summary: something traded, or else what the last read said, or else a failure. */
  function Summary(legs: seq<Leg>, verdict: Option<ExecutionStatus>): JobState
    requires verdict.Some? ==> Final(verdict.value)
  {
    if SomeSucceeded(legs) then FILLED else if verdict.None? then FAILED else JobTerminal(verdict.value)
  }

  ghost function Concluding(db: Db, lease: Lease, from: JobState, leg: Option<nat>, verdict: Option<ExecutionStatus>): (Db, Answer)
    requires lease.job in db.jobs && (verdict.Some? ==> Final(verdict.value))
  {
    Moving(db, lease, Reconciled(from, Summary(db.jobs[lease.job].legs, verdict), TERMINAL, leg, verdict))
  }

  ghost function Reading(db: Db, lease: Lease, gateway: Gateway, from: JobState, leg: Leg): (Db, Answer)
    requires lease.job in db.jobs && leg.execution.Some?
  {
    match gateway(leg.execution.value)
    case None => (db, ReadFailed)
    case Some(read) =>
      match Learned(db, lease, leg.index, read)
      case Refused(error) => (db, Refusal(error))
      case Ok(after) =>
        if !Final(read.status) then (after, Answer(Reconciled(from, RECONCILING, STILL_PENDING, Some(leg.index), Some(read.status))))
        else if lease.job !in after.jobs then (after, Refusal(UNKNOWN_JOB))
        else if !AllResolved(after.jobs[lease.job].legs) then
          (after, Answer(Reconciled(from, RECONCILING, LEG_RESOLVED, Some(leg.index), Some(read.status))))
        else Concluding(after, lease, from, Some(leg.index), Some(read.status))
  }

  ghost function Choosing(db: Db, lease: Lease, gateway: Gateway, from: JobState): (Db, Answer)
    requires lease.job in db.jobs
  {
    var legs := db.jobs[lease.job].legs;
    var unsent := FirstUnsent(db, lease.job, legs);
    if unsent.Some? then
      var index := legs[unsent.value].index;
      if UnderWay(db, lease.job) then (db, Answer(Reconciled(from, RECONCILING, REPLAYABLE, Some(index), None)))
      else Moving(db, lease, Reconciled(from, WATCHING, REARMED, Some(index), None))
    else
      var readable := FirstReadable(legs);
      var first := FirstUnresolved(legs);
      if readable.Some? then Reading(db, lease, gateway, from, legs[readable.value])
      else if first.Some? then
        Moving(db, lease, Reconciled(from, UNKNOWN_PENDING, INCONCLUSIVE, Some(legs[first.value].index), None))
      else Concluding(db, lease, from, None, None)
  }

  ghost function Reconcile(db: Db, lease: Lease, gateway: Gateway): (Db, Answer) {
    if lease.job !in db.jobs then (db, Refusal(UNKNOWN_JOB))
    else
      var from := db.jobs[lease.job].state;
      if from != UNKNOWN_PENDING && from != RECONCILING then
        (db, Answer(Reconciled(from, from, NOT_APPLICABLE, None, None)))
      else if from == RECONCILING then Choosing(db, lease, gateway, from)
      else
        match Apply(db, lease, MoveTo(RECONCILING))
        case Refused(error) => (db, Refusal(error))
        case Ok(started) => if lease.job in started.jobs then Choosing(started, lease, gateway, from) else (started, Refusal(UNKNOWN_JOB))
  }

  // ---------- A call on the store ----------

  method Move(store: JobStore, lease: Lease, answer: Reconciled) returns (r: Answer)
    modifies store
    ensures (store.Contents(), r) == Moving(old(store.Contents()), lease, answer)
  {
    var moved := store.Transition(lease, answer.to);
    r := if moved.Ok? then Answer(answer) else Refusal(moved.error);
  }

  /** Hands a leg without any request back: to the same run when others of the job are out, else to the
      next trigger. */
  method NeverSent(store: JobStore, lease: Lease, from: JobState, index: nat, underWay: bool) returns (r: Answer)
    modifies store
    ensures underWay ==>
      store.Contents() == old(store.Contents()) && r == Answer(Reconciled(from, RECONCILING, REPLAYABLE, Some(index), None))
    ensures !underWay ==>
      (store.Contents(), r) == Moving(old(store.Contents()), lease, Reconciled(from, WATCHING, REARMED, Some(index), None))
  {
    if underWay {
      return Answer(Reconciled(from, RECONCILING, REPLAYABLE, Some(index), None));
    }
    r := Move(store, lease, Reconciled(from, WATCHING, REARMED, Some(index), None));
  }

  method ConcludeJob(store: JobStore, lease: Lease, from: JobState, leg: Option<nat>, verdict: Option<ExecutionStatus>)
    returns (r: Answer)
    requires lease.job in store.jobs && (verdict.Some? ==> Final(verdict.value))
    modifies store
    ensures (store.Contents(), r) == Concluding(old(store.Contents()), lease, from, leg, verdict)
  {
    hide SomeSucceeded;
    var legs := store.jobs[lease.job].legs;
    var to := if SomeSucceeded(legs) then FILLED else if verdict.None? then FAILED else JobTerminal(verdict.value);
    r := Move(store, lease, Reconciled(from, to, TERMINAL, leg, verdict));
  }

  method ReadLeg(store: JobStore, lease: Lease, gateway: Gateway, from: JobState, leg: Leg) returns (r: Answer)
    requires Valid(store.Contents()) && lease.job in store.jobs && leg.execution.Some?
    modifies store
    ensures (store.Contents(), r) == Reading(old(store.Contents()), lease, gateway, from, leg)
  {
    hide Valid, AllResolved, SomeSucceeded, Learned;
    var answered := gateway(leg.execution.value);
    if answered.None? {
      return ReadFailed;
    }
    var read := answered.value;
    var applied := ApplyLeg(store, lease, leg.index, read);
    if applied.Refused? {
      return Refusal(applied.error);
    }
    if !Final(read.status) {
      return Answer(Reconciled(from, RECONCILING, STILL_PENDING, Some(leg.index), Some(read.status)));
    }
    if lease.job !in store.jobs {
      return Refusal(UNKNOWN_JOB);
    }
    if !AllResolved(store.jobs[lease.job].legs) {
      return Answer(Reconciled(from, RECONCILING, LEG_RESOLVED, Some(leg.index), Some(read.status)));
    }
    r := ConcludeJob(store, lease, from, Some(leg.index), Some(read.status));
  }

  /** The reconciler's `reconcileJob`, each write one transaction of the store. */
  method ReconcileJob(store: JobStore, lease: Lease, gateway: Gateway) returns (r: Answer)
    requires Valid(store.Contents())
    modifies store
    ensures (store.Contents(), r) == Reconcile(old(store.Contents()), lease, gateway)
  {
    hide Valid, AllResolved, SomeSucceeded, Unsent, Readable, Apply, SpecOf, UnderWay, Reading;
    if lease.job !in store.jobs {
      return Refusal(UNKNOWN_JOB);
    }
    var from := store.jobs[lease.job].state;
    if from != UNKNOWN_PENDING && from != RECONCILING {
      return Answer(Reconciled(from, from, NOT_APPLICABLE, None, None));
    }
    if from == UNKNOWN_PENDING {
      var moved := store.Transition(lease, RECONCILING);
      if moved.Refused? {
        return Refusal(moved.error);
      }
      ApplyKeeps(old(store.Contents()), lease, MoveTo(RECONCILING));
      if lease.job !in store.jobs {
        return Refusal(UNKNOWN_JOB);
      }
    }
    r := ChooseLeg(store, lease, gateway, from);
  }

  method ChooseLeg(store: JobStore, lease: Lease, gateway: Gateway, from: JobState) returns (r: Answer)
    requires Valid(store.Contents()) && lease.job in store.jobs
    modifies store
    ensures (store.Contents(), r) == Choosing(old(store.Contents()), lease, gateway, from)
  {
    hide Valid, AllResolved, SomeSucceeded, Unsent, Readable, Apply, SpecOf, UnderWay, Reading, Moving, Concluding;
    var db, legs := Db(store.instances, store.jobs, store.attempts, store.spends), store.jobs[lease.job].legs;
    var unsent := FirstUnsent(db, lease.job, legs);
    if unsent.Some? {
      r := NeverSent(store, lease, from, legs[unsent.value].index, UnderWay(db, lease.job));
      return;
    }
    var target := FirstReadable(legs);
    if target.Some? {
      assert legs[target.value].execution.Some? by { ReadableHasExecution(legs[target.value]); }
      r := ReadLeg(store, lease, gateway, from, legs[target.value]);
      return;
    }
    var first := FirstUnresolved(legs);
    if first.None? {
      r := ConcludeJob(store, lease, from, None, None);
    } else {
      r := Move(store, lease, Reconciled(from, UNKNOWN_PENDING, INCONCLUSIVE, Some(legs[first.value].index), None));
    }
  }

  lemma ReadableHasExecution(leg: Leg)
    requires Readable(leg)
    ensures leg.execution.Some?
  {
  }

  // ---------- What one read does to the ledger ----------

  ghost predicate OpenOn(db: Db, job: string, leg: Leg) {
    HasOpen(db, job, leg.index)
  }

  function Settled(db: Db, a: string, job: string, index: nat, read: Read): Attempt
    requires a in db.attempts
  {
    var row := db.attempts[a];
    if IsOpen(db, a, job, index) then row.(outcome := Some(OutcomeOf(row.kind, read))) else row
  }

  /** A readable leg's read always lands: the leg alone learns from it, and its open attempt closes. */
  ghost predicate ReadLands(db: Db, after: Db, lease: Lease, p: nat, read: Read)
    requires lease.job in db.jobs && p < |db.jobs[lease.job].legs|
  {
    var legs := db.jobs[lease.job].legs;
    && Valid(after) && Current(after, lease) && after.instances == db.instances && after.spends == db.spends
    && after.jobs == db.jobs[lease.job := db.jobs[lease.job].(legs := legs[p := Patched(legs[p], PatchFor(read))])]
    && after.attempts.Keys == db.attempts.Keys
    && (forall a | a in db.attempts :: after.attempts[a] == Settled(db, a, lease.job, legs[p].index, read))
  }

  lemma FindSelf(legs: seq<Leg>, p: nat)
    requires Ascending(legs) && p < |legs|
    ensures FindLeg(legs, legs[p].index) == Some(p)
  {
  }

  lemma LearnedLands(db: Db, lease: Lease, p: nat, read: Read)
    requires Valid(db) && Current(db, lease) && p < |db.jobs[lease.job].legs|
    ensures Learned(db, lease, db.jobs[lease.job].legs[p].index, read).Ok?
    ensures ReadLands(db, Learned(db, lease, db.jobs[lease.job].legs[p].index, read).value, lease, p, read)
  {
    hide SpecOf, KeysUnique, ExecutionsUnique, AttemptsKeyed, LegsPresent, TerminalUnheld, Ascending;
    var job, legs := lease.job, db.jobs[lease.job].legs;
    var index := legs[p].index;
    FindSelf(legs, p);
    if HasOpen(db, job, index) {
      var open := OpenAttempt(db, job, index);
      ApplyKeeps(db, lease, Complete(open, OutcomeOf(db.attempts[open].kind, read), Some(PatchFor(read))));
      forall a | a in db.attempts && IsOpen(db, a, job, index) ensures a == open {}
    } else if PatchFor(read) == NOTHING {
      assert legs[p := Patched(legs[p], PatchFor(read))] == legs;
      assert db.jobs[job := db.jobs[job].(legs := legs)] == db.jobs;
    } else {
      ApplyKeeps(db, lease, Update(index, PatchFor(read)));
    }
  }

  // ---------- Soundness ----------

  /** The lease is held and the job is where a reconcile may touch it. */
  ghost predicate Ready(db: Db, lease: Lease) {
    Valid(db) && Current(db, lease) && (db.jobs[lease.job].state == UNKNOWN_PENDING || db.jobs[lease.job].state == RECONCILING)
  }

  /** A leg's status changes only to what a final read of its own execution says. */
  ghost predicate LegSound(before: Leg, after: Leg, gateway: Gateway) {
    && after.index == before.index && after.key == before.key && after.execution == before.execution
    && (after.status != before.status ==>
        !Resolved(before) && before.execution.Some? && gateway(before.execution.value).Some?
        && var status := gateway(before.execution.value).value.status;
          Final(status) && after.status == if status.Filled? then SUCCEEDED else LEG_FAILED)
  }

  ghost predicate LegsSound(before: seq<Leg>, after: seq<Leg>, gateway: Gateway) {
    |after| == |before| && forall p :: 0 <= p < |before| ==> LegSound(before[p], after[p], gateway)
  }

  ghost predicate NoOpen(db: Db, job: string) {
    forall a | a in db.attempts :: db.attempts[a].job == job ==> db.attempts[a].outcome.Some?
  }

  /** Legs that are resolved have no attempt still open. */
  ghost predicate ResolvedClosed(db: Db, job: string)
    requires job in db.jobs
  {
    forall p :: 0 <= p < |db.jobs[job].legs| && Resolved(db.jobs[job].legs[p]) ==> !OpenOn(db, job, db.jobs[job].legs[p])
  }

  /** What the server says of the leg a call reads: the first that can be read. */
  function Verdict(legs: seq<Leg>, gateway: Gateway): Option<ExecutionStatus> {
    var first := FirstReadable(legs);
    if first.None? then None
    else match gateway(legs[first.value].execution.value) case None => None case Some(read) => Some(read.status)
  }

  /** The state an ended job is left in: FILLED when a leg traded; otherwise the verdict of the leg that was
      read in the call, and FAILED when there was none to read. */
  ghost predicate EndsAs(legs: seq<Leg>, gateway: Gateway, ended: Job) {
    var verdict := Verdict(legs, gateway);
    if SomeSucceeded(ended.legs) then ended.state == FILLED
    else if FirstReadable(legs).None? then ended.state == FAILED
    else verdict.Some? && Final(verdict.value) && ended.state == JobTerminal(verdict.value)
  }

  /** What a call that ends the job leaves. */
  ghost predicate Ended(db: Db, after: Db, job: string, gateway: Gateway)
    requires job in db.jobs && job in after.jobs
  {
    && AllResolved(after.jobs[job].legs) && EndsAs(db.jobs[job].legs, gateway, after.jobs[job])
    && (after.jobs[job].state == FILLED <==> SomeSucceeded(after.jobs[job].legs))
    && (NoOpen(after, job) <==> ResolvedClosed(db, job))
  }

  /** Everything a reconcile promises about the rows it leaves. */
  ghost predicate Sound(db: Db, after: Db, lease: Lease, gateway: Gateway, answer: Answer)
    requires lease.job in db.jobs
  {
    && !answer.Refusal?
    && lease.job in after.jobs && after.jobs == db.jobs[lease.job := after.jobs[lease.job]]
    && after.attempts.Keys == db.attempts.Keys
    && LegsSound(db.jobs[lease.job].legs, after.jobs[lease.job].legs, gateway)
    && (answer.Answer? ==>
        var row := after.jobs[lease.job];
        && row.state == answer.result.to
        && (Terminal(row.state) <==> answer.result.disposition == TERMINAL)
        && (Terminal(row.state) ==> Ended(db, after, lease.job, gateway))
        && (row.state == WATCHING ==> !UnderWay(db, lease.job) && after.attempts == db.attempts))
  }

  lemma MoveLands(db: Db, lease: Lease, answer: Reconciled)
    requires Valid(db) && Current(db, lease) && db.jobs[lease.job].state == RECONCILING
    requires CanTransition(RECONCILING, answer.to) && (SpecOf(answer.to).requiresLeg ==> db.jobs[lease.job].legs != [])
    ensures Moving(db, lease, answer).1 == Answer(answer)
    ensures Moving(db, lease, answer).0 == db.(jobs := db.jobs[lease.job := Moved(db.jobs[lease.job], answer.to)])
  {
  }

  lemma SummaryEdge(legs: seq<Leg>, verdict: Option<ExecutionStatus>)
    requires verdict.Some? ==> Final(verdict.value)
    requires verdict.Some? && verdict.value.Filled? ==> SomeSucceeded(legs)
    ensures
      var to := Summary(legs, verdict);
      && CanTransition(RECONCILING, to) && Terminal(to) && (to == FILLED <==> SomeSucceeded(legs))
      && (SpecOf(to).requiresLeg ==> legs != [])
  {
  }

  lemma SameLegsSound(legs: seq<Leg>, gateway: Gateway)
    ensures LegsSound(legs, legs, gateway)
  {
  }

  /** With every leg resolved, the job's attempts are its resolved legs' attempts. */
  lemma ClosedMeansNoOpen(db: Db, job: string)
    requires Valid(db) && job in db.jobs && AllResolved(db.jobs[job].legs)
    ensures NoOpen(db, job) <==> ResolvedClosed(db, job)
  {
    hide KeysUnique, ExecutionsUnique, OneOpen, LegsPresent, TerminalUnheld, Ascending, LegsOrdered;
    if ResolvedClosed(db, job) {
      forall a | a in db.attempts && db.attempts[a].job == job ensures db.attempts[a].outcome.Some? {
        var x :| x in db.jobs[job].legs && x.index == db.attempts[a].leg;
        var p :| 0 <= p < |db.jobs[job].legs| && db.jobs[job].legs[p] == x;
        assert !OpenOn(db, job, db.jobs[job].legs[p]);
        assert !IsOpen(db, a, job, x.index);
      }
    }
  }

  lemma ConcludingSound(db: Db, lease: Lease, gateway: Gateway, from: JobState)
    requires Valid(db) && Current(db, lease) && db.jobs[lease.job].state == RECONCILING
    requires AllResolved(db.jobs[lease.job].legs)
    ensures var (after, answer) := Concluding(db, lease, from, None, None); Sound(db, after, lease, gateway, answer)
  {
    hide Valid, SpecOf, AllResolved, SomeSucceeded, NoOpen, ResolvedClosed, LegsSound, UnderWay, CanTransition, Moving, EndsAs;
    var legs := db.jobs[lease.job].legs;
    SummaryEdge(legs, None);
    MoveLands(db, lease, Reconciled(from, Summary(legs, None), TERMINAL, None, None));
    SameLegsSound(legs, gateway);
    ClosedMeansNoOpen(db, lease.job);
    var after := Concluding(db, lease, from, None, None).0;
    SameOpen(db, after, lease.job);
    NothingLeft(db, lease.job);
    assert EndsAs(legs, gateway, after.jobs[lease.job]) by { SummaryEnds(legs, gateway, after.jobs[lease.job], None); }
    WatchingIsNoEnd();
  }

  /** The summary is the ending, once it is about the leg that was read. */
  lemma SummaryEnds(legs: seq<Leg>, gateway: Gateway, ended: Job, verdict: Option<ExecutionStatus>)
    requires verdict.Some? ==> Final(verdict.value)
    requires ended.state == Summary(ended.legs, verdict)
    requires FirstReadable(legs).None? <==> verdict.None?
    requires verdict.Some? ==>
      var read := gateway(legs[FirstReadable(legs).value].execution.value);
      read.Some? && read.value.status == verdict.value
    ensures EndsAs(legs, gateway, ended)
  {
    hide FirstReadable, SomeSucceeded;
  }

  lemma SameOpen(db: Db, after: Db, job: string)
    requires after.attempts == db.attempts
    ensures NoOpen(after, job) <==> NoOpen(db, job)
  {
  }

  lemma WatchingIsNoEnd()
    ensures !Terminal(WATCHING) && !Terminal(RECONCILING) && !Terminal(UNKNOWN_PENDING)
  {
  }

  /** The read leg itself. */
  lemma PatchedSound(leg: Leg, gateway: Gateway, read: Read)
    requires Readable(leg) && gateway(leg.execution.value) == Some(read)
    ensures LegSound(leg, Patched(leg, PatchFor(read)), gateway)
    ensures Final(read.status) <==> Resolved(Patched(leg, PatchFor(read)))
    ensures Patched(leg, PatchFor(read)).status == SUCCEEDED <==> read.status.Filled?
  {
  }

  lemma PatchedLegsSound(legs: seq<Leg>, p: nat, gateway: Gateway, read: Read)
    requires p < |legs| && Readable(legs[p]) && gateway(legs[p].execution.value) == Some(read)
    ensures LegsSound(legs, legs[p := Patched(legs[p], PatchFor(read))], gateway)
    ensures read.status.Filled? ==> SomeSucceeded(legs[p := Patched(legs[p], PatchFor(read))])
  {
    hide PatchFor, Resolved, Readable;
    PatchedSound(legs[p], gateway, read);
    var more := legs[p := Patched(legs[p], PatchFor(read))];
    assert more[p] == Patched(legs[p], PatchFor(read));
    assert forall q :: 0 <= q < |legs| && q != p ==> more[q] == legs[q];
  }

  /** A read closes what was open on its leg and leaves the other legs' attempts alone. */
  lemma OpenAfterRead(db: Db, after: Db, lease: Lease, p: nat, read: Read)
    requires Valid(db) && lease.job in db.jobs && p < |db.jobs[lease.job].legs| && ReadLands(db, after, lease, p, read)
    requires Readable(db.jobs[lease.job].legs[p]) && AllResolved(after.jobs[lease.job].legs)
    ensures ResolvedClosed(after, lease.job) <==> ResolvedClosed(db, lease.job)
  {
    hide KeysUnique, ExecutionsUnique, AttemptsKeyed, OneOpen, LegsPresent, TerminalUnheld, PatchFor, Current;
    var job, legs := lease.job, db.jobs[lease.job].legs;
    var more := after.jobs[job].legs;
    assert Ascending(legs);
    forall q | 0 <= q < |legs| ensures more[q].index == legs[q].index && (q != p ==> more[q] == legs[q] && Resolved(legs[q])) {
      assert Resolved(more[q]);
    }
    forall q | 0 <= q < |legs| && q != p ensures OpenOn(after, job, more[q]) <==> OpenOn(db, job, legs[q]) {
      assert legs[q].index != legs[p].index;
      forall a | a in db.attempts ensures IsOpen(after, a, job, legs[q].index) == IsOpen(db, a, job, legs[q].index) {}
    }
    forall a | a in after.attempts ensures !IsOpen(after, a, job, legs[p].index) {}
    assert !OpenOn(after, job, more[p]);
  }

  /** The read that resolves the last leg ends the job. */
  lemma LastReadEnds(db: Db, middle: Db, lease: Lease, gateway: Gateway, from: JobState, p: nat, read: Read)
    requires Valid(db) && Current(db, lease) && db.jobs[lease.job].state == RECONCILING
    requires FirstReadable(db.jobs[lease.job].legs) == Some(p)
    requires gateway(db.jobs[lease.job].legs[p].execution.value) == Some(read) && Final(read.status)
    requires ReadLands(db, middle, lease, p, read) && AllResolved(middle.jobs[lease.job].legs)
    ensures
      var answer := Reconciled(from, Summary(middle.jobs[lease.job].legs, Some(read.status)), TERMINAL,
        Some(db.jobs[lease.job].legs[p].index), Some(read.status));
      && Concluding(middle, lease, from, answer.leg, answer.status)
        == (middle.(jobs := middle.jobs[lease.job := Moved(middle.jobs[lease.job], answer.to)]), Answer(answer))
      && Terminal(answer.to) && (answer.to == FILLED <==> SomeSucceeded(middle.jobs[lease.job].legs))
  {
    hide Valid, SpecOf, AllResolved, SomeSucceeded, CanTransition, Moving, PatchFor, Summary, Settled, FirstReadable;
    var legs := db.jobs[lease.job].legs;
    PatchedLegsSound(legs, p, gateway, read);
    SummaryEdge(middle.jobs[lease.job].legs, Some(read.status));
    MoveLands(middle, lease,
      Reconciled(from, Summary(middle.jobs[lease.job].legs, Some(read.status)), TERMINAL, Some(legs[p].index), Some(read.status)));
  }

  lemma LastReadSound(db: Db, middle: Db, lease: Lease, gateway: Gateway, from: JobState, p: nat, read: Read)
    requires Valid(db) && Current(db, lease) && db.jobs[lease.job].state == RECONCILING
    requires FirstReadable(db.jobs[lease.job].legs) == Some(p)
    requires gateway(db.jobs[lease.job].legs[p].execution.value) == Some(read) && Final(read.status)
    requires ReadLands(db, middle, lease, p, read) && AllResolved(middle.jobs[lease.job].legs)
    ensures
      var (after, answer) := Concluding(middle, lease, from, Some(db.jobs[lease.job].legs[p].index), Some(read.status));
      Sound(db, after, lease, gateway, answer)
  {
    hide Valid, SpecOf, AllResolved, SomeSucceeded, NoOpen, ResolvedClosed, LegsSound, UnderWay, CanTransition, Concluding,
      PatchFor, Summary, Settled, EndsAs, FirstReadable;
    var legs := db.jobs[lease.job].legs;
    LastReadEnds(db, middle, lease, gateway, from, p, read);
    PatchedLegsSound(legs, p, gateway, read);
    ClosedMeansNoOpen(middle, lease.job);
    OpenAfterRead(db, middle, lease, p, read);
    var after := Concluding(middle, lease, from, Some(legs[p].index), Some(read.status)).0;
    SameOpen(middle, after, lease.job);
    SummaryEnds(legs, gateway, after.jobs[lease.job], Some(read.status));
    WatchingIsNoEnd();
  }

  lemma ReadingSound(db: Db, lease: Lease, gateway: Gateway, from: JobState, p: nat)
    requires Valid(db) && Current(db, lease) && db.jobs[lease.job].state == RECONCILING
    requires FirstReadable(db.jobs[lease.job].legs) == Some(p)
    ensures
      var (after, answer) := Reading(db, lease, gateway, from, db.jobs[lease.job].legs[p]);
      Sound(db, after, lease, gateway, answer)
  {
    hide Valid, SpecOf, AllResolved, SomeSucceeded, NoOpen, ResolvedClosed, LegsSound, UnderWay, CanTransition, Concluding, Learned,
      PatchFor, Settled;
    var legs := db.jobs[lease.job].legs;
    var answered := gateway(legs[p].execution.value);
    WatchingIsNoEnd();
    SameLegsSound(legs, gateway);
    if answered.Some? {
      var read := answered.value;
      LearnedLands(db, lease, p, read);
      var middle := Learned(db, lease, legs[p].index, read).value;
      PatchedLegsSound(legs, p, gateway, read);
      if Final(read.status) && AllResolved(middle.jobs[lease.job].legs) {
        LastReadSound(db, middle, lease, gateway, from, p, read);
      }
    }
  }

  lemma ChoosingSound(db: Db, lease: Lease, gateway: Gateway, from: JobState)
    requires Valid(db) && Current(db, lease) && db.jobs[lease.job].state == RECONCILING
    ensures var (after, answer) := Choosing(db, lease, gateway, from); Sound(db, after, lease, gateway, answer)
  {
    hide Valid, SpecOf, AllResolved, SomeSucceeded, NoOpen, ResolvedClosed, LegsSound, UnderWay, CanTransition, Concluding, Reading,
      Unsent, Readable, Resolved, Moving;
    var legs := db.jobs[lease.job].legs;
    WatchingIsNoEnd();
    SameLegsSound(legs, gateway);
    ReconcileEdges();
    var unsent, readable, first := FirstUnsent(db, lease.job, legs), FirstReadable(legs), FirstUnresolved(legs);
    if unsent.Some? {
      if !UnderWay(db, lease.job) {
        MoveLands(db, lease, Reconciled(from, WATCHING, REARMED, Some(legs[unsent.value].index), None));
      }
    } else if readable.Some? {
      ReadingSound(db, lease, gateway, from, readable.value);
    } else if first.Some? {
      MoveLands(db, lease, Reconciled(from, UNKNOWN_PENDING, INCONCLUSIVE, Some(legs[first.value].index), None));
    } else {
      ConcludingSound(db, lease, gateway, from);
    }
  }

  lemma ReconcileEdges()
    ensures CanTransition(RECONCILING, WATCHING) && CanTransition(RECONCILING, UNKNOWN_PENDING)
    ensures CanTransition(UNKNOWN_PENDING, RECONCILING) && !SpecOf(WATCHING).requiresLeg && SpecOf(UNKNOWN_PENDING).requiresLeg
  {
  }

  /** The start of a reconcile changes the state and nothing else. */
  lemma StartLands(db: Db, lease: Lease)
    requires Ready(db, lease) && db.jobs[lease.job].state == UNKNOWN_PENDING
    ensures Apply(db, lease, MoveTo(RECONCILING))
      == Ok(db.(jobs := db.jobs[lease.job := db.jobs[lease.job].(state := RECONCILING)]))
    ensures Valid(Apply(db, lease, MoveTo(RECONCILING)).value) && Current(Apply(db, lease, MoveTo(RECONCILING)).value, lease)
  {
    hide Valid, SpecOf;
    ReconcileEdges();
    ValidRow(db, lease.job);
    WatchingIsNoEnd();
    ApplyKeeps(db, lease, MoveTo(RECONCILING));
  }

  /** A reconcile under a current lease is never refused, so every transition it issues is an edge of
      the state machine; and it is sound. */
  lemma ReconcileSound(db: Db, lease: Lease, gateway: Gateway)
    requires Ready(db, lease)
    ensures var (after, answer) := Reconcile(db, lease, gateway); Sound(db, after, lease, gateway, answer)
  {
    hide Valid, SpecOf, AllResolved, NoOpen, LegsSound, UnderWay, CanTransition, Choosing, Moving, ResolvedClosed;
    if db.jobs[lease.job].state == RECONCILING {
      ChoosingSound(db, lease, gateway, RECONCILING);
    } else {
      StartLands(db, lease);
      var started := Apply(db, lease, MoveTo(RECONCILING)).value;
      ChoosingSound(started, lease, gateway, UNKNOWN_PENDING);
      SameEvidence(db, started, lease.job);
    }
  }

  /** Which state a job ends in when nothing of it traded: the verdict of the leg this call read, whatever
      the other legs failed of. It is FAILED exactly when that verdict is a rejection, or nothing was left
      to read. */
  lemma EndingIsExact(db: Db, after: Db, lease: Lease, gateway: Gateway, answer: Answer)
    requires Ready(db, lease) && Reconcile(db, lease, gateway) == (after, answer)
    requires answer.Answer? && answer.result.disposition == TERMINAL
    requires lease.job in after.jobs && !SomeSucceeded(after.jobs[lease.job].legs)
    ensures
      var verdict, state := Verdict(db.jobs[lease.job].legs, gateway), after.jobs[lease.job].state;
      && state in {FAILED, CANCELLED, EXPIRED}
      && (state == FAILED <==> FirstReadable(db.jobs[lease.job].legs).None? || verdict == Some(Rejected))
      && (state == CANCELLED <==> verdict == Some(CancelledThere))
      && (state == EXPIRED <==> verdict == Some(ExpiredThere))
  {
    hide Valid, SpecOf, AllResolved, SomeSucceeded, NoOpen, ResolvedClosed, LegsSound, UnderWay, Reconcile, FirstReadable;
    ReconcileSound(db, lease, gateway);
  }

  lemma SameEvidence(db: Db, started: Db, job: string)
    requires job in db.jobs && job in started.jobs && started.attempts == db.attempts
    requires started.jobs[job].legs == db.jobs[job].legs
    ensures UnderWay(started, job) == UnderWay(db, job)
    ensures ResolvedClosed(started, job) <==> ResolvedClosed(db, job)
  {
    assert forall a, leg | a in db.attempts :: IsOpen(started, a, job, leg) == IsOpen(db, a, job, leg);
    assert forall leg :: OpenOn(started, job, leg) == OpenOn(db, job, leg);
  }

  /** Without the lease a reconcile writes nothing at all. */
  lemma UnleasedWritesNothing(db: Db, lease: Lease, gateway: Gateway)
    requires lease.job in db.jobs && !Current(db, lease)
    ensures Reconcile(db, lease, gateway).0 == db
    ensures Reconcile(db, lease, gateway).1.Refusal? ==> Reconcile(db, lease, gateway).1.error == LEASE_LOST
  {
    hide UnderWay, Current, Unsent, Readable, AllResolved, SpecOf;
  }

  /** So the condition on open attempts is needed: a job whose legs all passed for resolved, none of them
      traded, fails on the spot, whatever is still open on them. */
  lemma ResolvedUnread(db: Db, lease: Lease, gateway: Gateway)
    requires Ready(db, lease) && db.jobs[lease.job].state == UNKNOWN_PENDING
    requires AllResolved(db.jobs[lease.job].legs) && !SomeSucceeded(db.jobs[lease.job].legs)
    ensures
      var (after, answer) := Reconcile(db, lease, gateway);
      && answer == Answer(Reconciled(UNKNOWN_PENDING, FAILED, TERMINAL, None, None))
      && lease.job in after.jobs && after.jobs[lease.job].state == FAILED && after.attempts == db.attempts
    ensures
      var started := Apply(db, lease, MoveTo(RECONCILING));
      started.Ok? && Apply(started.value, lease, MoveTo(FAILED)) == Ok(Reconcile(db, lease, gateway).0)
  {
    hide Valid, SpecOf, SomeSucceeded;
    StartLands(db, lease);
    var started := Apply(db, lease, MoveTo(RECONCILING)).value;
    NothingLeft(started, lease.job);
    SummaryEdge(started.jobs[lease.job].legs, None);
    MoveLands(started, lease, Reconciled(UNKNOWN_PENDING, FAILED, TERMINAL, None, None));
  }

  lemma NothingLeft(db: Db, job: string)
    requires job in db.jobs && AllResolved(db.jobs[job].legs)
    ensures
      var legs := db.jobs[job].legs;
      FirstUnsent(db, job, legs).None? && FirstReadable(legs).None? && FirstUnresolved(legs).None?
  {
  }

  // ---------- Progress ----------

  function ReadableCount(legs: seq<Leg>): nat {
    if legs == [] then 0
    else ReadableCount(legs[..|legs| - 1]) + (if Readable(legs[|legs| - 1]) then 1 else 0)
  }

  /** Unresolved, and with no execution to read. */
  predicate Ambiguous(leg: Leg) {
    !Resolved(leg) && leg.execution.None?
  }

  predicate SomeAmbiguous(legs: seq<Leg>) {
    exists p :: 0 <= p < |legs| && Ambiguous(legs[p])
  }

  ghost predicate NoneUnsent(db: Db, job: string)
    requires job in db.jobs
  {
    forall p :: 0 <= p < |db.jobs[job].legs| ==> !Unsent(db, job, db.jobs[job].legs[p])
  }

  ghost predicate AnswersFinally(gateway: Gateway) {
    forall execution :: gateway(execution).Some? && Final(gateway(execution).value.status)
  }

  lemma {:induction false} CountReplaced(legs: seq<Leg>, p: nat, leg: Leg)
    requires p < |legs| && Readable(legs[p]) && !Readable(leg)
    ensures ReadableCount(legs[p := leg]) + 1 == ReadableCount(legs)
  {
    var last := |legs| - 1;
    if p < last {
      CountReplaced(legs[..last], p, leg);
      assert legs[p := leg][..last] == legs[..last][p := leg];
    } else {
      assert legs[p := leg][..last] == legs[..last];
    }
  }

  lemma {:induction false} CountZero(legs: seq<Leg>)
    ensures ReadableCount(legs) == 0 <==> FirstReadable(legs).None?
  {
    if legs != [] {
      var front := legs[..|legs| - 1];
      CountZero(front);
      if FirstReadable(legs).None? {
        forall q | 0 <= q < |front| ensures !Readable(front[q]) { assert front[q] == legs[q]; }
      } else {
        var p := FirstReadable(legs).value;
        if p < |front| { assert front[p] == legs[p]; }
      }
    }
  }

  /** A call with something to read resolves exactly one leg. */
  lemma ReadingStep(db: Db, lease: Lease, gateway: Gateway, from: JobState, p: nat)
    requires Valid(db) && Current(db, lease) && db.jobs[lease.job].state == RECONCILING
    requires NoneUnsent(db, lease.job) && AnswersFinally(gateway)
    requires p < |db.jobs[lease.job].legs| && Readable(db.jobs[lease.job].legs[p])
    ensures
      var (after, answer) := Reading(db, lease, gateway, from, db.jobs[lease.job].legs[p]);
      var legs := db.jobs[lease.job].legs;
      && answer.Answer? && lease.job in after.jobs
      && ReadableCount(after.jobs[lease.job].legs) + 1 == ReadableCount(legs)
      && (SomeAmbiguous(after.jobs[lease.job].legs) <==> SomeAmbiguous(legs))
      && (answer.result.disposition == TERMINAL <==> ReadableCount(legs) == 1 && !SomeAmbiguous(legs))
      && (answer.result.disposition != TERMINAL ==>
          answer.result.disposition == LEG_RESOLVED && Ready(after, lease) && NoneUnsent(after, lease.job))
  {
    hide Valid, SpecOf, AllResolved, SomeSucceeded, CanTransition, Moving, Learned, PatchFor, Settled, SomeAmbiguous, ReadableCount,
      Summary, NoneUnsent;
    var legs := db.jobs[lease.job].legs;
    var read := gateway(legs[p].execution.value).value;
    LearnedLands(db, lease, p, read);
    PatchedSound(legs[p], gateway, read);
    var middle := Learned(db, lease, legs[p].index, read).value;
    var now := Patched(legs[p], PatchFor(read));
    CountReplaced(legs, p, now);
    AmbiguousStays(legs, p, now);
    UnsentStays(db, middle, lease, p, read);
    var more := middle.jobs[lease.job].legs;
    ResolvedMeans(more);
    if AllResolved(more) {
      PatchedLegsSound(legs, p, gateway, read);
      SummaryEdge(more, Some(read.status));
      MoveLands(middle, lease, Reconciled(from, Summary(more, Some(read.status)), TERMINAL, Some(legs[p].index), Some(read.status)));
    }
  }

  /** What a call does when the next leg is read finally. */
  lemma ReadNext(db: Db, lease: Lease, gateway: Gateway, p: nat, read: Read)
    requires Ready(db, lease) && db.jobs[lease.job].state == RECONCILING && NoneUnsent(db, lease.job)
    requires FirstReadable(db.jobs[lease.job].legs) == Some(p)
    requires gateway(db.jobs[lease.job].legs[p].execution.value) == Some(read) && Final(read.status)
    ensures
      var index := db.jobs[lease.job].legs[p].index;
      && Learned(db, lease, index, read).Ok?
      && var middle := Learned(db, lease, index, read).value;
        && ReadLands(db, middle, lease, p, read)
        && Reconcile(db, lease, gateway) ==
          if AllResolved(middle.jobs[lease.job].legs) then Concluding(middle, lease, RECONCILING, Some(index), Some(read.status))
          else (middle, Answer(Reconciled(RECONCILING, RECONCILING, LEG_RESOLVED, Some(index), Some(read.status))))
  {
    hide Valid, SpecOf, AllResolved, Learned, Concluding, Unsent, Readable, UnderWay, PatchFor, Settled;
    LearnedLands(db, lease, p, read);
  }

  /** Every leg is resolved when none is readable and none ambiguous. */
  lemma ResolvedMeans(legs: seq<Leg>)
    ensures AllResolved(legs) <==> ReadableCount(legs) == 0 && !SomeAmbiguous(legs)
  {
    CountZero(legs);
    forall q | 0 <= q < |legs| ensures AllResolved(legs) ==> !Readable(legs[q]) {}
    if !AllResolved(legs) && !SomeAmbiguous(legs) {
      var p :| 0 <= p < |legs| && !Resolved(legs[p]);
      assert !Ambiguous(legs[p]);
    }
  }

  lemma AmbiguousStays(legs: seq<Leg>, p: nat, leg: Leg)
    requires p < |legs| && !Ambiguous(legs[p]) && !Ambiguous(leg)
    ensures SomeAmbiguous(legs[p := leg]) <==> SomeAmbiguous(legs)
  {
    var more := legs[p := leg];
    forall q | 0 <= q < |legs| ensures Ambiguous(more[q]) <==> Ambiguous(legs[q]) {}
  }

  lemma UnsentStays(db: Db, after: Db, lease: Lease, p: nat, read: Read)
    requires lease.job in db.jobs && p < |db.jobs[lease.job].legs| && Readable(db.jobs[lease.job].legs[p])
    requires ReadLands(db, after, lease, p, read) && NoneUnsent(db, lease.job)
    ensures NoneUnsent(after, lease.job)
  {
    hide Valid, Current, Resolved;
    var job, legs, more := lease.job, db.jobs[lease.job].legs, after.jobs[lease.job].legs;
    forall q | 0 <= q < |more| ensures !Unsent(after, job, more[q]) {
      if q != p {
        assert !Unsent(db, job, legs[q]) && more[q] == legs[q];
        AttemptedSame(db, after, job, legs[q].index);
      }
    }
  }

  lemma AttemptedSame(db: Db, after: Db, job: string, index: nat)
    requires after.attempts.Keys == db.attempts.Keys
    requires forall a | a in db.attempts :: after.attempts[a].job == db.attempts[a].job && after.attempts[a].leg == db.attempts[a].leg
    ensures Attempted(after, job, index) == Attempted(db, job, index)
  {
  }

  /** A call on a job with nothing unsent: it resolves one readable leg, or finds what is left. */
  lemma CallStep(db: Db, lease: Lease, gateway: Gateway)
    requires Ready(db, lease) && NoneUnsent(db, lease.job) && AnswersFinally(gateway)
    ensures
      var (after, answer) := Reconcile(db, lease, gateway);
      var legs, left := db.jobs[lease.job].legs, ReadableCount(db.jobs[lease.job].legs);
      && answer.Answer? && lease.job in after.jobs
      && (left > 0 ==> ReadableCount(after.jobs[lease.job].legs) == left - 1)
      && (left > 0 ==> (SomeAmbiguous(after.jobs[lease.job].legs) <==> SomeAmbiguous(legs)))
      && (left > 0 && (left > 1 || SomeAmbiguous(legs)) ==>
          answer.result.disposition == LEG_RESOLVED && Ready(after, lease) && NoneUnsent(after, lease.job))
      && (left <= 1 && !SomeAmbiguous(legs) ==> answer.result.disposition == TERMINAL)
      && (left == 0 && SomeAmbiguous(legs) ==> answer.result.disposition == INCONCLUSIVE)
  {
    hide Valid, SpecOf, CanTransition, Moving, Choosing, SomeAmbiguous, ReadableCount, NoneUnsent;
    if db.jobs[lease.job].state == RECONCILING {
      ChoosingStep(db, lease, gateway, RECONCILING);
    } else {
      StartLands(db, lease);
      var started := Apply(db, lease, MoveTo(RECONCILING)).value;
      StartedUnsent(db, started, lease.job);
      ChoosingStep(started, lease, gateway, UNKNOWN_PENDING);
    }
  }

  lemma StartedUnsent(db: Db, started: Db, job: string)
    requires job in db.jobs && job in started.jobs && started.attempts == db.attempts
    requires started.jobs[job].legs == db.jobs[job].legs
    ensures NoneUnsent(started, job) <==> NoneUnsent(db, job)
  {
    forall p | 0 <= p < |db.jobs[job].legs|
      ensures Unsent(started, job, db.jobs[job].legs[p]) == Unsent(db, job, db.jobs[job].legs[p])
    {
      AttemptedSame(db, started, job, db.jobs[job].legs[p].index);
    }
  }

  lemma ChoosingStep(db: Db, lease: Lease, gateway: Gateway, from: JobState)
    requires Valid(db) && Current(db, lease) && db.jobs[lease.job].state == RECONCILING
    requires NoneUnsent(db, lease.job) && AnswersFinally(gateway)
    ensures
      var (after, answer) := Choosing(db, lease, gateway, from);
      var legs, left := db.jobs[lease.job].legs, ReadableCount(db.jobs[lease.job].legs);
      && answer.Answer? && lease.job in after.jobs
      && (left > 0 ==> ReadableCount(after.jobs[lease.job].legs) == left - 1)
      && (left > 0 ==> (SomeAmbiguous(after.jobs[lease.job].legs) <==> SomeAmbiguous(legs)))
      && (left > 0 && (left > 1 || SomeAmbiguous(legs)) ==>
          answer.result.disposition == LEG_RESOLVED && Ready(after, lease) && NoneUnsent(after, lease.job))
      && (left <= 1 && !SomeAmbiguous(legs) ==> answer.result.disposition == TERMINAL)
      && (left == 0 && SomeAmbiguous(legs) ==> answer.result.disposition == INCONCLUSIVE)
  {
    hide Valid, SpecOf, CanTransition, Moving, Reading, SomeAmbiguous, ReadableCount, Unsent, AllResolved, SomeSucceeded, UnderWay;
    var legs := db.jobs[lease.job].legs;
    CountZero(legs);
    ResolvedMeans(legs);
    ReconcileEdges();
    var unsent, readable, first := FirstUnsent(db, lease.job, legs), FirstReadable(legs), FirstUnresolved(legs);
    if readable.Some? {
      ReadingStep(db, lease, gateway, from, readable.value);
    } else if first.Some? {
      NotAllResolved(legs, first.value);
      MoveLands(db, lease, Reconciled(from, UNKNOWN_PENDING, INCONCLUSIVE, Some(legs[first.value].index), None));
    } else {
      SummaryEdge(legs, None);
      MoveLands(db, lease, Reconciled(from, Summary(legs, None), TERMINAL, None, None));
    }
  }

  lemma NotAllResolved(legs: seq<Leg>, p: nat)
    requires p < |legs| && !Resolved(legs[p])
    ensures !AllResolved(legs)
  {
  }

  /** The database after `n` calls. */
  ghost function Repeated(db: Db, lease: Lease, gateway: Gateway, n: nat): Db
    decreases n
  {
    if n == 0 then db else Repeated(Reconcile(db, lease, gateway).0, lease, gateway, n - 1)
  }

  /** What the n-th call answers. */
  ghost function NthAnswer(db: Db, lease: Lease, gateway: Gateway, n: nat): Answer
    requires n > 0
    decreases n
  {
    if n == 1 then Reconcile(db, lease, gateway).1 else NthAnswer(Reconcile(db, lease, gateway).0, lease, gateway, n - 1)
  }

  /** How many calls it takes: one per readable leg, and one more to find an ambiguous leg, or to
      conclude when there was nothing to read. */
  function CallsNeeded(legs: seq<Leg>): (n: nat)
    ensures n > 0
  {
    if SomeAmbiguous(legs) || ReadableCount(legs) == 0 then ReadableCount(legs) + 1 else ReadableCount(legs)
  }

  /** When the server answers finally, repeated calls read every leg that can be read, one a call and
      whatever ambiguous legs stand before them, and end as the ambiguous legs allow. */
  lemma {:induction false} Progress(db: Db, lease: Lease, gateway: Gateway)
    requires Ready(db, lease) && NoneUnsent(db, lease.job) && AnswersFinally(gateway)
    ensures
      var legs := db.jobs[lease.job].legs;
      var last, answer := Repeated(db, lease, gateway, CallsNeeded(legs)), NthAnswer(db, lease, gateway, CallsNeeded(legs));
      && answer.Answer?
      && answer.result.disposition == (if SomeAmbiguous(legs) then INCONCLUSIVE else TERMINAL)
    ensures
      forall n: nat | n <= ReadableCount(db.jobs[lease.job].legs) ::
        lease.job in Repeated(db, lease, gateway, n).jobs
        && ReadableCount(Repeated(db, lease, gateway, n).jobs[lease.job].legs) == ReadableCount(db.jobs[lease.job].legs) - n
    decreases ReadableCount(db.jobs[lease.job].legs)
  {
    hide Valid, Reconcile, SomeAmbiguous, ReadableCount, NoneUnsent;
    var legs := db.jobs[lease.job].legs;
    CallStep(db, lease, gateway);
    var after := Reconcile(db, lease, gateway).0;
    if ReadableCount(legs) > 1 || (ReadableCount(legs) == 1 && SomeAmbiguous(legs)) {
      Progress(after, lease, gateway);
    }
    forall n: nat | n <= ReadableCount(legs)
      ensures lease.job in Repeated(db, lease, gateway, n).jobs
      ensures ReadableCount(Repeated(db, lease, gateway, n).jobs[lease.job].legs) == ReadableCount(legs) - n
    {
      if n > 0 { assert Repeated(db, lease, gateway, n) == Repeated(after, lease, gateway, n - 1); }
    }
  }
}
