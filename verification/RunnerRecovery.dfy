/** What a starting Runner decides about each job it finds, and the loop that acts on it. */
module RunnerRecovery {
  import opened Options
  import opened RunnerStates
  import opened RunnerStore

  datatype Disposition =
    | UNKNOWN_PENDING_KEPT | RECONCILE | REARMED | RESUMED | EXPIRED_NOW | CANCELLED_NOW | HELD_ELSEWHERE | UNRESOLVED

  datatype Facts = Facts(state: JobState, hasOpenAttempt: bool, hasAbandonedAttempt: bool, hasExecution: bool,
    cancelRequested: bool, expired: bool)

  datatype Plan = Plan(to: JobState, disposition: Disposition)

  /** The decision. As long as a request may be out, no cancellation and no deadline counts. */
  function Classify(facts: Facts): Plan {
    if facts.hasOpenAttempt then Plan(UNKNOWN_PENDING, UNKNOWN_PENDING_KEPT)
    else if facts.state == UNKNOWN_PENDING then Plan(RECONCILING, RECONCILE)
    else if facts.hasExecution then Plan(RECONCILING, RECONCILE)
    else if InFlight(facts.state) || facts.hasAbandonedAttempt then Plan(UNKNOWN_PENDING, UNKNOWN_PENDING_KEPT)
    else if facts.cancelRequested then Plan(CANCELLED, CANCELLED_NOW)
    else if facts.expired then Plan(EXPIRED, EXPIRED_NOW)
    else if facts.state == TRIGGERED || facts.state == QUOTING then Plan(WATCHING, REARMED)
    else Plan(facts.state, RESUMED)
  }

  /** Something of the job may have left the process. */
  predicate Evidence(facts: Facts) {
    facts.hasOpenAttempt || facts.hasAbandonedAttempt || facts.hasExecution
  }

  /** A job is ended or re-armed only when nothing can have been sent for it; a request to cancel
      outranks the clock, and either outranks re-arming. */
  lemma EndsOnlyUnsent(facts: Facts)
    ensures
      var to := Classify(facts).to;
      var unsent := !Evidence(facts) && !InFlight(facts.state);
      && (InFlight(to) <==> !unsent)
      && (unsent ==> (to == CANCELLED <==> facts.cancelRequested || (facts.state == CANCELLED && !facts.expired)))
      && (unsent ==> (to == EXPIRED <==> !facts.cancelRequested && (facts.expired || facts.state == EXPIRED)))
      && (unsent && !facts.cancelRequested && !facts.expired ==>
          to == if facts.state == TRIGGERED || facts.state == QUOTING then WATCHING else facts.state)
  {
  }

  /** What is not ended or re-armed is reconciled when something can be read or is known to be pending with no
      attempt open, and left pending when an attempt is open or nothing tells what was sent. The disposition names
      the target. */
  lemma PlanIsExact(facts: Facts)
    requires !Terminal(facts.state)
    ensures
      var (to, disposition) := (Classify(facts).to, Classify(facts).disposition);
      && (to == RECONCILING <==> !facts.hasOpenAttempt && (facts.state == UNKNOWN_PENDING || facts.hasExecution))
      && (to == UNKNOWN_PENDING <==>
          facts.hasOpenAttempt
          || (facts.state != UNKNOWN_PENDING && !facts.hasExecution && (InFlight(facts.state) || facts.hasAbandonedAttempt)))
      && (disposition == RECONCILE <==> to == RECONCILING)
      && (disposition == UNKNOWN_PENDING_KEPT <==> to == UNKNOWN_PENDING)
      && (disposition == CANCELLED_NOW <==> to == CANCELLED)
      && (disposition == EXPIRED_NOW <==> to == EXPIRED)
      && (disposition == REARMED <==> to == WATCHING && facts.state in {TRIGGERED, QUOTING})
      && (disposition == RESUMED <==> to == facts.state && to in {DRAFT, WATCHING, PAUSED})
  {
  }

  /** What the store makes of a plan for a job listed in one state and now in another: no write at all,
      or a move that changes the state, keeps a job in flight in flight, and takes one out only where
      it is being reconciled. */
  predicate Accepts(actual: JobState, listed: JobState, to: JobState) {
    || to == listed
    || (to != actual && if InFlight(to) then InFlight(actual) else CanEndLocally(actual) || actual == RECONCILING)
  }

  lemma PlanTargets(facts: Facts)
    ensures Classify(facts).to in {facts.state, UNKNOWN_PENDING, RECONCILING, CANCELLED, EXPIRED, WATCHING}
  {
  }

  lemma EdgesToTargets(actual: JobState, to: JobState)
    requires !Terminal(actual) && to in {UNKNOWN_PENDING, RECONCILING, CANCELLED, EXPIRED, WATCHING}
    ensures CanTransition(actual, to)
      <==> to != actual && if InFlight(to) then InFlight(actual) else CanEndLocally(actual) || actual == RECONCILING
  {
  }

  /** The store refuses a plan in exactly the other cases. */
  lemma PlanIsLegal(facts: Facts, actual: JobState)
    requires !Terminal(facts.state) && !Terminal(actual)
    ensures
      var to := Classify(facts).to;
      to == facts.state || CanTransition(actual, to) <==> Accepts(actual, facts.state, to)
  {
    hide Classify, SpecOf, CanTransition;
    PlanTargets(facts);
    if Classify(facts).to != facts.state { EdgesToTargets(actual, Classify(facts).to); }
  }

  /** On a listing that is still true, it refuses exactly when there is evidence for a job not in flight. */
  lemma CurrentPlanIsLegal(facts: Facts)
    requires !Terminal(facts.state)
    ensures Accepts(facts.state, facts.state, Classify(facts).to) <==> (Evidence(facts) ==> InFlight(facts.state))
  {
  }

  // ---------- The recovery loop ----------

  predicate AttemptOf(db: Db, a: string, job: string, outcome: Option<AttemptOutcome>)
    requires a in db.attempts
  {
    db.attempts[a].job == job && db.attempts[a].outcome == outcome
  }

  /** The facts of a job's row, its legs and its attempts. */
  function FactsOf(db: Db, job: string, at: int): Facts
    requires job in db.jobs
  {
    var row := db.jobs[job];
    Facts(row.state,
      exists a | a in db.attempts :: AttemptOf(db, a, job, None),
      exists a | a in db.attempts :: AttemptOf(db, a, job, Some(ABANDONED)),
      exists p :: 0 <= p < |row.legs| && row.legs[p].execution.Some?,
      row.cancelAt.Some?, row.expiresAt <= at)
  }

  /** Evidence exists for jobs in flight only, as every run of the protocol keeps it. */
  ghost predicate EvidenceInFlight(db: Db) {
    forall j | j in db.jobs && !Terminal(db.jobs[j].state) :: RowEvidence(db, j)
  }

  ghost predicate RowEvidence(db: Db, j: string)
    requires j in db.jobs
  {
    forall at: int :: Evidence(FactsOf(db, j, at)) ==> InFlight(db.jobs[j].state)
  }

  /** The facts recovery decides from: state, cancellation and deadline as the job was listed, legs and
      attempts as they are once it is claimed. */
  function FactsGiven(db: Db, job: string, listed: Job, at: int): Facts
    requires job in db.jobs
  {
    FactsOf(db, job, at).(state := listed.state, cancelRequested := listed.cancelAt.Some?, expired := listed.expiresAt <= at)
  }

  datatype Recovered = Recovered(job: string, from: JobState, to: JobState, disposition: Disposition, lease: Option<Lease>)

  function ClaimedRow(row: Job, instance: string, at: int, ttl: int): Job {
    row.(holder := Some(instance), leaseExpires := Some(at + ttl), fence := row.fence + 1)
  }

  /** What is reported for a listed job and what becomes of its row. */
  ghost predicate RecoveredAs(before: Db, after: Job, listed: Job, r: Recovered, instance: string, at: int, ttl: int)
    requires r.job in before.jobs
  {
    var row, plan := before.jobs[r.job], Classify(FactsGiven(before, r.job, listed, at));
    var claimed := ClaimedRow(row, instance, at, ttl);
    var lease := Lease(r.job, instance, row.fence + 1, at + ttl);
    if !Claimable(before, r.job, instance, at) then
      r == Recovered(r.job, listed.state, listed.state, HELD_ELSEWHERE, None) && after == row
    else if !Accepts(row.state, listed.state, plan.to) then
      r == Recovered(r.job, listed.state, listed.state, UNRESOLVED, Some(lease)) && after == claimed
    else
      && r == Recovered(r.job, listed.state, plan.to, plan.disposition, if Terminal(plan.to) then None else Some(lease))
      && after == if plan.to == listed.state then claimed else Moved(claimed, plan.to)
  }

  lemma ClaimKeepsFacts(before: Db, after: Db, job: string, listed: Job, at: int)
    requires job in before.jobs && job in after.jobs && after.attempts == before.attempts
    requires after.jobs[job].legs == before.jobs[job].legs
    ensures FactsGiven(after, job, listed, at) == FactsGiven(before, job, listed, at)
  {
    assert forall a, outcome | a in before.attempts :: AttemptOf(after, a, job, outcome) == AttemptOf(before, a, job, outcome);
  }

  /** A plan within the machine's edges never lacks a leg: it enters flight only from flight. */
  lemma PlanNeedsLegs(facts: Facts, actual: JobState)
    requires !Terminal(facts.state) && CanTransition(actual, Classify(facts).to)
    ensures SpecOf(Classify(facts).to).requiresLeg ==> SpecOf(actual).requiresLeg
  {
  }

  /** What the store answers to the transition, on any listing. */
  lemma PlanIsAccepted(db: Db, lease: Lease, facts: Facts)
    requires Valid(db) && Current(db, lease) && !Terminal(facts.state) && Classify(facts).to != facts.state
    ensures Apply(db, lease, MoveTo(Classify(facts).to)).Ok? <==> Accepts(db.jobs[lease.job].state, facts.state, Classify(facts).to)
  {
    hide Valid, Classify, Accepts, SpecOf;
    ValidRow(db, lease.job);
    var to, state := Classify(facts).to, db.jobs[lease.job].state;
    PlanIsLegal(facts, state);
    if CanTransition(state, to) { PlanNeedsLegs(facts, state); }
  }

  /** One turn of the loop: claim the job, gather its facts, act on the plan. The listed row is any
      row the job may have had. */
  method RecoverOne(store: JobStore, job: string, listed: Job, instance: string, at: int, ttl: int) returns (r: Recovered)
    requires Valid(store.Contents()) && instance in store.instances && job in store.jobs && !Terminal(listed.state)
    modifies store
    ensures store.attempts == old(store.attempts) && store.instances == old(store.instances)
    ensures job in store.jobs && store.jobs == old(store.jobs)[job := store.jobs[job]]
    ensures Valid(store.Contents())
    ensures r.job == job && RecoveredAs(old(store.Contents()), store.jobs[job], listed, r, instance, at, ttl)
  {
    hide Valid, SpecOf, Classify, Accepts;
    var before := Db(store.instances, store.jobs, store.attempts, store.spends);
    ClaimKeeps(before, job, instance, at, ttl);
    var claimed := store.ClaimJob(job, instance, at, ttl);
    if claimed.value.None? {
      return Recovered(job, listed.state, listed.state, HELD_ELSEWHERE, None);
    }
    var lease := claimed.value.value;
    var db := Db(store.instances, store.jobs, store.attempts, store.spends);
    var facts := FactsGiven(db, job, listed, at);
    assert facts == FactsGiven(before, job, listed, at) by { ClaimKeepsFacts(before, db, job, listed, at); }
    var plan := Classify(facts);
    if plan.to == listed.state {
      assert Accepts(before.jobs[job].state, listed.state, plan.to) by { NoWriteIsAccepted(before.jobs[job].state, listed.state); }
      return Recovered(job, listed.state, listed.state, plan.disposition, Some(lease));
    }
    PlanIsAccepted(db, lease, facts);
    var moved := store.Transition(lease, plan.to);
    if moved.Refused? {
      return Recovered(job, listed.state, listed.state, UNRESOLVED, Some(lease));
    }
    ApplyKeeps(db, lease, MoveTo(plan.to));
    return Recovered(job, listed.state, plan.to, plan.disposition, if SpecOf(plan.to).terminal then None else Some(lease));
  }

  ghost predicate OpenFor(db: Db, job: string) {
    exists a | a in db.attempts :: db.attempts[a].job == job && db.attempts[a].outcome == None
  }

  ghost predicate AbandonedFor(db: Db, job: string) {
    exists a | a in db.attempts :: db.attempts[a].job == job && db.attempts[a].outcome == Some(ABANDONED)
  }

  ghost predicate ExecutedFor(row: Job) {
    exists x | x in row.legs :: x.execution != None
  }

  lemma FactsAreRows(db: Db, job: string, listed: Job, at: int)
    requires job in db.jobs
    ensures
      var facts := FactsGiven(db, job, listed, at);
      && (facts.hasOpenAttempt <==> OpenFor(db, job))
      && (facts.hasAbandonedAttempt <==> AbandonedFor(db, job))
      && (facts.hasExecution <==> ExecutedFor(db.jobs[job]))
      && facts.state == listed.state && (facts.cancelRequested <==> listed.cancelAt != None)
      && (facts.expired <==> listed.expiresAt <= at)
  {
    assert forall a, outcome | a in db.attempts ::
      AttemptOf(db, a, job, outcome) <==> db.attempts[a].job == job && db.attempts[a].outcome == outcome;
    assert forall p :: 0 <= p < |db.jobs[job].legs| ==> db.jobs[job].legs[p] in db.jobs[job].legs;
  }

  /** The end recovery puts a listed job to, told from its rows: pending, reconciled, or, with nothing out, cancelled
      before expired before re-armed. */
  function Recovering(open: bool, abandoned: bool, executed: bool, listed: Job, at: int): JobState {
    if open then UNKNOWN_PENDING
    else if executed || listed.state == UNKNOWN_PENDING then RECONCILING
    else if abandoned || listed.state in {CREATING, AWAITING_SIGNATURE, SUBMITTING, SUBMITTED, RECONCILING} then UNKNOWN_PENDING
    else if listed.cancelAt != None then CANCELLED
    else if listed.expiresAt <= at then EXPIRED
    else if listed.state in {TRIGGERED, QUOTING} then WATCHING
    else listed.state
  }

  /** What `RecoverOne` and `RecoverJobs` make of a job they could claim, when the store took the move: state, report
      and row, told from the legs and attempts it has. */
  lemma RecoveredRow(before: Db, after: Job, listed: Job, r: Recovered, instance: string, at: int, ttl: int)
    requires r.job in before.jobs && !Terminal(listed.state) && RecoveredAs(before, after, listed, r, instance, at, ttl)
    requires r.disposition != HELD_ELSEWHERE && r.disposition != UNRESOLVED
    ensures
      var row := before.jobs[r.job];
      var open, executed := OpenFor(before, r.job), ExecutedFor(row);
      && r.from == listed.state && r.to == Recovering(open, AbandonedFor(before, r.job), executed, listed, at)
      && (r.to == RECONCILING <==> !open && (executed || listed.state == UNKNOWN_PENDING))
      && (r.to == RECONCILING <==> r.disposition == RECONCILE)
      && (r.to == UNKNOWN_PENDING <==> r.disposition == UNKNOWN_PENDING_KEPT)
      && (r.to == CANCELLED <==> r.disposition == CANCELLED_NOW) && (r.to == EXPIRED <==> r.disposition == EXPIRED_NOW)
      && (r.to == WATCHING && r.to != listed.state <==> r.disposition == REARMED)
      && after.legs == row.legs && after.fence == row.fence + 1
      && after.state == (if r.to == listed.state then row.state else r.to)
      && (if r.to in {CANCELLED, EXPIRED} then r.lease == None && after.holder == None
          else r.lease == Some(Lease(r.job, instance, row.fence + 1, at + ttl))
               && after.holder == Some(instance) && after.leaseExpires == Some(at + ttl))
  {
    hide FactsGiven, OpenFor, AbandonedFor, ExecutedFor, Accepts;
    FactsAreRows(before, r.job, listed, at);
    PlanIsExact(FactsGiven(before, r.job, listed, at));
  }

  lemma NoWriteIsAccepted(actual: JobState, listed: JobState)
    ensures Accepts(actual, listed, listed)
  {
  }

  datatype Listed = Listed(job: string, row: Job)

  /** A listing the store gave at some time: rows of jobs that had not ended, each job once. */
  ghost predicate WasListed(db: Db, listed: seq<Listed>) {
    && (forall m, n :: 0 <= m < n < |listed| ==> listed[m].job != listed[n].job)
    && (forall m :: 0 <= m < |listed| ==> listed[m].job in db.jobs && !Terminal(listed[m].row.state))
  }

  ghost predicate OnList(listed: seq<Listed>, j: string, n: nat)
    requires n <= |listed|
  {
    exists m :: 0 <= m < n && listed[m].job == j
  }

  /** What the loop has done after `n` jobs of the listing. */
  ghost predicate RecoveredFirst(before: Db, after: Db, listed: seq<Listed>, report: seq<Recovered>, instance: string, at: int,
      ttl: int, n: nat)
    requires n <= |listed| && WasListed(before, listed)
  {
    && after.jobs.Keys == before.jobs.Keys && |report| == n
    && (forall m :: 0 <= m < n ==>
        report[m].job == listed[m].job
        && RecoveredAs(before, after.jobs[listed[m].job], listed[m].row, report[m], instance, at, ttl))
    && (forall j | j in before.jobs && !OnList(listed, j, n) :: after.jobs[j] == before.jobs[j])
  }

  lemma RecoveredSame(before: Db, middle: Db, after: Job, listed: Job, r: Recovered, instance: string, at: int, ttl: int)
    requires r.job in before.jobs && r.job in middle.jobs && middle.jobs[r.job] == before.jobs[r.job]
    requires middle.attempts == before.attempts && RecoveredAs(middle, after, listed, r, instance, at, ttl)
    ensures RecoveredAs(before, after, listed, r, instance, at, ttl)
  {
    hide Classify, SpecOf, FactsGiven, Accepts;
    ClaimKeepsFacts(before, middle, r.job, listed, at);
  }

  /** Every job that has not ended is listed, in the row it has. */
  ghost predicate IsCurrent(db: Db, listed: seq<Listed>) {
    && (forall m :: 0 <= m < |listed| ==> listed[m].job in db.jobs && listed[m].row == db.jobs[listed[m].job])
    && (forall j | j in db.jobs && !Terminal(db.jobs[j].state) :: OnList(listed, j, |listed|))
  }

  /** Another instance that has not stopped and has been silent for longer than it may. */
  predicate IsStale(instances: map<string, Instance>, i: string, instance: string, at: int, staleAfter: int)
    requires i in instances
  {
    i != instance && instances[i].stoppedAt.None? && at - instances[i].heartbeatAt > staleAfter
  }

  /** An instance that registered or gave a sign of life counts as stale from when the time allowed has passed since, and
      one that stopped never does; signs of life of one say nothing of another. */
  lemma HeardIsNotStale(db: Db, i: string, pid: int, host: string, at: int, observer: string, later: int, staleAfter: int)
    requires i != observer
    ensures IsStale(ApplyRegister(db, i, pid, host, at).instances, i, observer, later, staleAfter) <==> later - at > staleAfter
    ensures i in db.instances ==>
      && ApplyHeartbeat(db, i, at).Ok?
      && (IsStale(ApplyHeartbeat(db, i, at).value.instances, i, observer, later, staleAfter) <==>
          db.instances[i].stoppedAt == None && later - at > staleAfter)
      && !IsStale(ApplyStop(db, i, at).instances, i, observer, later, staleAfter)
    ensures forall k | k in db.instances && k != i ::
      && ApplyRegister(db, i, pid, host, at).instances[k] == db.instances[k]
      && (i in db.instances ==> ApplyHeartbeat(db, i, at).value.instances[k] == ApplyStop(db, i, at).instances[k] == db.instances[k])
  {
  }

  /** Start-up recovery: the instances nobody hears of are named, and every listed job is reported once,
      in listing order, claimed and moved by its plan unless another instance holds it or the store
      refuses the plan. */
  method RecoverJobs(store: JobStore, listed: seq<Listed>, instance: string, at: int, ttl: int, staleAfter: int)
    returns (report: seq<Recovered>, stale: set<string>)
    requires Valid(store.Contents()) && instance in store.instances && WasListed(store.Contents(), listed)
    modifies store
    ensures Valid(store.Contents()) && store.attempts == old(store.attempts) && store.instances == old(store.instances)
    ensures RecoveredFirst(old(store.Contents()), store.Contents(), listed, report, instance, at, ttl, |listed|)
    ensures forall i :: i in stale <==> i in old(store.instances) && IsStale(old(store.instances), i, instance, at, staleAfter)
  {
    hide Valid, RecoveredAs, SpecOf, OnList;
    ghost var before := store.Contents();
    stale := set i | i in store.instances && IsStale(store.instances, i, instance, at, staleAfter);
    report := [];
    NoneYet(listed);
    for n := 0 to |listed|
      invariant Valid(store.Contents()) && store.attempts == before.attempts && store.instances == before.instances
      invariant RecoveredFirst(before, store.Contents(), listed, report, instance, at, ttl, n)
    {
      var job, row := listed[n].job, listed[n].row;
      NotYet(before, listed, n);
      ghost var middle := store.Contents();
      var r := RecoverOne(store, job, row, instance, at, ttl);
      RecoveredSame(before, middle, store.jobs[job], row, r, instance, at, ttl);
      report := report + [r];
    }
  }

  lemma NoneYet(listed: seq<Listed>)
    ensures forall j :: !OnList(listed, j, 0)
  {
  }

  lemma NotYet(db: Db, listed: seq<Listed>, n: nat)
    requires WasListed(db, listed) && n < |listed|
    ensures !OnList(listed, listed[n].job, n)
    ensures forall j :: OnList(listed, j, n + 1) <==> OnList(listed, j, n) || j == listed[n].job
  {
    forall j | OnList(listed, j, n) ensures OnList(listed, j, n + 1) {
      var m :| 0 <= m < n && listed[m].job == j;
    }
  }

  /** On a listing that is still true, with evidence only for jobs in flight, recovery leaves no job
      unresolved and none that has not ended out of its report. */
  lemma NeverUnresolved(before: Db, after: Db, listed: seq<Listed>, report: seq<Recovered>, instance: string, at: int, ttl: int)
    requires WasListed(before, listed) && IsCurrent(before, listed) && EvidenceInFlight(before)
    requires RecoveredFirst(before, after, listed, report, instance, at, ttl, |listed|)
    ensures forall n :: 0 <= n < |report| ==> report[n].disposition != UNRESOLVED
    ensures forall j | j in before.jobs && !Terminal(before.jobs[j].state) :: exists n :: 0 <= n < |report| && report[n].job == j
  {
    hide Classify, SpecOf, FactsOf, Accepts;
    forall n | 0 <= n < |report| ensures report[n].disposition != UNRESOLVED {
      var j := listed[n].job;
      assert RowEvidence(before, j);
      var facts := FactsOf(before, j, at);
      assert FactsGiven(before, j, listed[n].row, at) == facts by { CurrentFacts(before, j, at); }
      CurrentPlanIsLegal(facts);
      assert facts.state == before.jobs[j].state by { CurrentFacts(before, j, at); }
      PlansResolve(facts);
    }
    forall j | j in before.jobs && !Terminal(before.jobs[j].state) ensures exists n :: 0 <= n < |report| && report[n].job == j {
      var n :| 0 <= n < |listed| && listed[n].job == j;
      assert report[n].job == j;
    }
  }

  lemma CurrentFacts(db: Db, j: string, at: int)
    requires j in db.jobs
    ensures FactsGiven(db, j, db.jobs[j], at) == FactsOf(db, j, at) && FactsOf(db, j, at).state == db.jobs[j].state
  {
  }

  lemma PlansResolve(facts: Facts)
    ensures Classify(facts).disposition != UNRESOLVED
  {
  }
}
