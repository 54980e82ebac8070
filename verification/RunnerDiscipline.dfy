/** A driver that pays before it sends: on runs where every leg that may still be sent has committed its
    spend before the job enters flight, no driver ever takes a job out of reconciliation. */
module RunnerDiscipline {
  import opened Options
  import opened RunnerStates
  import opened RunnerStore
  import opened RunnerRecovery
  import opened RunnerReconciler
  import opened RunnerProtocol
  import opened RunnerSafety

  /** The legs whose orders spend nothing; a leg's order is fixed with the job. */
  type Exempt = (string, nat) -> bool

  predicate Paid(spends: seq<Spend>, exempt: Exempt, job: string, leg: nat) {
    exempt(job, leg) || Committed(spends, job, leg)
  }

  /** Every leg a run could still send for has its spend committed. */
  ghost predicate AllPaid(db: Db, exempt: Exempt, job: string)
    requires job in db.jobs
  {
    forall x | x in db.jobs[job].legs && Unsent(db, job, x) :: Paid(db.spends, exempt, job, x.index)
  }

  /** The patch leaves the leg's status or resolves it. */
  predicate Settles(patch: Patch) {
    patch.status.None? || patch.status.value == SUCCEEDED || patch.status.value == LEG_FAILED || patch.status.value == SKIPPED
  }

  /** What the driver's passes keep to: pay before CREATING, give a job under reconciliation up only for a
      spend that was refused, take on no new leg in flight, and reopen none. */
  ghost predicate ByTheBook(db: Db, exempt: Exempt, e: Event) {
    e.Write? && e.job in db.jobs ==>
      match e.op
      case MoveTo(to) =>
        e.origin.Driver? ==>
          (to == CREATING ==> AllPaid(db, exempt, e.job))
          && (GivesUp(db.jobs[e.job].state, to) ==> !AllPaid(db, exempt, e.job))
      case Reserve(index, _) => InFlight(db.jobs[e.job].state) ==> FindLeg(db.jobs[e.job].legs, index).Some?
      case Update(_, patch) => Settles(patch)
      case Complete(_, _, learned) => learned.Some? ==> Settles(learned.value)
      case _ => true
  }

  ghost predicate FlightPaid(db: Db, exempt: Exempt, job: string)
    requires job in db.jobs
  {
    InFlight(db.jobs[job].state) ==> AllPaid(db, exempt, job)
  }

  // ---------- What steps do to spends ----------

  lemma SpendsGrow(w: World, e: Event, after: World, j: string, leg: nat)
    requires Inv(w) && Next(w, e, after) && Committed(w.db.spends, j, leg)
    ensures Committed(after.db.spends, j, leg)
  {
    hide Valid, ViewsHold, LocalRecords, SentRecorded, ServerHolds, LegsLearned, SpecOf, MayWrite, Apply, Committed;
    if e.Write? {
      WriterSees(w, e, after);
      WriteSpends(w.db, w.views[Member(e.instance, e.job)].lease, e.op, j, leg);
    } else {
      assert after.db.spends == w.db.spends;
    }
  }

  lemma WriteSpends(db: Db, lease: Lease, op: Op, j: string, leg: nat)
    requires Apply(db, lease, op).Ok? && Committed(db.spends, j, leg)
    ensures Committed(Apply(db, lease, op).value.spends, j, leg)
    ensures !op.Commit? ==> Apply(db, lease, op).value.spends == db.spends
  {
    hide SpecOf;
    var after := Apply(db, lease, op).value;
    if op.Commit? {
      var i :| 0 <= i < |db.spends| && db.spends[i].job == j && db.spends[i].leg == leg;
      assert after.spends[i] == db.spends[i];
    }
  }

  /** With the legs and attempts of a job as they were, what is paid stays paid. */
  lemma PaidStays(db: Db, after: Db, exempt: Exempt, j: string)
    requires j in db.jobs && j in after.jobs && AllPaid(db, exempt, j)
    requires after.jobs[j].legs == db.jobs[j].legs && AttemptsOf(after, j) == AttemptsOf(db, j)
    requires forall leg: nat :: Committed(db.spends, j, leg) ==> Committed(after.spends, j, leg)
    ensures AllPaid(after, exempt, j)
  {
    hide Resolved, Committed;
    forall x | x in after.jobs[j].legs && Unsent(after, j, x) ensures Paid(after.spends, exempt, j, x.index) {
      AttemptedByRows(db, after, j, x.index);
      assert Unsent(db, j, x);
    }
  }

  lemma AttemptedByRows(db: Db, after: Db, j: string, index: nat)
    requires AttemptsOf(after, j) == AttemptsOf(db, j)
    ensures Attempted(db, j, index) ==> Attempted(after, j, index)
  {
    if Attempted(db, j, index) {
      var a :| a in db.attempts && db.attempts[a].job == j && db.attempts[a].leg == index;
      assert a in AttemptsOf(db, j);
      assert a in AttemptsOf(after, j);
    }
  }

  // ---------- A write on the job ----------

  lemma ReservePaid(db: Db, exempt: Exempt, job: string, index: nat, key: string)
    requires Valid(db) && job in db.jobs && ApplyReserve(db, job, index, key).Ok? && FindLeg(db.jobs[job].legs, index).Some?
    ensures ApplyReserve(db, job, index, key).value == db
  {
  }

  lemma PatchPaid(db: Db, exempt: Exempt, job: string, index: nat, patch: Patch)
    requires Valid(db) && job in db.jobs && PatchLeg(db, job, index, patch).Ok? && Settles(patch) && AllPaid(db, exempt, job)
    ensures AllPaid(PatchLeg(db, job, index, patch).value, exempt, job)
  {
    hide Valid, Committed, ExecutionTaken, Attempted;
    var after, legs := PatchLeg(db, job, index, patch).value, db.jobs[job].legs;
    var p := FindLeg(legs, index).value;
    var more := after.jobs[job].legs;
    AttemptedSameDb(db, after, job);
    forall x | x in more && Unsent(after, job, x) ensures Paid(after.spends, exempt, job, x.index) {
      var q :| 0 <= q < |more| && more[q] == x;
      if q != p { assert legs[q] == x; } else { assert Unsent(db, job, legs[p]) && legs[p] in legs; }
    }
  }

  lemma AttemptedSameDb(db: Db, after: Db, job: string)
    requires after.attempts == db.attempts
    ensures forall index: nat :: Attempted(after, job, index) == Attempted(db, job, index)
  {
  }

  lemma BeginPaid(db: Db, exempt: Exempt, lease: Lease, attempt: string, index: nat, kind: Kind, fingerprint: string)
    requires lease.job in db.jobs && ApplyBegin(db, lease, attempt, index, kind, fingerprint).Ok?
    requires AllPaid(db, exempt, lease.job)
    ensures AllPaid(ApplyBegin(db, lease, attempt, index, kind, fingerprint).value, exempt, lease.job)
  {
    hide Committed, Resolved;
    var after := ApplyBegin(db, lease, attempt, index, kind, fingerprint).value;
    forall x | x in after.jobs[lease.job].legs && Unsent(after, lease.job, x) ensures Paid(after.spends, exempt, lease.job, x.index) {
      MoreAttempted(db, after, lease.job, x.index);
      assert Unsent(db, lease.job, x);
    }
  }

  lemma MoreAttempted(db: Db, after: Db, job: string, index: nat)
    requires db.attempts.Keys <= after.attempts.Keys
    requires forall a | a in db.attempts :: after.attempts[a].job == db.attempts[a].job && after.attempts[a].leg == db.attempts[a].leg
    ensures Attempted(db, job, index) ==> Attempted(after, job, index)
  {
  }

  lemma ClosePaid(db: Db, exempt: Exempt, a: string, outcome: AttemptOutcome, job: string)
    requires a in db.attempts && job in db.jobs && AllPaid(db, exempt, job)
    ensures AllPaid(db.(attempts := db.attempts[a := db.attempts[a].(outcome := Some(outcome))]), exempt, job)
  {
    hide Committed, Resolved;
    var after := db.(attempts := db.attempts[a := db.attempts[a].(outcome := Some(outcome))]);
    forall x | x in after.jobs[job].legs && Unsent(after, job, x) ensures Paid(after.spends, exempt, job, x.index) {
      MoreAttempted(db, after, job, x.index);
      assert Unsent(db, job, x);
    }
  }

  /** A transition pays nothing, so it enters flight only with everything paid. */
  lemma MovePaid(w: World, e: Event, after: World, exempt: Exempt)
    requires Inv(w) && e.Write? && e.op.MoveTo? && Next(w, e, after) && e.job in w.db.jobs
    requires FlightPaid(w.db, exempt, e.job) && ByTheBook(w.db, exempt, e)
    ensures e.job in after.db.jobs && FlightPaid(after.db, exempt, e.job)
  {
    hide Valid, ViewsHold, LocalRecords, SentRecorded, ServerHolds, LegsLearned, Next, SpecOf, Apply, AllPaid, MayMove;
    WriterSees(w, e, after);
    var view := w.views[Member(e.instance, e.job)];
    ApplyFrame(w.db, view.lease, e.op);
    MoveIsAnEdge(w.db, view.lease, e.op.to);
    MoveSpends(w.db, view.lease, e.op.to);
    FlightRules(w.db.jobs[e.job].state, e.op.to);
    if InFlight(e.op.to) {
      if e.op.to == CREATING && !InFlight(w.db.jobs[e.job].state) { OnlyDriversCreate(view, e.origin); }
      PaidStays(w.db, after.db, exempt, e.job);
    }
  }

  lemma MoveSpends(db: Db, lease: Lease, to: JobState)
    requires Apply(db, lease, MoveTo(to)).Ok?
    ensures
      var after := Apply(db, lease, MoveTo(to)).value;
      lease.job in after.jobs && after.spends == db.spends && after.jobs[lease.job].legs == db.jobs[lease.job].legs
  {
  }

  lemma OnlyDriversCreate(view: View, origin: Origin)
    requires MayMove(view, origin, CREATING)
    ensures origin.Driver?
  {
    if origin.Recovery? { PlanTargets(FactsSeen(view, origin)); }
  }

  lemma WriterPays(w: World, e: Event, after: World, exempt: Exempt)
    requires Inv(w) && e.Write? && Next(w, e, after) && e.job in w.db.jobs
    requires FlightPaid(w.db, exempt, e.job) && ByTheBook(w.db, exempt, e)
    ensures e.job in after.db.jobs && FlightPaid(after.db, exempt, e.job)
  {
    hide Valid, ViewsHold, LocalRecords, SentRecorded, ServerHolds, LegsLearned, Next, SpecOf, MayMove, MayLearn, PatchLeg,
      ApplyReserve, ApplyBegin, ApplyMove, ApplyCommit, AllPaid, Settles;
    WriterSees(w, e, after);
    var lease := w.views[Member(e.instance, e.job)].lease;
    if e.op.MoveTo? {
      MovePaid(w, e, after, exempt);
    } else {
      ApplyFrame(w.db, lease, e.op);
      if InFlight(w.db.jobs[e.job].state) { FlightWritePaid(w.db, lease, e.op, exempt); }
    }
  }

  /** In flight, no write by the book leaves a leg unpaid. */
  lemma FlightWritePaid(db: Db, lease: Lease, op: Op, exempt: Exempt)
    requires Valid(db) && Apply(db, lease, op).Ok? && !op.MoveTo? && AllPaid(db, exempt, lease.job)
    requires op.Reserve? ==> FindLeg(db.jobs[lease.job].legs, op.index).Some?
    requires op.Update? ==> Settles(op.patch)
    requires op.Complete? ==>
      op.attempt in db.attempts && db.attempts[op.attempt].job == lease.job && (op.learned.Some? ==> Settles(op.learned.value))
    ensures lease.job in Apply(db, lease, op).value.jobs && AllPaid(Apply(db, lease, op).value, exempt, lease.job)
  {
    hide Valid, SpecOf, PatchLeg, ApplyReserve, ApplyBegin, ApplyMove, AllPaid, Settles;
    ApplyFrame(db, lease, op);
    match op
    case Renew(_, _) => SameRowsPaid(db, Apply(db, lease, op).value, exempt, lease.job);
    case Release => SameRowsPaid(db, Apply(db, lease, op).value, exempt, lease.job);
    case Reserve(index, key) => ReservePaid(db, exempt, lease.job, index, key);
    case Update(index, patch) => PatchPaid(db, exempt, lease.job, index, patch);
    case Begin(a, index, kind, fingerprint) => BeginPaid(db, exempt, lease, a, index, kind, fingerprint);
    case Complete(a, outcome, learned) =>
      var closed := db.(attempts := db.attempts[a := db.attempts[a].(outcome := Some(outcome))]);
      ClosePaid(db, exempt, a, outcome, lease.job);
      CloseKeeps(db, a, outcome);
      if learned.Some? { PatchPaid(closed, exempt, lease.job, db.attempts[a].leg, learned.value); }
    case Commit(_, _, _, _) => SameRowsPaid(db, Apply(db, lease, op).value, exempt, lease.job);
  }

  lemma SameRowsPaid(db: Db, after: Db, exempt: Exempt, j: string)
    requires j in db.jobs && j in after.jobs && AllPaid(db, exempt, j)
    requires after.jobs[j].legs == db.jobs[j].legs && after.attempts == db.attempts && db.spends <= after.spends
    ensures AllPaid(after, exempt, j)
  {
    hide AllPaid;
    forall leg: nat | Committed(db.spends, j, leg) ensures Committed(after.spends, j, leg) {
      var i :| 0 <= i < |db.spends| && db.spends[i].job == j && db.spends[i].leg == leg;
      assert after.spends[i] == db.spends[i];
    }
    PaidStays(db, after, exempt, j);
  }

  // ---------- Whole runs ----------

  lemma NextPays(w: World, e: Event, after: World, exempt: Exempt, j: string)
    requires Inv(w) && Next(w, e, after) && j in after.db.jobs
    requires j in w.db.jobs ==> FlightPaid(w.db, exempt, j)
    requires e.Write? && e.job == j ==> ByTheBook(w.db, exempt, e)
    ensures FlightPaid(after.db, exempt, j)
  {
    hide Inv, Next, AllPaid, ByTheBook, AttemptsOf, SpecOf, Committed;
    if j !in w.db.jobs {
      NewIsBare(w, e, after, j);
      BareIsPaid(after.db, exempt, j);
    } else if e.Write? && e.job == j {
      WriterPays(w, e, after, exempt);
    } else {
      OtherStep(w, e, after, j);
      if InFlight(after.db.jobs[j].state) {
        forall leg: nat | Committed(w.db.spends, j, leg) ensures Committed(after.db.spends, j, leg) { SpendsGrow(w, e, after, j, leg); }
        PaidStays(w.db, after.db, exempt, j);
      }
    }
  }

  lemma BareIsPaid(db: Db, exempt: Exempt, j: string)
    requires j in db.jobs && db.jobs[j].legs == []
    ensures AllPaid(db, exempt, j)
  {
  }

  /** The writes for the job before the n-th step were by the book. */
  ghost predicate BookRun(worlds: seq<World>, events: seq<Event>, exempt: Exempt, n: nat, j: string)
    requires |worlds| == |events| + 1 && n < |worlds|
  {
    forall m :: 0 <= m < n && events[m].Write? && events[m].job == j ==> ByTheBook(worlds[m].db, exempt, events[m])
  }

  lemma {:induction false} BookPays(worlds: seq<World>, events: seq<Event>, exempt: Exempt, n: nat, j: string)
    requires Run(worlds, events) && n < |worlds| && BookRun(worlds, events, exempt, n, j) && j in worlds[n].db.jobs
    ensures FlightPaid(worlds[n].db, exempt, j)
  {
    hide Inv, Next, ByTheBook, FlightPaid;
    if n > 0 {
      RunKeeps(worlds, events, n - 1);
      if j in worlds[n - 1].db.jobs { BookPays(worlds, events, exempt, n - 1, j); }
      NextPays(worlds[n - 1], events[n - 1], worlds[n], exempt, j);
    }
  }

  /** No run by the book has a driver take a job from under reconciliation. */
  lemma NeverGivesUp(worlds: seq<World>, events: seq<Event>, exempt: Exempt, n: nat, j: string)
    requires Run(worlds, events) && n < |events| && BookRun(worlds, events, exempt, n + 1, j)
    requires events[n].Write? && events[n].job == j && events[n].origin.Driver? && events[n].op.MoveTo?
    requires j in worlds[n].db.jobs
    ensures !GivesUp(worlds[n].db.jobs[j].state, events[n].op.to)
  {
    hide Inv, Next, AllPaid;
    assert ByTheBook(worlds[n].db, exempt, events[n]);
    BookPays(worlds, events, exempt, n, j);
    ReconcilingFlies();
  }

  lemma ReconcilingFlies()
    ensures InFlight(RECONCILING)
  {
  }

  /** Then an overtaken recovery is the one step that can be amiss. */
  ghost predicate FreshRun(worlds: seq<World>, events: seq<Event>, n: nat, j: string)
    requires |worlds| == |events| + 1 && n < |worlds|
  {
    forall m :: 0 <= m < n && events[m].Write? && events[m].origin.Recovery? && events[m].job == j ==>
      !Misstep(worlds[m], events[m])
  }

  lemma BookIsStraight(worlds: seq<World>, events: seq<Event>, exempt: Exempt, n: nat, j: string)
    requires Run(worlds, events) && n < |worlds| && BookRun(worlds, events, exempt, n, j) && FreshRun(worlds, events, n, j)
    ensures Straight(worlds, events, n, j)
  {
    hide Inv, Next, Astray, ByTheBook;
    forall m | 0 <= m < n && events[m].Write? && events[m].job == j && !events[m].origin.Recovery?
      ensures !Misstep(worlds[m], events[m])
    {
      DriverStrays(worlds, events, exempt, m, j);
    }
  }

  lemma DriverStrays(worlds: seq<World>, events: seq<Event>, exempt: Exempt, m: nat, j: string)
    requires Run(worlds, events) && m < |events| && BookRun(worlds, events, exempt, m + 1, j)
    requires events[m].Write? && events[m].job == j && !events[m].origin.Recovery?
    ensures !Misstep(worlds[m], events[m])
  {
    hide Inv, ByTheBook, GivesUp, MayWrite, Apply;
    RunKeeps(worlds, events, m);
    assert Next(worlds[m], events[m], worlds[m + 1]);
    WriterSees(worlds[m], events[m], worlds[m + 1]);
    if events[m].origin.Driver? && events[m].op.MoveTo? { NeverGivesUp(worlds, events, exempt, m, j); }
  }

  /** So in a run by the book, a job that may still be ended locally, or was, never had a request sent,
      unless recovery acted for it on an overtaken listing. */
  lemma NeverSentByTheBook(worlds: seq<World>, events: seq<Event>, exempt: Exempt, n: nat, j: string, a: string)
    requires Run(worlds, events) && n < |worlds| && BookRun(worlds, events, exempt, n, j) && FreshRun(worlds, events, n, j)
    requires j in worlds[n].db.jobs && (CanEndLocally(worlds[n].db.jobs[j].state) || j in worlds[n].endedLocally)
    requires a in worlds[n].sent
    ensures a in worlds[n].db.attempts && worlds[n].db.attempts[a].job != j
  {
    hide Run, BookRun, FreshRun, Straight, SpecOf;
    BookIsStraight(worlds, events, exempt, n, j);
    RunnerSafety.NeverSent(worlds, events, n, j, a);
  }
}
