/** When an ended job may leave a request unanswered: the guard the driver lacks, and what follows from it
    for whole runs. */
module RunnerClosing {
  import opened Options
  import opened RunnerStates
  import opened RunnerStore
  import opened RunnerReconciler
  import opened RunnerProtocol

  /** What the driver would have to check: an attempt begins only on a leg that is not resolved, and a
      leg is marked resolved only while no attempt of it is open. */
  ghost predicate Guarded(db: Db, e: Event) {
    e.Write? && e.origin.Driver? && e.job in db.jobs ==>
      match e.op
      case Begin(_, index, _, _) => forall x | x in db.jobs[e.job].legs && x.index == index :: !Resolved(x)
      case Update(index, patch) => Resolves(patch) ==> !HasOpen(db, e.job, index)
      case _ => true
  }

  predicate Resolves(patch: Patch) {
    patch.status == Some(SUCCEEDED) || patch.status == Some(LEG_FAILED) || patch.status == Some(SKIPPED)
  }

  // ---------- Writes on the job ----------

  /** The legs and attempts of a job decide whether its resolved legs are closed. */
  lemma ClosedByRows(db: Db, after: Db, j: string)
    requires j in db.jobs && j in after.jobs && after.jobs[j].legs == db.jobs[j].legs
    requires AttemptsOf(after, j) == AttemptsOf(db, j)
    ensures ResolvedClosed(after, j) <==> ResolvedClosed(db, j)
    ensures NoOpen(after, j) <==> NoOpen(db, j)
  {
    forall leg: nat ensures HasOpen(after, j, leg) <==> HasOpen(db, j, leg) {
      if HasOpen(db, j, leg) { SameOpenRows(db, after, j, leg); }
      if HasOpen(after, j, leg) { SameOpenRows(after, db, j, leg); }
    }
    assert forall x: Leg :: OpenOn(after, j, x) <==> OpenOn(db, j, x);
    if NoOpen(db, j) { SameNoOpen(db, after, j); }
    if NoOpen(after, j) { SameNoOpen(after, db, j); }
  }

  lemma SameOpenRows(db: Db, after: Db, j: string, leg: nat)
    requires AttemptsOf(after, j) == AttemptsOf(db, j) && HasOpen(db, j, leg)
    ensures HasOpen(after, j, leg)
  {
    var a :| a in db.attempts && IsOpen(db, a, j, leg);
    assert a in AttemptsOf(db, j);
    assert a in AttemptsOf(after, j);
    assert IsOpen(after, a, j, leg);
  }

  lemma SameNoOpen(db: Db, after: Db, j: string)
    requires AttemptsOf(after, j) == AttemptsOf(db, j) && NoOpen(db, j)
    ensures NoOpen(after, j)
  {
    forall a | a in after.attempts && after.attempts[a].job == j ensures after.attempts[a].outcome.Some? {
      assert a in AttemptsOf(after, j);
      assert a in AttemptsOf(db, j);
    }
  }

  lemma ClosedReserve(db: Db, job: string, index: nat, key: string)
    requires Valid(db) && job in db.jobs && ApplyReserve(db, job, index, key).Ok? && ResolvedClosed(db, job)
    ensures ResolvedClosed(ApplyReserve(db, job, index, key).value, job)
  {
    hide KeysUnique, ExecutionsUnique, AttemptsKeyed, OneOpen, LegsPresent, TerminalUnheld, Ascending;
    var legs := db.jobs[job].legs;
    var after := ApplyReserve(db, job, index, key).value;
    SameOpenLegs(db, after, job);
    if FindLeg(legs, index).None? {
      var leg := NewLeg(index, key);
      assert Ascending(legs);
      InsertAscending(legs, leg);
      var more := after.jobs[job].legs;
      forall p | 0 <= p < |more| && Resolved(more[p]) ensures !OpenOn(after, job, more[p]) {
        assert more[p] in more;
        var q :| 0 <= q < |legs| && legs[q] == more[p];
        assert !OpenOn(db, job, legs[q]);
      }
    }
  }

  lemma SameOpenLegs(db: Db, after: Db, job: string)
    requires after.attempts == db.attempts
    ensures forall x: Leg :: OpenOn(after, job, x) <==> OpenOn(db, job, x)
  {
    forall x: Leg ensures OpenOn(after, job, x) <==> OpenOn(db, job, x) {
      forall a | a in db.attempts ensures IsOpen(after, a, job, x.index) <==> IsOpen(db, a, job, x.index) {}
    }
  }

  lemma ClosedPatch(db: Db, job: string, index: nat, patch: Patch)
    requires job in db.jobs && PatchLeg(db, job, index, patch).Ok? && ResolvedClosed(db, job)
    requires Resolves(patch) ==> !HasOpen(db, job, index)
    ensures ResolvedClosed(PatchLeg(db, job, index, patch).value, job)
  {
    hide ExecutionTaken;
    var after := PatchLeg(db, job, index, patch).value;
    SameOpenLegs(db, after, job);
    var legs, more, p := db.jobs[job].legs, after.jobs[job].legs, FindLeg(db.jobs[job].legs, index).value;
    forall q | 0 <= q < |more| && Resolved(more[q]) ensures !OpenOn(after, job, more[q]) {
      if q != p { assert !OpenOn(db, job, legs[q]); }
      if q == p && !Resolves(patch) { assert !OpenOn(db, job, legs[p]); }
    }
  }

  lemma ClosedBegin(db: Db, lease: Lease, attempt: string, index: nat, kind: Kind, fingerprint: string)
    requires lease.job in db.jobs && ApplyBegin(db, lease, attempt, index, kind, fingerprint).Ok?
    requires ResolvedClosed(db, lease.job)
    requires forall x | x in db.jobs[lease.job].legs && x.index == index :: !Resolved(x)
    ensures ResolvedClosed(ApplyBegin(db, lease, attempt, index, kind, fingerprint).value, lease.job)
  {
    var after := ApplyBegin(db, lease, attempt, index, kind, fingerprint).value;
    var legs := db.jobs[lease.job].legs;
    forall p | 0 <= p < |legs| && Resolved(legs[p]) ensures !OpenOn(after, lease.job, legs[p]) {
      assert legs[p] in legs;
      assert !OpenOn(db, lease.job, legs[p]);
      forall a | a in after.attempts ensures !IsOpen(after, a, lease.job, legs[p].index) {
        assert a in db.attempts ==> !IsOpen(db, a, lease.job, legs[p].index);
      }
    }
  }

  lemma ClosedComplete(db: Db, attempt: string, outcome: AttemptOutcome, learned: Option<Patch>)
    requires Valid(db) && ApplyComplete(db, attempt, outcome, learned).Ok?
    requires db.attempts[attempt].job in db.jobs && ResolvedClosed(db, db.attempts[attempt].job)
    ensures ResolvedClosed(ApplyComplete(db, attempt, outcome, learned).value, db.attempts[attempt].job)
  {
    hide LegsOrdered, KeysUnique, ExecutionsUnique, AttemptsKeyed, LegsPresent, TerminalUnheld, PatchLeg;
    var row := db.attempts[attempt];
    var closed := db.(attempts := db.attempts[attempt := row.(outcome := Some(outcome))]);
    forall a, leg | a in closed.attempts && IsOpen(closed, a, row.job, leg) ensures a != attempt && IsOpen(db, a, row.job, leg) {}
    var legs := db.jobs[row.job].legs;
    forall p | 0 <= p < |legs| && Resolved(legs[p]) ensures !OpenOn(closed, row.job, legs[p]) {
      assert !OpenOn(db, row.job, legs[p]);
    }
    assert IsOpen(db, attempt, row.job, row.leg);
    assert !HasOpen(closed, row.job, row.leg);
    if learned.Some? { ClosedPatch(closed, row.job, row.leg, learned.value); }
  }

  /** A write on the job keeps its resolved legs closed, if the driver's are guarded. */
  lemma WriterCloses(w: World, e: Event, after: World)
    requires Inv(w) && e.Write? && Next(w, e, after) && e.job in w.db.jobs && ResolvedClosed(w.db, e.job) && Guarded(w.db, e)
    ensures e.job in after.db.jobs && ResolvedClosed(after.db, e.job)
  {
    hide Valid, ViewsHold, LocalRecords, SentRecorded, ServerHolds, LegsLearned, Next, SpecOf, MayMove, MayLearn, PatchLeg,
      ApplyReserve, ApplyBegin, ApplyMove, ApplyComplete, ResolvedClosed, Resolved;
    WriterSees(w, e, after);
    var lease := w.views[Member(e.instance, e.job)].lease;
    match e.op
    case Renew(_, _) => ClosedByRows(w.db, after.db, e.job);
    case Release => ClosedByRows(w.db, after.db, e.job);
    case Commit(_, _, _, _) => ClosedByRows(w.db, after.db, e.job);
    case MoveTo(to) =>
      MoveLegs(w.db, lease, to);
      MoveIsAnEdge(w.db, lease, to);
      ClosedByRows(w.db, after.db, e.job);
    case Reserve(index, key) => ClosedReserve(w.db, e.job, index, key);
    case Update(index, patch) =>
      SeenIsOpen(w.db, lease, index);
      ClosedPatch(w.db, e.job, index, patch);
    case Begin(a, index, kind, fingerprint) => ClosedBegin(w.db, lease, a, index, kind, fingerprint);
    case Complete(a, outcome, learned) => ClosedComplete(w.db, a, outcome, learned);
  }

  // ---------- Any step, and runs ----------

  lemma NextCloses(w: World, e: Event, after: World, j: string)
    requires Inv(w) && Next(w, e, after) && j in after.db.jobs
    requires j in w.db.jobs ==> ResolvedClosed(w.db, j)
    requires e.Write? && e.job == j ==> Guarded(w.db, e)
    ensures ResolvedClosed(after.db, j)
  {
    hide Inv, Next, ResolvedClosed, Guarded, AttemptsOf;
    if j !in w.db.jobs {
      NewIsBare(w, e, after, j);
      BareIsClosed(after.db, j);
    } else if e.Write? && e.job == j {
      WriterCloses(w, e, after);
    } else {
      OtherStep(w, e, after, j);
      ClosedByRows(w.db, after.db, j);
    }
  }

  lemma BareIsClosed(db: Db, j: string)
    requires j in db.jobs && db.jobs[j].legs == []
    ensures ResolvedClosed(db, j)
  {
  }

  /** The driver's writes for the job before the n-th step were guarded. */
  ghost predicate GuardedRun(worlds: seq<World>, events: seq<Event>, n: nat, j: string)
    requires |worlds| == |events| + 1 && n < |worlds|
  {
    forall m :: 0 <= m < n && events[m].Write? && events[m].job == j ==> Guarded(worlds[m].db, events[m])
  }

  lemma {:induction false} GuardedCloses(worlds: seq<World>, events: seq<Event>, n: nat, j: string)
    requires Run(worlds, events) && n < |worlds| && GuardedRun(worlds, events, n, j) && j in worlds[n].db.jobs
    ensures ResolvedClosed(worlds[n].db, j)
  {
    hide Inv, Next, Guarded, ResolvedClosed;
    if n > 0 {
      RunKeeps(worlds, events, n - 1);
      if j in worlds[n - 1].db.jobs { GuardedCloses(worlds, events, n - 1, j); }
      NextCloses(worlds[n - 1], events[n - 1], worlds[n], j);
    }
  }

  /** An ended job takes no further write. */
  lemma {:induction false} EndedIsFinal(worlds: seq<World>, events: seq<Event>, m: nat, n: nat, j: string)
    requires Run(worlds, events) && m <= n < |worlds| && j in worlds[m].db.jobs && Terminal(worlds[m].db.jobs[j].state)
    ensures j in worlds[n].db.jobs && worlds[n].db.jobs[j].state == worlds[m].db.jobs[j].state
    ensures worlds[n].db.jobs[j].legs == worlds[m].db.jobs[j].legs
    ensures AttemptsOf(worlds[n].db, j) == AttemptsOf(worlds[m].db, j)
  {
    hide Inv, Next, SpecOf, AttemptsOf;
    if m < n {
      EndedIsFinal(worlds, events, m, n - 1, j);
      RunKeeps(worlds, events, n - 1);
      WritesLiveJobs(worlds[n - 1], events[n - 1], worlds[n]);
      OtherStep(worlds[n - 1], events[n - 1], worlds[n], j);
    }
  }

  lemma WritesLiveJobs(w: World, e: Event, after: World)
    requires Inv(w) && Next(w, e, after)
    ensures e.Write? ==> e.job in w.db.jobs && !Terminal(w.db.jobs[e.job].state)
  {
    hide Valid, ViewsHold, LocalRecords, SentRecorded, ServerHolds, LegsLearned, SpecOf, MayWrite, Apply, Next;
    if e.Write? {
      WriterSees(w, e, after);
      ApplyLater(w.db, w.views[Member(e.instance, e.job)].lease, e.op);
    }
  }

  /** With the guard, a job the reconciler has ended has no attempt open, then or ever after. */
  lemma EndedHasNoOpen(worlds: seq<World>, events: seq<Event>, m: nat, n: nat, j: string)
    requires Run(worlds, events) && m < n < |worlds| && GuardedRun(worlds, events, m, j)
    requires events[m].Write? && events[m].job == j && events[m].origin.Reconciler?
    requires events[m].op.MoveTo? && Terminal(events[m].op.to)
    ensures NoOpen(worlds[n].db, j)
  {
    hide Inv, Next, SpecOf, AttemptsOf, ResolvedClosed, NoOpen, GuardedRun;
    RunKeeps(worlds, events, m);
    GuardedEnd(worlds[m], events[m], worlds[m + 1]);
    GuardedCloses(worlds, events, m, j);
    EndedIsFinal(worlds, events, m + 1, n, j);
    ClosedByRows(worlds[m + 1].db, worlds[n].db, j);
  }

  /** The reconciler ends a job only with every leg resolved, and then nothing is open exactly if the
      resolved legs are closed. */
  lemma GuardedEnd(w: World, e: Event, after: World)
    requires Inv(w) && Next(w, e, after) && e.Write? && e.origin.Reconciler? && e.op.MoveTo? && Terminal(e.op.to)
    ensures e.job in w.db.jobs && e.job in after.db.jobs && Terminal(after.db.jobs[e.job].state)
    ensures NoOpen(after.db, e.job) <==> ResolvedClosed(w.db, e.job)
  {
    hide Valid, ViewsHold, LocalRecords, SentRecorded, ServerHolds, LegsLearned, SpecOf, Apply, Next, ResolvedClosed, AllResolved;
    WriterSees(w, e, after);
    var lease := w.views[Member(e.instance, e.job)].lease;
    ApplyFrame(w.db, lease, e.op);
    EndsResolved(w.views[Member(e.instance, e.job)], e.op.to);
    ClosedMeansNoOpen(w.db, e.job);
    MoveIsAnEdge(w.db, lease, e.op.to);
    SameOpen(w.db, after.db, e.job);
  }

  lemma EndsResolved(view: View, to: JobState)
    requires MayMove(view, Reconciler, to) && Terminal(to)
    ensures AllResolved(view.legs)
  {
  }
}
