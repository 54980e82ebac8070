/** When a job that acted is safe from local endings: what each step keeps for each job, the two kinds
    of step that can break it, and what follows for whole runs. */
module RunnerSafety {
  import opened Options
  import opened RunnerStates
  import opened RunnerStore
  import opened RunnerRecovery
  import opened RunnerProtocol
  import RunnerReconciler

  /** A request may have left for the job. */
  ghost predicate Acted(db: Db, job: string) {
    exists a | a in db.attempts :: db.attempts[a].job == job
  }

  /** A request has left for it. */
  ghost predicate Sent(w: World, job: string) {
    exists a | a in w.sent && a in w.db.attempts :: w.db.attempts[a].job == job
  }

  /** A job that acted is in flight, or has ended through something other than a local decision. */
  ghost predicate ActedRow(w: World, j: string)
    requires j in w.db.jobs
  {
    Acted(w.db, j) ==>
      InFlight(w.db.jobs[j].state) || (Terminal(w.db.jobs[j].state) && j !in w.endedLocally)
  }

  // ---------- The steps that can break it ----------

  /** A recovery whose listing was overtaken: the job is being reconciled now, no request of it may have
      taken effect, and the listing says it had not started, and was to be ended or re-armed. */
  predicate Overtaken(state: JobState, facts: Facts) {
    && state == RECONCILING && CanEndLocally(facts.state) && !Evidence(facts)
    && (facts.cancelRequested || facts.expired || facts.state == TRIGGERED || facts.state == QUOTING)
  }

  /** A driver that takes a job under reconciliation back to watching, or ends it on its own. */
  predicate GivesUp(state: JobState, to: JobState) {
    state == RECONCILING && (to == WATCHING || to == CANCELLED || to == EXPIRED)
  }

  ghost predicate Astray(view: View, origin: Origin, to: JobState) {
    match origin
    case Driver => GivesUp(view.state, to)
    case Reconciler => false
    case Recovery(_, _) => Overtaken(view.state, FactsSeen(view, origin))
  }

  ghost predicate Strays(w: World, e: Event) {
    e.Write? && e.op.MoveTo? && Member(e.instance, e.job) in w.views && Astray(w.views[Member(e.instance, e.job)], e.origin, e.op.to)
  }

  /** One of the two, on a job that acted. */
  ghost predicate Misstep(w: World, e: Event) {
    Strays(w, e) && Acted(w.db, e.job)
  }

  // ---------- One step, one job ----------

  lemma EndStates()
    ensures Terminal(CANCELLED) && Terminal(EXPIRED) && !Terminal(WATCHING) && !InFlight(WATCHING)
    ensures forall s: JobState :: Terminal(s) ==> !InFlight(s)
  {
  }

  /** Out of flight a plan leads only from an overtaken listing. */
  lemma RecoveryMove(view: View, origin: Origin, to: JobState)
    requires origin.Recovery? && !Terminal(origin.listed.state) && MayMove(view, origin, to)
    requires CanTransition(view.state, to) && InFlight(view.state)
    ensures InFlight(to) || to == CANCELLED || to == EXPIRED || to == WATCHING
    ensures !InFlight(to) <==> Astray(view, origin, to)
  {
    hide NoExecutions;
    FlightRules(view.state, to);
  }

  lemma ActedByRows(db: Db, j: string)
    ensures Acted(db, j) <==> AttemptsOf(db, j) != map[]
  {
    if Acted(db, j) {
      var a :| a in db.attempts && db.attempts[a].job == j;
      assert a in AttemptsOf(db, j);
    } else {
      assert AttemptsOf(db, j) == map[];
    }
  }

  /** A move of a job in flight that acted. */
  lemma MoveActed(view: View, origin: Origin, to: JobState)
    requires MayMove(view, origin, to) && CanTransition(view.state, to) && InFlight(view.state) && view.attempts != map[]
    requires origin.Recovery? ==> !Terminal(origin.listed.state)
    ensures InFlight(to) || (Terminal(to) && !EndsLocally(origin, MoveTo(to))) <==> !Astray(view, origin, to)
  {
    hide FactsSeen, Overtaken, Classify, NoExecutions, SpecOf, RunnerReconciler.AllResolved;
    EndStates();
    DriverMove(view.state, to);
    if origin.Recovery? { RecoveryMove(view, origin, to); }
  }

  lemma DriverMove(state: JobState, to: JobState)
    requires CanTransition(state, to) && InFlight(state)
    ensures InFlight(to) || (Terminal(to) && to != CANCELLED && to != EXPIRED) <==> !GivesUp(state, to)
    ensures state == UNKNOWN_PENDING ==> InFlight(to)
    ensures to == UNKNOWN_PENDING ==> InFlight(to)
  {
  }

  lemma WritingIsInFlight(state: JobState)
    requires SpecOf(state).effect == WRITE
    ensures InFlight(state)
  {
  }

  /** A move of the job itself. */
  lemma MoverActed(w: World, e: Event, after: World)
    requires Inv(w) && e.Write? && e.op.MoveTo? && Next(w, e, after) && e.job in w.db.jobs && ActedRow(w, e.job)
    ensures e.job in after.db.jobs && (ActedRow(after, e.job) <==> !Misstep(w, e))
    ensures Misstep(w, e) ==> CanEndLocally(after.db.jobs[e.job].state) || e.job in after.endedLocally
  {
    hide Valid, ViewsHold, SentRecorded, ServerHolds, LegsLearned, Apply, Next, SpecOf, MayMove, Astray, EndsLocally;
    WriterSees(w, e, after);
    var view := w.views[Member(e.instance, e.job)];
    ApplyFrame(w.db, view.lease, e.op);
    ApplyLater(w.db, view.lease, e.op);
    EndStates();
    MoveIsAnEdge(w.db, view.lease, e.op.to);
    ActedByRows(w.db, e.job);
    ActedByRows(after.db, e.job);
    if Acted(w.db, e.job) {
      MoveActed(view, e.origin, e.op.to);
      if Astray(view, e.origin, e.op.to) { StrayMove(view, e.origin, e.op.to); }
    }
  }

  /** Any write on the job itself. */
  lemma WriterActed(w: World, e: Event, after: World)
    requires Inv(w) && e.Write? && Next(w, e, after) && e.job in w.db.jobs && ActedRow(w, e.job)
    ensures e.job in after.db.jobs && (ActedRow(after, e.job) <==> !Misstep(w, e))
    ensures Misstep(w, e) ==> CanEndLocally(after.db.jobs[e.job].state) || e.job in after.endedLocally
  {
    if e.op.MoveTo? {
      MoverActed(w, e, after);
    } else {
      StayerActed(w, e, after);
    }
  }

  /** Other writes leave its state alone, and begin an attempt only in flight. */
  lemma StayerActed(w: World, e: Event, after: World)
    requires Inv(w) && e.Write? && !e.op.MoveTo? && Next(w, e, after) && e.job in w.db.jobs && ActedRow(w, e.job)
    ensures e.job in after.db.jobs && ActedRow(after, e.job) && !Misstep(w, e)
  {
    hide Valid, ViewsHold, SentRecorded, ServerHolds, LegsLearned, Apply, Next, SpecOf, MayMove, MayLearn, Astray;
    WriterSees(w, e, after);
    var view := w.views[Member(e.instance, e.job)];
    ApplyFrame(w.db, view.lease, e.op);
    ApplyLater(w.db, view.lease, e.op);
    if e.op.Begin? { WritingIsInFlight(w.db.jobs[e.job].state); }
  }

  /** Where such a move leaves the job. */
  lemma StrayMove(view: View, origin: Origin, to: JobState)
    requires MayMove(view, origin, to) && CanTransition(view.state, to) && Astray(view, origin, to)
    requires origin.Recovery? ==> !Terminal(origin.listed.state)
    ensures CanEndLocally(to) || EndsLocally(origin, MoveTo(to))
  {
    hide NoExecutions;
    if origin.Recovery? { RecoveryMove(view, origin, to); }
  }

  /** Whatever happens to other jobs, one job stays as it must in every step but a misstep on itself;
      and after that it does not. */
  lemma JobKeeps(w: World, e: Event, after: World, j: string)
    requires Inv(w) && Next(w, e, after) && j in w.db.jobs && ActedRow(w, j)
    ensures j in after.db.jobs && (ActedRow(after, j) <==> !(Misstep(w, e) && e.job == j))
  {
    hide Inv, Next, Acted, Astray, AttemptsOf;
    if e.Write? && e.job == j {
      WriterActed(w, e, after);
    } else {
      OtherStep(w, e, after, j);
      ActedByRows(w.db, j);
      ActedByRows(after.db, j);
    }
  }

  /** Jobs come without attempts. */
  lemma NewActed(w: World, e: Event, after: World, j: string)
    requires Inv(w) && Next(w, e, after) && j !in w.db.jobs && j in after.db.jobs
    ensures ActedRow(after, j)
  {
    hide Inv, Next, SpecOf;
    NewIsBare(w, e, after, j);
    ActedByRows(after.db, j);
  }

  // ---------- The condition is exact ----------

  /** Nothing was sent for the job if it may still be ended locally, or was. */
  ghost predicate SafeJob(w: World, j: string)
    requires j in w.db.jobs
  {
    CanEndLocally(w.db.jobs[j].state) || j in w.endedLocally ==> !Sent(w, j)
  }

  lemma ActedIsSafe(w: World, j: string)
    requires Inv(w) && j in w.db.jobs && ActedRow(w, j)
    ensures SafeJob(w, j)
  {
    hide Valid, ViewsHold, SentRecorded, ServerHolds, LegsLearned, SpecOf;
    EndStates();
  }

  /** From a world in which a job is as it must be, a step makes its local ending unsafe exactly when it
      is one of the two missteps and a request for the job has left. */
  lemma SafetyIsExact(w: World, e: Event, after: World, j: string)
    requires Inv(w) && Next(w, e, after) && j in w.db.jobs && ActedRow(w, j)
    ensures j in after.db.jobs
    ensures SafeJob(after, j) <==> !(Strays(w, e) && e.job == j && Sent(w, j))
  {
    hide Inv, Next, ActedRow, Astray, SpecOf, Sent;
    NextKeeps(w, e, after);
    JobKeeps(w, e, after, j);
    SentIsActed(w, j);
    if Misstep(w, e) && e.job == j {
      StraySent(w, e, after);
    } else {
      ActedIsSafe(after, j);
    }
  }

  lemma SentIsActed(w: World, j: string)
    ensures Sent(w, j) ==> Acted(w.db, j)
  {
  }

  /** A misstep leaves the job open to a local ending, and what was sent is sent. */
  lemma StraySent(w: World, e: Event, after: World)
    requires Inv(w) && Next(w, e, after) && Misstep(w, e) && e.job in w.db.jobs && ActedRow(w, e.job)
    ensures e.job in after.db.jobs && (CanEndLocally(after.db.jobs[e.job].state) || e.job in after.endedLocally)
    ensures Sent(after, e.job) <==> Sent(w, e.job)
  {
    hide Valid, ViewsHold, LocalRecords, SentRecorded, ServerHolds, LegsLearned, SpecOf, Apply, MayWrite, Astray;
    WriterSees(w, e, after);
    WriterActed(w, e, after);
    MoveIsAnEdge(w.db, w.views[Member(e.instance, e.job)].lease, e.op.to);
  }

  /** Over all jobs: from a world in which each is as it must be, the world after a step is safe unless
      the step is a misstep on a job that has sent. */
  lemma WorldSafetyIsExact(w: World, e: Event, after: World)
    requires Inv(w) && Next(w, e, after) && forall j | j in w.db.jobs :: ActedRow(w, j)
    ensures (forall j | j in after.db.jobs :: SafeJob(after, j)) <==> !(Strays(w, e) && Sent(w, e.job))
  {
    hide Inv, Next, ActedRow, Astray, SpecOf, Sent, SafeJob;
    NextKeeps(w, e, after);
    forall j | j in after.db.jobs ensures SafeJob(after, j) <==> !(Strays(w, e) && e.job == j && Sent(w, j)) {
      if j in w.db.jobs {
        SafetyIsExact(w, e, after, j);
      } else {
        NewActed(w, e, after, j);
        ActedIsSafe(after, j);
        StrayIsKnown(w, e);
      }
    }
    StrayIsKnown(w, e);
    if Strays(w, e) { JobKeeps(w, e, after, e.job); }
  }

  lemma StrayIsKnown(w: World, e: Event)
    requires Inv(w)
    ensures Strays(w, e) ==> e.job in w.db.jobs
  {
    hide Valid, LocalRecords, SentRecorded, ServerHolds, LegsLearned, Astray;
  }

  // ---------- Whole runs ----------

  /** No step before the n-th was a misstep on the job. */
  ghost predicate Straight(worlds: seq<World>, events: seq<Event>, n: nat, j: string)
    requires |worlds| == |events| + 1 && n < |worlds|
  {
    forall m :: 0 <= m < n ==> !(Misstep(worlds[m], events[m]) && events[m].job == j)
  }

  lemma {:induction false} StraightKeeps(worlds: seq<World>, events: seq<Event>, n: nat, j: string)
    requires Run(worlds, events) && n < |worlds| && Straight(worlds, events, n, j)
    ensures j in worlds[n].db.jobs ==> ActedRow(worlds[n], j)
  {
    hide Inv, Next, Misstep, ActedRow;
    if n > 0 && j in worlds[n].db.jobs {
      StraightKeeps(worlds, events, n - 1, j);
      RunKeeps(worlds, events, n - 1);
      if j in worlds[n - 1].db.jobs {
        JobKeeps(worlds[n - 1], events[n - 1], worlds[n], j);
      } else {
        NewActed(worlds[n - 1], events[n - 1], worlds[n], j);
      }
    }
  }

  /** A job that may still be ended locally, or was, never had a request sent for any leg, whatever
      happened to other jobs. */
  lemma NeverSent(worlds: seq<World>, events: seq<Event>, n: nat, j: string, a: string)
    requires Run(worlds, events) && n < |worlds| && Straight(worlds, events, n, j)
    requires j in worlds[n].db.jobs && (CanEndLocally(worlds[n].db.jobs[j].state) || j in worlds[n].endedLocally)
    requires a in worlds[n].sent
    ensures a in worlds[n].db.attempts && worlds[n].db.attempts[a].job != j
  {
    hide Valid, ViewsHold, ServerHolds, LegsLearned, Next, SpecOf, Run, Misstep, ActedRow;
    RunKeeps(worlds, events, n);
    StraightKeeps(worlds, events, n, j);
    ActedIsSafe(worlds[n], j);
  }

  /** And recovery finds evidence for it only where its plans are legal. */
  lemma RecoveryNeverStuck(worlds: seq<World>, events: seq<Event>, n: nat, j: string)
    requires Run(worlds, events) && n < |worlds| && Straight(worlds, events, n, j)
    requires j in worlds[n].db.jobs && !Terminal(worlds[n].db.jobs[j].state)
    ensures RowEvidence(worlds[n].db, j)
  {
    hide Run, Straight, Inv, SpecOf, FactsOf;
    RunKeeps(worlds, events, n);
    StraightKeeps(worlds, events, n, j);
    var w := worlds[n];
    forall at: int | Evidence(FactsOf(w.db, j, at)) ensures InFlight(w.db.jobs[j].state) {
      EvidenceMeansActed(w, j, at);
    }
  }

  lemma EvidenceMeansActed(w: World, j: string, at: int)
    requires Inv(w) && j in w.db.jobs && Evidence(FactsOf(w.db, j, at))
    ensures Acted(w.db, j)
  {
    hide ViewsHold, LocalRecords, KeysUnique, ExecutionsUnique, OneOpen, LegsPresent, TerminalUnheld, LegsOrdered, SpecOf;
    if FactsOf(w.db, j, at).hasExecution {
      var p :| 0 <= p < |w.db.jobs[j].legs| && w.db.jobs[j].legs[p].execution.Some?;
      ExecutionMeansActed(w, j, w.db.jobs[j].legs[p]);
    }
  }

  lemma ExecutionMeansActed(w: World, j: string, x: Leg)
    requires Inv(w) && InLegs(w.db, j, x) && x.execution.Some?
    ensures Acted(w.db, j)
  {
    hide ViewsHold, LocalRecords, ExecutionsUnique, OneOpen, LegsPresent, TerminalUnheld, LegsOrdered, SpecOf;
    assert Asked(w, x.key);
    var a :| a in w.sent && a in w.db.attempts && w.db.attempts[a].key == x.key;
    var row := w.db.attempts[a];
    var y :| y in w.db.jobs[row.job].legs && y.index == row.leg && y.key == row.key;
    assert InLegs(w.db, row.job, y);
  }

  /** What recovery plans for a job it holds is what the protocol lets it write. */
  lemma RecoveryObeys(db: Db, lease: Lease, listed: Job, at: int)
    requires lease.job in db.jobs
    ensures
      var plan := Classify(FactsGiven(db, lease.job, listed, at));
      plan.to != listed.state <==> MayMove(Snapshot(db, lease), Recovery(listed, at), plan.to)
  {
    hide Classify;
    var view, facts := Snapshot(db, lease), FactsGiven(db, lease.job, listed, at);
    SeenAre(db, lease, None);
    SeenAre(db, lease, Some(ABANDONED));
    assert FactsSeen(view, Recovery(listed, at)) == facts;
  }

  lemma SeenAre(db: Db, lease: Lease, outcome: Option<AttemptOutcome>)
    requires lease.job in db.jobs
    ensures
      var view := Snapshot(db, lease);
      (exists a | a in view.attempts :: view.attempts[a].outcome == outcome)
        <==> (exists a | a in db.attempts :: AttemptOf(db, a, lease.job, outcome))
  {
    var view := Snapshot(db, lease);
    forall a | a in db.attempts && AttemptOf(db, a, lease.job, outcome)
      ensures a in view.attempts && view.attempts[a].outcome == outcome {}
  }
}
