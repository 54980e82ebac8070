/** Runs that show the conditions of the safety results are needed: each is built step by step from the
    empty store. */
module RunnerRuns {
  import opened Options
  import opened RunnerStates
  import opened RunnerStore
  import opened RunnerRecovery
  import opened RunnerProtocol
  import opened RunnerSafety
  import RunnerReconciler

  ghost predicate Reached(w: World) {
    exists worlds, events :: Run(worlds, events) && worlds[|worlds| - 1] == w
  }

  lemma ReachStart()
    ensures Reached(START)
  {
    assert Run([START], []);
  }

  lemma ReachNext(w: World, e: Event, after: World)
    requires Reached(w) && Next(w, e, after)
    ensures Reached(after)
  {
    hide Next;
    var worlds, events :| Run(worlds, events) && worlds[|worlds| - 1] == w;
    var more, also := worlds + [after], events + [e];
    forall n | 0 <= n < |also| ensures Next(more[n], also[n], more[n + 1]) {
      assert n < |events| ==> Next(worlds[n], events[n], worlds[n + 1]);
    }
    assert Run(more, also) && more[|more| - 1] == after;
  }

  lemma ReachedKeeps(w: World)
    requires Reached(w)
    ensures Inv(w)
  {
    hide Inv, Next;
    var worlds, events :| Run(worlds, events) && worlds[|worlds| - 1] == w;
    RunKeeps(worlds, events, |worlds| - 1);
  }

  // ---------- Steps of a run with one job ----------

  const HELD: Member := Member("a", "job")

  /** Instance `i` holds the only job, and its view shows it. */
  ghost predicate Holding(w: World, i: string, state: JobState, legs: seq<Leg>, attempts: map<string, Attempt>, fence: nat) {
    && Reached(w) && Member(i, "job") in w.views
    && w.db.jobs.Keys == {"job"} && w.db.jobs["job"].state == state && w.db.jobs["job"].legs == legs
    && w.db.jobs["job"].holder == Some(i) && w.db.jobs["job"].fence == fence
    && w.db.attempts == attempts && (forall a | a in attempts :: attempts[a].job == "job")
    && w.views[Member(i, "job")].lease.job == "job" && w.views[Member(i, "job")].lease.instance == i
    && w.views[Member(i, "job")].lease.fence == fence
    && w.views[Member(i, "job")] == View(w.views[Member(i, "job")].lease, state, legs, attempts)
  }

  /** What stays the same in the steps below. */
  predicate Beside(w: World, after: World) {
    && after.db.instances == w.db.instances && after.listings == w.listings && after.sent == w.sent
    && after.executions == w.executions
    && "job" in w.db.jobs && "job" in after.db.jobs && after.db.jobs["job"].cancelAt == w.db.jobs["job"].cancelAt
  }

  lemma MoveOn(w: World, i: string, origin: Origin, state: JobState, legs: seq<Leg>, attempts: map<string, Attempt>,
      fence: nat, to: JobState)
    returns (after: World)
    requires Holding(w, i, state, legs, attempts, fence)
    requires CanTransition(state, to) && (SpecOf(to).requiresLeg ==> legs != [])
    requires MayMove(w.views[Member(i, "job")], origin, to)
    requires origin.Recovery? ==> Member(i, "job") in w.listings && w.listings[Member(i, "job")] == origin.listed
    ensures Reached(after) && "job" in after.db.jobs && after.db.jobs["job"].state == to
    ensures Apply(w.db, w.views[Member(i, "job")].lease, MoveTo(to)) == Ok(after.db)
    ensures !Terminal(to) ==>
      Holding(after, i, to, legs, attempts, fence)
      && after.views[Member(i, "job")].lease == w.views[Member(i, "job")].lease
    ensures Beside(w, after) && after.db.attempts == attempts && after.begun == w.begun
    ensures EndsLocally(origin, MoveTo(to)) ==> "job" in after.endedLocally
  {
    hide MayMove, SpecOf, Reached, CanTransition, PatchLeg, ApplyReserve, ApplyBegin, ApplyCommit;
    var e := Write(i, "job", origin, MoveTo(to));
    var lease := w.views[Member(i, "job")].lease;
    var db := Apply(w.db, lease, MoveTo(to)).value;
    after := Written(w, e, db);
    assert Next(w, e, after);
    ReachNext(w, e, after);
    assert AttemptsOf(db, "job") == attempts;
  }

  /** A driver's move by the first instance. */
  lemma DriveOn(w: World, state: JobState, legs: seq<Leg>, attempts: map<string, Attempt>, to: JobState)
    returns (after: World)
    requires Holding(w, "a", state, legs, attempts, 1)
    requires CanTransition(state, to) && !Terminal(to) && (SpecOf(to).requiresLeg ==> legs != [])
    ensures Holding(after, "a", to, legs, attempts, 1) && Beside(w, after)
  {
    hide SpecOf, Reached, CanTransition, FactsSeen, Classify;
    after := MoveOn(w, "a", Driver, state, legs, attempts, 1, to);
  }

  /** The edges the runs below take. */
  lemma Roads()
    ensures CanTransition(DRAFT, WATCHING) && CanTransition(WATCHING, TRIGGERED) && CanTransition(TRIGGERED, QUOTING)
    ensures CanTransition(TRIGGERED, WATCHING) && CanTransition(QUOTING, CREATING) && CanTransition(QUOTING, WATCHING)
    ensures CanTransition(CREATING, RECONCILING) && CanTransition(CREATING, UNKNOWN_PENDING)
    ensures CanTransition(RECONCILING, WATCHING) && CanTransition(RECONCILING, CANCELLED) && CanTransition(RECONCILING, FAILED)
    ensures CanTransition(UNKNOWN_PENDING, RECONCILING) && CanTransition(CREATING, AWAITING_SIGNATURE)
    ensures CanTransition(AWAITING_SIGNATURE, RECONCILING) && CanTransition(RECONCILING, EXPIRED)
  {
  }

  lemma Kinds()
    ensures !SpecOf(WATCHING).requiresLeg && !SpecOf(TRIGGERED).requiresLeg && !SpecOf(QUOTING).requiresLeg
    ensures !SpecOf(CANCELLED).requiresLeg && !SpecOf(FAILED).requiresLeg
    ensures !Terminal(WATCHING) && !Terminal(TRIGGERED) && !Terminal(QUOTING) && !Terminal(CREATING) && !Terminal(RECONCILING)
    ensures !Terminal(UNKNOWN_PENDING) && !Terminal(DRAFT) && Terminal(FAILED) && Terminal(CANCELLED)
    ensures !Terminal(AWAITING_SIGNATURE) && Terminal(EXPIRED) && !SpecOf(EXPIRED).requiresLeg
  {
  }

  /** A driver reserves a leg under a key of its own. */
  lemma ReserveOn(w: World, legs: seq<Leg>, leg: Leg) returns (after: World)
    requires Holding(w, "a", QUOTING, legs, map[], 1) && leg == NewLeg(leg.index, leg.key)
    requires FindLeg(legs, leg.index).None? && !HasKey(legs, leg.key)
    ensures Holding(after, "a", QUOTING, InsertLeg(legs, leg), map[], 1) && Beside(w, after)
  {
    hide Reached, SpecOf, FindLeg, InsertLeg, HasKey;
    var e := Write("a", "job", Driver, Reserve(leg.index, leg.key));
    assert !KeyTaken(w.db, leg.key);
    var db := Apply(w.db, w.views[HELD].lease, e.op).value;
    after := Written(w, e, db);
    ReachNext(w, e, after);
    assert AttemptsOf(db, "job") == map[];
  }

  const SKIP: Patch := NOTHING.(status := Some(SKIPPED))

  /** A driver passes over a leg. */
  lemma SkipOn(w: World, legs: seq<Leg>, p: nat) returns (after: World)
    requires Holding(w, "a", QUOTING, legs, map[], 1) && p < |legs| && FindLeg(legs, legs[p].index) == Some(p)
    ensures Holding(after, "a", QUOTING, legs[p := Patched(legs[p], SKIP)], map[], 1) && Beside(w, after)
  {
    hide Reached, SpecOf, FindLeg;
    var e := Write("a", "job", Driver, Update(legs[p].index, SKIP));
    var db := Apply(w.db, w.views[HELD].lease, e.op).value;
    after := Written(w, e, db);
    ReachNext(w, e, after);
    assert AttemptsOf(db, "job") == map[];
  }

  /** An attempt is recorded. */
  lemma RecordOn(w: World, legs: seq<Leg>, attempts: map<string, Attempt>, p: nat, a: string) returns (after: World)
    requires Holding(w, "a", CREATING, legs, attempts, 1) && p < |legs| && FindLeg(legs, legs[p].index) == Some(p)
    requires a !in attempts && forall b | b in attempts :: attempts[b].leg != legs[p].index
    ensures Holding(after, "a", CREATING, legs, attempts[a := RequestFor(legs[p])], 1)
    ensures Beside(w, after) && ("a", a) in after.begun
  {
    hide Reached, FindLeg, MayMove, MayLearn, CanTransition;
    var index, row := legs[p].index, RequestFor(legs[p]);
    var e := Write("a", "job", Driver, Begin(a, index, CREATE_EXECUTION, "f"));
    assert !HasOpen(w.db, "job", index);
    var db := Apply(w.db, w.views[HELD].lease, e.op).value;
    assert db.attempts == attempts[a := row];
    assert IsOpen(db, a, "job", index);
    assert OpenAttempt(db, "job", index) == a;
    assert AttemptsOf(db, "job") == attempts[a := row];
    after := Written(w, e, db);
    ReachNext(w, e, after);
  }

  /** Its request is sent. */
  lemma SendOn(w: World, legs: seq<Leg>, p: nat) returns (after: World)
    requires Holding(w, "a", CREATING, legs, map[], 1) && p < |legs| && FindLeg(legs, legs[p].index) == Some(p)
    ensures Holding(after, "a", CREATING, legs, map["t" := RequestFor(legs[p])], 1) && "t" in after.sent
    ensures Beside(w.(sent := w.sent + {"t"}), after)
  {
    hide Reached, FindLeg;
    var begun := RecordOn(w, legs, map[], p, "t");
    after := begun.(sent := begun.sent + {"t"});
    ReachNext(begun, Send("a", "t"), after);
  }

  function RequestFor(leg: Leg): Attempt {
    Attempt("job", leg.index, CREATE_EXECUTION, leg.key, "f", "a", None)
  }

  lemma Claiming(w: World, i: string) returns (after: World)
    requires Reached(w) && i in w.db.instances && w.db.jobs.Keys == {"job"} && w.db.jobs["job"].holder.None?
    requires !Terminal(w.db.jobs["job"].state) && forall a | a in w.db.attempts :: w.db.attempts[a].job == "job"
    ensures Holding(after, i, w.db.jobs["job"].state, w.db.jobs["job"].legs, w.db.attempts, w.db.jobs["job"].fence + 1)
    ensures Beside(w, after)
  {
    hide Reached, SpecOf;
    var (db, lease) := ApplyClaim(w.db, "job", i, 0, 1).value;
    after := w.(db := db, views := w.views[Member(i, "job") := Snapshot(db, lease.value)]);
    ReachNext(w, Claim(i, "job", 0, 1), after);
    assert AttemptsOf(db, "job") == w.db.attempts;
  }

  /** Instance `a` gives the job back and `b` claims it. */
  lemma HandOver(w: World, state: JobState, legs: seq<Leg>, attempts: map<string, Attempt>) returns (after: World)
    requires Holding(w, "a", state, legs, attempts, 1) && "b" in w.db.instances && !Terminal(state)
    ensures Holding(after, "b", state, legs, attempts, 2) && Beside(w, after)
  {
    hide Reached, SpecOf;
    var e := Write("a", "job", Driver, Release);
    var db := Apply(w.db, w.views[HELD].lease, e.op).value;
    var free := Written(w, e, db);
    ReachNext(w, e, free);
    after := Claiming(free, "b");
  }

  /** A job is created and instance `a` claims it. */
  lemma Begun() returns (w: World)
    ensures Holding(w, "a", DRAFT, [], map[], 1) && "b" in w.db.instances
    ensures "job" in w.db.jobs && w.db.jobs["job"].cancelAt.None? && w.executions == {}
  {
    hide Reached, SpecOf;
    ReachStart();
    var w1 := START.(db := ApplyRegister(START.db, "a", 1, "host", 0));
    ReachNext(START, Register("a", 1, "host", 0), w1);
    var w2 := w1.(db := ApplyRegister(w1.db, "b", 2, "host", 0));
    ReachNext(w1, Register("b", 2, "host", 0), w2);
    var w3 := w2.(db := ApplyCreate(w2.db, "job", 1, Some(0)).value);
    ReachNext(w2, CreateJob("job", 1, Some(0)), w3);
    DraftIsFree();
    w := Claiming(w3, "a");
    assert AttemptsOf(w.db, "job") == map[];
  }

  lemma Triggered() returns (w: World)
    ensures Holding(w, "a", TRIGGERED, [], map[], 1) && "b" in w.db.instances
    ensures "job" in w.db.jobs && w.db.jobs["job"].cancelAt.None? && w.executions == {}
  {
    hide Holding, SpecOf, CanTransition;
    Roads();
    Kinds();
    w := Begun();
    w := DriveOn(w, DRAFT, [], map[], WATCHING);
    w := DriveOn(w, WATCHING, [], map[], TRIGGERED);
  }

  /** Instance `b` lists the job as it stands. */
  lemma Listing(w: World, state: JobState) returns (after: World)
    requires Holding(w, "a", state, [], map[], 1) && !Terminal(state)
    ensures Holding(after, "a", state, [], map[], 1) && after.db == w.db
    ensures after.listings == w.listings[Member("b", "job") := w.db.jobs["job"]]
  {
    hide Reached, SpecOf;
    after := w.(listings := w.listings[Member("b", "job") := w.db.jobs["job"]]);
    ReachNext(w, List("b", "job"), after);
  }

  // ---------- A listing that is overtaken ----------

  const FIRST_LEG: Leg := NewLeg(0, "k")
  const REFUSED_LEG: Leg := FIRST_LEG.(status := LEG_FAILED)
  const REQUEST: Attempt := Attempt("job", 0, CREATE_EXECUTION, "k", "f", "a", None)
  const REFUSED_REQUEST: Attempt := REQUEST.(outcome := Some(REFUSED))

  /** The owner asks for a cancellation, and a starting instance lists the job. */
  lemma CancelListed() returns (w: World)
    ensures Holding(w, "a", TRIGGERED, [], map[], 1) && "b" in w.db.instances && ListedToCancel(w)
  {
    hide Reached, SpecOf;
    Kinds();
    var before := Triggered();
    var db := ApplyCancelRequest(before.db, "job", "enough", 0).value;
    var asked := before.(db := db);
    ReachNext(before, RequestCancel("job", "enough", 0), asked);
    w := Listing(asked, TRIGGERED);
  }

  predicate ListedToCancel(w: World) {
    && Member("b", "job") in w.listings && w.listings[Member("b", "job")].state == TRIGGERED
    && w.listings[Member("b", "job")].cancelAt.Some?
  }

  /** Before the owner's wish is seen again, `a` reserves its leg, sends, and is definitely refused. */
  lemma RefusedByServer() returns (w: World)
    ensures Holding(w, "a", CREATING, [REFUSED_LEG], map["t" := REFUSED_REQUEST], 1)
    ensures "b" in w.db.instances && "t" in w.sent && ListedToCancel(w)
  {
    hide Holding, SpecOf, CanTransition;
    Roads();
    Kinds();
    w := CancelListed();
    w := DriveOn(w, TRIGGERED, [], map[], QUOTING);
    w := ReserveOn(w, [], FIRST_LEG);
    assert InsertLeg([], FIRST_LEG) == [FIRST_LEG];
    w := DriveOn(w, QUOTING, [FIRST_LEG], map[], CREATING);
    w := SendOn(w, [FIRST_LEG], 0);
    assert RequestFor(FIRST_LEG) == REQUEST;
    w := RefuseOn(w);
  }

  const REFUSAL: Op := Complete("t", REFUSED, Some(NOTHING.(status := Some(LEG_FAILED))))

  lemma RefuseOn(w: World) returns (after: World)
    requires Holding(w, "a", CREATING, [FIRST_LEG], map["t" := REQUEST], 1)
    ensures Holding(after, "a", CREATING, [REFUSED_LEG], map["t" := REFUSED_REQUEST], 1) && Beside(w, after)
  {
    hide Reached, Apply, ApplyComplete, SpecOf, MayMove;
    var e := Write("a", "job", Driver, REFUSAL);
    var lease := w.views[HELD].lease;
    RefusalLands(w.db, lease);
    var db := Apply(w.db, lease, REFUSAL).value;
    after := Written(w, e, db);
    ReachNext(w, e, after);
    assert AttemptsOf(db, "job") == map["t" := REFUSED_REQUEST];
  }

  lemma RefusalLands(db: Db, lease: Lease)
    requires Current(db, lease) && lease.job == "job" && db.attempts == map["t" := REQUEST] && db.jobs["job"].legs == [FIRST_LEG]
    ensures
      Apply(db, lease, REFUSAL) == Ok(db.(attempts := map["t" := REFUSED_REQUEST],
        jobs := db.jobs["job" := db.jobs["job"].(legs := [REFUSED_LEG])]))
  {
    assert Patched(FIRST_LEG, REFUSAL.learned.value) == REFUSED_LEG;
    assert [FIRST_LEG][0 := REFUSED_LEG] == [REFUSED_LEG];
    assert FindLeg([FIRST_LEG], 0) == Some(0);
    assert db.attempts["t" := REFUSED_REQUEST] == map["t" := REFUSED_REQUEST];
  }

  /** The job goes to reconciliation. */
  lemma Reconciling() returns (w: World)
    ensures Holding(w, "a", RECONCILING, [REFUSED_LEG], map["t" := REFUSED_REQUEST], 1)
    ensures "b" in w.db.instances && "t" in w.sent && ListedToCancel(w)
  {
    hide Holding, SpecOf, CanTransition;
    Roads();
    Kinds();
    w := RefusedByServer();
    w := DriveOn(w, CREATING, [REFUSED_LEG], map["t" := REFUSED_REQUEST], RECONCILING);
  }

  ghost predicate UnsafelyOpen(w: World, j: string) {
    j in w.db.jobs && !SafeJob(w, j)
  }

  /** The first misstep happens: instance `b` listed the job before it acted, claims it while it is being
      reconciled, and cancels it, although a request was sent. */
  lemma OvertakenRecoveryCancels()
    ensures exists w :: Reached(w) && UnsafelyOpen(w, "job") && "job" in w.endedLocally
  {
    hide Reached;
    var before := Reconciling();
    before := HandOver(before, RECONCILING, [REFUSED_LEG], map["t" := REFUSED_REQUEST]);
    var origin := Recovery(before.listings[Member("b", "job")], 0);
    var w := MoveOn(before, "b", origin, RECONCILING, [REFUSED_LEG], map["t" := REFUSED_REQUEST], 2, CANCELLED);
    assert Sent(w, "job");
    assert UnsafelyOpen(w, "job");
  }

  /** So may the second: the edge from RECONCILING to WATCHING is open to a driver. */
  lemma GivingUpReopens()
    ensures exists w :: Reached(w) && UnsafelyOpen(w, "job") && CanEndLocally(w.db.jobs["job"].state)
  {
    hide Reached;
    var before := Reconciling();
    var w := MoveOn(before, "a", Driver, RECONCILING, [REFUSED_LEG], map["t" := REFUSED_REQUEST], 1, WATCHING);
    assert Sent(w, "job");
    assert UnsafelyOpen(w, "job");
  }

  /** A plan for a listed row that the store refuses, because the row is elsewhere by the claim. */
  ghost predicate Unresolved(w: World, i: string, j: string, at: int) {
    && Member(i, j) in w.listings && Member(i, j) in w.views && j in w.db.jobs
    && Current(w.db, w.views[Member(i, j)].lease)
    && var listed := w.listings[Member(i, j)];
      !Accepts(w.db.jobs[j].state, listed.state, Classify(FactsGiven(w.db, j, listed, at)).to)
  }

  /** Instance `b` lists a triggered job that is back to watching when `b` claims it. */
  lemma ListingOutrun()
    ensures exists w, at :: Reached(w) && Unresolved(w, "b", "job", at)
  {
    hide Reached, SpecOf, CanTransition, Accepts, Classify;
    Roads();
    Kinds();
    var before := Triggered();
    before := Listing(before, TRIGGERED);
    var listed := before.listings[Member("b", "job")];
    before := DriveOn(before, TRIGGERED, [], map[], WATCHING);
    var w := HandOver(before, WATCHING, [], map[]);
    assert listed.state == TRIGGERED && w.listings[Member("b", "job")] == listed;
    TriggeredPlans(FactsGiven(w.db, "job", listed, listed.expiresAt - 1));
    assert Unresolved(w, "b", "job", listed.expiresAt - 1);
  }

  lemma TriggeredPlans(facts: Facts)
    requires facts.state == TRIGGERED && !Evidence(facts)
    ensures !Accepts(WATCHING, TRIGGERED, Classify(facts).to) <==> !facts.cancelRequested && !facts.expired
  {
  }

  // ---------- A skipped leg that is sent ----------

  const LEG0: Leg := NewLeg(0, "k0")
  const LEG1: Leg := NewLeg(1, "k1")
  const SKIPPED0: Leg := LEG0.(status := SKIPPED)
  const SKIPPED1: Leg := LEG1.(status := SKIPPED)

  lemma Inserts()
    ensures InsertLeg([], LEG0) == [LEG0] && InsertLeg([LEG0], LEG1) == [LEG0, LEG1]
  {
  }

  /** Both legs of the job are reserved. */
  lemma BothReserved() returns (w: World)
    ensures Holding(w, "a", QUOTING, [LEG0, LEG1], map[], 1) && w.executions == {}
  {
    hide Holding, SpecOf, CanTransition, InsertLeg;
    Roads();
    Kinds();
    Inserts();
    w := Triggered();
    w := DriveOn(w, TRIGGERED, [], map[], QUOTING);
    w := ReserveOn(w, [], LEG0);
    w := ReserveOn(w, [LEG0], LEG1);
  }

  /** They are passed over, and the job re-armed. */
  lemma PassedOver() returns (w: World)
    ensures Holding(w, "a", WATCHING, [SKIPPED0, SKIPPED1], map[], 1)
  {
    hide Holding, SpecOf, CanTransition, InsertLeg, FindLeg;
    Roads();
    Kinds();
    w := BothReserved();
    FindIn(LEG0, LEG1);
    w := SkipOn(w, [LEG0, LEG1], 0);
    assert [LEG0, LEG1][0 := SKIPPED0] == [SKIPPED0, LEG1];
    FindIn(SKIPPED0, LEG1);
    w := SkipOn(w, [SKIPPED0, LEG1], 1);
    assert [SKIPPED0, LEG1][1 := SKIPPED1] == [SKIPPED0, SKIPPED1];
    w := DriveOn(w, QUOTING, [SKIPPED0, SKIPPED1], map[], WATCHING);
  }

  lemma FindIn(x: Leg, y: Leg)
    requires x.index != y.index
    ensures FindLeg([x, y], x.index) == Some(0) && FindLeg([x, y], y.index) == Some(1)
  {
    assert [x, y][..1] == [x];
  }

  /** A later pass sends the second leg, and no answer comes. */
  lemma Unanswered() returns (w: World)
    ensures Holding(w, "a", UNKNOWN_PENDING, [SKIPPED0, SKIPPED1], map["t" := RequestFor(SKIPPED1)], 1) && "t" in w.sent
  {
    hide Holding, SpecOf, CanTransition;
    Roads();
    Kinds();
    var legs := [SKIPPED0, SKIPPED1];
    w := PassedOver();
    w := DriveOn(w, WATCHING, legs, map[], TRIGGERED);
    w := DriveOn(w, TRIGGERED, legs, map[], QUOTING);
    w := DriveOn(w, QUOTING, legs, map[], CREATING);
    FindIn(SKIPPED0, SKIPPED1);
    w := SendOn(w, legs, 1);
    w := DriveOn(w, CREATING, legs, map["t" := RequestFor(SKIPPED1)], UNKNOWN_PENDING);
  }

  /** The reconciler's two transitions. */
  lemma FailOn(w: World, legs: seq<Leg>, attempts: map<string, Attempt>) returns (after: World)
    requires Holding(w, "a", UNKNOWN_PENDING, legs, attempts, 1) && RunnerReconciler.AllResolved(legs) && legs != []
    ensures Reached(after) && "job" in after.db.jobs && after.db.jobs["job"].state == FAILED && after.db.attempts == attempts
    ensures
      var lease := w.views[HELD].lease;
      var started := Apply(w.db, lease, MoveTo(RECONCILING));
      started.Ok? && Apply(started.value, lease, MoveTo(FAILED)) == Ok(after.db)
  {
    hide Reached, SpecOf, CanTransition, FactsSeen, Apply;
    Roads();
    Kinds();
    var started := MoveOn(w, "a", Reconciler, UNKNOWN_PENDING, legs, attempts, 1, RECONCILING);
    after := MoveOn(started, "a", Reconciler, RECONCILING, legs, attempts, 1, FAILED);
  }

  /** The reconciler then fails the job with the request open: the world before its call and the one after
      are both reached, and the call is what leads from one to the other. */
  lemma SkippedThenSent(gateway: RunnerReconciler.Gateway) returns (w: World, after: World)
    ensures Reached(w) && Reached(after) && HELD in w.views && "t" in w.sent
    ensures RunnerReconciler.Reconcile(w.db, w.views[HELD].lease, gateway)
      == (after.db, RunnerReconciler.Answer(
        RunnerReconciler.Reconciled(UNKNOWN_PENDING, FAILED, RunnerReconciler.TERMINAL, None, None)))
    ensures "job" in after.db.jobs && after.db.jobs["job"].state == FAILED && !RunnerReconciler.NoOpen(after.db, "job")
  {
    hide Reached, SpecOf, CanTransition, Valid, RunnerReconciler.Reconcile, FactsSeen, Apply;
    var legs, attempts := [SKIPPED0, SKIPPED1], map["t" := RequestFor(SKIPPED1)];
    w := Unanswered();
    Kinds();
    assert RunnerReconciler.Ready(w.db, w.views[HELD].lease) by { ReachedKeeps(w); }
    after := FailOn(w, legs, attempts);
    RunnerReconciler.ResolvedUnread(w.db, w.views[HELD].lease, gateway);
    assert !RunnerReconciler.NoOpen(after.db, "job") by { assert after.db.attempts["t"].outcome.None?; }
  }

  // ---------- Legs that fail of different things ----------

  /** An attempt whose request the server answers with an execution. */
  lemma CreateOn(w: World, legs: seq<Leg>, attempts: map<string, Attempt>, p: nat, a: string, x: string) returns (after: World)
    requires Holding(w, "a", CREATING, legs, attempts, 1) && p < |legs| && FindLeg(legs, legs[p].index) == Some(p)
    requires a !in attempts && forall b | b in attempts :: attempts[b].leg != legs[p].index
    requires forall e | e in w.executions :: e.key != legs[p].key && e.id != x
    requires forall q :: 0 <= q < |legs| ==> legs[q].execution != Some(x)
    ensures Holding(after, "a", CREATING, legs[p := legs[p].(execution := Some(x))],
      attempts[a := RequestFor(legs[p]).(outcome := Some(TOOK_EFFECT))], 1)
    ensures after.executions == w.executions + {Execution(x, legs[p].key)}
  {
    hide Holding, FindLeg;
    var begun := RecordOn(w, legs, attempts, p, a);
    var served := ServeOn(begun, legs, attempts[a := RequestFor(legs[p])], p, a, x);
    after := LearnOn(served, legs, attempts[a := RequestFor(legs[p])], p, a, x);
    assert attempts[a := RequestFor(legs[p])][a := RequestFor(legs[p]).(outcome := Some(TOOK_EFFECT))]
      == attempts[a := RequestFor(legs[p]).(outcome := Some(TOOK_EFFECT))];
  }

  /** The request goes out and is answered. */
  lemma ServeOn(w: World, legs: seq<Leg>, attempts: map<string, Attempt>, p: nat, a: string, x: string) returns (after: World)
    requires Holding(w, "a", CREATING, legs, attempts, 1) && p < |legs|
    requires a in attempts && attempts[a] == RequestFor(legs[p]) && ("a", a) in w.begun
    requires forall e | e in w.executions :: e.key != legs[p].key
    ensures Holding(after, "a", CREATING, legs, attempts, 1)
    ensures after.executions == w.executions + {Execution(x, legs[p].key)}
  {
    hide Reached, Apply, MayWrite;
    var sent := w.(sent := w.sent + {a});
    ReachNext(w, Send("a", a), sent);
    after := sent.(executions := sent.executions + {Execution(x, legs[p].key)});
    ReachNext(sent, Serve(a, x), after);
  }

  /** The driver writes down the execution it was answered with. */
  lemma LearnOn(w: World, legs: seq<Leg>, attempts: map<string, Attempt>, p: nat, a: string, x: string) returns (after: World)
    requires Holding(w, "a", CREATING, legs, attempts, 1) && p < |legs| && FindLeg(legs, legs[p].index) == Some(p)
    requires a in attempts && attempts[a] == RequestFor(legs[p])
    requires Execution(x, legs[p].key) in w.executions && forall q :: 0 <= q < |legs| ==> legs[q].execution != Some(x)
    ensures Holding(after, "a", CREATING, legs[p := legs[p].(execution := Some(x))],
      attempts[a := attempts[a].(outcome := Some(TOOK_EFFECT))], 1)
    ensures Beside(w, after)
  {
    hide Reached, Apply, SpecOf, MayMove, FindLeg;
    var op := Complete(a, TOOK_EFFECT, Some(NOTHING.(execution := Some(x))));
    var e := Write("a", "job", Driver, op);
    var lease := w.views[HELD].lease;
    LearnedAnswer(w.db, lease, legs, p, a, x);
    var db := Apply(w.db, lease, op).value;
    assert AttemptsOf(db, "job") == db.attempts;
    after := Written(w, e, db);
    ReachNext(w, e, after);
  }

  lemma LearnedAnswer(db: Db, lease: Lease, legs: seq<Leg>, p: nat, a: string, x: string)
    requires Current(db, lease) && lease.job == "job" && db.jobs.Keys == {"job"} && db.jobs["job"].legs == legs
    requires p < |legs| && FindLeg(legs, legs[p].index) == Some(p) && a in db.attempts && db.attempts[a] == RequestFor(legs[p])
    requires forall q :: 0 <= q < |legs| ==> legs[q].execution != Some(x)
    ensures
      Apply(db, lease, Complete(a, TOOK_EFFECT, Some(NOTHING.(execution := Some(x))))) == Ok(db.(
        attempts := db.attempts[a := db.attempts[a].(outcome := Some(TOOK_EFFECT))],
        jobs := db.jobs["job" := db.jobs["job"].(legs := legs[p := legs[p].(execution := Some(x))])]))
  {
    hide FindLeg;
    assert Patched(legs[p], NOTHING.(execution := Some(x))) == legs[p].(execution := Some(x));
    assert !ExecutionTaken(db, "job", legs[p].index, x);
  }

  const CREATED0: Leg := LEG0.(execution := Some("e0"))
  const CREATED1: Leg := LEG1.(execution := Some("e1"))
  const ANSWERED: map<string, Attempt> :=
    map["t" := RequestFor(LEG0).(outcome := Some(TOOK_EFFECT)), "u" := RequestFor(LEG1).(outcome := Some(TOOK_EFFECT))]

  /** Both legs were created, and neither was signed. */
  lemma BothCreated() returns (w: World)
    ensures Holding(w, "a", RECONCILING, [CREATED0, CREATED1], ANSWERED, 1)
  {
    hide Holding, SpecOf, CanTransition, FindLeg;
    Roads();
    Kinds();
    w := BothReserved();
    w := DriveOn(w, QUOTING, [LEG0, LEG1], map[], CREATING);
    FindIn(LEG0, LEG1);
    w := CreateOn(w, [LEG0, LEG1], map[], 0, "t", "e0");
    assert [LEG0, LEG1][0 := CREATED0] == [CREATED0, LEG1];
    FindIn(CREATED0, LEG1);
    w := CreateOn(w, [CREATED0, LEG1], map["t" := RequestFor(LEG0).(outcome := Some(TOOK_EFFECT))], 1, "u", "e1");
    assert [CREATED0, LEG1][1 := CREATED1] == [CREATED0, CREATED1];
    w := DriveOn(w, CREATING, [CREATED0, CREATED1], ANSWERED, AWAITING_SIGNATURE);
    w := DriveOn(w, AWAITING_SIGNATURE, [CREATED0, CREATED1], ANSWERED, RECONCILING);
  }

  /** The reconciler writes down what it read of a leg. */
  lemma ReadOn(w: World, legs: seq<Leg>, attempts: map<string, Attempt>, p: nat, read: RunnerReconciler.Read)
    returns (after: World)
    requires Holding(w, "a", RECONCILING, legs, attempts, 1) && p < |legs| && FindLeg(legs, legs[p].index) == Some(p)
    requires RunnerReconciler.Final(read.status) && forall a | a in attempts :: attempts[a].outcome.Some?
    ensures Holding(after, "a", RECONCILING, legs[p := Patched(legs[p], RunnerReconciler.PatchFor(read))], attempts, 1)
    ensures RunnerReconciler.Learned(w.db, w.views[HELD].lease, legs[p].index, read) == Ok(after.db)
    ensures after.views[HELD].lease == w.views[HELD].lease
  {
    hide Reached, FindLeg, SpecOf;
    var patch, lease := RunnerReconciler.PatchFor(read), w.views[HELD].lease;
    assert !HasOpen(w.db, "job", legs[p].index);
    var e := Write("a", "job", Reconciler, Update(legs[p].index, patch));
    var db := Apply(w.db, lease, e.op).value;
    after := Written(w, e, db);
    ReachNext(w, e, after);
    assert AttemptsOf(db, "job") == attempts;
  }

  const REJECTION: RunnerReconciler.Read := RunnerReconciler.Read(RunnerReconciler.Rejected, None, None)
  const EXPIRY: RunnerReconciler.Read := RunnerReconciler.Read(RunnerReconciler.ExpiredThere, None, None)

  /** The first leg's execution was rejected, the other's expired. */
  function Verdicts(execution: string): Option<RunnerReconciler.Read> {
    Some(if execution == "e0" then REJECTION else EXPIRY)
  }

  ghost predicate Calls(w: World, after: World, to: JobState, disposition: RunnerReconciler.Disposition) {
    && Reached(w) && Reached(after) && HELD in w.views && "job" in after.db.jobs && after.db.jobs["job"].state == to
    && var (db, answer) := RunnerReconciler.Reconcile(w.db, w.views[HELD].lease, Verdicts);
      db == after.db && answer.Answer? && answer.result.to == to && answer.result.disposition == disposition
  }

  const REJECTED0: Leg := CREATED0.(status := LEG_FAILED)
  const EXPIRED1: Leg := CREATED1.(status := LEG_FAILED)

  lemma Patches()
    ensures Patched(CREATED0, RunnerReconciler.PatchFor(REJECTION)) == REJECTED0
    ensures Patched(CREATED1, RunnerReconciler.PatchFor(EXPIRY)) == EXPIRED1
    ensures RunnerReconciler.Final(REJECTION.status) && RunnerReconciler.Final(EXPIRY.status)
  {
  }

  lemma NothingUnsent(db: Db, x: Leg, y: Leg)
    requires "job" in db.jobs && db.jobs["job"].legs == [x, y] && x.execution.Some? && y.execution.Some?
    ensures RunnerReconciler.NoneUnsent(db, "job")
  {
  }

  lemma FirstOf(x: Leg, y: Leg)
    requires RunnerReconciler.Readable(y)
    ensures RunnerReconciler.FirstReadable([x, y]) == Some(if RunnerReconciler.Readable(x) then 0 else 1)
    ensures !RunnerReconciler.AllResolved([x, y])
  {
    hide RunnerReconciler.FirstReadable;
    var legs := [x, y];
    assert legs[0] == x && legs[1] == y;
  }

  /** The first call resolves the rejected leg alone. */
  lemma RejectedFirst() returns (w: World, middle: World)
    ensures Holding(middle, "a", RECONCILING, [REJECTED0, CREATED1], ANSWERED, 1)
    ensures Calls(w, middle, RECONCILING, RunnerReconciler.LEG_RESOLVED)
  {
    hide Reached, SpecOf, RunnerReconciler.Reconcile, RunnerReconciler.Learned, RunnerReconciler.ReadLands, Apply, Inv, Valid,
      RunnerReconciler.NoneUnsent, RunnerReconciler.FirstReadable, RunnerReconciler.AllResolved, RunnerReconciler.PatchFor;
    w := BothCreated();
    FindIn(CREATED0, CREATED1);
    Patches();
    middle := ReadOn(w, [CREATED0, CREATED1], ANSWERED, 0, REJECTION);
    assert [CREATED0, CREATED1][0 := REJECTED0] == [REJECTED0, CREATED1];
    ReadyToRead(w, CREATED0, CREATED1);
    FirstOf(CREATED0, CREATED1);
    FirstOf(REJECTED0, CREATED1);
    RunnerReconciler.ReadNext(w.db, w.views[HELD].lease, Verdicts, 0, REJECTION);
  }

  lemma ReadyToRead(w: World, x: Leg, y: Leg)
    requires Holding(w, "a", RECONCILING, [x, y], ANSWERED, 1) && x.execution.Some? && y.execution.Some?
    ensures RunnerReconciler.Ready(w.db, w.views[HELD].lease) && RunnerReconciler.NoneUnsent(w.db, "job")
  {
    hide Valid;
    ReachedKeeps(w);
    NothingUnsent(w.db, x, y);
  }

  lemma ExpiryConcludes(db: Db, lease: Lease, after: Db)
    requires lease.job == "job" && "job" in db.jobs && db.jobs["job"].legs == [REJECTED0, EXPIRED1]
    requires Apply(db, lease, MoveTo(EXPIRED)) == Ok(after)
    ensures RunnerReconciler.Concluding(db, lease, RECONCILING, Some(1), Some(EXPIRY.status))
      == (after, RunnerReconciler.Answer(
        RunnerReconciler.Reconciled(RECONCILING, EXPIRED, RunnerReconciler.TERMINAL, Some(1), Some(EXPIRY.status))))
    ensures RunnerReconciler.AllResolved([REJECTED0, EXPIRED1])
  {
    hide Apply;
  }

  lemma SecondRead(middle: World) returns (last: World)
    requires Holding(middle, "a", RECONCILING, [REJECTED0, CREATED1], ANSWERED, 1)
    ensures Holding(last, "a", RECONCILING, [REJECTED0, EXPIRED1], ANSWERED, 1)
    ensures last.views[HELD].lease == middle.views[HELD].lease
    ensures RunnerReconciler.Reconcile(middle.db, middle.views[HELD].lease, Verdicts)
      == RunnerReconciler.Concluding(last.db, middle.views[HELD].lease, RECONCILING, Some(1), Some(EXPIRY.status))
  {
    hide Reached, SpecOf, RunnerReconciler.Reconcile, RunnerReconciler.Learned, RunnerReconciler.ReadLands, Apply, Inv, Valid,
      RunnerReconciler.NoneUnsent, RunnerReconciler.FirstReadable, RunnerReconciler.PatchFor, RunnerReconciler.Concluding;
    FindIn(REJECTED0, CREATED1);
    Patches();
    last := ReadOn(middle, [REJECTED0, CREATED1], ANSWERED, 1, EXPIRY);
    assert [REJECTED0, CREATED1][1 := EXPIRED1] == [REJECTED0, EXPIRED1];
    ReadyToRead(middle, REJECTED0, CREATED1);
    FirstOf(REJECTED0, CREATED1);
    RunnerReconciler.ReadNext(middle.db, middle.views[HELD].lease, Verdicts, 1, EXPIRY);
  }

  /** The second reads the expired one and ends the job. */
  lemma ExpiredNext(middle: World) returns (after: World)
    requires Holding(middle, "a", RECONCILING, [REJECTED0, CREATED1], ANSWERED, 1)
    ensures Calls(middle, after, EXPIRED, RunnerReconciler.TERMINAL) && after.db.jobs["job"].legs == [REJECTED0, EXPIRED1]
  {
    hide Reached, RunnerReconciler.Reconcile, RunnerReconciler.Concluding, Apply;
    var last := SecondRead(middle);
    after := ExpireOn(last);
    ExpiryConcludes(last.db, last.views[HELD].lease, after.db);
  }

  lemma ExpireOn(w: World) returns (after: World)
    requires Holding(w, "a", RECONCILING, [REJECTED0, EXPIRED1], ANSWERED, 1)
    ensures Reached(after) && "job" in after.db.jobs && after.db.jobs["job"].state == EXPIRED
    ensures after.db.jobs["job"].legs == [REJECTED0, EXPIRED1]
    ensures Apply(w.db, w.views[HELD].lease, MoveTo(EXPIRED)) == Ok(after.db)
  {
    hide Reached, SpecOf, CanTransition, FactsSeen;
    Roads();
    Kinds();
    after := MoveOn(w, "a", Reconciler, RECONCILING, [REJECTED0, EXPIRED1], ANSWERED, 1, EXPIRED);
  }

  /** Two failed legs of different verdicts do not make the job FAILED: after a rejection and an expiry, read
      in that order, it is EXPIRED. */
  lemma MixedVerdicts() returns (w: World, middle: World, after: World)
    ensures Calls(w, middle, RECONCILING, RunnerReconciler.LEG_RESOLVED)
    ensures Calls(middle, after, EXPIRED, RunnerReconciler.TERMINAL)
    ensures after.db.jobs["job"].legs == [REJECTED0, EXPIRED1]
  {
    hide Calls, Holding;
    w, middle := RejectedFirst();
    after := ExpiredNext(middle);
  }
}
