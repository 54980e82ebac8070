/** What one reconcile answers and what it leaves in the store, told from the rows of the job alone: five cases,
    which between them are all there are. */
module RunnerAnswers {
  import opened Options
  import opened RunnerStates
  import opened RunnerStore
  import opened RunnerReconciler

  /** A leg whose outcome is not settled. */
  predicate Outstanding(leg: Leg) {
    leg.status == PENDING || leg.status == UNKNOWN
  }

  /** No execution is recorded for the leg, and no attempt was ever begun for it. */
  ghost predicate Untouched(db: Db, job: string, leg: Leg) {
    leg.execution == None && forall a | a in db.attempts :: db.attempts[a].job != job || db.attempts[a].leg != leg.index
  }

  ghost predicate Begun(db: Db, job: string)
    requires job in db.jobs
  {
    || (exists a | a in db.attempts :: db.attempts[a].job == job)
    || (exists x | x in db.jobs[job].legs :: x.execution != None)
  }

  /** A row moved to a state; the end of a job takes the lease off it. */
  function Left(row: Job, state: JobState): Job {
    if state in {FILLED, FAILED, CANCELLED, EXPIRED} then row.(state := state, holder := None, leaseExpires := None)
    else row.(state := state)
  }

  /** What a leg knows after its execution was read. */
  function ReadRow(leg: Leg, read: Read): Leg {
    Leg(leg.index, leg.key,
      match read.status
      case Filled => SUCCEEDED
      case Rejected => LEG_FAILED
      case CancelledThere => LEG_FAILED
      case ExpiredThere => LEG_FAILED
      case _ => leg.status,
      leg.execution,
      if read.digest == None then leg.submission else read.digest,
      if read.fillDigest == None then leg.keeper else read.fillDigest,
      leg.quotes)
  }

  /** What the read makes of an attempt: the one still open on the leg is closed. A create has taken effect, and so
      has a submit, unless the read shows no digest and a status the chain need not have seen. */
  function AttemptRow(row: Attempt, job: string, index: nat, read: Read): Attempt {
    if row.job != job || row.leg != index || row.outcome != None then row
    else if row.kind == SUBMIT_EXECUTION && read.digest == None
            && read.status in {Received, RiskReserved, AwaitingSignature, Rejected, CancelledThere, ExpiredThere}
    then row.(outcome := Some(REFUSED))
    else row.(outcome := Some(TOOK_EFFECT))
  }

  /** The rows after a read of leg p, with the job in this state. */
  ghost predicate ReadInto(db: Db, after: Db, job: string, p: nat, read: Read, state: JobState)
    requires job in db.jobs && p < |db.jobs[job].legs|
  {
    var row := db.jobs[job];
    && after.jobs == db.jobs[job := Left(row.(legs := row.legs[p := ReadRow(row.legs[p], read)]), state)]
    && after.attempts.Keys == db.attempts.Keys
    && (forall a | a in db.attempts :: after.attempts[a] == AttemptRow(db.attempts[a], job, row.legs[p].index, read))
    && after.instances == db.instances && after.spends == db.spends
  }

  // ---------- From the code's terms to these ----------

  lemma SameTerms(db: Db, job: string, leg: Leg)
    ensures Resolved(leg) <==> !Outstanding(leg)
    ensures Unsent(db, job, leg) <==> Outstanding(leg) && Untouched(db, job, leg)
    ensures Readable(leg) <==> Outstanding(leg) && leg.execution.Some?
  {
  }

  lemma SameBegun(db: Db, job: string)
    requires job in db.jobs
    ensures UnderWay(db, job) <==> Begun(db, job)
  {
    hide Attempted;
    var legs := db.jobs[job].legs;
    assert forall p :: 0 <= p < |legs| ==> legs[p] in legs;
  }

  lemma SameRead(leg: Leg, read: Read)
    ensures Patched(leg, PatchFor(read)) == ReadRow(leg, read)
    ensures Final(read.status) <==> read.status in {Filled, Rejected, CancelledThere, ExpiredThere}
  {
  }

  lemma SameAttempt(db: Db, a: string, job: string, index: nat, read: Read)
    requires a in db.attempts
    ensures RunnerReconciler.Settled(db, a, job, index, read) == AttemptRow(db.attempts[a], job, index, read)
  {
  }

  lemma SameMove(row: Job, state: JobState)
    ensures Moved(row, state) == Left(row, state)
  {
  }

  /** The database once the reconcile has begun. */
  function Started(db: Db, job: string): Db
    requires job in db.jobs
  {
    db.(jobs := db.jobs[job := db.jobs[job].(state := RECONCILING)])
  }

  lemma Starts(db: Db, lease: Lease, gateway: Gateway)
    requires Ready(db, lease)
    ensures Reconcile(db, lease, gateway) == Choosing(Started(db, lease.job), lease, gateway, db.jobs[lease.job].state)
    ensures Valid(Started(db, lease.job)) && Current(Started(db, lease.job), lease)
  {
    hide Valid, SpecOf, Choosing, Apply;
    if db.jobs[lease.job].state == RECONCILING {
      assert db.jobs[lease.job := db.jobs[lease.job].(state := RECONCILING)] == db.jobs;
    } else {
      StartLands(db, lease);
    }
  }

  lemma Unsents(db: Db, job: string, legs: seq<Leg>, p: nat)
    requires p < |legs| && Outstanding(legs[p]) && Untouched(db, job, legs[p])
    requires forall q :: 0 <= q < p ==> !(Outstanding(legs[q]) && Untouched(db, job, legs[q]))
    ensures FirstUnsent(db, job, legs) == Some(p)
  {
    hide Unsent, Untouched;
    forall q | 0 <= q < |legs| ensures Unsent(db, job, legs[q]) <==> Outstanding(legs[q]) && Untouched(db, job, legs[q]) {
      SameTerms(db, job, legs[q]);
    }
    assert Unsent(db, job, legs[p]);
  }

  lemma NoUnsent(db: Db, job: string, legs: seq<Leg>)
    requires forall q :: 0 <= q < |legs| ==> !(Outstanding(legs[q]) && Untouched(db, job, legs[q]))
    ensures FirstUnsent(db, job, legs) == None
  {
    hide Unsent, Untouched;
    forall q | 0 <= q < |legs| ensures !Unsent(db, job, legs[q]) { SameTerms(db, job, legs[q]); }
  }

  lemma Readables(legs: seq<Leg>, p: nat)
    requires p < |legs| && Outstanding(legs[p]) && legs[p].execution.Some?
    requires forall q :: 0 <= q < p ==> !(Outstanding(legs[q]) && legs[q].execution.Some?)
    ensures FirstReadable(legs) == Some(p)
  {
    assert Readable(legs[p]);
    assert forall q :: 0 <= q < p ==> !Readable(legs[q]);
  }

  lemma NoReadable(legs: seq<Leg>)
    requires forall q :: 0 <= q < |legs| ==> !(Outstanding(legs[q]) && legs[q].execution.Some?)
    ensures FirstReadable(legs) == None
  {
  }

  lemma Unresolveds(legs: seq<Leg>, p: nat)
    requires p < |legs| && Outstanding(legs[p]) && forall q :: 0 <= q < p ==> !Outstanding(legs[q])
    ensures FirstUnresolved(legs) == Some(p)
  {
    assert !Resolved(legs[p]);
    assert forall q :: 0 <= q < p ==> Resolved(legs[q]);
  }

  lemma NoUnresolved(legs: seq<Leg>)
    requires forall q :: 0 <= q < |legs| ==> !Outstanding(legs[q])
    ensures FirstUnresolved(legs) == None
  {
  }

  // ---------- The five cases ----------

  /** A leg that was never sent comes before any that could be read. The run goes on with it when something of the
      job is out, and else the job watches again; no leg and no attempt changes. */
  lemma HandsBack(db: Db, lease: Lease, gateway: Gateway, p: nat)
    requires Ready(db, lease) && p < |db.jobs[lease.job].legs|
    requires Outstanding(db.jobs[lease.job].legs[p]) && Untouched(db, lease.job, db.jobs[lease.job].legs[p])
    requires forall q :: 0 <= q < p ==>
      !(Outstanding(db.jobs[lease.job].legs[q]) && Untouched(db, lease.job, db.jobs[lease.job].legs[q]))
    ensures
      var row := db.jobs[lease.job];
      var to := if Begun(db, lease.job) then RECONCILING else WATCHING;
      Reconcile(db, lease, gateway)
        == (db.(jobs := db.jobs[lease.job := Left(row, to)]),
            Answer(Reconciled(row.state, to, if Begun(db, lease.job) then REPLAYABLE else REARMED, Some(row.legs[p].index), None)))
  {
    hide Valid, SpecOf, Untouched, Begun, UnderWay, Reading, Concluding, Moving, FirstReadable, FirstUnresolved, CanTransition;
    var started, row := Started(db, lease.job), db.jobs[lease.job];
    Starts(db, lease, gateway);
    UntouchedThere(db, lease.job);
    Unsents(started, lease.job, row.legs, p);
    SameBegun(started, lease.job);
    ReconcileEdges();
    if !Begun(db, lease.job) { MoveLands(started, lease, Reconciled(row.state, WATCHING, REARMED, Some(row.legs[p].index), None)); }
    MovedFromThere(db, lease.job, WATCHING);
    WatchingIsNoEnd();
  }

  /** The start of a reconcile leaves legs and attempts alone. */
  lemma UntouchedThere(db: Db, job: string)
    requires job in db.jobs
    ensures forall leg :: Untouched(Started(db, job), job, leg) <==> Untouched(db, job, leg)
    ensures Begun(Started(db, job), job) <==> Begun(db, job)
  {
  }

  lemma MovedFromThere(db: Db, job: string, to: JobState)
    requires job in db.jobs
    ensures Moved(Started(db, job).jobs[job], to) == Left(db.jobs[job], to)
    ensures Started(db, job).(jobs := Started(db, job).jobs[job := Left(db.jobs[job], to)]) == db.(jobs := db.jobs[job := Left(db.jobs[job], to)])
    ensures Started(db, job) == db.(jobs := db.jobs[job := Left(db.jobs[job], RECONCILING)])
  {
    SameMove(Started(db, job).jobs[job], to);
  }

  /** No leg can be read: the job waits for what cannot be known. */
  lemma CannotTell(db: Db, lease: Lease, gateway: Gateway, p: nat)
    requires Ready(db, lease) && p < |db.jobs[lease.job].legs|
    requires Outstanding(db.jobs[lease.job].legs[p]) && forall q :: 0 <= q < p ==> !Outstanding(db.jobs[lease.job].legs[q])
    requires forall q | 0 <= q < |db.jobs[lease.job].legs| && Outstanding(db.jobs[lease.job].legs[q]) ::
      db.jobs[lease.job].legs[q].execution == None && !Untouched(db, lease.job, db.jobs[lease.job].legs[q])
    ensures
      var row := db.jobs[lease.job];
      Reconcile(db, lease, gateway)
        == (db.(jobs := db.jobs[lease.job := Left(row, UNKNOWN_PENDING)]),
            Answer(Reconciled(row.state, UNKNOWN_PENDING, INCONCLUSIVE, Some(row.legs[p].index), None)))
  {
    hide Valid, SpecOf, Untouched, Begun, UnderWay, Reading, Concluding, Moving, CanTransition;
    var started, row := Started(db, lease.job), db.jobs[lease.job];
    Starts(db, lease, gateway);
    UntouchedThere(db, lease.job);
    NoUnsent(started, lease.job, row.legs);
    NoReadable(row.legs);
    Unresolveds(row.legs, p);
    ReconcileEdges();
    MoveLands(started, lease, Reconciled(row.state, UNKNOWN_PENDING, INCONCLUSIVE, Some(row.legs[p].index), None));
    MovedFromThere(db, lease.job, UNKNOWN_PENDING);
  }

  /** Nothing is outstanding: the job ends, as FILLED exactly when a leg traded. */
  lemma ConcludesAtOnce(db: Db, lease: Lease, gateway: Gateway)
    requires Ready(db, lease) && forall x | x in db.jobs[lease.job].legs :: !Outstanding(x)
    ensures
      var row := db.jobs[lease.job];
      var to := if exists x | x in row.legs :: x.status == SUCCEEDED then FILLED else FAILED;
      Reconcile(db, lease, gateway)
        == (db.(jobs := db.jobs[lease.job := Left(row, to)]), Answer(Reconciled(row.state, to, TERMINAL, None, None)))
  {
    hide Valid, SpecOf, Untouched, Begun, UnderWay, Reading, Moving, CanTransition;
    var started, row := Started(db, lease.job), db.jobs[lease.job];
    Starts(db, lease, gateway);
    NoUnsent(started, lease.job, row.legs);
    NoReadable(row.legs);
    NoUnresolved(row.legs);
    SummaryEdge(row.legs, None);
    SomeTraded(row.legs);
    MoveLands(started, lease, Reconciled(row.state, Summary(row.legs, None), TERMINAL, None, None));
    MovedFromThere(db, lease.job, Summary(row.legs, None));
  }

  lemma SomeTraded(legs: seq<Leg>)
    ensures SomeSucceeded(legs) <==> exists x | x in legs :: x.status == SUCCEEDED
  {
    assert forall p :: 0 <= p < |legs| ==> legs[p] in legs;
  }

  /** A job that is in neither state has nothing to reconcile. */
  lemma NotDue(db: Db, lease: Lease, gateway: Gateway)
    requires lease.job in db.jobs && db.jobs[lease.job].state != UNKNOWN_PENDING && db.jobs[lease.job].state != RECONCILING
    ensures
      var state := db.jobs[lease.job].state;
      Reconcile(db, lease, gateway) == (db, Answer(Reconciled(state, state, NOT_APPLICABLE, None, None)))
  {
  }

  /** How the job stands after a read of leg p, and what the call reports. */
  function Verdicts(legs: seq<Leg>, p: nat, status: ExecutionStatus): (JobState, Disposition)
    requires p < |legs|
  {
    if status !in {Filled, Rejected, CancelledThere, ExpiredThere} then (RECONCILING, STILL_PENDING)
    else if exists q :: 0 <= q < |legs| && q != p && Outstanding(legs[q]) then (RECONCILING, LEG_RESOLVED)
    else if status == Filled || exists q :: 0 <= q < |legs| && q != p && legs[q].status == SUCCEEDED then (FILLED, TERMINAL)
    else (match status case CancelledThere => CANCELLED case ExpiredThere => EXPIRED case _ => FAILED, TERMINAL)
  }

  /** Otherwise the first leg that has an execution is read. A read that fails changes nothing but the state; one
      that answers goes into the leg and its open attempt, and the last final answer ends the job. */
  lemma ReadsFirst(db: Db, lease: Lease, gateway: Gateway, p: nat)
    requires Ready(db, lease) && p < |db.jobs[lease.job].legs|
    requires forall q | 0 <= q < |db.jobs[lease.job].legs| ::
      !(Outstanding(db.jobs[lease.job].legs[q]) && Untouched(db, lease.job, db.jobs[lease.job].legs[q]))
    requires Outstanding(db.jobs[lease.job].legs[p]) && db.jobs[lease.job].legs[p].execution.Some?
    requires forall q :: 0 <= q < p ==> !(Outstanding(db.jobs[lease.job].legs[q]) && db.jobs[lease.job].legs[q].execution.Some?)
    ensures
      var row := db.jobs[lease.job];
      var (after, answer) := Reconcile(db, lease, gateway);
      match gateway(row.legs[p].execution.value)
      case None => answer == ReadFailed && after == db.(jobs := db.jobs[lease.job := Left(row, RECONCILING)])
      case Some(read) =>
        var (state, disposition) := Verdicts(row.legs, p, read.status);
        && answer == Answer(Reconciled(row.state, state, disposition, Some(row.legs[p].index), Some(read.status)))
        && ReadInto(db, after, lease.job, p, read, state)
  {
    hide Valid, SpecOf, Untouched, Begun, UnderWay, Reading, CanTransition, FirstUnresolved, Verdicts, ReadInto, Moving, Concluding;
    var started, row := Started(db, lease.job), db.jobs[lease.job];
    Starts(db, lease, gateway);
    UntouchedThere(db, lease.job);
    NoUnsent(started, lease.job, row.legs);
    Readables(row.legs, p);
    ReadingIsExact(db, lease, gateway, p);
  }

  lemma ReadingIsExact(db: Db, lease: Lease, gateway: Gateway, p: nat)
    requires Ready(db, lease) && p < |db.jobs[lease.job].legs|
    requires Valid(Started(db, lease.job)) && Current(Started(db, lease.job), lease)
    requires FirstReadable(db.jobs[lease.job].legs) == Some(p)
    ensures
      var row := db.jobs[lease.job];
      var (after, answer) := Reading(Started(db, lease.job), lease, gateway, row.state, row.legs[p]);
      match gateway(row.legs[p].execution.value)
      case None => answer == ReadFailed && after == db.(jobs := db.jobs[lease.job := Left(row, RECONCILING)])
      case Some(read) =>
        var (state, disposition) := Verdicts(row.legs, p, read.status);
        && answer == Answer(Reconciled(row.state, state, disposition, Some(row.legs[p].index), Some(read.status)))
        && ReadInto(db, after, lease.job, p, read, state)
  {
    hide Valid, SpecOf, Untouched, Begun, UnderWay, CanTransition, FirstReadable, Learned, ReadLands, ReadInto, Moving, Concluding,
      Verdicts, AllResolved, Final;
    var started, row := Started(db, lease.job), db.jobs[lease.job];
    MovedFromThere(db, lease.job, RECONCILING);
    var answered := gateway(row.legs[p].execution.value);
    if answered.Some? {
      var read := answered.value;
      LearnedLands(started, lease, p, read);
      var middle := Learned(started, lease, row.legs[p].index, read).value;
      ReadGoesIn(db, middle, lease, p, read);
      VerdictsOf(row.legs, p, read);
      if Final(read.status) && AllResolved(middle.jobs[lease.job].legs) {
        LastReadEnds(started, middle, lease, gateway, row.state, p, read);
        EndsInto(db, middle, lease.job, p, read, Verdicts(row.legs, p, read.status).0);
      }
    }
  }

  lemma ReadGoesIn(db: Db, middle: Db, lease: Lease, p: nat, read: Read)
    requires lease.job in db.jobs && p < |db.jobs[lease.job].legs| && ReadLands(Started(db, lease.job), middle, lease, p, read)
    ensures lease.job in middle.jobs && ReadInto(db, middle, lease.job, p, read, RECONCILING)
    ensures middle.jobs[lease.job].legs == db.jobs[lease.job].legs[p := ReadRow(db.jobs[lease.job].legs[p], read)]
  {
    hide Valid, Current, PatchFor, AttemptRow, RunnerReconciler.Settled, ReadRow;
    var started, row := Started(db, lease.job), db.jobs[lease.job];
    SameRead(row.legs[p], read);
    forall a | a in db.attempts ensures middle.attempts[a] == AttemptRow(db.attempts[a], lease.job, row.legs[p].index, read) {
      SameAttempt(started, a, lease.job, row.legs[p].index, read);
    }
  }

  /** Ending the job after the read is one change of its row. */
  lemma EndsInto(db: Db, middle: Db, job: string, p: nat, read: Read, to: JobState)
    requires job in db.jobs && p < |db.jobs[job].legs| && job in middle.jobs && ReadInto(db, middle, job, p, read, RECONCILING)
    ensures ReadInto(db, middle.(jobs := middle.jobs[job := Moved(middle.jobs[job], to)]), job, p, read, to)
  {
    hide AttemptRow, ReadRow;
    SameMove(middle.jobs[job], to);
  }

  lemma VerdictsOf(legs: seq<Leg>, p: nat, read: Read)
    requires p < |legs|
    ensures
      var more := legs[p := ReadRow(legs[p], read)];
      Verdicts(legs, p, read.status) ==
        if !Final(read.status) then (RECONCILING, STILL_PENDING)
        else if !AllResolved(more) then (RECONCILING, LEG_RESOLVED)
        else (Summary(more, Some(read.status)), TERMINAL)
  {
    var more := legs[p := ReadRow(legs[p], read)];
    assert more[p] == ReadRow(legs[p], read);
    assert forall q :: 0 <= q < |legs| && q != p ==> more[q] == legs[q];
    SameRead(legs[p], read);
    assert AllResolved(more) <==> Resolved(more[p]) && forall q :: 0 <= q < |legs| && q != p ==> Resolved(legs[q]);
  }
}
