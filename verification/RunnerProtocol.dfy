/** Any number of Runner instances on one store, with crashes between any two steps: what each may
    decide from what it last read, and what no run of them can do. */
module RunnerProtocol {
  import opened Options
  import opened RunnerStates
  import opened RunnerStore
  import opened RunnerRecovery
  import RunnerReconciler

  // ---------- Worlds ----------

  ghost function AttemptsOf(db: Db, job: string): map<string, Attempt> {
    map a | a in db.attempts && db.attempts[a].job == job :: db.attempts[a]
  }

  /** What an instance knows of a job it claimed: its lease, and the rows as it last read them. */
  datatype View = View(lease: Lease, state: JobState, legs: seq<Leg>, attempts: map<string, Attempt>)

  ghost function Snapshot(db: Db, lease: Lease): View
    requires lease.job in db.jobs
  {
    View(lease, db.jobs[lease.job].state, db.jobs[lease.job].legs, AttemptsOf(db, lease.job))
  }

  /** An execution on the server, and the idempotency key it was created under. */
  datatype Execution = Execution(id: string, key: string)

  datatype Member = Member(instance: string, job: string)

  /** `listings` are the rows recoveries have listed. `begun` is what an instance may still send: attempts
      it recorded. `sent` is every attempt a request has left for. `endedLocally` are the jobs a local
      decision cancelled or expired. */
  datatype World = World(db: Db, views: map<Member, View>, listings: map<Member, Job>, begun: set<(string, string)>,
    sent: set<string>, executions: set<Execution>, endedLocally: set<string>)

  /** Which part of the Runner issues a write. Recovery decides from the row it listed before its claim,
      and reads the clock once. */
  datatype Origin = Driver | Reconciler | Recovery(listed: Job, at: int)

  datatype Event =
    | Register(instance: string, pid: int, host: string, at: int)
    | Heartbeat(instance: string, at: int)
    | CreateJob(job: string, intents: nat, expiresAt: Option<int>)
    | RequestCancel(job: string, reason: string, at: int)
    | Stop(instance: string, at: int)
    | List(instance: string, job: string)
    | Claim(instance: string, job: string, at: int, ttl: int)
    | Reread(instance: string, job: string)
    | Write(instance: string, job: string, origin: Origin, op: Op)
    | Send(instance: string, attempt: string)
    | Serve(attempt: string, execution: string)
    | Crash(instance: string)

  const START: World := World(Db(map[], map[], map[], []), map[], map[], {}, {}, {}, {})

  // ---------- What the code may decide ----------

  predicate NoExecutions(legs: seq<Leg>) {
    forall p :: 0 <= p < |legs| ==> legs[p].execution.None?
  }

  ghost function FactsSeen(view: View, origin: Origin): Facts
    requires origin.Recovery?
  {
    Facts(origin.listed.state,
      exists a | a in view.attempts :: view.attempts[a].outcome.None?,
      exists a | a in view.attempts :: view.attempts[a].outcome == Some(ABANDONED),
      !NoExecutions(view.legs), origin.listed.cancelAt.Some?, origin.listed.expiresAt <= origin.at)
  }

  /** Transitions: the driver takes any edge; the reconciler re-arms a job only when no attempt of it
      exists, and concludes only when every leg is resolved; recovery follows its plan. */
  ghost predicate MayMove(view: View, origin: Origin, to: JobState) {
    match origin
    case Driver => true
    case Reconciler =>
      if view.state == UNKNOWN_PENDING then to == RECONCILING
      else
        view.state == RECONCILING
        && (to == WATCHING ==> view.attempts == map[] && NoExecutions(view.legs))
        && (Terminal(to) ==> RunnerReconciler.AllResolved(view.legs))
        && (to == WATCHING || to == UNKNOWN_PENDING || Terminal(to))
    case Recovery(listed, _) => to != listed.state && to == Classify(FactsSeen(view, origin)).to
  }

  ghost predicate OpenSeen(view: View, index: nat) {
    exists a | a in view.attempts :: view.attempts[a].leg == index && view.attempts[a].outcome.None?
  }

  /** An execution id is only ever learned from the server, for the key it was asked under. */
  ghost predicate MayLearn(executions: set<Execution>, key: string, patch: Patch) {
    patch.execution.Some? ==> Execution(patch.execution.value, key) in executions
  }

  ghost predicate MayWrite(w: World, view: View, origin: Origin, op: Op) {
    match op
    case Renew(_, _) => true
    case Release => true
    case MoveTo(to) => MayMove(view, origin, to)
    case Reserve(_, _) => origin.Driver?
    case Update(index, patch) =>
      !origin.Recovery? && (origin.Reconciler? ==> !OpenSeen(view, index))
      && forall x | x in view.legs && x.index == index :: MayLearn(w.executions, x.key, patch)
    case Begin(_, _, _, _) => origin.Driver? && SpecOf(view.state).effect == WRITE
    case Commit(_, _, _, _) => origin.Driver?
    case Complete(a, _, learned) =>
      !origin.Recovery? && a in view.attempts
      && (learned.Some? ==> MayLearn(w.executions, view.attempts[a].key, learned.value))
  }

  predicate EndsLocally(origin: Origin, op: Op) {
    !origin.Reconciler? && op.MoveTo? && (op.to == CANCELLED || op.to == EXPIRED)
  }

  // ---------- Steps ----------

  ghost function Written(w: World, e: Event, db: Db): World
    requires e.Write? && Member(e.instance, e.job) in w.views && e.job in db.jobs
  {
    var view := w.views[Member(e.instance, e.job)];
    var lease := if e.op.Renew? then view.lease.(expires := e.op.at + e.op.ttl) else view.lease;
    w.(db := db,
       views := w.views[Member(e.instance, e.job) := Snapshot(db, lease.(job := e.job))],
       begun := if e.op.Begin? && HasOpen(db, e.job, e.op.index)
         then w.begun + {(e.instance, OpenAttempt(db, e.job, e.op.index))} else w.begun,
       endedLocally := if EndsLocally(e.origin, e.op) then w.endedLocally + {e.job} else w.endedLocally)
  }

  ghost predicate Next(w: World, e: Event, after: World) {
    match e
    case Register(i, pid, host, at) => after == w.(db := ApplyRegister(w.db, i, pid, host, at))
    case Heartbeat(i, at) => ApplyHeartbeat(w.db, i, at).Ok? && after == w.(db := ApplyHeartbeat(w.db, i, at).value)
    case CreateJob(j, intents, expiresAt) =>
      ApplyCreate(w.db, j, intents, expiresAt).Ok? && after == w.(db := ApplyCreate(w.db, j, intents, expiresAt).value)
    case RequestCancel(j, reason, at) =>
      ApplyCancelRequest(w.db, j, reason, at).Ok? && after == w.(db := ApplyCancelRequest(w.db, j, reason, at).value)
    case Stop(i, at) => after == w.(db := ApplyStop(w.db, i, at))
    case List(i, j) =>
      && j in w.db.jobs && !Terminal(w.db.jobs[j].state)
      && after == w.(listings := w.listings[Member(i, j) := w.db.jobs[j]])
    case Claim(i, j, at, ttl) =>
      && ApplyClaim(w.db, j, i, at, ttl).Ok? && ApplyClaim(w.db, j, i, at, ttl).value.1.Some?
      && var (db, lease) := ApplyClaim(w.db, j, i, at, ttl).value;
        after == w.(db := db, views := w.views[Member(i, j) := Snapshot(db, lease.value)])
    case Reread(i, j) =>
      && Member(i, j) in w.views && w.views[Member(i, j)].lease.job in w.db.jobs
      && after == w.(views := w.views[Member(i, j) := Snapshot(w.db, w.views[Member(i, j)].lease)])
    case Write(i, j, origin, op) =>
      && Member(i, j) in w.views && MayWrite(w, w.views[Member(i, j)], origin, op)
      && (origin.Recovery? ==> Member(i, j) in w.listings && w.listings[Member(i, j)] == origin.listed)
      && Apply(w.db, w.views[Member(i, j)].lease, op).Ok?
      && j in Apply(w.db, w.views[Member(i, j)].lease, op).value.jobs
      && after == Written(w, e, Apply(w.db, w.views[Member(i, j)].lease, op).value)
    case Send(i, a) => (i, a) in w.begun && after == w.(sent := w.sent + {a})
    case Serve(a, id) =>
      // A key that already has an execution is answered with that one.
      && a in w.sent && a in w.db.attempts && w.db.attempts[a].kind == CREATE_EXECUTION
      && var key := w.db.attempts[a].key;
        after == if exists x | x in w.executions :: x.key == key then w
                 else w.(executions := w.executions + {Execution(id, key)})
    case Crash(i) =>
      after == w.(views := map m | m in w.views && m.instance != i :: w.views[m],
                  listings := map m | m in w.listings && m.instance != i :: w.listings[m],
                  begun := set p | p in w.begun && p.0 != i)
  }

  // ---------- The invariant ----------

  /** A view whose lease is still current shows the job as it is. */
  ghost predicate ViewHolds(db: Db, m: Member, v: View) {
    && v.lease.job == m.job && v.lease.instance == m.instance && m.job in db.jobs
    && v.lease.fence <= db.jobs[m.job].fence
    && (Current(db, v.lease) ==> v == Snapshot(db, v.lease))
  }

  ghost predicate ViewsHold(w: World) {
    forall m | m in w.views :: ViewHolds(w.db, m, w.views[m])
  }

  /** What was listed had not ended then, and what was ended locally has ended. */
  ghost predicate LocalRecords(w: World) {
    && (forall m | m in w.listings :: !Terminal(w.listings[m].state))
    && (forall j | j in w.endedLocally :: j in w.db.jobs && Terminal(w.db.jobs[j].state))
  }

  ghost predicate SentRecorded(w: World) {
    && (forall p | p in w.begun :: p.1 in w.db.attempts)
    && (forall a | a in w.sent :: a in w.db.attempts)
  }

  ghost predicate Asked(w: World, key: string) {
    exists a | a in w.sent && a in w.db.attempts :: w.db.attempts[a].key == key
  }

  ghost predicate ServerHolds(w: World) {
    && (forall x | x in w.executions :: Asked(w, x.key))
    && (forall x, y | x in w.executions && y in w.executions && x.key == y.key :: x == y)
  }

  ghost predicate LegsLearned(db: Db, executions: set<Execution>) {
    forall j, x | InLegs(db, j, x) && x.execution.Some? :: Execution(x.execution.value, x.key) in executions
  }

  /** What every run keeps. */
  ghost predicate Inv(w: World) {
    && Valid(w.db) && ViewsHold(w) && LocalRecords(w) && SentRecorded(w) && ServerHolds(w)
    && LegsLearned(w.db, w.executions)
  }

  // ---------- What one write leaves alone ----------

  /** Everything a view shows of a job, and who holds it, is the same in both databases. */
  ghost predicate SameJob(db: Db, after: Db, j: string) {
    && j in db.jobs && j in after.jobs
    && after.jobs[j].state == db.jobs[j].state && after.jobs[j].legs == db.jobs[j].legs
    && after.jobs[j].holder == db.jobs[j].holder && after.jobs[j].fence == db.jobs[j].fence
    && AttemptsOf(after, j) == AttemptsOf(db, j)
  }

  lemma ViewKept(db: Db, after: Db, m: Member, v: View)
    requires ViewHolds(db, m, v) && m.job in after.jobs && db.jobs[m.job].fence <= after.jobs[m.job].fence
    requires Current(after, v.lease) ==> SameJob(db, after, m.job)
    ensures ViewHolds(after, m, v)
  {
  }

  lemma PatchFrame(db: Db, job: string, index: nat, patch: Patch)
    requires job in db.jobs && PatchLeg(db, job, index, patch).Ok?
    ensures
      var after := PatchLeg(db, job, index, patch).value;
      && after.attempts == db.attempts && after.instances == db.instances
      && after.jobs == db.jobs[job := db.jobs[job].(legs := after.jobs[job].legs)]
  {
  }

  /** A leased write touches its own job's row and attempts, and its state only by a transition. */
  lemma ApplyFrame(db: Db, lease: Lease, op: Op)
    requires Valid(db) && Apply(db, lease, op).Ok?
    requires op.Complete? && op.attempt in db.attempts ==> db.attempts[op.attempt].job == lease.job
    ensures
      var after := Apply(db, lease, op).value;
      && lease.job in after.jobs && lease.job in db.jobs
      && after.jobs == db.jobs[lease.job := after.jobs[lease.job]]
      && (after.jobs[lease.job].holder == Some(lease.instance) || after.jobs[lease.job].holder.None?)
      && after.jobs[lease.job].fence == db.jobs[lease.job].fence
      && after.jobs[lease.job].state == (if op.MoveTo? then op.to else db.jobs[lease.job].state)
      && (forall a | a in after.attempts && a !in db.attempts :: op.Begin? && after.attempts[a].job == lease.job)
      && (forall a | a in db.attempts && db.attempts[a].job != lease.job ::
          a in after.attempts && after.attempts[a] == db.attempts[a])
  {
    hide Valid, SpecOf, PatchLeg;
    if op.Update? { PatchFrame(db, lease.job, op.index, op.patch); }
    if op.Complete? && op.learned.Some? {
      var row := db.attempts[op.attempt].(outcome := Some(op.outcome));
      PatchFrame(db.(attempts := db.attempts[op.attempt := row]), row.job, row.leg, op.learned.value);
    }
  }

  lemma OthersSame(db: Db, lease: Lease, op: Op, j: string)
    requires Valid(db) && Apply(db, lease, op).Ok? && j in db.jobs && j != lease.job
    requires op.Complete? && op.attempt in db.attempts ==> db.attempts[op.attempt].job == lease.job
    ensures SameJob(db, Apply(db, lease, op).value, j)
  {
    hide Valid, Apply, SpecOf;
    ApplyFrame(db, lease, op);
    ApplyLater(db, lease, op);
    var after := Apply(db, lease, op).value;
    assert AttemptsOf(after, j) == AttemptsOf(db, j);
  }

  // ---------- A write keeps the invariant ----------

  /** A write that goes through was decided on a view that is the database itself. */
  lemma WriterSees(w: World, e: Event, after: World)
    requires Inv(w) && e.Write? && Next(w, e, after)
    ensures Member(e.instance, e.job) in w.views && e.job in w.db.jobs && e.job in after.db.jobs
    ensures
      var view := w.views[Member(e.instance, e.job)];
      && view.lease.job == e.job && view.lease.instance == e.instance
      && Current(w.db, view.lease) && view == Snapshot(w.db, view.lease)
      && Apply(w.db, view.lease, e.op).Ok? && after == Written(w, e, after.db)
      && after.db == Apply(w.db, view.lease, e.op).value
      && MayWrite(w, view, e.origin, e.op)
      && (e.op.Complete? ==> e.op.attempt in w.db.attempts && w.db.attempts[e.op.attempt].job == e.job)
    ensures e.origin.Recovery? ==> !Terminal(e.origin.listed.state)
  {
    hide Valid, SentRecorded, ServerHolds, LegsLearned, SpecOf, MayMove, MayLearn;
    assert ViewHolds(w.db, Member(e.instance, e.job), w.views[Member(e.instance, e.job)]);
  }

  lemma WriterView(w: World, e: Event, after: World)
    requires Inv(w) && e.Write? && Next(w, e, after)
    ensures Member(e.instance, e.job) in after.views
    ensures ViewHolds(after.db, Member(e.instance, e.job), after.views[Member(e.instance, e.job)])
  {
    hide Valid, LocalRecords, SentRecorded, ServerHolds, LegsLearned, SpecOf, MayWrite, Apply, Next;
    WriterSees(w, e, after);
    var lease := w.views[Member(e.instance, e.job)].lease;
    ApplyFrame(w.db, lease, e.op);
  }

  /** After a write by one instance, no other instance's lease on the job is current. */
  lemma OtherView(db: Db, lease: Lease, op: Op, m: Member, v: View)
    requires Valid(db) && ViewHolds(db, m, v) && Apply(db, lease, op).Ok?
    requires op.Complete? && op.attempt in db.attempts ==> db.attempts[op.attempt].job == lease.job
    requires m.job == lease.job ==> m.instance != lease.instance
    ensures ViewHolds(Apply(db, lease, op).value, m, v)
  {
    hide Valid, SpecOf, Apply, SameJob;
    ApplyFrame(db, lease, op);
    var after := Apply(db, lease, op).value;
    if m.job != lease.job {
      OthersSame(db, lease, op, m.job);
      ViewKept(db, after, m, v);
    } else {
      assert !Current(after, v.lease);
    }
  }

  lemma WriteViews(w: World, e: Event, after: World)
    requires Inv(w) && e.Write? && Next(w, e, after)
    ensures ViewsHold(after)
  {
    hide Valid, LocalRecords, SentRecorded, ServerHolds, LegsLearned, SpecOf, MayWrite, Apply, Next, ViewHolds;
    WriterSees(w, e, after);
    forall m | m in after.views ensures ViewHolds(after.db, m, after.views[m]) {
      if m == Member(e.instance, e.job) {
        WriterView(w, e, after);
      } else {
        OtherView(w.db, w.views[Member(e.instance, e.job)].lease, e.op, m, w.views[m]);
      }
    }
  }

  /** A local ending is an end, and an end stays. */
  lemma WriteLocal(w: World, e: Event, after: World)
    requires Inv(w) && e.Write? && Next(w, e, after)
    ensures LocalRecords(after)
  {
    hide Valid, ViewsHold, SentRecorded, ServerHolds, LegsLearned, Apply, Next, Classify, SpecOf, MayWrite, LegsKept;
    WriterSees(w, e, after);
    var lease := w.views[Member(e.instance, e.job)].lease;
    ApplyFrame(w.db, lease, e.op);
    ApplyLater(w.db, lease, e.op);
    LocalEnds();
  }

  lemma LocalEnds()
    ensures Terminal(CANCELLED) && Terminal(EXPIRED)
  {
  }

  lemma WriteSent(w: World, e: Event, after: World)
    requires Inv(w) && e.Write? && Next(w, e, after)
    ensures SentRecorded(after) && ServerHolds(after)
  {
    hide Valid, ViewsHold, LocalRecords, LegsLearned, Apply, Next, SpecOf, MayWrite, LegsKept, Classify;
    WriterSees(w, e, after);
    ApplyLater(w.db, w.views[Member(e.instance, e.job)].lease, e.op);
    assert forall a | a in w.db.attempts :: a in after.db.attempts && after.db.attempts[a].key == w.db.attempts[a].key;
    forall key | Asked(w, key) ensures Asked(after, key) {
      var a :| a in w.sent && a in w.db.attempts && w.db.attempts[a].key == key;
    }
  }

  /** The leg an attempt belongs to has the attempt's key. */
  lemma LegOfAttempt(db: Db, a: string, x: Leg)
    requires Valid(db) && a in db.attempts && InLegs(db, db.attempts[a].job, x) && x.index == db.attempts[a].leg
    ensures x.key == db.attempts[a].key
  {
    hide KeysUnique, ExecutionsUnique, OneOpen, LegsPresent, TerminalUnheld;
    var row := db.attempts[a];
    var legs := db.jobs[row.job].legs;
    var y :| y in legs && y.index == row.leg && y.key == row.key;
    SameIndex(legs, x, y);
  }

  lemma SameIndex(legs: seq<Leg>, x: Leg, y: Leg)
    requires Ascending(legs) && x in legs && y in legs && x.index == y.index
    ensures x == y
  {
    var p :| 0 <= p < |legs| && legs[p] == x;
    var q :| 0 <= q < |legs| && legs[q] == y;
  }

  lemma PatchLearned(db: Db, job: string, index: nat, patch: Patch, executions: set<Execution>)
    requires Valid(db) && LegsLearned(db, executions) && job in db.jobs && PatchLeg(db, job, index, patch).Ok?
    requires forall x | x in db.jobs[job].legs && x.index == index :: MayLearn(executions, x.key, patch)
    ensures LegsLearned(PatchLeg(db, job, index, patch).value, executions)
  {
    hide KeysUnique, ExecutionsUnique, AttemptsKeyed, OneOpen, LegsPresent, TerminalUnheld, Ascending, LegsGrow, ExecutionTaken;
    var legs := db.jobs[job].legs;
    var p := FindLeg(legs, index).value;
    assert legs[p] in legs && InLegs(db, job, legs[p]);
    ReplaceLeg(legs, p, Patched(legs[p], patch));
    var after := PatchLeg(db, job, index, patch).value;
    forall j, x | InLegs(after, j, x) ensures InLegs(db, j, x) || (j == job && x == Patched(legs[p], patch)) {}
  }

  lemma ReserveLearned(db: Db, job: string, index: nat, key: string, executions: set<Execution>)
    requires Valid(db) && LegsLearned(db, executions) && job in db.jobs && ApplyReserve(db, job, index, key).Ok?
    ensures LegsLearned(ApplyReserve(db, job, index, key).value, executions)
  {
    hide KeysUnique, ExecutionsUnique, AttemptsKeyed, OneOpen, LegsPresent, TerminalUnheld, Ascending;
    var legs := db.jobs[job].legs;
    if FindLeg(legs, index).None? {
      var leg := NewLeg(index, key);
      assert Ascending(legs);
      InsertAscending(legs, leg);
      var after := ApplyReserve(db, job, index, key).value;
      forall j, x | InLegs(after, j, x) ensures InLegs(db, j, x) || x == leg {}
    }
  }

  lemma SameLegsLearned(db: Db, after: Db, executions: set<Execution>)
    requires LegsLearned(db, executions)
    requires forall j | j in after.jobs :: (j in db.jobs && after.jobs[j].legs == db.jobs[j].legs) || after.jobs[j].legs == []
    ensures LegsLearned(after, executions)
  {
    forall j, x | InLegs(after, j, x) ensures InLegs(db, j, x) {}
  }

  lemma WriteLearned(w: World, e: Event, after: World)
    requires Inv(w) && e.Write? && Next(w, e, after)
    ensures LegsLearned(after.db, after.executions)
  {
    hide Valid, ViewsHold, LocalRecords, SentRecorded, ServerHolds, LegsLearned, Next, SpecOf, MayMove, MayLearn, PatchLeg,
      ApplyReserve, ApplyBegin, ApplyMove, Classify;
    WriterSees(w, e, after);
    match e.op
    case Reserve(index, key) => ReserveLearned(w.db, e.job, index, key, w.executions);
    case Update(index, patch) => PatchLearned(w.db, e.job, index, patch, w.executions);
    case Complete(a, outcome, learned) =>
      var closed := w.db.(attempts := w.db.attempts[a := w.db.attempts[a].(outcome := Some(outcome))]);
      SameLegsLearned(w.db, closed, w.executions);
      if learned.Some? {
        CloseKeeps(w.db, a, outcome);
        forall x | x in closed.jobs[e.job].legs && x.index == w.db.attempts[a].leg
          ensures MayLearn(w.executions, x.key, learned.value)
        {
          assert InLegs(w.db, e.job, x);
          LegOfAttempt(w.db, a, x);
        }
        PatchLearned(closed, e.job, w.db.attempts[a].leg, learned.value, w.executions);
      }
    case MoveTo(to) => MoveLegs(w.db, w.views[Member(e.instance, e.job)].lease, to); SameLegsLearned(w.db, after.db, w.executions);
    case Begin(a, index, kind, fingerprint) =>
      BeginLegs(w.db, w.views[Member(e.instance, e.job)].lease, a, index, kind, fingerprint);
      SameLegsLearned(w.db, after.db, w.executions);
    case Renew(_, _) => SameLegsLearned(w.db, after.db, w.executions);
    case Release => SameLegsLearned(w.db, after.db, w.executions);
    case Commit(_, _, _, _) => SameLegsLearned(w.db, after.db, w.executions);
  }

  lemma MoveLegs(db: Db, lease: Lease, to: JobState)
    requires lease.job in db.jobs && ApplyMove(db, lease.job, to).Ok?
    ensures forall j | j in db.jobs :: ApplyMove(db, lease.job, to).value.jobs[j].legs == db.jobs[j].legs
    ensures ApplyMove(db, lease.job, to).value.jobs.Keys == db.jobs.Keys
  {
  }

  lemma BeginLegs(db: Db, lease: Lease, a: string, index: nat, kind: Kind, fingerprint: string)
    requires lease.job in db.jobs && ApplyBegin(db, lease, a, index, kind, fingerprint).Ok?
    ensures ApplyBegin(db, lease, a, index, kind, fingerprint).value.jobs == db.jobs
  {
  }

  lemma WriteKeeps(w: World, e: Event, after: World)
    requires Inv(w) && e.Write? && Next(w, e, after)
    ensures Inv(after)
  {
    hide Valid, ViewsHold, LocalRecords, SentRecorded, ServerHolds, LegsLearned, Next, Apply, MayWrite;
    WriterSees(w, e, after);
    ApplyKeeps(w.db, w.views[Member(e.instance, e.job)].lease, e.op);
    WriteViews(w, e, after);
    WriteLocal(w, e, after);
    WriteSent(w, e, after);
    WriteLearned(w, e, after);
  }

  // ---------- The other steps ----------

  /** Attempts as before, old jobs in the state and with the legs they had, new ones bare. */
  ghost predicate OnlyLeases(db: Db, after: Db) {
    && after.attempts == db.attempts
    && (forall j | j in db.jobs ::
        j in after.jobs && after.jobs[j].state == db.jobs[j].state && after.jobs[j].legs == db.jobs[j].legs
        && db.jobs[j].fence <= after.jobs[j].fence)
    && (forall j | j in after.jobs && j !in db.jobs :: after.jobs[j].legs == [])
  }

  /** Changes of leases, cancellation requests and new jobs bear on the views alone. */
  lemma LeasesKeep(w: World, db: Db)
    requires Inv(w) && Valid(db) && OnlyLeases(w.db, db)
    ensures LocalRecords(w.(db := db)) && SentRecorded(w.(db := db)) && ServerHolds(w.(db := db))
    ensures LegsLearned(db, w.executions)
  {
    hide SpecOf, ViewsHold, LegsOrdered, KeysUnique, ExecutionsUnique, OneOpen, LegsPresent, TerminalUnheld;
    SameLegsLearned(w.db, db, w.executions);
    forall key | Asked(w, key) ensures Asked(w.(db := db), key) {}
  }

  ghost predicate NoNewHolder(before: Job, after: Job) {
    after.fence == before.fence && (after.holder == before.holder || after.holder.None?)
  }

  lemma ViewsUnder(w: World, db: Db)
    requires Inv(w) && OnlyLeases(w.db, db)
    requires forall j | j in w.db.jobs :: NoNewHolder(w.db.jobs[j], db.jobs[j])
    ensures ViewsHold(w.(db := db))
  {
    hide Valid, LocalRecords, SentRecorded, ServerHolds, LegsLearned, ViewHolds;
    forall m | m in w.views ensures ViewHolds(db, m, w.views[m]) {
      assert ViewHolds(w.db, m, w.views[m]);
      ViewUnder(w.db, db, m, w.views[m]);
    }
  }

  lemma ViewUnder(db: Db, after: Db, m: Member, v: View)
    requires ViewHolds(db, m, v) && OnlyLeases(db, after)
    requires forall j | j in db.jobs :: NoNewHolder(db.jobs[j], after.jobs[j])
    ensures ViewHolds(after, m, v)
  {
    assert AttemptsOf(after, m.job) == AttemptsOf(db, m.job);
    ViewKept(db, after, m, v);
  }

  lemma ClaimStep(w: World, e: Event, after: World)
    requires Inv(w) && e.Claim? && Next(w, e, after)
    ensures Inv(after)
  {
    hide Valid, SentRecorded, ServerHolds, LegsLearned, SpecOf;
    ClaimKeeps(w.db, e.job, e.instance, e.at, e.ttl);
    assert OnlyLeases(w.db, after.db);
    LeasesKeep(w, after.db);
    SameLedger(w, w.(db := after.db), after);
    forall m | m in after.views ensures ViewHolds(after.db, m, after.views[m]) {
      if m != Member(e.instance, e.job) {
        assert ViewHolds(w.db, m, w.views[m]);
        assert AttemptsOf(after.db, m.job) == AttemptsOf(w.db, m.job);
        ViewKept(w.db, after.db, m, w.views[m]);
      }
    }
  }

  /** Views and what may still be sent do not enter the other parts of the invariant. */
  lemma SameLedger(w: World, middle: World, after: World)
    requires LocalRecords(middle) && SentRecorded(middle) && ServerHolds(middle)
    requires after.db == middle.db && after.sent == middle.sent && after.executions == middle.executions
    requires after.endedLocally == middle.endedLocally && after.begun <= middle.begun
    requires forall m | m in after.listings :: !Terminal(after.listings[m].state)
    ensures LocalRecords(after) && SentRecorded(after) && ServerHolds(after)
  {
    forall key | Asked(middle, key) ensures Asked(after, key) {}
  }

  lemma LocalStep(w: World, e: Event, after: World)
    requires Inv(w) && (e.List? || e.Reread? || e.Crash?) && Next(w, e, after)
    ensures Inv(after)
  {
    hide Valid, SentRecorded, ServerHolds, LegsLearned, SpecOf;
    SameLedger(w, w, after);
    forall m | m in after.views ensures ViewHolds(after.db, m, after.views[m]) {
      assert ViewHolds(w.db, m, w.views[m]);
    }
  }

  lemma SendStep(w: World, e: Event, after: World)
    requires Inv(w) && (e.Send? || e.Serve?) && Next(w, e, after)
    ensures Inv(after)
  {
    hide Valid, SpecOf;
    forall key | Asked(w, key) ensures Asked(after, key) {}
    forall m | m in after.views ensures ViewHolds(after.db, m, after.views[m]) { assert ViewHolds(w.db, m, w.views[m]); }
    if e.Serve? { assert Asked(after, w.db.attempts[e.attempt].key); }
  }

  lemma AdminStep(w: World, e: Event, after: World)
    requires Inv(w) && (e.Register? || e.Heartbeat? || e.CreateJob? || e.RequestCancel? || e.Stop?) && Next(w, e, after)
    ensures Inv(after)
  {
    hide LocalRecords, SentRecorded, ServerHolds, LegsLearned, ViewsHold, SpecOf, LegsOrdered, KeysUnique, ExecutionsUnique,
      AttemptsKeyed, OneOpen, LegsPresent, TerminalUnheld;
    AdminKeeps(w, e, after);
    assert OnlyLeases(w.db, after.db);
    LeasesKeep(w, after.db);
    ViewsUnder(w, after.db);
    assert after == w.(db := after.db);
  }

  lemma AdminKeeps(w: World, e: Event, after: World)
    requires Inv(w) && (e.Register? || e.Heartbeat? || e.CreateJob? || e.RequestCancel? || e.Stop?) && Next(w, e, after)
    ensures Valid(after.db)
  {
    hide LocalRecords, SentRecorded, ServerHolds, LegsLearned, ViewsHold, Valid;
    match e
    case Register(_, _, _, _) => SpendsFree(w.db, after.db);
    case Heartbeat(_, _) => SpendsFree(w.db, after.db);
    case CreateJob(j, intents, expiresAt) => CreateKeeps(w.db, j, intents, expiresAt);
    case RequestCancel(j, reason, at) => CancelRequestKeeps(w.db, j, reason, at);
    case Stop(i, at) => StopKeeps(w.db, i, at);
  }

  /** Every step, of any instance at any time, keeps the invariant. */
  lemma NextKeeps(w: World, e: Event, after: World)
    requires Inv(w) && Next(w, e, after)
    ensures Inv(after)
  {
    hide Inv, Next;
    match e
    case Write(_, _, _, _) => WriteKeeps(w, e, after);
    case Claim(_, _, _, _) => ClaimStep(w, e, after);
    case List(_, _) => LocalStep(w, e, after);
    case Reread(_, _) => LocalStep(w, e, after);
    case Crash(_) => LocalStep(w, e, after);
    case Send(_, _) => SendStep(w, e, after);
    case Serve(_, _) => SendStep(w, e, after);
    case Register(_, _, _, _) => AdminStep(w, e, after);
    case Heartbeat(_, _) => AdminStep(w, e, after);
    case CreateJob(_, _, _) => AdminStep(w, e, after);
    case RequestCancel(_, _, _) => AdminStep(w, e, after);
    case Stop(_, _) => AdminStep(w, e, after);
  }

  // ---------- What a step means for one job ----------

  /** Steps that are not writes on the job leave its state, legs and attempts alone. */
  lemma OtherStep(w: World, e: Event, after: World, j: string)
    requires Inv(w) && Next(w, e, after) && j in w.db.jobs && !(e.Write? && e.job == j)
    ensures j in after.db.jobs && after.db.jobs[j].state == w.db.jobs[j].state && after.db.jobs[j].legs == w.db.jobs[j].legs
    ensures AttemptsOf(after.db, j) == AttemptsOf(w.db, j)
    ensures j in after.endedLocally <==> j in w.endedLocally
  {
    hide Valid, ViewsHold, LocalRecords, SentRecorded, ServerHolds, LegsLearned, SpecOf, MayWrite, Apply;
    if e.Write? {
      WriterSees(w, e, after);
      OthersSame(w.db, w.views[Member(e.instance, e.job)].lease, e.op, j);
    } else {
      assert after.db.attempts == w.db.attempts;
    }
  }

  /** A job starts with neither legs nor attempts. */
  lemma NewIsBare(w: World, e: Event, after: World, j: string)
    requires Inv(w) && Next(w, e, after) && j !in w.db.jobs && j in after.db.jobs
    ensures after.db.jobs[j].legs == [] && AttemptsOf(after.db, j) == map[]
  {
    hide ViewsHold, LocalRecords, SentRecorded, ServerHolds, LegsLearned, SpecOf, Apply, MayWrite;
    hide LegsOrdered, KeysUnique, ExecutionsUnique, OneOpen, LegsPresent, TerminalUnheld;
    if e.Write? {
      WriterSees(w, e, after);
      ApplyFrame(w.db, w.views[Member(e.instance, e.job)].lease, e.op);
    } else {
      assert after.db.attempts == w.db.attempts;
    }
  }

  /** A transition goes along an edge and leaves the ledger alone. */
  lemma MoveIsAnEdge(db: Db, lease: Lease, to: JobState)
    requires Apply(db, lease, MoveTo(to)).Ok?
    ensures CanTransition(db.jobs[lease.job].state, to)
    ensures Apply(db, lease, MoveTo(to)).value.attempts == db.attempts
  {
  }

  // ---------- Runs ----------

  ghost predicate Run(worlds: seq<World>, events: seq<Event>) {
    && |worlds| == |events| + 1 && worlds[0] == START
    && forall n :: 0 <= n < |events| ==> Next(worlds[n], events[n], worlds[n + 1])
  }

  lemma {:induction false} RunKeeps(worlds: seq<World>, events: seq<Event>, n: nat)
    requires Run(worlds, events) && n < |worlds|
    ensures Inv(worlds[n])
  {
    hide Inv, Next;
    if n == 0 {
      StartHolds();
    } else {
      RunKeeps(worlds, events, n - 1);
      NextKeeps(worlds[n - 1], events[n - 1], worlds[n]);
    }
  }

  lemma StartHolds()
    ensures Inv(START)
  {
  }

  // ---------- What no run does ----------

  /** All requests for a leg carry one key, and the server holds at most one execution for them. */
  lemma OneExecutionPerLeg(worlds: seq<World>, events: seq<Event>, n: nat, a: string, b: string, x: Execution, y: Execution)
    requires Run(worlds, events) && n < |worlds|
    requires a in worlds[n].db.attempts && b in worlds[n].db.attempts
    requires worlds[n].db.attempts[a].job == worlds[n].db.attempts[b].job
    requires worlds[n].db.attempts[a].leg == worlds[n].db.attempts[b].leg
    requires x in worlds[n].executions && x.key == worlds[n].db.attempts[a].key
    requires y in worlds[n].executions && y.key == worlds[n].db.attempts[b].key
    ensures worlds[n].db.attempts[a].key == worlds[n].db.attempts[b].key && x == y
  {
    hide ViewsHold, LocalRecords, SentRecorded, LegsLearned, Next, Run;
    var w := worlds[n];
    RunKeeps(worlds, events, n);
    OneKeyPerLeg(w.db, a, b);
  }

  lemma OneKeyPerLeg(db: Db, a: string, b: string)
    requires Valid(db) && a in db.attempts && b in db.attempts
    requires db.attempts[a].job == db.attempts[b].job && db.attempts[a].leg == db.attempts[b].leg
    ensures db.attempts[a].key == db.attempts[b].key
  {
    hide KeysUnique, ExecutionsUnique, OneOpen, LegsPresent, TerminalUnheld, Ascending;
    var row := db.attempts[a];
    var x :| x in db.jobs[row.job].legs && x.index == row.leg && x.key == row.key;
    assert InLegs(db, row.job, x);
    LegOfAttempt(db, b, x);
  }

  /** Absence of an attempt row is proof: nothing on the server was created for the leg, and it has
      no execution to read. This is what lets a reconcile re-arm or resend it. */
  lemma NoAttemptNoExecution(worlds: seq<World>, events: seq<Event>, n: nat, j: string, x: Leg)
    requires Run(worlds, events) && n < |worlds| && InLegs(worlds[n].db, j, x)
    requires forall a | a in worlds[n].db.attempts :: worlds[n].db.attempts[a].job != j || worlds[n].db.attempts[a].leg != x.index
    ensures x.execution.None? && forall e | e in worlds[n].executions :: e.key != x.key
  {
    hide ViewsHold, LocalRecords, Next, Run, LegsPresent, TerminalUnheld, OneOpen, ExecutionsUnique, LegsOrdered;
    var w := worlds[n];
    RunKeeps(worlds, events, n);
    forall e | e in w.executions ensures e.key != x.key {
      assert Asked(w, e.key);
      var a :| a in w.sent && a in w.db.attempts && w.db.attempts[a].key == e.key;
      var row := w.db.attempts[a];
      var y :| y in w.db.jobs[row.job].legs && y.index == row.leg && y.key == row.key;
      assert InLegs(w.db, row.job, y);
    }
  }

  lemma NextLater(w: World, e: Event, after: World)
    requires Inv(w) && Next(w, e, after)
    ensures Later(w.db, after.db)
  {
    hide Valid, ViewsHold, LocalRecords, SentRecorded, ServerHolds, LegsLearned, Later, SpecOf, MayWrite, Apply, LegsKept;
    LaterReflexive(w.db);
    match e
    case Write(_, _, _, _) => WriterSees(w, e, after); ApplyLater(w.db, w.views[Member(e.instance, e.job)].lease, e.op);
    case Claim(i, j, at, ttl) => ClaimSupersedes(w.db, j, i, at, ttl);
    case RequestCancel(j, reason, at) => LegsAlwaysKept(w.db.jobs[j].legs); RowLater(w.db, j, after.db.jobs[j]);
    case CreateJob(_, _, _) => LeasesLater(w.db, after.db);
    case Register(_, _, _, _) => LeasesLater(w.db, after.db);
    case Heartbeat(_, _) => LeasesLater(w.db, after.db);
    case Stop(_, _) => LeasesLater(w.db, after.db);
    case _ =>
  }

  lemma LeasesLater(db: Db, after: Db)
    requires OnlyLeases(db, after)
    ensures Later(db, after)
  {
    forall j | j in db.jobs ensures LegsKept(db.jobs[j].legs, after.jobs[j].legs) { LegsAlwaysKept(db.jobs[j].legs); }
  }

  lemma {:induction false} RunLater(worlds: seq<World>, events: seq<Event>, m: nat, n: nat)
    requires Run(worlds, events) && m <= n < |worlds|
    ensures Later(worlds[m].db, worlds[n].db)
  {
    hide Inv, Next, Later;
    if m == n {
      LaterReflexive(worlds[m].db);
    } else {
      RunLater(worlds, events, m, n - 1);
      RunKeeps(worlds, events, n - 1);
      NextLater(worlds[n - 1], events[n - 1], worlds[n]);
      LaterTransitive(worlds[m].db, worlds[n - 1].db, worlds[n].db);
    }
  }

  /** Once a claim has gone through, no older lease on the job writes again, for the rest of the run. */
  lemma FencedOut(worlds: seq<World>, events: seq<Event>, m: nat, n: nat, lease: Lease, op: Op)
    requires Run(worlds, events) && m < n < |worlds|
    requires events[m].Claim? && lease.job == events[m].job && lease.job in worlds[m].db.jobs
    requires lease.fence <= worlds[m].db.jobs[lease.job].fence
    ensures Apply(worlds[n].db, lease, op) == Refused(LEASE_LOST)
  {
    hide Inv, Later, SpecOf, Apply;
    assert Next(worlds[m], events[m], worlds[m + 1]);
    ClaimSupersedes(worlds[m].db, events[m].job, events[m].instance, events[m].at, events[m].ttl);
    RunLater(worlds, events, m + 1, n);
    SupersededIsRefused(worlds[m + 1].db, worlds[n].db, lease, op);
  }

  /** A leg keeps its key for good. */
  lemma KeyForGood(worlds: seq<World>, events: seq<Event>, m: nat, n: nat, j: string, x: Leg, y: Leg)
    requires Run(worlds, events) && m <= n < |worlds|
    requires InLegs(worlds[m].db, j, x) && InLegs(worlds[n].db, j, y) && x.index == y.index
    ensures x.key == y.key
  {
    hide Next, SpecOf, KeysUnique, ExecutionsUnique, AttemptsKeyed, OneOpen, LegsPresent, TerminalUnheld,
      ViewsHold, LocalRecords, SentRecorded, ServerHolds, LegsLearned, Ascending;
    RunLater(worlds, events, m, n);
    RunKeeps(worlds, events, n);
    var legs := worlds[n].db.jobs[j].legs;
    assert HasLeg(legs, x.index, x.key);
    var z :| z in legs && z.index == x.index && z.key == x.key;
    SameIndex(legs, y, z);
  }

  /** The reconciler obeys what the steps above allow it: whatever state a call leaves the job in, it
      got there by a permitted transition on the rows it read. */
  lemma ReconcilerObeys(db: Db, lease: Lease, gateway: RunnerReconciler.Gateway)
    requires RunnerReconciler.Ready(db, lease)
    ensures
      var (after, answer) := RunnerReconciler.Reconcile(db, lease, gateway);
      && lease.job in after.jobs
      && (answer.Answer? && after.jobs[lease.job].state != RECONCILING ==>
          MayMove(View(lease, RECONCILING, after.jobs[lease.job].legs, AttemptsOf(after, lease.job)), Reconciler,
            after.jobs[lease.job].state))
  {
    hide Valid, SpecOf, RunnerReconciler.Reconcile, RunnerReconciler.LegsSound, RunnerReconciler.NoOpen,
      RunnerReconciler.ResolvedClosed, RunnerReconciler.AllResolved, RunnerReconciler.SomeSucceeded;
    RunnerReconciler.ReconcileSound(db, lease, gateway);
    ReconcilerEndings(db, lease, gateway);
    var (after, answer) := RunnerReconciler.Reconcile(db, lease, gateway);
    if answer.Answer? && after.jobs[lease.job].state == WATCHING {
      assert AttemptsOf(after, lease.job) == map[];
      LegsUnread(db, after, lease, gateway);
    }
  }

  /** So does what it writes of a read. */
  lemma ReadObeys(w: World, lease: Lease, index: nat, read: RunnerReconciler.Read)
    requires lease.job in w.db.jobs
    ensures
      var learned := RunnerReconciler.Learned(w.db, lease, index, read);
      learned == Ok(w.db)
        || exists op :: MayWrite(w, Snapshot(w.db, lease), Reconciler, op) && learned == Apply(w.db, lease, op)
  {
    hide Apply, SpecOf, RunnerReconciler.OutcomeOf;
    var patch := RunnerReconciler.PatchFor(read);
    if HasOpen(w.db, lease.job, index) {
      var a := OpenAttempt(w.db, lease.job, index);
      assert a in AttemptsOf(w.db, lease.job);
      var op := Complete(a, RunnerReconciler.OutcomeOf(w.db.attempts[a].kind, read), Some(patch));
      assert MayWrite(w, Snapshot(w.db, lease), Reconciler, op);
    } else {
      assert !OpenSeen(Snapshot(w.db, lease), index) by { SeenIsOpen(w.db, lease, index); }
      assert MayWrite(w, Snapshot(w.db, lease), Reconciler, Update(index, patch));
    }
  }

  lemma SeenIsOpen(db: Db, lease: Lease, index: nat)
    requires lease.job in db.jobs
    ensures OpenSeen(Snapshot(db, lease), index) <==> HasOpen(db, lease.job, index)
  {
    if HasOpen(db, lease.job, index) {
      var a :| a in db.attempts && IsOpen(db, a, lease.job, index);
      assert a in AttemptsOf(db, lease.job);
    }
    if OpenSeen(Snapshot(db, lease), index) {
      var a :| a in AttemptsOf(db, lease.job) && db.attempts[a].leg == index && db.attempts[a].outcome.None?;
      assert IsOpen(db, a, lease.job, index);
    }
  }

  lemma ReconcilerEndings(db: Db, lease: Lease, gateway: RunnerReconciler.Gateway)
    requires RunnerReconciler.Ready(db, lease)
    ensures
      var (after, answer) := RunnerReconciler.Reconcile(db, lease, gateway);
      answer.Answer? ==>
        answer.result.to == RECONCILING || answer.result.to == WATCHING || answer.result.to == UNKNOWN_PENDING
        || Terminal(answer.result.to)
  {
    hide Valid, Apply, SpecOf, RunnerReconciler.Choosing;
    if db.jobs[lease.job].state == RECONCILING {
      ChoiceEndings(db, lease, gateway, RECONCILING);
    } else {
      RunnerReconciler.StartLands(db, lease);
      ChoiceEndings(Apply(db, lease, MoveTo(RECONCILING)).value, lease, gateway, UNKNOWN_PENDING);
    }
  }

  lemma ChoiceEndings(db: Db, lease: Lease, gateway: RunnerReconciler.Gateway, from: JobState)
    requires lease.job in db.jobs
    ensures
      var answer := RunnerReconciler.Choosing(db, lease, gateway, from).1;
      answer.Answer? ==>
        answer.result.to == RECONCILING || answer.result.to == WATCHING || answer.result.to == UNKNOWN_PENDING
        || Terminal(answer.result.to)
  {
    hide Valid, Apply, SpecOf, RunnerReconciler.Learned, RunnerReconciler.AllResolved, RunnerReconciler.Summary,
      RunnerReconciler.UnderWay, RunnerReconciler.FirstUnsent, RunnerReconciler.FirstReadable, RunnerReconciler.FirstUnresolved;
    forall legs, verdict: Option<RunnerReconciler.ExecutionStatus>
      | verdict.Some? ==> RunnerReconciler.Final(verdict.value)
      ensures Terminal(RunnerReconciler.Summary(legs, verdict))
    {
      SummaryEnds(legs, verdict);
    }
  }

  lemma SummaryEnds(legs: seq<Leg>, verdict: Option<RunnerReconciler.ExecutionStatus>)
    requires verdict.Some? ==> RunnerReconciler.Final(verdict.value)
    ensures Terminal(RunnerReconciler.Summary(legs, verdict))
  {
  }

  lemma LegsUnread(db: Db, after: Db, lease: Lease, gateway: RunnerReconciler.Gateway)
    requires lease.job in db.jobs && lease.job in after.jobs && !RunnerReconciler.UnderWay(db, lease.job)
    requires RunnerReconciler.LegsSound(db.jobs[lease.job].legs, after.jobs[lease.job].legs, gateway)
    ensures NoExecutions(after.jobs[lease.job].legs)
  {
    var legs := after.jobs[lease.job].legs;
    forall p | 0 <= p < |legs| ensures legs[p].execution.None? {
      assert RunnerReconciler.LegSound(db.jobs[lease.job].legs[p], legs[p], gateway);
    }
  }
}
