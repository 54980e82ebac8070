/** The durable job store: jobs with their leases and legs, and the side-effect ledger. `Apply` is
    what one leased write does; `JobStore` is the store itself, one method per transaction. */
module RunnerStore {
  import opened Options
  import opened RunnerStates

  datatype StoreError =
    | UNKNOWN_JOB | UNKNOWN_LEG | ILLEGAL_TRANSITION | LEASE_LOST | NO_IDEMPOTENCY_KEY
    | DUPLICATE_IDEMPOTENCY_KEY | DUPLICATE_EXECUTION | REPLAY_MISMATCH | OPEN_SIDE_EFFECT
    | UNKNOWN_SIDE_EFFECT | INVALID_INPUT
    | CONSTRAINT // a primary key of the database, reported by the engine itself

  datatype Result<+T> = Ok(value: T) | Refused(error: StoreError)

  datatype LegStatus = PENDING | SUCCEEDED | LEG_FAILED | SKIPPED | UNKNOWN

  /** The quotes a leg was last priced by. */
  datatype Quotes = Quotes(reference: Option<string>, submission: Option<string>, at: Option<int>)

  const NO_QUOTES: Quotes := Quotes(None, None, None)

  datatype Leg = Leg(index: nat, key: string, status: LegStatus, execution: Option<string>,
    submission: Option<string>, keeper: Option<string>, quotes: Quotes)

  function NewLeg(index: nat, key: string): Leg {
    Leg(index, key, PENDING, None, None, None, NO_QUOTES)
  }

  datatype Job = Job(state: JobState, holder: Option<string>, leaseExpires: Option<int>, fence: nat,
    cancelAt: Option<int>, cancelReason: Option<string>, expiresAt: int, legs: seq<Leg>)

  datatype Kind = CREATE_EXECUTION | SUBMIT_EXECUTION | RECONCILE_EXECUTION

  datatype AttemptOutcome = TOOK_EFFECT | REFUSED | ABANDONED

  datatype Attempt = Attempt(job: string, leg: nat, kind: Kind, key: string, fingerprint: string,
    instance: string, outcome: Option<AttemptOutcome>)

  datatype Instance = Instance(pid: int, host: string, startedAt: int, heartbeatAt: int, stoppedAt: Option<int>)

  /** What one leg has committed of the budget its mandate belongs to, in millionths. */
  datatype Spend = Spend(job: string, leg: nat, scope: string, amount: nat)

  datatype Db = Db(instances: map<string, Instance>, jobs: map<string, Job>, attempts: map<string, Attempt>, spends: seq<Spend>)

  datatype Lease = Lease(job: string, instance: string, fence: nat, expires: int)

  /** A change of a leg: what it names is set, the rest stays. */
  datatype Patch = Patch(status: Option<LegStatus>, execution: Option<string>, submission: Option<string>,
    keeper: Option<string>, quotes: Quotes)

  const NOTHING: Patch := Patch(None, None, None, None, NO_QUOTES)

  /** What can be written under a lease. */
  datatype Op =
    | Renew(at: int, ttl: int)
    | Release
    | MoveTo(to: JobState)
    | Reserve(index: nat, key: string)
    | Update(index: nat, patch: Patch)
    | Begin(attempt: string, index: nat, kind: Kind, fingerprint: string)
    | Complete(attempt: string, outcome: AttemptOutcome, learned: Option<Patch>)
    | Commit(index: nat, scope: string, amount: nat, ceiling: Option<nat>)

  // ---------- Legs of a job, in index order ----------

  ghost predicate Ascending(legs: seq<Leg>) {
    forall p, q :: 0 <= p < q < |legs| ==> legs[p].index < legs[q].index
  }

  function FindLeg(legs: seq<Leg>, index: nat): (found: Option<nat>)
    ensures found.Some? ==> found.value < |legs| && legs[found.value].index == index
    ensures found.None? ==> forall p :: 0 <= p < |legs| ==> legs[p].index != index
  {
    if legs == [] then None
    else if legs[|legs| - 1].index == index then Some(|legs| - 1)
    else FindLeg(legs[..|legs| - 1], index)
  }

  /** A new row takes its place by index. */
  function InsertLeg(legs: seq<Leg>, leg: Leg): (more: seq<Leg>)
    ensures |more| == |legs| + 1
  {
    if legs == [] || legs[|legs| - 1].index < leg.index then legs + [leg]
    else InsertLeg(legs[..|legs| - 1], leg) + [legs[|legs| - 1]]
  }

  predicate HasKey(legs: seq<Leg>, key: string) {
    exists p :: 0 <= p < |legs| && legs[p].key == key
  }

  /** The idempotency key belongs to a leg of some job. */
  predicate KeyTaken(db: Db, key: string) {
    exists j | j in db.jobs :: HasKey(db.jobs[j].legs, key)
  }

  predicate BackedElsewhere(legs: seq<Leg>, but: Option<nat>, execution: string) {
    exists p :: 0 <= p < |legs| && legs[p].execution == Some(execution) && Some(legs[p].index) != but
  }

  /** The execution backs a leg other than this one. */
  predicate ExecutionTaken(db: Db, job: string, index: nat, execution: string) {
    exists j | j in db.jobs :: BackedElsewhere(db.jobs[j].legs, if j == job then Some(index) else None, execution)
  }

  predicate IsOpen(db: Db, a: string, job: string, leg: nat)
    requires a in db.attempts
  {
    db.attempts[a].job == job && db.attempts[a].leg == leg && db.attempts[a].outcome.None?
  }

  predicate HasOpen(db: Db, job: string, leg: nat) {
    exists a | a in db.attempts :: IsOpen(db, a, job, leg)
  }

  ghost function OpenAttempt(db: Db, job: string, leg: nat): (a: string)
    requires HasOpen(db, job, leg)
    ensures a in db.attempts && IsOpen(db, a, job, leg)
  {
    var a :| a in db.attempts && IsOpen(db, a, job, leg);
    a
  }

  // ---------- What mandates have spent ----------

  predicate Committed(spends: seq<Spend>, job: string, leg: nat) {
    exists i :: 0 <= i < |spends| && spends[i].job == job && spends[i].leg == leg
  }

  function SpendTotal(spends: seq<Spend>, scope: string): nat {
    if spends == [] then 0
    else
      var last := spends[|spends| - 1];
      SpendTotal(spends[..|spends| - 1], scope) + if last.scope == scope then last.amount else 0
  }

  /** A leg that has committed is not asked again; another must fit. */
  predicate Admitted(spends: seq<Spend>, job: string, leg: nat, scope: string, amount: nat, ceiling: Option<nat>) {
    Committed(spends, job, leg) || ceiling.None? || SpendTotal(spends, scope) + amount <= ceiling.value
  }

  function ApplyCommit(db: Db, job: string, leg: nat, scope: string, amount: nat, ceiling: Option<nat>): Db {
    if Admitted(db.spends, job, leg, scope, amount, ceiling) && !Committed(db.spends, job, leg)
    then db.(spends := db.spends + [Spend(job, leg, scope, amount)]) else db
  }

  // ---------- One leased write ----------

  predicate Current(db: Db, lease: Lease) {
    && lease.job in db.jobs
    && db.jobs[lease.job].holder == Some(lease.instance)
    && db.jobs[lease.job].fence == lease.fence
  }

  function Over<T>(before: Option<T>, after: Option<T>): Option<T> {
    if after.Some? then after else before
  }

  function Patched(leg: Leg, patch: Patch): Leg {
    Leg(leg.index, leg.key, if patch.status.Some? then patch.status.value else leg.status,
      Over(leg.execution, patch.execution), Over(leg.submission, patch.submission), Over(leg.keeper, patch.keeper),
      Quotes(Over(leg.quotes.reference, patch.quotes.reference), Over(leg.quotes.submission, patch.quotes.submission),
        Over(leg.quotes.at, patch.quotes.at)))
  }

  function PatchLeg(db: Db, job: string, index: nat, patch: Patch): Result<Db>
    requires job in db.jobs
  {
    var found := FindLeg(db.jobs[job].legs, index);
    if found.None? then Refused(UNKNOWN_LEG)
    else if patch.execution.Some? && ExecutionTaken(db, job, index, patch.execution.value) then Refused(DUPLICATE_EXECUTION)
    else
      var legs := db.jobs[job].legs;
      Ok(db.(jobs := db.jobs[job := db.jobs[job].(legs := legs[found.value := Patched(legs[found.value], patch)])]))
  }

  function Moved(job: Job, to: JobState): Job {
    if Terminal(to) then job.(state := to, holder := None, leaseExpires := None) else job.(state := to)
  }

  function ApplyMove(db: Db, job: string, to: JobState): Result<Db>
    requires job in db.jobs
  {
    if !CanTransition(db.jobs[job].state, to) then Refused(ILLEGAL_TRANSITION)
    else if SpecOf(to).requiresLeg && db.jobs[job].legs == [] then Refused(NO_IDEMPOTENCY_KEY)
    else Ok(db.(jobs := db.jobs[job := Moved(db.jobs[job], to)]))
  }

  function ApplyReserve(db: Db, job: string, index: nat, key: string): Result<Db>
    requires job in db.jobs
  {
    var legs := db.jobs[job].legs;
    var found := FindLeg(legs, index);
    if found.Some? then
      if legs[found.value].key != key then Refused(REPLAY_MISMATCH) else Ok(db)
    else if KeyTaken(db, key) then Refused(DUPLICATE_IDEMPOTENCY_KEY)
    else Ok(db.(jobs := db.jobs[job := db.jobs[job].(legs := InsertLeg(legs, NewLeg(index, key)))]))
  }

  ghost function ApplyBegin(db: Db, lease: Lease, attempt: string, index: nat, kind: Kind, fingerprint: string): Result<Db>
    requires lease.job in db.jobs
  {
    var found := FindLeg(db.jobs[lease.job].legs, index);
    if found.None? then Refused(NO_IDEMPOTENCY_KEY)
    else if HasOpen(db, lease.job, index) then
      var open := db.attempts[OpenAttempt(db, lease.job, index)];
      if open.kind != kind then Refused(OPEN_SIDE_EFFECT)
      else if open.fingerprint != fingerprint then Refused(REPLAY_MISMATCH)
      else Ok(db)
    else if attempt in db.attempts then Refused(CONSTRAINT)
    else
      var key := db.jobs[lease.job].legs[found.value].key;
      Ok(db.(attempts := db.attempts[attempt := Attempt(lease.job, index, kind, key, fingerprint, lease.instance, None)]))
  }

  function ApplyComplete(db: Db, attempt: string, outcome: AttemptOutcome, patch: Option<Patch>): Result<Db> {
    if attempt !in db.attempts || db.attempts[attempt].outcome.Some? then Refused(UNKNOWN_SIDE_EFFECT)
    else
      var row := db.attempts[attempt];
      var closed := db.(attempts := db.attempts[attempt := row.(outcome := Some(outcome))]);
      if patch.None? then Ok(closed)
      else if row.job !in db.jobs then Refused(UNKNOWN_LEG)
      else PatchLeg(closed, row.job, row.leg, patch.value)
  }

  /** One transaction under a lease: all of it happens, or the database is as it was. */
  ghost function Apply(db: Db, lease: Lease, op: Op): Result<Db> {
    if lease.job !in db.jobs then Refused(UNKNOWN_JOB)
    else if !Current(db, lease) then Refused(LEASE_LOST)
    else
      var job := db.jobs[lease.job];
      match op
      case Renew(at, ttl) => Ok(db.(jobs := db.jobs[lease.job := job.(leaseExpires := Some(at + ttl))]))
      case Release => Ok(db.(jobs := db.jobs[lease.job := job.(holder := None, leaseExpires := None)]))
      case MoveTo(to) => ApplyMove(db, lease.job, to)
      case Reserve(index, key) => ApplyReserve(db, lease.job, index, key)
      case Update(index, patch) => PatchLeg(db, lease.job, index, patch)
      case Begin(attempt, index, kind, fingerprint) => ApplyBegin(db, lease, attempt, index, kind, fingerprint)
      case Complete(attempt, outcome, learned) => ApplyComplete(db, attempt, outcome, learned)
      case Commit(index, scope, amount, ceiling) => Ok(ApplyCommit(db, lease.job, index, scope, amount, ceiling))
  }

  // ---------- Writes that take no lease ----------

  /** A job needs a leg to trade and a deadline that can be read. */
  function ApplyCreate(db: Db, job: string, intents: nat, expiresAt: Option<int>): Result<Db> {
    if intents == 0 || expiresAt.None? then Refused(INVALID_INPUT)
    else if job in db.jobs then Refused(CONSTRAINT)
    else Ok(db.(jobs := db.jobs[job := Job(DRAFT, None, None, 0, None, None, expiresAt.value, [])]))
  }

  function ApplyCancelRequest(db: Db, job: string, reason: string, at: int): Result<Db> {
    if job !in db.jobs then Refused(UNKNOWN_JOB)
    else if Terminal(db.jobs[job].state) then Refused(ILLEGAL_TRANSITION)
    else Ok(db.(jobs := db.jobs[job := CancelAsked(db.jobs[job], reason, at)]))
  }

  /** What an earlier request said stays. */
  function CancelAsked(row: Job, reason: string, at: int): Job {
    row.(cancelAt := Over(Some(at), row.cancelAt), cancelReason := Over(Some(reason), row.cancelReason))
  }

  /** An instance that registers again starts no new row, but is no longer stopped. */
  function ApplyRegister(db: Db, instance: string, pid: int, host: string, at: int): Db {
    var started := if instance in db.instances then db.instances[instance].startedAt else at;
    db.(instances := db.instances[instance := Instance(pid, host, started, at, None)])
  }

  function ApplyHeartbeat(db: Db, instance: string, at: int): Result<Db> {
    if instance !in db.instances then Refused(INVALID_INPUT)
    else Ok(db.(instances := db.instances[instance := db.instances[instance].(heartbeatAt := at)]))
  }

  /** A live lease of another instance is respected; otherwise the fence moves up. */
  predicate Claimable(db: Db, job: string, instance: string, at: int)
    requires job in db.jobs
  {
    var row := db.jobs[job];
    && !Terminal(row.state)
    && !(row.holder.Some? && row.holder.value != instance && row.leaseExpires.Some? && row.leaseExpires.value > at)
  }

  function ApplyClaim(db: Db, job: string, instance: string, at: int, ttl: int): Result<(Db, Option<Lease>)> {
    if instance !in db.instances then Refused(INVALID_INPUT)
    else if job !in db.jobs then Refused(UNKNOWN_JOB)
    else if !Claimable(db, job, instance, at) then Ok((db, None))
    else
      var row := db.jobs[job];
      Ok((db.(jobs := db.jobs[job := row.(holder := Some(instance), leaseExpires := Some(at + ttl), fence := row.fence + 1)]),
          Some(Lease(job, instance, row.fence + 1, at + ttl))))
  }

  /** A clean stop gives back every lease of the instance, and touches no fence. */
  function ApplyStop(db: Db, instance: string, at: int): Db {
    Db(if instance in db.instances
       then db.instances[instance := db.instances[instance].(stoppedAt := Some(at), heartbeatAt := at)] else db.instances,
       map j | j in db.jobs ::
         if db.jobs[j].holder == Some(instance) then db.jobs[j].(holder := None, leaseExpires := None) else db.jobs[j],
       db.attempts, db.spends)
  }

  // ---------- What the database's constraints and checks keep ----------

  ghost predicate LegsOrdered(db: Db) {
    forall j | j in db.jobs :: Ascending(db.jobs[j].legs)
  }

  ghost predicate InLegs(db: Db, j: string, leg: Leg) {
    j in db.jobs && leg in db.jobs[j].legs
  }

  /** One key belongs to one leg, over all jobs. */
  ghost predicate KeysUnique(db: Db) {
    forall j, k, x, y | InLegs(db, j, x) && InLegs(db, k, y) && x.key == y.key :: j == k && x.index == y.index
  }

  /** One execution backs one leg. */
  ghost predicate ExecutionsUnique(db: Db) {
    forall j, k, x, y | InLegs(db, j, x) && InLegs(db, k, y) && x.execution.Some? && x.execution == y.execution ::
      j == k && x.index == y.index
  }

  ghost predicate HasLeg(legs: seq<Leg>, index: nat, key: string) {
    exists x | x in legs :: x.index == index && x.key == key
  }

  /** An attempt carries the key its leg minted. */
  ghost predicate AttemptsKeyed(db: Db) {
    forall a | a in db.attempts ::
      && db.attempts[a].job in db.jobs
      && HasLeg(db.jobs[db.attempts[a].job].legs, db.attempts[a].leg, db.attempts[a].key)
  }

  /** A leg has at most one unresolved attempt. */
  ghost predicate OneOpen(db: Db) {
    forall a, b, j, leg | a in db.attempts && b in db.attempts && IsOpen(db, a, j, leg) && IsOpen(db, b, j, leg) :: a == b
  }

  ghost predicate LegsPresent(db: Db) {
    forall j | j in db.jobs :: SpecOf(db.jobs[j].state).requiresLeg ==> db.jobs[j].legs != []
  }

  ghost predicate TerminalUnheld(db: Db) {
    forall j | j in db.jobs :: Terminal(db.jobs[j].state) ==> db.jobs[j].holder.None?
  }

  ghost predicate Valid(db: Db) {
    && LegsOrdered(db) && KeysUnique(db) && ExecutionsUnique(db) && AttemptsKeyed(db) && OneOpen(db)
    && LegsPresent(db) && TerminalUnheld(db)
  }

  // ---------- Each write keeps them ----------

  /** A job's row changed in its lease, its state or its cancellation, its legs as they were. */
  lemma RowKeeps(db: Db, job: string, row: Job)
    requires Valid(db) && job in db.jobs && row.legs == db.jobs[job].legs
    requires SpecOf(row.state).requiresLeg ==> row.legs != []
    requires Terminal(row.state) ==> row.holder.None?
    ensures Valid(db.(jobs := db.jobs[job := row]))
  {
    hide SpecOf, Ascending, HasLeg;
    var after := db.(jobs := db.jobs[job := row]);
    assert forall j, x :: InLegs(after, j, x) <==> InLegs(db, j, x);
    assert forall a, j, leg | a in db.attempts :: IsOpen(after, a, j, leg) <==> IsOpen(db, a, j, leg);
  }

  lemma {:induction false} InsertAscending(legs: seq<Leg>, leg: Leg)
    requires Ascending(legs) && forall p :: 0 <= p < |legs| ==> legs[p].index != leg.index
    ensures Ascending(InsertLeg(legs, leg))
    ensures forall x :: x in InsertLeg(legs, leg) <==> x == leg || x in legs
  {
    if legs != [] && legs[|legs| - 1].index >= leg.index {
      var front, last := legs[..|legs| - 1], legs[|legs| - 1];
      InsertAscending(front, leg);
      var inner := InsertLeg(front, leg);
      assert legs == front + [last];
      forall p | 0 <= p < |inner| ensures inner[p].index < last.index {
        assert inner[p] in inner;
      }
    }
  }

  /** The legs of one job replaced, each leg new or as before but for what it learned. */
  ghost predicate LegsGrow(before: seq<Leg>, after: seq<Leg>) {
    && Ascending(after) && after != []
    && forall x | x in before :: HasLeg(after, x.index, x.key)
  }

  lemma LegsReplaced(db: Db, job: string, legs: seq<Leg>)
    requires Valid(db) && job in db.jobs && LegsGrow(db.jobs[job].legs, legs)
    requires
      var after := db.(jobs := db.jobs[job := db.jobs[job].(legs := legs)]);
      KeysUnique(after) && ExecutionsUnique(after)
    ensures Valid(db.(jobs := db.jobs[job := db.jobs[job].(legs := legs)]))
  {
    hide SpecOf, Ascending, KeysUnique, ExecutionsUnique;
    var after := db.(jobs := db.jobs[job := db.jobs[job].(legs := legs)]);
    assert forall a, j, leg | a in db.attempts :: IsOpen(after, a, j, leg) <==> IsOpen(db, a, j, leg);
    forall a | a in after.attempts
      ensures HasLeg(after.jobs[after.attempts[a].job].legs, after.attempts[a].leg, after.attempts[a].key)
    {
      var row := db.attempts[a];
      var x :| x in db.jobs[row.job].legs && x.index == row.leg && x.key == row.key;
    }
  }

  lemma ReserveKeeps(db: Db, job: string, index: nat, key: string)
    requires Valid(db) && job in db.jobs && ApplyReserve(db, job, index, key).Ok?
    ensures Valid(ApplyReserve(db, job, index, key).value)
    ensures LegsGrow(db.jobs[job].legs, ApplyReserve(db, job, index, key).value.jobs[job].legs)
    ensures HasLeg(ApplyReserve(db, job, index, key).value.jobs[job].legs, index, key)
  {
    hide SpecOf, AttemptsKeyed, OneOpen, LegsPresent, TerminalUnheld, Ascending;
    var legs := db.jobs[job].legs;
    var found := FindLeg(legs, index);
    if found.Some? {
      assert legs[found.value] in legs;
    } else {
      var leg := NewLeg(index, key);
      var more := InsertLeg(legs, leg);
      InsertAscending(legs, leg);
      assert leg in more;
      var after := db.(jobs := db.jobs[job := db.jobs[job].(legs := more)]);
      forall j, x | InLegs(db, j, x) ensures x.key != key {
        var p :| 0 <= p < |db.jobs[j].legs| && db.jobs[j].legs[p] == x;
        assert !HasKey(db.jobs[j].legs, key);
      }
      assert forall j, x :: InLegs(after, j, x) <==> InLegs(db, j, x) || (j == job && x == leg);
      LegsReplaced(db, job, more);
    }
  }

  /** Replacing one row by another with its index and key. */
  lemma ReplaceLeg(legs: seq<Leg>, p: nat, now: Leg)
    requires Ascending(legs) && p < |legs| && now.index == legs[p].index && now.key == legs[p].key
    ensures LegsGrow(legs, legs[p := now])
    ensures forall x :: x in legs[p := now] <==> x == now || (x in legs && x.index != now.index)
  {
    var more := legs[p := now];
    assert more[p] == now;
    forall x | x in legs ensures HasLeg(more, x.index, x.key) {
      var q :| 0 <= q < |legs| && legs[q] == x;
      assert more[q] in more;
    }
    forall x | x in legs && x.index != now.index ensures x in more {
      var q :| 0 <= q < |legs| && legs[q] == x;
      assert more[q] == x;
    }
    forall x | x in more ensures x == now || (x in legs && x.index != now.index) {
      var q :| 0 <= q < |more| && more[q] == x;
      assert q != p ==> legs[q] == x;
    }
  }

  lemma PatchUnique(db: Db, job: string, p: nat, patch: Patch)
    requires Valid(db) && job in db.jobs && p < |db.jobs[job].legs|
    requires patch.execution.Some? ==> !ExecutionTaken(db, job, db.jobs[job].legs[p].index, patch.execution.value)
    ensures
      var legs := db.jobs[job].legs;
      var after := db.(jobs := db.jobs[job := db.jobs[job].(legs := legs[p := Patched(legs[p], patch)])]);
      KeysUnique(after) && ExecutionsUnique(after)
  {
    hide SpecOf, AttemptsKeyed, OneOpen, LegsPresent, TerminalUnheld, Ascending, LegsGrow;
    var legs := db.jobs[job].legs;
    var was, now := legs[p], Patched(legs[p], patch);
    ReplaceLeg(legs, p, now);
    var after := db.(jobs := db.jobs[job := db.jobs[job].(legs := legs[p := now])]);
    assert InLegs(db, job, was);
    assert forall j, x ::
      InLegs(after, j, x) <==> (j == job && x == now) || (InLegs(db, j, x) && (j != job || x.index != now.index));
    if patch.execution.Some? {
      forall j, x | InLegs(db, j, x) && (j != job || x.index != now.index) ensures x.execution != patch.execution {
        var q :| 0 <= q < |db.jobs[j].legs| && db.jobs[j].legs[q] == x;
        assert !BackedElsewhere(db.jobs[j].legs, if j == job then Some(now.index) else None, patch.execution.value);
      }
    }
  }

  lemma PatchKeeps(db: Db, job: string, index: nat, patch: Patch)
    requires Valid(db) && job in db.jobs && PatchLeg(db, job, index, patch).Ok?
    ensures Valid(PatchLeg(db, job, index, patch).value)
    ensures LegsGrow(db.jobs[job].legs, PatchLeg(db, job, index, patch).value.jobs[job].legs)
  {
    hide SpecOf, AttemptsKeyed, OneOpen, LegsPresent, TerminalUnheld, Ascending, LegsGrow, KeysUnique, ExecutionsUnique,
      ExecutionTaken;
    var legs := db.jobs[job].legs;
    var p := FindLeg(legs, index).value;
    ReplaceLeg(legs, p, Patched(legs[p], patch));
    PatchUnique(db, job, p, patch);
    LegsReplaced(db, job, legs[p := Patched(legs[p], patch)]);
  }

  lemma BeginKeeps(db: Db, lease: Lease, attempt: string, index: nat, kind: Kind, fingerprint: string)
    requires Valid(db) && lease.job in db.jobs && ApplyBegin(db, lease, attempt, index, kind, fingerprint).Ok?
    ensures Valid(ApplyBegin(db, lease, attempt, index, kind, fingerprint).value)
  {
    hide SpecOf, Ascending;
    var legs := db.jobs[lease.job].legs;
    var found := FindLeg(legs, index);
    if !HasOpen(db, lease.job, index) {
      var after := ApplyBegin(db, lease, attempt, index, kind, fingerprint).value;
      assert legs[found.value] in legs;
      assert forall j, x :: InLegs(after, j, x) <==> InLegs(db, j, x);
      forall a, b, j, leg | a in after.attempts && b in after.attempts && IsOpen(after, a, j, leg) && IsOpen(after, b, j, leg)
        ensures a == b
      {
        if a != attempt { assert IsOpen(db, a, j, leg); }
        if b != attempt { assert IsOpen(db, b, j, leg); }
      }
    }
  }

  /** Closing an attempt, before any leg is patched. */
  lemma CloseKeeps(db: Db, attempt: string, outcome: AttemptOutcome)
    requires Valid(db) && attempt in db.attempts
    ensures Valid(db.(attempts := db.attempts[attempt := db.attempts[attempt].(outcome := Some(outcome))]))
  {
    hide SpecOf, Ascending, HasLeg;
    var after := db.(attempts := db.attempts[attempt := db.attempts[attempt].(outcome := Some(outcome))]);
    assert forall j, x :: InLegs(after, j, x) <==> InLegs(db, j, x);
    assert forall a, j, leg | a in after.attempts && IsOpen(after, a, j, leg) :: IsOpen(db, a, j, leg);
  }

  /** Every leased write keeps the database valid. */
  lemma ApplyKeeps(db: Db, lease: Lease, op: Op)
    requires Valid(db) && Apply(db, lease, op).Ok?
    ensures Valid(Apply(db, lease, op).value)
  {
    hide Valid, SpecOf, ApplyBegin, PatchLeg;
    var job := db.jobs[lease.job];
    assert (SpecOf(job.state).requiresLeg ==> job.legs != []) && !Terminal(job.state) by { ValidRow(db, lease.job); }
    match op
    case Renew(at, ttl) => RowKeeps(db, lease.job, job.(leaseExpires := Some(at + ttl)));
    case Release => RowKeeps(db, lease.job, job.(holder := None, leaseExpires := None));
    case MoveTo(to) => RowKeeps(db, lease.job, Moved(job, to));
    case Reserve(index, key) => ReserveKeeps(db, lease.job, index, key);
    case Update(index, patch) => PatchKeeps(db, lease.job, index, patch);
    case Begin(attempt, index, kind, fingerprint) => BeginKeeps(db, lease, attempt, index, kind, fingerprint);
    case Complete(attempt, outcome, learned) =>
      CloseKeeps(db, attempt, outcome);
      if learned.Some? {
        var row := db.attempts[attempt];
        PatchKeeps(db.(attempts := db.attempts[attempt := row.(outcome := Some(outcome))]), row.job, row.leg, learned.value);
      }
    case Commit(_, _, _, _) => SpendsFree(db, Apply(db, lease, op).value);
  }

  /** The constraints are about jobs and attempts alone. */
  lemma SpendsFree(db: Db, after: Db)
    requires Valid(db) && after == db.(instances := after.instances, spends := after.spends)
    ensures Valid(after)
  {
    hide SpecOf, HasLeg, Ascending;
    assert forall j, x :: InLegs(after, j, x) <==> InLegs(db, j, x);
    assert forall a, j, leg | a in db.attempts :: IsOpen(after, a, j, leg) <==> IsOpen(db, a, j, leg);
  }

  lemma ValidRow(db: Db, j: string)
    requires Valid(db) && j in db.jobs
    ensures SpecOf(db.jobs[j].state).requiresLeg ==> db.jobs[j].legs != []
    ensures Terminal(db.jobs[j].state) ==> db.jobs[j].holder.None?
  {
  }

  lemma CreateKeeps(db: Db, job: string, intents: nat, expiresAt: Option<int>)
    requires Valid(db) && ApplyCreate(db, job, intents, expiresAt).Ok?
    ensures Valid(ApplyCreate(db, job, intents, expiresAt).value)
  {
    hide SpecOf, HasLeg;
    var after := ApplyCreate(db, job, intents, expiresAt).value;
    assert forall j, x :: InLegs(after, j, x) <==> InLegs(db, j, x);
    assert forall a, j, leg | a in db.attempts :: IsOpen(after, a, j, leg) <==> IsOpen(db, a, j, leg);
    DraftIsFree();
  }

  lemma DraftIsFree()
    ensures !SpecOf(DRAFT).requiresLeg && !Terminal(DRAFT)
  {
  }

  lemma CancelRequestKeeps(db: Db, job: string, reason: string, at: int)
    requires Valid(db) && ApplyCancelRequest(db, job, reason, at).Ok?
    ensures Valid(ApplyCancelRequest(db, job, reason, at).value)
  {
    hide Valid, SpecOf;
    ValidRow(db, job);
    RowKeeps(db, job, ApplyCancelRequest(db, job, reason, at).value.jobs[job]);
  }

  lemma ClaimKeeps(db: Db, job: string, instance: string, at: int, ttl: int)
    requires Valid(db) && ApplyClaim(db, job, instance, at, ttl).Ok?
    ensures Valid(ApplyClaim(db, job, instance, at, ttl).value.0)
  {
    hide Valid, SpecOf;
    ValidRow(db, job);
    if Claimable(db, job, instance, at) {
      RowKeeps(db, job, ApplyClaim(db, job, instance, at, ttl).value.0.jobs[job]);
    }
  }

  lemma StopKeeps(db: Db, instance: string, at: int)
    requires Valid(db)
    ensures Valid(ApplyStop(db, instance, at))
  {
    hide SpecOf, HasLeg, Ascending;
    var after := ApplyStop(db, instance, at);
    assert forall j | j in db.jobs :: after.jobs[j].legs == db.jobs[j].legs && after.jobs[j].state == db.jobs[j].state;
    assert forall j, x :: InLegs(after, j, x) <==> InLegs(db, j, x);
    assert forall a, j, leg | a in db.attempts :: IsOpen(after, a, j, leg) <==> IsOpen(db, a, j, leg);
  }

  // ---------- What only ever grows ----------

  ghost predicate LegsKept(before: seq<Leg>, after: seq<Leg>) {
    forall x | x in before :: HasLeg(after, x.index, x.key)
  }

  /** Fences rise, an ended job stays as it ended, keys and attempt rows are never lost or changed,
      and an attempt is resolved once. */
  ghost predicate Later(before: Db, after: Db) {
    && (forall j | j in before.jobs ::
        j in after.jobs && before.jobs[j].fence <= after.jobs[j].fence
        && (Terminal(before.jobs[j].state) ==> after.jobs[j].state == before.jobs[j].state)
        && LegsKept(before.jobs[j].legs, after.jobs[j].legs))
    && (forall a | a in before.attempts ::
        a in after.attempts
        && after.attempts[a] == before.attempts[a].(outcome := after.attempts[a].outcome)
        && (before.attempts[a].outcome.Some? ==> after.attempts[a] == before.attempts[a]))
  }

  lemma LegsAlwaysKept(legs: seq<Leg>)
    ensures LegsKept(legs, legs)
  {
  }

  lemma LaterReflexive(db: Db)
    ensures Later(db, db)
  {
    forall j | j in db.jobs ensures LegsKept(db.jobs[j].legs, db.jobs[j].legs) { LegsAlwaysKept(db.jobs[j].legs); }
  }

  /** A row replaced by a later one, everything else as before. */
  lemma RowLater(db: Db, job: string, row: Job)
    requires job in db.jobs && db.jobs[job].fence <= row.fence && LegsKept(db.jobs[job].legs, row.legs)
    requires Terminal(db.jobs[job].state) ==> row.state == db.jobs[job].state
    ensures Later(db, db.(jobs := db.jobs[job := row]))
  {
    hide LegsKept, SpecOf;
    forall j | j in db.jobs ensures LegsKept(db.jobs[j].legs, db.jobs[j].legs) { LegsAlwaysKept(db.jobs[j].legs); }
  }

  lemma AttemptLater(db: Db, a: string, row: Attempt)
    requires a in db.attempts ==> db.attempts[a].outcome.None? && row == db.attempts[a].(outcome := row.outcome)
    ensures Later(db, db.(attempts := db.attempts[a := row]))
  {
    hide LegsKept, SpecOf;
    LaterReflexive(db);
  }

  lemma LaterTransitive(a: Db, b: Db, c: Db)
    requires Later(a, b) && Later(b, c)
    ensures Later(a, c)
  {
    hide SpecOf;
    forall j | j in a.jobs ensures LegsKept(a.jobs[j].legs, c.jobs[j].legs) {
      forall x | x in a.jobs[j].legs ensures HasLeg(c.jobs[j].legs, x.index, x.key) {
        var y :| y in b.jobs[j].legs && y.index == x.index && y.key == x.key;
      }
    }
  }

  lemma ApplyLater(db: Db, lease: Lease, op: Op)
    requires Valid(db) && Apply(db, lease, op).Ok?
    ensures Later(db, Apply(db, lease, op).value)
    ensures !Terminal(db.jobs[lease.job].state)
  {
    hide Valid, SpecOf, PatchLeg, LegsKept, Later;
    ValidRow(db, lease.job);
    var job := db.jobs[lease.job];
    LaterReflexive(db);
    LegsAlwaysKept(job.legs);
    match op
    case Renew(at, ttl) => RowLater(db, lease.job, job.(leaseExpires := Some(at + ttl)));
    case Release => RowLater(db, lease.job, job.(holder := None, leaseExpires := None));
    case MoveTo(to) => RowLater(db, lease.job, Moved(job, to));
    case Reserve(index, key) =>
      ReserveKeeps(db, lease.job, index, key);
      ReserveLater(db, lease.job, index, key);
    case Update(index, patch) => PatchLater(db, lease.job, index, patch);
    case Begin(attempt, index, kind, fingerprint) =>
      if !HasOpen(db, lease.job, index) {
        AttemptLater(db, attempt, Apply(db, lease, op).value.attempts[attempt]);
      }
    case Complete(attempt, outcome, learned) =>
      var row := db.attempts[attempt].(outcome := Some(outcome));
      var closed := db.(attempts := db.attempts[attempt := row]);
      AttemptLater(db, attempt, row);
      CloseKeeps(db, attempt, outcome);
      if learned.Some? {
        PatchLater(closed, row.job, row.leg, learned.value);
        LaterTransitive(db, closed, Apply(db, lease, op).value);
      }
    case Commit(_, _, _, _) => SpendsLater(db, Apply(db, lease, op).value);
  }

  lemma SpendsLater(db: Db, after: Db)
    requires after.jobs == db.jobs && after.attempts == db.attempts
    ensures Later(db, after)
  {
    LaterReflexive(db);
  }

  lemma ReserveLater(db: Db, job: string, index: nat, key: string)
    requires Valid(db) && job in db.jobs && ApplyReserve(db, job, index, key).Ok?
    ensures Later(db, ApplyReserve(db, job, index, key).value)
  {
    hide Valid, SpecOf, Later;
    ReserveKeeps(db, job, index, key);
    LaterReflexive(db);
    if FindLeg(db.jobs[job].legs, index).None? {
      RowLater(db, job, ApplyReserve(db, job, index, key).value.jobs[job]);
    }
  }

  lemma PatchLater(db: Db, job: string, index: nat, patch: Patch)
    requires Valid(db) && job in db.jobs && PatchLeg(db, job, index, patch).Ok?
    ensures Later(db, PatchLeg(db, job, index, patch).value)
  {
    hide Valid, SpecOf, Later;
    PatchKeeps(db, job, index, patch);
    RowLater(db, job, PatchLeg(db, job, index, patch).value.jobs[job]);
  }

  /** Once a higher fence has been issued, every write under a lower one is refused, whatever
      happened in between. */
  lemma SupersededIsRefused(db: Db, after: Db, lease: Lease, op: Op)
    requires lease.job in db.jobs && lease.fence < db.jobs[lease.job].fence && Later(db, after)
    ensures Apply(after, lease, op) == Refused(LEASE_LOST)
  {
  }

  /** A claim that succeeds issues a fence above every lease taken before it. */
  lemma ClaimSupersedes(db: Db, job: string, instance: string, at: int, ttl: int)
    requires ApplyClaim(db, job, instance, at, ttl).Ok? && ApplyClaim(db, job, instance, at, ttl).value.1.Some?
    ensures
      var (after, lease) := ApplyClaim(db, job, instance, at, ttl).value;
      && lease.value.fence == db.jobs[job].fence + 1 && Current(after, lease.value) && Later(db, after)
      && (forall older: Lease | older.job == job && older.fence <= db.jobs[job].fence :: !Current(after, older))
  {
    hide Later, SpecOf;
    LegsAlwaysKept(db.jobs[job].legs);
    RowLater(db, job, ApplyClaim(db, job, instance, at, ttl).value.0.jobs[job]);
  }

  // ---------- What calls do to one another ----------

  /** Until the lease of a claim runs out, nobody else gets the job; from then on anybody may, with a
      higher fence. */
  lemma LiveLeaseIsRespected(db: Db, job: string, instance: string, at: int, ttl: int, other: string, later: int, length: int)
    requires job in db.jobs && instance in db.instances && other in db.instances && instance != other
    requires Claimable(db, job, instance, at)
    ensures
      var after := ApplyClaim(db, job, instance, at, ttl).value.0;
      && ApplyClaim(after, job, other, later, length).Ok?
      && (ApplyClaim(after, job, other, later, length).value.1.Some? <==> later >= at + ttl)
      && ApplyClaim(after, job, instance, later, length).value.1.Some?
  {
    hide SpecOf;
  }

  lemma FindInserted(legs: seq<Leg>, leg: Leg)
    requires Ascending(legs) && forall p :: 0 <= p < |legs| ==> legs[p].index != leg.index
    ensures FindLeg(InsertLeg(legs, leg), leg.index).Some?
    ensures InsertLeg(legs, leg)[FindLeg(InsertLeg(legs, leg), leg.index).value] == leg
  {
    var more := InsertLeg(legs, leg);
    InsertAscending(legs, leg);
    assert leg in more;
    var p := FindLeg(more, leg.index);
    assert p.Some? ==> more[p.value] in more;
    var q :| 0 <= q < |more| && more[q] == leg;
    assert p.Some?;
    assert p.value == q;
  }

  /** A leg is reserved once: the same key again changes nothing, another key is a mismatch. */
  lemma ReservedOnce(db: Db, job: string, index: nat, key: string, other: string)
    requires Valid(db) && job in db.jobs && ApplyReserve(db, job, index, key).Ok? && other != key
    ensures
      var after := ApplyReserve(db, job, index, key).value;
      ApplyReserve(after, job, index, key) == Ok(after) && ApplyReserve(after, job, index, other) == Refused(REPLAY_MISMATCH)
  {
    hide AttemptsKeyed, OneOpen, LegsPresent, TerminalUnheld, KeysUnique, ExecutionsUnique, InsertLeg;
    var legs := db.jobs[job].legs;
    if FindLeg(legs, index).None? {
      assert Ascending(legs);
      FindInserted(legs, NewLeg(index, key));
    }
  }

  /** A reserved key cannot become another leg's, of this job or any other. */
  lemma KeyIsTaken(db: Db, job: string, index: nat, key: string, another: string, elsewhere: nat)
    requires Valid(db) && job in db.jobs && another in db.jobs && ApplyReserve(db, job, index, key).Ok?
    requires FindLeg(ApplyReserve(db, job, index, key).value.jobs[another].legs, elsewhere).None?
    ensures ApplyReserve(ApplyReserve(db, job, index, key).value, another, elsewhere, key) == Refused(DUPLICATE_IDEMPOTENCY_KEY)
  {
    hide Valid, SpecOf, LegsGrow;
    ReserveKeeps(db, job, index, key);
    var after := ApplyReserve(db, job, index, key).value;
    var x :| x in after.jobs[job].legs && x.index == index && x.key == key;
    var p :| 0 <= p < |after.jobs[job].legs| && after.jobs[job].legs[p] == x;
    assert HasKey(after.jobs[job].legs, key);
    assert KeyTaken(after, key);
  }

  /** While an attempt is open, only its own replay goes through, and as the attempt it already is. */
  lemma OpenAttemptHolds(db: Db, lease: Lease, attempt: string, index: nat, kind: Kind, fingerprint: string, again: string,
      otherKind: Kind, otherFingerprint: string)
    requires Valid(db) && lease.job in db.jobs && !HasOpen(db, lease.job, index)
    requires ApplyBegin(db, lease, attempt, index, kind, fingerprint).Ok? && otherKind != kind && otherFingerprint != fingerprint
    ensures
      var after := ApplyBegin(db, lease, attempt, index, kind, fingerprint).value;
      && ApplyBegin(after, lease, again, index, kind, fingerprint) == Ok(after)
      && ApplyBegin(after, lease, again, index, otherKind, fingerprint) == Refused(OPEN_SIDE_EFFECT)
      && ApplyBegin(after, lease, again, index, kind, otherFingerprint) == Refused(REPLAY_MISMATCH)
  {
    hide LegsOrdered, KeysUnique, ExecutionsUnique, AttemptsKeyed, LegsPresent, TerminalUnheld;
    BeginKeeps(db, lease, attempt, index, kind, fingerprint);
    var after := ApplyBegin(db, lease, attempt, index, kind, fingerprint).value;
    assert IsOpen(after, attempt, lease.job, index);
    assert OpenAttempt(after, lease.job, index) == attempt;
  }

  /** An attempt is resolved once, and resolving it frees its leg for the next. */
  lemma ResolvedOnce(db: Db, attempt: string, outcome: AttemptOutcome, learned: Option<Patch>, again: AttemptOutcome)
    requires Valid(db) && ApplyComplete(db, attempt, outcome, learned).Ok?
    ensures
      var after := ApplyComplete(db, attempt, outcome, learned).value;
      && ApplyComplete(after, attempt, again, learned) == Refused(UNKNOWN_SIDE_EFFECT)
      && attempt in after.attempts && after.attempts[attempt] == db.attempts[attempt].(outcome := Some(outcome))
      && !HasOpen(after, db.attempts[attempt].job, db.attempts[attempt].leg)
  {
    hide LegsOrdered, KeysUnique, ExecutionsUnique, AttemptsKeyed, LegsPresent, TerminalUnheld, ExecutionTaken;
    var after := ApplyComplete(db, attempt, outcome, learned).value;
    assert IsOpen(db, attempt, db.attempts[attempt].job, db.attempts[attempt].leg);
    assert forall a | a in db.attempts && IsOpen(db, a, db.attempts[attempt].job, db.attempts[attempt].leg) :: a == attempt;
    assert after.attempts == db.attempts[attempt := after.attempts[attempt]];
  }

  /** The first cancellation request stands, its time and its reason. */
  lemma FirstRequestStands(db: Db, job: string, reason: string, at: int, other: string, later: int)
    requires ApplyCancelRequest(db, job, reason, at).Ok?
    ensures
      var after := ApplyCancelRequest(db, job, reason, at).value;
      && after.jobs[job].cancelAt.Some? && after.jobs[job].cancelReason.Some?
      && (db.jobs[job].cancelAt.None? ==> after.jobs[job].cancelAt == Some(at))
      && (db.jobs[job].cancelReason.None? ==> after.jobs[job].cancelReason == Some(reason))
      && after.jobs[job].(cancelAt := None, cancelReason := None) == db.jobs[job].(cancelAt := None, cancelReason := None)
      && ApplyCancelRequest(after, job, other, later) == Ok(after)
  {
    var after := ApplyCancelRequest(db, job, reason, at).value;
    assert after.jobs[job := CancelAsked(after.jobs[job], other, later)] == after.jobs;
  }

  /** A reserved leg stands in its place, pending and untouched, under its key; every other leg is as it was. */
  lemma ReservedAfresh(db: Db, job: string, index: nat, key: string)
    requires Valid(db) && job in db.jobs && ApplyReserve(db, job, index, key).Ok? && FindLeg(db.jobs[job].legs, index).None?
    ensures
      var legs, more := db.jobs[job].legs, ApplyReserve(db, job, index, key).value.jobs[job].legs;
      && Ascending(more) && (forall x :: x in more <==> x in legs || x == Leg(index, key, PENDING, None, None, None, Quotes(None, None, None)))
  {
    hide AttemptsKeyed, OneOpen, LegsPresent, TerminalUnheld, KeysUnique, ExecutionsUnique, Ascending;
    assert Ascending(db.jobs[job].legs);
    InsertAscending(db.jobs[job].legs, NewLeg(index, key));
    InsertedMembers(db.jobs[job].legs, NewLeg(index, key));
  }

  lemma {:induction false} InsertedMembers(legs: seq<Leg>, leg: Leg)
    ensures forall x :: x in InsertLeg(legs, leg) <==> x in legs || x == leg
  {
    if legs != [] && legs[|legs| - 1].index >= leg.index {
      InsertedMembers(legs[..|legs| - 1], leg);
      assert legs == legs[..|legs| - 1] + [legs[|legs| - 1]];
    }
  }

  /** A clean stop frees every job the instance held for anybody at once, and touches no other job; a claim that
      follows has a higher fence than any before. */
  lemma StopFreesAll(db: Db, instance: string, at: int, j: string, other: string, later: int, ttl: int)
    requires j in db.jobs && other in db.instances && !Terminal(db.jobs[j].state)
    ensures
      var after := ApplyStop(db, instance, at);
      && j in after.jobs && after.jobs[j].fence == db.jobs[j].fence
      && (db.jobs[j].holder == Some(instance) ==>
          ApplyClaim(after, j, other, later, ttl).Ok? && ApplyClaim(after, j, other, later, ttl).value.1
            == Some(Lease(j, other, db.jobs[j].fence + 1, later + ttl)))
      && (db.jobs[j].holder != Some(instance) ==> after.jobs[j] == db.jobs[j])
  {
    hide SpecOf;
  }

  /** What a patch names is set, and what it does not name stays. */
  lemma PatchSets(leg: Leg, patch: Patch)
    ensures
      var after := Patched(leg, patch);
      && after.index == leg.index && after.key == leg.key
      && Some(after.status) == (if patch.status != None then patch.status else Some(leg.status))
      && after.execution == (if patch.execution != None then patch.execution else leg.execution)
      && after.submission == (if patch.submission != None then patch.submission else leg.submission)
      && after.keeper == (if patch.keeper != None then patch.keeper else leg.keeper)
      && after.quotes.reference == (if patch.quotes.reference != None then patch.quotes.reference else leg.quotes.reference)
      && after.quotes.submission == (if patch.quotes.submission != None then patch.quotes.submission else leg.quotes.submission)
      && after.quotes.at == (if patch.quotes.at != None then patch.quotes.at else leg.quotes.at)
      && Patched(after, patch) == after
  {
  }

  /** A leg commits once: asked again, whatever the ceiling, it is admitted and nothing is added. */
  lemma CommitsOnce(db: Db, job: string, leg: nat, scope: string, amount: nat, ceiling: Option<nat>, otherScope: string,
      otherAmount: nat, otherCeiling: Option<nat>)
    requires Admitted(db.spends, job, leg, scope, amount, ceiling)
    ensures
      var after := ApplyCommit(db, job, leg, scope, amount, ceiling);
      && Committed(after.spends, job, leg)
      && Admitted(after.spends, job, leg, otherScope, otherAmount, otherCeiling)
      && ApplyCommit(after, job, leg, otherScope, otherAmount, otherCeiling) == after
      && (Committed(db.spends, job, leg) ==> after == db)
  {
    var after := ApplyCommit(db, job, leg, scope, amount, ceiling);
    if !Committed(db.spends, job, leg) { assert after.spends[|db.spends|] == Spend(job, leg, scope, amount); }
  }

  lemma TotalMore(spends: seq<Spend>, job: string, leg: nat, scope: string, amount: nat)
    ensures SpendTotal(spends + [Spend(job, leg, scope, amount)], scope) == SpendTotal(spends, scope) + amount
  {
    assert (spends + [Spend(job, leg, scope, amount)])[..|spends|] == spends;
  }

  /** What is committed under a scope never passes its ceiling, and other scopes are left alone. */
  lemma CommitFits(db: Db, job: string, leg: nat, scope: string, amount: nat, ceiling: nat, other: string)
    requires SpendTotal(db.spends, scope) <= ceiling
    ensures
      var after := ApplyCommit(db, job, leg, scope, amount, Some(ceiling));
      && SpendTotal(db.spends, scope) <= SpendTotal(after.spends, scope) <= ceiling
      && (other != scope ==> SpendTotal(after.spends, other) == SpendTotal(db.spends, other))
      && (forall j, l | Committed(db.spends, j, l) :: Committed(after.spends, j, l))
  {
    var after := ApplyCommit(db, job, leg, scope, amount, Some(ceiling));
    if after.spends != db.spends {
      assert after.spends[..|db.spends|] == db.spends;
      forall j, l | Committed(db.spends, j, l) ensures Committed(after.spends, j, l) {
        var i :| 0 <= i < |db.spends| && db.spends[i].job == j && db.spends[i].leg == l;
        assert after.spends[i] == db.spends[i];
      }
    }
  }

  // ---------- The store ----------

  /** A transaction either did what its specification says, or refused and changed nothing. */
  ghost predicate Answers(before: Db, after: Db, expected: Result<Db>, r: Result<()>) {
    match expected
    case Ok(db) => r.Ok? && after == db
    case Refused(error) => r == Refused(error) && after == before
  }

  class JobStore {
    var instances: map<string, Instance>
    var jobs: map<string, Job>
    var attempts: map<string, Attempt>
    var spends: seq<Spend>

    ghost function Contents(): Db
      reads this
    {
      Db(instances, jobs, attempts, spends)
    }

    constructor ()
      ensures Contents() == Db(map[], map[], map[], [])
    {
      instances, jobs, attempts, spends := map[], map[], map[], [];
    }

    method RegisterInstance(instance: string, pid: int, host: string, at: int)
      modifies this
      ensures Contents() == ApplyRegister(old(Contents()), instance, pid, host, at)
    {
      var started := at;
      if instance in instances {
        started := instances[instance].startedAt;
      }
      instances := instances[instance := Instance(pid, host, started, at, None)];
    }

    method Heartbeat(instance: string, at: int) returns (r: Result<()>)
      modifies this
      ensures Answers(old(Contents()), Contents(), ApplyHeartbeat(old(Contents()), instance, at), r)
    {
      if instance !in instances {
        return Refused(INVALID_INPUT);
      }
      instances := instances[instance := instances[instance].(heartbeatAt := at)];
      return Ok(());
    }

    method StopInstance(instance: string, at: int)
      modifies this
      ensures Contents() == ApplyStop(old(Contents()), instance, at)
    {
      jobs := map j | j in jobs ::
        if jobs[j].holder == Some(instance) then jobs[j].(holder := None, leaseExpires := None) else jobs[j];
      if instance in instances {
        instances := instances[instance := instances[instance].(stoppedAt := Some(at), heartbeatAt := at)];
      }
    }

    method CreateJob(job: string, intents: nat, expiresAt: Option<int>) returns (r: Result<()>)
      modifies this
      ensures Answers(old(Contents()), Contents(), ApplyCreate(old(Contents()), job, intents, expiresAt), r)
    {
      if intents == 0 {
        return Refused(INVALID_INPUT);
      }
      if expiresAt.None? {
        return Refused(INVALID_INPUT);
      }
      if job in jobs {
        return Refused(CONSTRAINT);
      }
      jobs := jobs[job := Job(DRAFT, None, None, 0, None, None, expiresAt.value, [])];
      return Ok(());
    }

    method RequestCancel(job: string, reason: string, at: int) returns (r: Result<()>)
      modifies this
      ensures Answers(old(Contents()), Contents(), ApplyCancelRequest(old(Contents()), job, reason, at), r)
    {
      if job !in jobs {
        return Refused(UNKNOWN_JOB);
      }
      var row := jobs[job];
      if Terminal(row.state) {
        return Refused(ILLEGAL_TRANSITION);
      }
      if row.cancelAt.None? {
        row := row.(cancelAt := Some(at));
      }
      if row.cancelReason.None? {
        row := row.(cancelReason := Some(reason));
      }
      jobs := jobs[job := row];
      return Ok(());
    }

    method ClaimJob(job: string, instance: string, at: int, ttl: int) returns (r: Result<Option<Lease>>)
      modifies this
      ensures
        match ApplyClaim(old(Contents()), job, instance, at, ttl)
        case Ok((db, lease)) => r == Ok(lease) && Contents() == db
        case Refused(error) => r == Refused(error) && Contents() == old(Contents())
    {
      if instance !in instances {
        return Refused(INVALID_INPUT);
      }
      if job !in jobs {
        return Refused(UNKNOWN_JOB);
      }
      var row := jobs[job];
      if Terminal(row.state) {
        return Ok(None);
      }
      var heldByAnother := row.holder.Some? && row.holder.value != instance;
      var stillLive := row.leaseExpires.Some? && row.leaseExpires.value > at;
      if heldByAnother && stillLive {
        return Ok(None);
      }
      var fence := row.fence + 1;
      jobs := jobs[job := row.(holder := Some(instance), leaseExpires := Some(at + ttl), fence := fence)];
      return Ok(Some(Lease(job, instance, fence, at + ttl)));
    }

    /** Nothing here depends on the time: a lease that has run out is good until somebody claims. */
    method AssertLease(lease: Lease) returns (r: Result<()>)
      ensures r.Ok? <==> Current(Contents(), lease)
      ensures r.Refused? ==> r.error == if lease.job in jobs then LEASE_LOST else UNKNOWN_JOB
    {
      if lease.job !in jobs {
        return Refused(UNKNOWN_JOB);
      }
      if jobs[lease.job].holder != Some(lease.instance) || jobs[lease.job].fence != lease.fence {
        return Refused(LEASE_LOST);
      }
      return Ok(());
    }

    method RenewLease(lease: Lease, at: int, ttl: int) returns (r: Result<Lease>)
      modifies this
      ensures Answers(old(Contents()), Contents(), Apply(old(Contents()), lease, Renew(at, ttl)),
        if r.Ok? then Ok(()) else Refused(r.error))
      ensures r.Ok? ==> r.value == lease.(expires := at + ttl)
    {
      var held := AssertLease(lease);
      if held.Refused? {
        return Refused(held.error);
      }
      jobs := jobs[lease.job := jobs[lease.job].(leaseExpires := Some(at + ttl))];
      return Ok(lease.(expires := at + ttl));
    }

    method ReleaseJob(lease: Lease) returns (r: Result<()>)
      modifies this
      ensures Answers(old(Contents()), Contents(), Apply(old(Contents()), lease, Release), r)
    {
      var held := AssertLease(lease);
      if held.Refused? {
        return held;
      }
      jobs := jobs[lease.job := jobs[lease.job].(holder := None, leaseExpires := None)];
      return Ok(());
    }

    method Transition(lease: Lease, to: JobState) returns (r: Result<()>)
      modifies this
      ensures Answers(old(Contents()), Contents(), Apply(old(Contents()), lease, MoveTo(to)), r)
    {
      var held := AssertLease(lease);
      if held.Refused? {
        return held;
      }
      var job := jobs[lease.job];
      if !CanTransition(job.state, to) {
        return Refused(ILLEGAL_TRANSITION);
      }
      if SpecOf(to).requiresLeg && |job.legs| == 0 {
        return Refused(NO_IDEMPOTENCY_KEY);
      }
      jobs := jobs[lease.job := Moved(job, to)];
      return Ok(());
    }

    method ReserveLeg(lease: Lease, index: nat, key: string) returns (r: Result<()>)
      modifies this
      ensures Answers(old(Contents()), Contents(), Apply(old(Contents()), lease, Reserve(index, key)), r)
    {
      var held := AssertLease(lease);
      if held.Refused? {
        return held;
      }
      var legs := jobs[lease.job].legs;
      var found := FindLeg(legs, index);
      if found.Some? {
        return if legs[found.value].key != key then Refused(REPLAY_MISMATCH) else Ok(());
      }
      if KeyTaken(Db(instances, jobs, attempts, spends), key) {
        return Refused(DUPLICATE_IDEMPOTENCY_KEY);
      }
      jobs := jobs[lease.job := jobs[lease.job].(legs := InsertLeg(legs, NewLeg(index, key)))];
      return Ok(());
    }

    /** The caller has asserted the lease. */
    method WriteLeg(job: string, index: nat, patch: Patch) returns (r: Result<()>)
      requires job in jobs
      modifies this
      ensures Answers(old(Contents()), Contents(), PatchLeg(old(Contents()), job, index, patch), r)
    {
      var legs := jobs[job].legs;
      var found := FindLeg(legs, index);
      if found.None? {
        return Refused(UNKNOWN_LEG);
      }
      if patch.execution.Some? && ExecutionTaken(Db(instances, jobs, attempts, spends), job, index, patch.execution.value) {
        return Refused(DUPLICATE_EXECUTION);
      }
      jobs := jobs[job := jobs[job].(legs := legs[found.value := Patched(legs[found.value], patch)])];
      return Ok(());
    }

    method UpdateLeg(lease: Lease, index: nat, patch: Patch) returns (r: Result<()>)
      modifies this
      ensures Answers(old(Contents()), Contents(), Apply(old(Contents()), lease, Update(index, patch)), r)
    {
      hide PatchLeg;
      var held := AssertLease(lease);
      if held.Refused? {
        return held;
      }
      r := WriteLeg(lease.job, index, patch);
    }

    method BeginSideEffect(lease: Lease, attempt: string, index: nat, kind: Kind, fingerprint: string)
      returns (r: Result<()>)
      requires Valid(Contents())
      modifies this
      ensures Answers(old(Contents()), Contents(), Apply(old(Contents()), lease, Begin(attempt, index, kind, fingerprint)), r)
    {
      var held := AssertLease(lease);
      if held.Refused? {
        return held;
      }
      var found := FindLeg(jobs[lease.job].legs, index);
      if found.None? {
        return Refused(NO_IDEMPOTENCY_KEY);
      }
      var db := Db(instances, jobs, attempts, spends);
      if HasOpen(db, lease.job, index) {
        var open :| open in attempts && IsOpen(db, open, lease.job, index);
        assert open == OpenAttempt(db, lease.job, index);
        if attempts[open].kind != kind {
          return Refused(OPEN_SIDE_EFFECT);
        }
        if attempts[open].fingerprint != fingerprint {
          return Refused(REPLAY_MISMATCH);
        }
        return Ok(());
      }
      if attempt in attempts {
        return Refused(CONSTRAINT);
      }
      var key := jobs[lease.job].legs[found.value].key;
      attempts := attempts[attempt := Attempt(lease.job, index, kind, key, fingerprint, lease.instance, None)];
      return Ok(());
    }

    /** The outcome and what the leg learned land together; a refused patch takes the outcome back. */
    method CompleteSideEffect(lease: Lease, attempt: string, outcome: AttemptOutcome, learned: Option<Patch>)
      returns (r: Result<()>)
      modifies this
      ensures Answers(old(Contents()), Contents(), Apply(old(Contents()), lease, Complete(attempt, outcome, learned)), r)
    {
      hide PatchLeg;
      var held := AssertLease(lease);
      if held.Refused? {
        return held;
      }
      if attempt !in attempts || attempts[attempt].outcome.Some? {
        return Refused(UNKNOWN_SIDE_EFFECT);
      }
      var before, row := attempts, attempts[attempt];
      attempts := attempts[attempt := row.(outcome := Some(outcome))];
      if learned.None? {
        return Ok(());
      }
      if row.job !in jobs {
        attempts := before;
        return Refused(UNKNOWN_LEG);
      }
      r := WriteLeg(row.job, row.leg, learned.value);
      if r.Refused? {
        attempts := before;
      }
    }

    /** The loop over the table: what is committed under a scope. */
    method TotalMandateSpend(scope: string) returns (total: nat)
      ensures total == SpendTotal(spends, scope)
    {
      total := 0;
      for i := 0 to |spends|
        invariant total == SpendTotal(spends[..i], scope)
      {
        assert spends[..i + 1][..i] == spends[..i];
        if spends[i].scope == scope {
          total := total + spends[i].amount;
        }
      }
      assert spends[..|spends|] == spends;
    }

    method CommitMandateSpend(lease: Lease, index: nat, scope: string, amount: nat, ceiling: Option<nat>)
      returns (r: Result<(bool, nat)>)
      modifies this
      ensures Answers(old(Contents()), Contents(), Apply(old(Contents()), lease, Commit(index, scope, amount, ceiling)),
        if r.Ok? then Ok(()) else Refused(r.error))
      ensures r.Ok? ==>
        r.value == (Admitted(old(spends), lease.job, index, scope, amount, ceiling), SpendTotal(spends, scope))
    {
      hide SpecOf, PatchLeg, ApplyMove, ApplyReserve, ApplyBegin, SpendTotal, Committed;
      var held := AssertLease(lease);
      if held.Refused? {
        return Refused(held.error);
      }
      var committed := TotalMandateSpend(scope);
      if Committed(spends, lease.job, index) {
        return Ok((true, committed));
      }
      if ceiling.Some? && committed + amount > ceiling.value {
        return Ok((false, committed));
      }
      TotalMore(spends, lease.job, index, scope, amount);
      spends := spends + [Spend(lease.job, index, scope, amount)];
      return Ok((true, committed + amount));
    }
  }
}
