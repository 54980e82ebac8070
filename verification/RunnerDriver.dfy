/** The driver's pass from prices to CREATING, and the resumption of a run that was cut in half: what they
    write, call by call, keeps to the discipline. */
module RunnerDriver {
  import opened Options
  import opened RunnerStates
  import opened RunnerStore
  import opened RunnerReconciler
  import opened RunnerProtocol
  import opened RunnerSafety
  import opened RunnerDiscipline

  /** A leg with an executable price, and what its order spends: nothing for a sale. */
  datatype Priced = Priced(index: nat, amount: Option<nat>)

  /** A leg this pass does not send, and whether a later pass could. */
  datatype Passed = Passed(index: nat, retryable: bool)

  /** How a pass ends: a call was refused, no leg is left to send, or these are to be sent, those over budget
      left behind. */
  datatype Pass = Thrown(error: StoreError) | NoneLeft(to: JobState) | Sending(legs: seq<Priced>, over: seq<nat>)

  /** What a job's mandate may spend in all, and the scope that is counted under. */
  datatype Budget = Budget(scope: string, ceiling: Option<nat>)

  // ---------- Traces ----------

  /** A call that went through, and the database it found. */
  datatype Call = Call(before: Db, op: Op)

  ghost predicate Traced(start: Db, lease: Lease, trace: seq<Call>, end: Db) {
    if trace == [] then start == end
    else
      var last := trace[|trace| - 1];
      Traced(start, lease, trace[..|trace| - 1], last.before) && Apply(last.before, lease, last.op) == Ok(end)
  }

  ghost predicate BookTrace(lease: Lease, trace: seq<Call>, exempt: Exempt) {
    forall i :: 0 <= i < |trace| ==>
      ByTheBook(trace[i].before, exempt, Write(lease.instance, lease.job, Driver, trace[i].op))
  }

  lemma TraceMore(start: Db, lease: Lease, trace: seq<Call>, middle: Db, op: Op, end: Db, exempt: Exempt)
    requires Traced(start, lease, trace, middle) && Apply(middle, lease, op) == Ok(end) && BookTrace(lease, trace, exempt)
    requires ByTheBook(middle, exempt, Write(lease.instance, lease.job, Driver, op))
    ensures Traced(start, lease, trace + [Call(middle, op)], end) && BookTrace(lease, trace + [Call(middle, op)], exempt)
  {
    hide Apply, ByTheBook;
    assert (trace + [Call(middle, op)])[..|trace|] == trace;
  }

  lemma {:induction false} TraceJoin(start: Db, lease: Lease, a: seq<Call>, middle: Db, b: seq<Call>, end: Db, exempt: Exempt)
    requires Traced(start, lease, a, middle) && Traced(middle, lease, b, end)
    requires BookTrace(lease, a, exempt) && BookTrace(lease, b, exempt)
    ensures Traced(start, lease, a + b, end) && BookTrace(lease, a + b, exempt)
  {
    hide Apply, ByTheBook;
    if b == [] {
      assert a + b == a;
    } else {
      var front, last := b[..|b| - 1], b[|b| - 1];
      TraceJoin(start, lease, a, middle, front, last.before, exempt);
      assert (a + b)[..|a + b| - 1] == a + front;
    }
  }

  // ---------- Reserving ----------

  function KeyFor(legs: seq<Leg>, index: nat, minted: nat -> string): string {
    var found := FindLeg(legs, index);
    if found.Some? then legs[found.value].key else minted(index)
  }

  /** What reserving leaves of a job: its legs are as they were or new and among these. */
  ghost predicate OnlyReserved(before: Db, after: Db, job: string, indexes: seq<nat>) {
    && after.attempts == before.attempts && after.spends == before.spends && after.jobs.Keys == before.jobs.Keys
    && (job in before.jobs ==>
        && after.jobs[job].state == before.jobs[job].state
        && (forall x | x in after.jobs[job].legs ::
              x in before.jobs[job].legs || (x.index in indexes && x == NewLeg(x.index, x.key)))
        && (forall x | x in before.jobs[job].legs :: x in after.jobs[job].legs))
  }

  ghost predicate AllFound(db: Db, job: string, indexes: seq<nat>) {
    job in db.jobs && forall i | i in indexes :: FindLeg(db.jobs[job].legs, i).Some?
  }

  /** The job's legs are those of `before`, or new ones under the keys minted for them; nothing else has changed. */
  ghost predicate Minting(before: Db, db: Db, lease: Lease, indexes: seq<nat>, minted: nat -> string) {
    && lease.job in before.jobs && Current(db, lease) && db.jobs.Keys == before.jobs.Keys
    && (forall j | j in before.jobs && j != lease.job :: db.jobs[j] == before.jobs[j])
    && (forall x | x in before.jobs[lease.job].legs :: x in db.jobs[lease.job].legs)
    && (forall x | x in db.jobs[lease.job].legs ::
          x in before.jobs[lease.job].legs || (x.index in indexes && x == NewLeg(x.index, minted(x.index))))
  }

  /** No leg anywhere has one of the minted keys, and they differ from one another. */
  ghost predicate KeysFree(db: Db, indexes: seq<nat>, minted: nat -> string) {
    && (forall i | i in indexes :: !KeyTaken(db, minted(i)))
    && (forall i, k | i in indexes && k in indexes && i != k :: minted(i) != minted(k))
  }

  /** Under a current lease the store takes each reservation. */
  lemma ReserveIsTaken(before: Db, db: Db, lease: Lease, indexes: seq<nat>, minted: nat -> string, index: nat)
    requires Valid(before) && Valid(db) && Minting(before, db, lease, indexes, minted) && KeysFree(before, indexes, minted)
    requires index in indexes
    ensures
      var key := KeyFor(before.jobs[lease.job].legs, index, minted);
      Apply(db, lease, Reserve(index, key)).Ok? && Minting(before, Apply(db, lease, Reserve(index, key)).value, lease, indexes, minted)
  {
    hide SpecOf, Valid, PatchLeg, ApplyBegin, ApplyMove, ApplyCommit, ApplyComplete, Ascending, KeyTaken, KeysFree;
    var legs, more := before.jobs[lease.job].legs, db.jobs[lease.job].legs;
    var key := KeyFor(legs, index, minted);
    var was, found := FindLeg(legs, index), FindLeg(more, index);
    OrderedRow(db, lease.job);
    if found.Some? {
      SameKey(legs, more, indexes, minted, index);
    } else {
      NotTakenYet(before, db, lease, indexes, minted, index);
      InsertedMembers(more, NewLeg(index, key));
      if was.Some? { FoundStays(legs, more, index); }
    }
  }

  lemma OrderedRow(db: Db, job: string)
    requires Valid(db) && job in db.jobs
    ensures Ascending(db.jobs[job].legs)
  {
    hide KeysUnique, ExecutionsUnique, AttemptsKeyed, OneOpen, LegsPresent, TerminalUnheld, Ascending;
  }

  /** A leg keeps the key it had, or has the one minted for it. */
  lemma SameKey(legs: seq<Leg>, more: seq<Leg>, indexes: seq<nat>, minted: nat -> string, index: nat)
    requires Ascending(more) && FindLeg(more, index).Some?
    requires forall x | x in more :: x in legs || (x.index in indexes && x == NewLeg(x.index, minted(x.index)))
    requires forall x | x in legs :: x in more
    ensures more[FindLeg(more, index).value].key == KeyFor(legs, index, minted)
  {
    var y := more[FindLeg(more, index).value];
    var was := FindLeg(legs, index);
    if was.Some? {
      var x := legs[was.value];
      assert x in legs && x in more;
      var p :| 0 <= p < |more| && more[p] == x;
    } else {
      NoneHas(legs, index);
      assert y in more;
    }
  }

  lemma NoneHas(legs: seq<Leg>, index: nat)
    requires FindLeg(legs, index).None?
    ensures forall x | x in legs :: x.index != index
  {
  }

  lemma NotTakenYet(before: Db, db: Db, lease: Lease, indexes: seq<nat>, minted: nat -> string, index: nat)
    requires Minting(before, db, lease, indexes, minted) && KeysFree(before, indexes, minted) && index in indexes
    requires FindLeg(db.jobs[lease.job].legs, index).None?
    ensures !KeyTaken(db, minted(index))
  {
  }

  lemma ReserveStep(db: Db, lease: Lease, index: nat, key: string, indexes: seq<nat>)
    requires Valid(db) && Apply(db, lease, Reserve(index, key)).Ok? && index in indexes
    ensures
      var after := Apply(db, lease, Reserve(index, key)).value;
      && Valid(after) && lease.job in after.jobs && OnlyReserved(db, after, lease.job, indexes)
      && FindLeg(after.jobs[lease.job].legs, index).Some?
  {
    hide SpecOf, KeysUnique, ExecutionsUnique, AttemptsKeyed, OneOpen, LegsPresent, TerminalUnheld, Ascending, KeyTaken;
    ApplyKeeps(db, lease, Reserve(index, key));
    var legs := db.jobs[lease.job].legs;
    if FindLeg(legs, index).None? {
      assert Ascending(legs);
      InsertAscending(legs, NewLeg(index, key));
      FindInserted(legs, NewLeg(index, key));
    }
  }

  lemma FoundStays(legs: seq<Leg>, more: seq<Leg>, index: nat)
    requires FindLeg(legs, index).Some? && forall x | x in legs :: x in more
    ensures FindLeg(more, index).Some?
  {
    var x := legs[FindLeg(legs, index).value];
    assert x in legs && x in more;
    var p :| 0 <= p < |more| && more[p] == x;
  }

  lemma ReservedOn(a: Db, b: Db, c: Db, job: string, indexes: seq<nat>)
    requires OnlyReserved(a, b, job, indexes) && OnlyReserved(b, c, job, indexes)
    ensures OnlyReserved(a, c, job, indexes)
  {
  }

  lemma FoundOn(a: Db, b: Db, job: string, indexes: seq<nat>, some: seq<nat>)
    requires OnlyReserved(a, b, job, indexes) && AllFound(a, job, some)
    ensures AllFound(b, job, some)
  {
    forall i | i in some ensures FindLeg(b.jobs[job].legs, i).Some? {
      FoundStays(a.jobs[job].legs, b.jobs[job].legs, i);
    }
  }

  /** Every leg of the pass gets its row, under the key it has or a minted one. */
  method ReserveAll(store: JobStore, lease: Lease, indexes: seq<nat>, minted: nat -> string, ghost exempt: Exempt)
    returns (error: Option<StoreError>, ghost trace: seq<Call>)
    requires Valid(store.Contents()) && lease.job in store.jobs
    requires InFlight(store.jobs[lease.job].state) ==> AllFound(store.Contents(), lease.job, indexes)
    modifies store
    ensures Valid(store.Contents()) && OnlyReserved(old(store.Contents()), store.Contents(), lease.job, indexes)
    ensures Traced(old(store.Contents()), lease, trace, store.Contents()) && BookTrace(lease, trace, exempt)
    ensures error.None? ==> AllFound(store.Contents(), lease.job, indexes)
    ensures Current(old(store.Contents()), lease) && KeysFree(old(store.Contents()), indexes, minted) ==>
      error.None? && Current(store.Contents(), lease)
  {
    hide Valid, Apply, SpecOf, FindLeg, Traced, BookTrace, ByTheBook, Current, KeysFree, Minting, KeyFor;
    ghost var before := store.Contents();
    var existing := store.jobs[lease.job].legs;
    trace := [];
    NoTrace(before, lease, exempt);
    ghost var smooth := Current(before, lease) && KeysFree(before, indexes, minted);
    if smooth { NothingMinted(before, lease, indexes, minted); }
    for n := 0 to |indexes|
      invariant smooth ==> Minting(before, store.Contents(), lease, indexes, minted)
      invariant Valid(store.Contents()) && lease.job in store.jobs && OnlyReserved(before, store.Contents(), lease.job, indexes)
      invariant Traced(before, lease, trace, store.Contents()) && BookTrace(lease, trace, exempt)
      invariant AllFound(store.Contents(), lease.job, indexes[..n])
    {
      ghost var middle := store.Contents();
      var key := KeyFor(existing, indexes[n], minted);
      if smooth { ReserveIsTaken(before, middle, lease, indexes, minted, indexes[n]); }
      var reserved := store.ReserveLeg(lease, indexes[n], key);
      if reserved.Refused? {
        return Some(reserved.error), trace;
      }
      ReserveStep(middle, lease, indexes[n], key, indexes);
      ReserveByTheBook(before, middle, lease, indexes, indexes[n], key, exempt);
      TraceMore(before, lease, trace, middle, Reserve(indexes[n], key), store.Contents(), exempt);
      trace := trace + [Call(middle, Reserve(indexes[n], key))];
      ReservedOn(before, middle, store.Contents(), lease.job, indexes);
      FoundOn(middle, store.Contents(), lease.job, indexes, indexes[..n]);
      assert indexes[..n + 1] == indexes[..n] + [indexes[n]];
    }
    assert indexes[..|indexes|] == indexes;
    if smooth { MintingIsCurrent(before, store.Contents(), lease, indexes, minted); }
    error := None;
  }

  lemma NothingMinted(db: Db, lease: Lease, indexes: seq<nat>, minted: nat -> string)
    requires Current(db, lease)
    ensures Minting(db, db, lease, indexes, minted)
  {
  }

  lemma MintingIsCurrent(before: Db, db: Db, lease: Lease, indexes: seq<nat>, minted: nat -> string)
    requires Minting(before, db, lease, indexes, minted)
    ensures Current(db, lease)
  {
  }

  lemma NoTrace(db: Db, lease: Lease, exempt: Exempt)
    ensures Traced(db, lease, [], db) && BookTrace(lease, [], exempt)
  {
  }

  lemma ReserveByTheBook(before: Db, db: Db, lease: Lease, indexes: seq<nat>, index: nat, key: string, exempt: Exempt)
    requires lease.job in before.jobs && OnlyReserved(before, db, lease.job, indexes) && index in indexes
    requires InFlight(before.jobs[lease.job].state) ==> AllFound(before, lease.job, indexes)
    ensures ByTheBook(db, exempt, Write(lease.instance, lease.job, Driver, Reserve(index, key)))
  {
    hide SpecOf, FindLeg;
    if InFlight(before.jobs[lease.job].state) { FoundOn(before, db, lease.job, indexes, indexes); }
  }

  // ---------- Committing ----------

  function Indexes(legs: seq<Priced>): (r: seq<nat>)
    ensures |r| == |legs|
  {
    seq(|legs|, i requires 0 <= i < |legs| => legs[i].index)
  }

  /** More than is left of the budget. */
  predicate Exceeds(spends: seq<Spend>, q: Priced, budget: Budget) {
    q.amount.Some? && budget.ceiling.Some? && SpendTotal(spends, budget.scope) + q.amount.value > budget.ceiling.value
  }

  /** What committing decided of the first legs: those admitted have paid, the others are over budget. */
  ghost predicate Decided(before: seq<Spend>, spends: seq<Spend>, job: string, quoted: seq<Priced>, sending: seq<Priced>,
      over: seq<nat>, budget: Budget, exempt: Exempt)
  {
    && before <= spends
    && (forall q | q in sending :: q in quoted && Paid(spends, exempt, job, q.index))
    && (forall q | q in quoted :: q in sending || (q.index in over && Exceeds(spends, q, budget)))
    && (forall i | i in over :: exists q | q in quoted :: q.index == i)
    && (sending == [] ==> spends == before && forall q | q in quoted :: !Paid(before, exempt, job, q.index))
    && ((forall q | q in quoted :: Paid(before, exempt, job, q.index)) ==> sending == quoted && over == [])
  }

  lemma PaidMore(spends: seq<Spend>, more: seq<Spend>, exempt: Exempt, job: string, leg: nat)
    requires spends <= more && Paid(spends, exempt, job, leg)
    ensures Paid(more, exempt, job, leg)
  {
    if Committed(spends, job, leg) {
      var i :| 0 <= i < |spends| && spends[i].job == job && spends[i].leg == leg;
      assert more[i] == spends[i];
    }
  }

  ghost predicate Matches(exempt: Exempt, job: string, quoted: seq<Priced>) {
    forall q | q in quoted :: exempt(job, q.index) <==> q.amount.None?
  }

  lemma {:induction false} TotalGrows(spends: seq<Spend>, more: seq<Spend>, scope: string)
    requires spends <= more
    ensures SpendTotal(spends, scope) <= SpendTotal(more, scope)
  {
    if |spends| < |more| {
      TotalGrows(spends, more[..|more| - 1], scope);
    } else {
      assert spends == more;
    }
  }

  /** One more leg is decided: admitted, with its spend on record, or over budget. */
  lemma DecidedNext(before: seq<Spend>, spends: seq<Spend>, after: seq<Spend>, job: string, quoted: seq<Priced>,
      sending: seq<Priced>, over: seq<nat>, q: Priced, admitted: bool, budget: Budget, exempt: Exempt)
    requires Decided(before, spends, job, quoted, sending, over, budget, exempt) && spends <= after
    requires admitted ==> Paid(after, exempt, job, q.index)
    requires !admitted ==> after == spends && !Paid(spends, exempt, job, q.index) && Exceeds(spends, q, budget)
    ensures Decided(before, after, job, quoted + [q], if admitted then sending + [q] else sending,
      if admitted then over else over + [q.index], budget, exempt)
  {
    hide Paid;
    TotalGrows(spends, after, budget.scope);
    var all, kept, gone := quoted + [q], if admitted then sending + [q] else sending, if admitted then over else over + [q.index];
    forall x | x in kept ensures x in all && Paid(after, exempt, job, x.index) {
      if x in sending { PaidMore(spends, after, exempt, job, x.index); }
    }
    if !admitted && Paid(before, exempt, job, q.index) { PaidMore(before, spends, exempt, job, q.index); }
    assert (forall x | x in all :: Paid(before, exempt, job, x.index)) ==> forall x | x in quoted :: x in all;
    assert q in all;
  }

  /** What is on record, what goes on and what is over budget once these legs have asked in turn. */
  function Afford(spends: seq<Spend>, job: string, quoted: seq<Priced>, budget: Budget): (seq<Spend>, seq<Priced>, seq<nat>) {
    if quoted == [] then (spends, [], [])
    else
      var (paid, sending, over) := Afford(spends, job, quoted[..|quoted| - 1], budget);
      var q := quoted[|quoted| - 1];
      if q.amount.None? then (paid, sending + [q], over)
      else if !Admitted(paid, job, q.index, budget.scope, q.amount.value, budget.ceiling) then (paid, sending, over + [q.index])
      else (ApplyCommit(Db(map[], map[], map[], paid), job, q.index, budget.scope, q.amount.value, budget.ceiling).spends,
            sending + [q], over)
  }

  /** First come, first served: whether the n-th leg goes on hangs on what those before it have committed, and nothing
      that comes later changes it. */
  lemma {:induction false} EarlierFirst(spends: seq<Spend>, job: string, quoted: seq<Priced>, budget: Budget, n: nat)
    requires n < |quoted|
    ensures
      var (paid, sending, over) := Afford(spends, job, quoted[..n], budget);
      var (all, gone, left) := Afford(spends, job, quoted, budget);
      var q := quoted[n];
      && paid <= all && sending <= gone && over <= left
      && if q.amount == None || budget.ceiling == None || Committed(paid, job, q.index)
            || SpendTotal(paid, budget.scope) + q.amount.value <= budget.ceiling.value
         then |sending| < |gone| && gone[|sending|] == q
         else |over| < |left| && left[|over|] == q.index
  {
    hide Committed, SpendTotal;
    var front := quoted[..|quoted| - 1];
    if n < |front| {
      assert front[..n] == quoted[..n];
      EarlierFirst(spends, job, front, budget, n);
    }
  }

  /** Each priced leg asks its mandate's budget, in turn. */
  method CommitAll(store: JobStore, lease: Lease, quoted: seq<Priced>, budget: Budget, ghost exempt: Exempt)
    returns (error: Option<StoreError>, sending: seq<Priced>, over: seq<nat>, ghost trace: seq<Call>)
    requires Valid(store.Contents()) && Matches(exempt, lease.job, quoted)
    modifies store
    ensures Valid(store.Contents())
    ensures store.Contents() == old(store.Contents()).(spends := store.spends)
    ensures Traced(old(store.Contents()), lease, trace, store.Contents()) && BookTrace(lease, trace, exempt)
    ensures old(store.spends) <= store.spends
    ensures error.None? ==> Decided(old(store.spends), store.spends, lease.job, quoted, sending, over, budget, exempt)
    ensures error.None? ==> (store.spends, sending, over) == Afford(old(store.spends), lease.job, quoted, budget)
    ensures Current(old(store.Contents()), lease) ==> error.None? && Current(store.Contents(), lease)
  {
    hide Valid, SpecOf, Traced, BookTrace, Decided, Paid, Apply, Exceeds;
    ghost var before := store.Contents();
    sending, over, trace := [], [], [];
    NoTrace(before, lease, exempt);
    NothingDecided(before.spends, lease.job, budget, exempt);
    for n := 0 to |quoted|
      invariant Valid(store.Contents()) && store.Contents() == before.(spends := store.spends) && before.spends <= store.spends
      invariant Traced(before, lease, trace, store.Contents()) && BookTrace(lease, trace, exempt)
      invariant Decided(before.spends, store.spends, lease.job, quoted[..n], sending, over, budget, exempt)
      invariant (store.spends, sending, over) == Afford(before.spends, lease.job, quoted[..n], budget)
    {
      var q := quoted[n];
      ghost var middle := store.Contents();
      var admitted := true;
      if q.amount.Some? {
        if Current(middle, lease) { CommitIsTaken(middle, lease, q.index, budget.scope, q.amount.value, budget.ceiling); }
        var committed := store.CommitMandateSpend(lease, q.index, budget.scope, q.amount.value, budget.ceiling);
        if committed.Refused? {
          return Some(committed.error), sending, over, trace;
        }
        admitted := committed.value.0;
        ghost var op := Commit(q.index, budget.scope, q.amount.value, budget.ceiling);
        CommitStep(middle, lease, q.index, budget.scope, q.amount.value, budget.ceiling);
        TraceMore(before, lease, trace, middle, op, store.Contents(), exempt);
        trace := trace + [Call(middle, op)];
      }
      assert quoted[..n + 1] == quoted[..n] + [q] && q in quoted && quoted[..n + 1][..n] == quoted[..n];
      AdmittedPays(middle.spends, store.spends, lease.job, q, admitted, budget, exempt);
      DecidedNext(before.spends, middle.spends, store.spends, lease.job, quoted[..n], sending, over, q, admitted, budget, exempt);
      if admitted {
        sending := sending + [q];
      } else {
        over := over + [q.index];
      }
    }
    assert quoted[..|quoted|] == quoted;
    error := None;
  }

  lemma NothingDecided(spends: seq<Spend>, job: string, budget: Budget, exempt: Exempt)
    ensures Decided(spends, spends, job, [], [], [], budget, exempt)
  {
  }

  lemma CommitIsTaken(db: Db, lease: Lease, index: nat, scope: string, amount: nat, ceiling: Option<nat>)
    requires Current(db, lease)
    ensures Apply(db, lease, Commit(index, scope, amount, ceiling)).Ok?
  {
  }

  lemma CommitStep(db: Db, lease: Lease, index: nat, scope: string, amount: nat, ceiling: Option<nat>)
    requires Valid(db) && Apply(db, lease, Commit(index, scope, amount, ceiling)).Ok?
    ensures
      var after := Apply(db, lease, Commit(index, scope, amount, ceiling)).value;
      Valid(after) && after == db.(spends := after.spends) && after.spends == ApplyCommit(db, lease.job, index, scope, amount, ceiling).spends
  {
    hide Valid;
    ApplyKeeps(db, lease, Commit(index, scope, amount, ceiling));
  }

  lemma AdmittedPays(spends: seq<Spend>, after: seq<Spend>, job: string, q: Priced, admitted: bool, budget: Budget, exempt: Exempt)
    requires exempt(job, q.index) <==> q.amount.None?
    requires q.amount.None? ==> admitted && after == spends
    requires q.amount.Some? ==>
      admitted == Admitted(spends, job, q.index, budget.scope, q.amount.value, budget.ceiling)
      && after == ApplyCommit(Db(map[], map[], map[], spends), job, q.index, budget.scope, q.amount.value, budget.ceiling).spends
    ensures spends <= after
    ensures admitted ==> Paid(after, exempt, job, q.index)
    ensures !admitted ==> after == spends && !Paid(spends, exempt, job, q.index) && Exceeds(spends, q, budget)
  {
    if q.amount.Some? && admitted {
      CommitsOnce(Db(map[], map[], map[], spends), job, q.index, budget.scope, q.amount.value, budget.ceiling, budget.scope, 0, None);
    }
  }

  // ---------- Passing over ----------

  const SKIP: Patch := NOTHING.(status := Some(SKIPPED))

  /** What passing legs over leaves of a job: its legs are as they were, or among these and SKIPPED. */
  ghost predicate OnlySkipped(before: Db, after: Db, job: string, indexes: seq<nat>) {
    && after.attempts == before.attempts && after.spends == before.spends && after.jobs.Keys == before.jobs.Keys
    && (job in before.jobs ==>
        && after.jobs[job].state == before.jobs[job].state
        && (forall x | x in after.jobs[job].legs :: x in before.jobs[job].legs || (x.index in indexes && x.status == SKIPPED))
        && (forall i: nat :: FindLeg(after.jobs[job].legs, i).Some? == FindLeg(before.jobs[job].legs, i).Some?))
  }

  ghost predicate AllSkipped(db: Db, job: string, indexes: seq<nat>) {
    job in db.jobs && forall x | x in db.jobs[job].legs && x.index in indexes :: x.status == SKIPPED
  }

  lemma SameIndexes(legs: seq<Leg>, more: seq<Leg>, index: nat)
    requires |more| == |legs| && forall p :: 0 <= p < |legs| ==> more[p].index == legs[p].index
    ensures FindLeg(more, index).Some? == FindLeg(legs, index).Some?
  {
    if FindLeg(legs, index).Some? { assert more[FindLeg(legs, index).value].index == index; }
    if FindLeg(more, index).Some? { assert legs[FindLeg(more, index).value].index == index; }
  }

  /** Marking a leg touches no other. */
  lemma SkippedRows(legs: seq<Leg>, more: seq<Leg>, p: nat, x: Leg)
    requires Ascending(legs) && p < |legs| && more == legs[p := Patched(legs[p], SKIP)] && x in more
    ensures if x.index == legs[p].index then x.status == SKIPPED else x in legs
  {
    var r :| 0 <= r < |more| && more[r] == x;
    if r != p { assert legs[r] == x && legs[r].index != legs[p].index; }
  }

  lemma SkipRows(db: Db, lease: Lease, index: nat)
    requires Valid(db) && Apply(db, lease, Update(index, SKIP)).Ok?
    ensures
      var after := Apply(db, lease, Update(index, SKIP)).value;
      && Valid(after) && lease.job in db.jobs && lease.job in after.jobs
      && after.attempts == db.attempts && after.spends == db.spends && after.jobs.Keys == db.jobs.Keys
      && after.jobs[lease.job].state == db.jobs[lease.job].state
      && var legs := db.jobs[lease.job].legs;
         Ascending(legs) && FindLeg(legs, index).Some?
         && after.jobs[lease.job].legs == legs[FindLeg(legs, index).value := Patched(legs[FindLeg(legs, index).value], SKIP)]
  {
    hide SpecOf, KeysUnique, ExecutionsUnique, AttemptsKeyed, OneOpen, LegsPresent, TerminalUnheld, Ascending, Patched;
    ApplyKeeps(db, lease, Update(index, SKIP));
  }

  lemma SkipStep(db: Db, lease: Lease, index: nat, indexes: seq<nat>, done: seq<nat>)
    requires Valid(db) && Apply(db, lease, Update(index, SKIP)).Ok? && index in indexes && AllSkipped(db, lease.job, done)
    ensures
      var after := Apply(db, lease, Update(index, SKIP)).value;
      && Valid(after) && lease.job in after.jobs && OnlySkipped(db, after, lease.job, indexes)
      && AllSkipped(after, lease.job, done + [index])
  {
    hide Valid, Apply, Ascending;
    SkipRows(db, lease, index);
    var after := Apply(db, lease, Update(index, SKIP)).value;
    var legs, more := db.jobs[lease.job].legs, after.jobs[lease.job].legs;
    forall x | x in more ensures if x.index == index then x.status == SKIPPED else x in legs {
      SkippedRows(legs, more, FindLeg(legs, index).value, x);
    }
    forall i: nat ensures FindLeg(more, i).Some? == FindLeg(legs, i).Some? { SameIndexes(legs, more, i); }
  }

  lemma SkipIsTaken(db: Db, lease: Lease, index: nat)
    requires Current(db, lease) && FindLeg(db.jobs[lease.job].legs, index).Some?
    ensures Apply(db, lease, Update(index, SKIP)).Ok? && Current(Apply(db, lease, Update(index, SKIP)).value, lease)
  {
  }

  lemma SkippedOn(a: Db, b: Db, c: Db, job: string, indexes: seq<nat>)
    requires OnlySkipped(a, b, job, indexes) && OnlySkipped(b, c, job, indexes)
    ensures OnlySkipped(a, c, job, indexes)
  {
    hide FindLeg;
  }

  method SkipAll(store: JobStore, lease: Lease, indexes: seq<nat>, ghost exempt: Exempt)
    returns (error: Option<StoreError>, ghost trace: seq<Call>)
    requires Valid(store.Contents()) && lease.job in store.jobs
    modifies store
    ensures Valid(store.Contents()) && OnlySkipped(old(store.Contents()), store.Contents(), lease.job, indexes)
    ensures Traced(old(store.Contents()), lease, trace, store.Contents()) && BookTrace(lease, trace, exempt)
    ensures error.None? ==> AllSkipped(store.Contents(), lease.job, indexes)
    ensures Current(old(store.Contents()), lease) && AllFound(old(store.Contents()), lease.job, indexes) ==>
      error.None? && Current(store.Contents(), lease)
  {
    hide Valid, Apply, SpecOf, FindLeg, Traced, BookTrace, Current;
    ghost var before := store.Contents();
    trace := [];
    NoTrace(before, lease, exempt);
    ghost var smooth := Current(before, lease) && AllFound(before, lease.job, indexes);
    for n := 0 to |indexes|
      invariant smooth ==> Current(store.Contents(), lease)
      invariant Valid(store.Contents()) && lease.job in store.jobs && OnlySkipped(before, store.Contents(), lease.job, indexes)
      invariant Traced(before, lease, trace, store.Contents()) && BookTrace(lease, trace, exempt)
      invariant AllSkipped(store.Contents(), lease.job, indexes[..n])
    {
      ghost var middle := store.Contents();
      if smooth { SkipIsTaken(middle, lease, indexes[n]); }
      var updated := store.UpdateLeg(lease, indexes[n], SKIP);
      if updated.Refused? {
        return Some(updated.error), trace;
      }
      SkipStep(middle, lease, indexes[n], indexes, indexes[..n]);
      TraceMore(before, lease, trace, middle, Update(indexes[n], SKIP), store.Contents(), exempt);
      trace := trace + [Call(middle, Update(indexes[n], SKIP))];
      SkippedOn(before, middle, store.Contents(), lease.job, indexes);
      assert indexes[..n + 1] == indexes[..n] + [indexes[n]];
    }
    assert indexes[..|indexes|] == indexes;
    error := None;
  }

  // ---------- The pass itself ----------

  function Placed(s: seq<nat>, i: nat): (r: seq<nat>)
    ensures forall k :: k in r <==> k in s || k == i
  {
    if s == [] || s[|s| - 1] <= i then s + [i] else Placed(s[..|s| - 1], i) + [s[|s| - 1]]
  }

  /** Legs are taken in index order. */
  function Sorted(s: seq<nat>): (r: seq<nat>)
    ensures forall k :: k in r <==> k in s
  {
    if s == [] then [] else Placed(Sorted(s[..|s| - 1]), s[|s| - 1])
  }

  function PassedIndexes(skipped: seq<Passed>): (r: seq<nat>)
    ensures |r| == |skipped|
  {
    seq(|skipped|, i requires 0 <= i < |skipped| => skipped[i].index)
  }

  /** Each leg that may still be sent is one of the pass, or paid for already. */
  ghost predicate Covers(db: Db, exempt: Exempt, job: string, indexes: seq<nat>) {
    job in db.jobs
    && forall x | x in db.jobs[job].legs && Unsent(db, job, x) :: x.index in indexes || Paid(db.spends, exempt, job, x.index)
  }

  /** The rows a pass leaves: those passed over are SKIPPED, the others are as they were or new. */
  ghost predicate Rows(before: Db, after: Db, job: string, indexes: seq<nat>, passed: seq<nat>) {
    && job in before.jobs && job in after.jobs && after.attempts == before.attempts
    && AllFound(after, job, indexes) && AllSkipped(after, job, passed)
    && forall x | x in after.jobs[job].legs && x.index !in passed ::
         x in before.jobs[job].legs || (x.index in indexes && x == NewLeg(x.index, x.key))
  }

  lemma RowsOf(a: Db, b: Db, c: Db, d: Db, job: string, indexes: seq<nat>, passed: seq<nat>)
    requires job in a.jobs && OnlyReserved(a, b, job, indexes) && AllFound(b, job, indexes) && c == b.(spends := c.spends)
    requires OnlySkipped(c, d, job, passed) && AllSkipped(d, job, passed)
    ensures Rows(a, d, job, indexes, passed) && d.jobs[job].state == a.jobs[job].state && d.spends == c.spends
  {
    hide FindLeg;
  }

  lemma CreatingPaid(before: Db, db: Db, job: string, quoted: seq<Priced>, skipped: seq<Passed>, sending: seq<Priced>,
      over: seq<nat>, passed: seq<nat>, indexes: seq<nat>, budget: Budget, exempt: Exempt)
    requires Covers(before, exempt, job, indexes) && Rows(before, db, job, indexes, passed)
    requires Decided(before.spends, db.spends, job, quoted, sending, over, budget, exempt)
    requires forall i | i in indexes :: i in Indexes(quoted) || i in PassedIndexes(skipped)
    requires forall i :: i in passed <==> i in PassedIndexes(skipped) + over
    ensures AllPaid(db, exempt, job)
  {
    hide Paid, Exceeds, AllFound, Attempted;
    AttemptedSameDb(before, db, job);
    forall x | x in db.jobs[job].legs && Unsent(db, job, x) ensures Paid(db.spends, exempt, job, x.index) {
      if x in before.jobs[job].legs && Paid(before.spends, exempt, job, x.index) {
        PaidMore(before.spends, db.spends, exempt, job, x.index);
      } else {
        assert x.index in indexes && x.index !in passed;
        var n :| 0 <= n < |quoted| && Indexes(quoted)[n] == x.index;
        assert quoted[n] in quoted && quoted[n].index == x.index;
      }
    }
  }

  lemma MoveStep(db: Db, lease: Lease, to: JobState)
    requires Valid(db) && Apply(db, lease, MoveTo(to)).Ok?
    ensures
      var after := Apply(db, lease, MoveTo(to)).value;
      && Valid(after) && lease.job in after.jobs && after.jobs[lease.job].state == to && after.spends == db.spends
      && after.attempts == db.attempts && after.jobs[lease.job].legs == db.jobs[lease.job].legs
  {
    hide Valid, SpecOf;
    ApplyKeeps(db, lease, MoveTo(to));
  }

  lemma MoveIsTaken(db: Db, lease: Lease, to: JobState)
    requires Current(db, lease)
    requires
      || (to in {WATCHING, FAILED} && db.jobs[lease.job].state in {TRIGGERED, QUOTING})
      || (to == CREATING && db.jobs[lease.job].state in {QUOTING, RECONCILING} && db.jobs[lease.job].legs != [])
    ensures Apply(db, lease, MoveTo(to)).Ok?
  {
  }

  function WhenNoneLeft(skipped: seq<Passed>): JobState {
    if exists i :: 0 <= i < |skipped| && skipped[i].retryable then WATCHING else FAILED
  }

  /** Nothing can be attempted: the job watches again where a leg may yet qualify, and fails otherwise. */
  method PassNone(store: JobStore, lease: Lease, skipped: seq<Passed>, ghost exempt: Exempt) returns (pass: Pass, ghost trace: seq<Call>)
    requires Valid(store.Contents()) && lease.job in store.jobs && !InFlight(store.jobs[lease.job].state)
    modifies store
    ensures Valid(store.Contents()) && lease.job in store.jobs && !pass.Sending?
    ensures Traced(old(store.Contents()), lease, trace, store.Contents()) && BookTrace(lease, trace, exempt)
    ensures pass.Thrown? ==> store.Contents() == old(store.Contents())
    ensures pass.NoneLeft? ==> pass.to == store.jobs[lease.job].state == WhenNoneLeft(skipped)
    ensures Current(old(store.Contents()), lease) && old(store.jobs[lease.job].state) in {TRIGGERED, QUOTING} ==> pass.NoneLeft?
    ensures store.spends == old(store.spends) && store.attempts == old(store.attempts)
    ensures store.jobs[lease.job].legs == old(store.jobs[lease.job].legs)
  {
    hide Valid, Apply, Traced, BookTrace, AllPaid;
    ghost var before := store.Contents();
    trace := [];
    NoTrace(before, lease, exempt);
    var to := WhenNoneLeft(skipped);
    if Current(before, lease) && store.jobs[lease.job].state in {TRIGGERED, QUOTING} { MoveIsTaken(before, lease, to); }
    var moved := store.Transition(lease, to);
    if moved.Refused? {
      return Thrown(moved.error), trace;
    }
    MoveStep(before, lease, to);
    ReconcilingFlies();
    TraceMore(before, lease, trace, before, MoveTo(to), store.Contents(), exempt);
    trace := trace + [Call(before, MoveTo(to))];
    pass := NoneLeft(to);
  }

  lemma MovedPaid(db: Db, lease: Lease, to: JobState, exempt: Exempt)
    requires Valid(db) && Apply(db, lease, MoveTo(to)).Ok? && lease.job in db.jobs && AllPaid(db, exempt, lease.job)
    ensures
      var after := Apply(db, lease, MoveTo(to)).value;
      lease.job in after.jobs && AllPaid(after, exempt, lease.job)
  {
    hide Valid, SpecOf, Apply, AllPaid;
    MoveStep(db, lease, to);
    SameRowsPaid(db, Apply(db, lease, MoveTo(to)).value, exempt, lease.job);
  }

  lemma CreatingByTheBook(db: Db, exempt: Exempt, lease: Lease)
    requires lease.job in db.jobs && AllPaid(db, exempt, lease.job)
    ensures ByTheBook(db, exempt, Write(lease.instance, lease.job, Driver, MoveTo(CREATING)))
  {
    hide AllPaid;
  }

  /** The lease is held, and the job has legs and stands where CREATING comes next. */
  ghost predicate CanEnter(db: Db, lease: Lease) {
    Current(db, lease) && db.jobs[lease.job].state in {QUOTING, RECONCILING} && db.jobs[lease.job].legs != []
  }

  method EnterCreating(store: JobStore, lease: Lease, ghost exempt: Exempt) returns (error: Option<StoreError>, ghost trace: seq<Call>)
    requires Valid(store.Contents()) && lease.job in store.jobs && AllPaid(store.Contents(), exempt, lease.job)
    modifies store
    ensures Valid(store.Contents()) && lease.job in store.jobs
    ensures Traced(old(store.Contents()), lease, trace, store.Contents()) && BookTrace(lease, trace, exempt)
    ensures error.Some? ==> store.Contents() == old(store.Contents())
    ensures error.None? ==> store.jobs[lease.job].state == CREATING && AllPaid(store.Contents(), exempt, lease.job)
    ensures CanEnter(old(store.Contents()), lease) ==> error.None?
    ensures store.spends == old(store.spends) && store.attempts == old(store.attempts)
    ensures store.jobs[lease.job].legs == old(store.jobs[lease.job].legs)
  {
    hide Valid, Apply, Traced, BookTrace, AllPaid, ByTheBook;
    ghost var before := store.Contents();
    trace := [];
    NoTrace(before, lease, exempt);
    if CanEnter(before, lease) { MoveIsTaken(before, lease, CREATING); }
    var moved := store.Transition(lease, CREATING);
    if moved.Refused? {
      return Some(moved.error), trace;
    }
    MoveStep(before, lease, CREATING);
    MovedPaid(before, lease, CREATING, exempt);
    CreatingByTheBook(before, exempt, lease);
    TraceMore(before, lease, trace, before, MoveTo(CREATING), store.Contents(), exempt);
    trace := trace + [Call(before, MoveTo(CREATING))];
    error := None;
  }

  /** Reserve every leg of the pass, commit the spend of those with a price, and mark the rest SKIPPED. */
  method Prepare(store: JobStore, lease: Lease, quoted: seq<Priced>, skipped: seq<Passed>, indexes: seq<nat>, budget: Budget,
      minted: nat -> string, ghost exempt: Exempt)
    returns (error: Option<StoreError>, sending: seq<Priced>, over: seq<nat>, ghost trace: seq<Call>)
    requires Valid(store.Contents()) && lease.job in store.jobs && Matches(exempt, lease.job, quoted)
    requires InFlight(store.jobs[lease.job].state) ==> AllFound(store.Contents(), lease.job, indexes)
    requires forall i | i in Indexes(quoted) + PassedIndexes(skipped) :: i in indexes
    modifies store
    ensures Valid(store.Contents()) && lease.job in store.jobs
    ensures store.jobs[lease.job].state == old(store.jobs[lease.job].state)
    ensures Traced(old(store.Contents()), lease, trace, store.Contents()) && BookTrace(lease, trace, exempt)
    ensures error.None? ==>
      && Decided(old(store.spends), store.spends, lease.job, quoted, sending, over, budget, exempt)
      && (store.spends, sending, over) == Afford(old(store.spends), lease.job, quoted, budget)
      && Rows(old(store.Contents()), store.Contents(), lease.job, indexes, PassedIndexes(skipped) + over)
    ensures Smooth(old(store.Contents()), lease, indexes, minted) ==> error.None? && Current(store.Contents(), lease)
  {
    hide Valid, Apply, Traced, BookTrace, ByTheBook, SpecOf, FindLeg, Paid, Exceeds, Sorted, Decided, Afford, Matches, AllFound, AllSkipped,
      Current, KeysFree;
    ghost var before := store.Contents();
    ghost var more;
    sending, over := [], [];
    error, trace := ReserveAll(store, lease, indexes, minted, exempt);
    ghost var reserved := store.Contents();
    if error.Some? {
      return;
    }
    error, sending, over, more := CommitAll(store, lease, quoted, budget, exempt);
    ghost var committed := store.Contents();
    TraceJoin(before, lease, trace, reserved, more, committed, exempt);
    trace := trace + more;
    if error.Some? {
      return;
    }
    var passed := Sorted(PassedIndexes(skipped) + over);
    SpendsAside(reserved, committed, lease.job, indexes);
    OverAreQuoted(before.spends, committed.spends, lease.job, quoted, sending, over, budget, exempt);
    SomeFound(committed, lease.job, indexes, passed);
    error, more := SkipAll(store, lease, passed, exempt);
    ghost var left := store.Contents();
    TraceJoin(before, lease, trace, committed, more, left, exempt);
    trace := trace + more;
    if error.None? {
      RowsOf(before, reserved, committed, left, lease.job, indexes, passed);
      SameRows(before, left, lease.job, indexes, passed, indexes, PassedIndexes(skipped) + over);
    }
  }

  /** Nothing stands in the way of a pass: the lease is held, and the keys it would mint are new. */
  ghost predicate Smooth(db: Db, lease: Lease, indexes: seq<nat>, minted: nat -> string) {
    Current(db, lease) && KeysFree(db, indexes, minted)
  }

  lemma SpendsAside(db: Db, after: Db, job: string, indexes: seq<nat>)
    requires after == db.(spends := after.spends)
    ensures AllFound(after, job, indexes) == AllFound(db, job, indexes)
  {
    hide FindLeg;
  }

  lemma SmoothForSame(db: Db, lease: Lease, indexes: seq<nat>, named: seq<nat>, minted: nat -> string)
    requires forall k :: k in indexes <==> k in named
    ensures Smooth(db, lease, indexes, minted) == Smooth(db, lease, named, minted)
  {
    hide KeyTaken, Current;
  }

  lemma FoundMeansLegs(db: Db, job: string, indexes: seq<nat>)
    requires AllFound(db, job, indexes) && indexes != []
    ensures db.jobs[job].legs != []
  {
    assert indexes[0] in indexes;
  }

  lemma OverAreQuoted(before: seq<Spend>, spends: seq<Spend>, job: string, quoted: seq<Priced>, sending: seq<Priced>, over: seq<nat>,
      budget: Budget, exempt: Exempt)
    requires Decided(before, spends, job, quoted, sending, over, budget, exempt)
    ensures forall i | i in over :: i in Indexes(quoted)
  {
    hide Paid, Exceeds;
    forall i | i in over ensures i in Indexes(quoted) {
      var q :| q in quoted && q.index == i;
      IndexOf(quoted, q);
    }
  }

  lemma SomeFound(db: Db, job: string, indexes: seq<nat>, some: seq<nat>)
    ensures AllFound(db, job, indexes) && (forall i | i in some :: i in indexes) ==> AllFound(db, job, some)
  {
    hide FindLeg;
  }

  lemma SameRows(before: Db, after: Db, job: string, indexes: seq<nat>, passed: seq<nat>, named: seq<nat>, skipped: seq<nat>)
    requires Rows(before, after, job, indexes, passed)
    requires forall k :: k in indexes <==> k in named
    requires forall k :: k in passed <==> k in skipped
    ensures Rows(before, after, job, named, skipped)
  {
    hide FindLeg;
  }

  lemma RowsStay(before: Db, left: Db, after: Db, job: string, indexes: seq<nat>, passed: seq<nat>)
    requires Rows(before, left, job, indexes, passed)
    requires job in after.jobs && after.jobs[job].legs == left.jobs[job].legs && after.attempts == left.attempts
    ensures Rows(before, after, job, indexes, passed)
  {
    hide FindLeg;
  }

  lemma NoneDecided(before: seq<Spend>, spends: seq<Spend>, job: string, quoted: seq<Priced>, over: seq<nat>, budget: Budget,
      exempt: Exempt)
    requires Decided(before, spends, job, quoted, [], over, budget, exempt) && quoted != []
    ensures spends == before && !(forall q | q in quoted :: Paid(before, exempt, job, q.index))
    ensures forall q | q in quoted :: q.index in over && Exceeds(spends, q, budget)
  {
    hide Paid, Exceeds;
    assert quoted[0] in quoted;
  }

  lemma AllPassed(db: Db, job: string, quoted: seq<Priced>, skipped: seq<Passed>, over: seq<nat>)
    requires AllSkipped(db, job, PassedIndexes(skipped) + over) && forall q | q in quoted :: q.index in over
    ensures AllSkipped(db, job, Indexes(quoted) + PassedIndexes(skipped))
  {
    forall x | x in db.jobs[job].legs && x.index in Indexes(quoted) + PassedIndexes(skipped) ensures x.status == SKIPPED {
      if x.index !in PassedIndexes(skipped) {
        var n :| 0 <= n < |quoted| && Indexes(quoted)[n] == x.index;
        assert quoted[n] in quoted;
      }
    }
  }

  /** Everything that stands between a price and the first request: what is left to send has its row, its key
      and its spend on record before the job enters CREATING. */
  method Execute(store: JobStore, lease: Lease, quoted: seq<Priced>, skipped: seq<Passed>, budget: Budget,
      minted: nat -> string, ghost exempt: Exempt)
    returns (pass: Pass, ghost trace: seq<Call>)
    requires Valid(store.Contents()) && quoted != [] && Matches(exempt, lease.job, quoted)
    requires Covers(store.Contents(), exempt, lease.job, Indexes(quoted) + PassedIndexes(skipped))
    requires InFlight(store.jobs[lease.job].state) ==>
      AllFound(store.Contents(), lease.job, Indexes(quoted) + PassedIndexes(skipped))
      && forall q | q in quoted :: Paid(store.spends, exempt, lease.job, q.index)
    modifies store
    ensures Valid(store.Contents()) && lease.job in store.jobs
    ensures Traced(old(store.Contents()), lease, trace, store.Contents()) && BookTrace(lease, trace, exempt)
    ensures pass.Thrown? ==> store.jobs[lease.job].state == old(store.jobs[lease.job].state)
    ensures pass.NoneLeft? ==>
      && !InFlight(old(store.jobs[lease.job].state)) && store.spends == old(store.spends)
      && pass.to == store.jobs[lease.job].state == WhenNoneLeft(skipped)
      && (forall q | q in quoted :: Exceeds(store.spends, q, budget))
      && AllSkipped(store.Contents(), lease.job, Indexes(quoted) + PassedIndexes(skipped))
    ensures pass.Sending? ==>
      && pass.legs != [] && store.jobs[lease.job].state == CREATING && AllPaid(store.Contents(), exempt, lease.job)
      && Decided(old(store.spends), store.spends, lease.job, quoted, pass.legs, pass.over, budget, exempt)
      && (store.spends, pass.legs, pass.over) == Afford(old(store.spends), lease.job, quoted, budget)
      && Rows(old(store.Contents()), store.Contents(), lease.job, Indexes(quoted) + PassedIndexes(skipped),
           PassedIndexes(skipped) + pass.over)
    ensures old(store.jobs[lease.job].state) in {QUOTING, RECONCILING} ==>
      Smooth(old(store.Contents()), lease, Indexes(quoted) + PassedIndexes(skipped), minted) ==>
      !pass.Thrown?
  {
    hide Valid, Apply, Traced, BookTrace, ByTheBook, SpecOf, FindLeg, Paid, Exceeds, Sorted, AllPaid, Decided, Afford, Matches, Unsent,
      Smooth, Current, AllFound;
    ghost var before := store.Contents();
    var named := Indexes(quoted) + PassedIndexes(skipped);
    var indexes := Sorted(named);
    ghost var more;
    var error, sending, over;
    SmoothForSame(before, lease, indexes, named, minted);
    SomeFound(before, lease.job, named, indexes);
    error, sending, over, trace := Prepare(store, lease, quoted, skipped, indexes, budget, minted, exempt);
    if error.Some? {
      return Thrown(error.value), trace;
    }
    ghost var left := store.Contents();
    SameRows(before, left, lease.job, indexes, PassedIndexes(skipped) + over, named, PassedIndexes(skipped) + over);
    if sending == [] {
      ReconcilingFlies();
      NoneDecided(before.spends, left.spends, lease.job, quoted, over, budget, exempt);
      AllPassed(left, lease.job, quoted, skipped, over);
      pass, more := PassNone(store, lease, skipped, exempt);
      TraceJoin(before, lease, trace, left, more, store.Contents(), exempt);
      trace := trace + more;
      return;
    }
    CreatingPaid(before, left, lease.job, quoted, skipped, sending, over, PassedIndexes(skipped) + over, named, budget, exempt);
    FoundMeansLegs(left, lease.job, named);
    error, more := EnterCreating(store, lease, exempt);
    RowsStay(before, left, store.Contents(), lease.job, named, PassedIndexes(skipped) + over);
    TraceJoin(before, lease, trace, left, more, store.Contents(), exempt);
    trace := trace + more;
    pass := if error.Some? then Thrown(error.value) else Sending(sending, over);
  }

  // ---------- Resuming a run that was cut in half ----------

  /** What the checks before a resumption say of a leg: passed over, refused by its quote, or neither. */
  datatype Prepared = Prepared(index: nat, skip: Option<bool>, refusal: Option<bool>)

  datatype Preflight = STOP | PAUSE | PROCEED(legs: seq<Prepared>)

  /** How a resumption ends: a call was refused, it waits, the reconciler concludes over legs marked SKIPPED, or
      the rest of the run is sent. */
  datatype Resumption = Failing(error: StoreError) | Waits | Concludes(skipped: seq<nat>) | Sends(legs: seq<Priced>, over: seq<nat>)

  /** Nothing about the leg ever left this machine. */
  predicate Unstarted(db: Db, job: string, leg: Leg) {
    leg.status == PENDING && Unsent(db, job, leg)
  }

  ghost predicate UnstartedAt(db: Db, job: string, index: nat) {
    job in db.jobs && exists x | x in db.jobs[job].legs :: x.index == index && Unstarted(db, job, x)
  }

  function UnstartedOf(db: Db, job: string, legs: seq<Leg>): (r: seq<nat>)
    ensures forall i | i in r :: exists x | x in legs :: x.index == i && Unstarted(db, job, x)
    ensures forall x | x in legs && Unstarted(db, job, x) :: x.index in r
  {
    if legs == [] then []
    else
      var last := legs[|legs| - 1];
      UnstartedOf(db, job, legs[..|legs| - 1]) + if Unstarted(db, job, last) then [last.index] else []
  }

  /** A leg in reach of the resumption has its row and has paid. */
  lemma UnstartedPaid(db: Db, exempt: Exempt, job: string, index: nat)
    requires UnstartedAt(db, job, index) && AllPaid(db, exempt, job)
    ensures FindLeg(db.jobs[job].legs, index).Some? && Paid(db.spends, exempt, job, index)
  {
    var x :| x in db.jobs[job].legs && x.index == index && Unstarted(db, job, x);
  }

  lemma IndexOf(legs: seq<Priced>, q: Priced)
    requires q in legs
    ensures q.index in Indexes(legs)
  {
    var n :| 0 <= n < |legs| && legs[n] == q;
    assert Indexes(legs)[n] == q.index;
  }

  lemma PaidCovers(db: Db, exempt: Exempt, job: string, indexes: seq<nat>)
    requires job in db.jobs && AllPaid(db, exempt, job)
    ensures Covers(db, exempt, job, indexes)
  {
  }

  /** Of the checked legs, those the resumption can send and those it passes over. */
  method Sift(legs: seq<Prepared>, unsent: seq<nat>, amounts: nat -> Option<nat>) returns (quoted: seq<Priced>, skipped: seq<Passed>)
    ensures forall q | q in quoted :: q.index in unsent && q.amount == amounts(q.index)
    ensures forall s | s in skipped :: s.index in unsent
    ensures forall q | q in quoted :: exists p | p in legs :: p.index == q.index && p.index in unsent && p.skip == None && p.refusal == None
    ensures forall p | p in legs && p.index in unsent ::
      if p.skip.None? && p.refusal.None? then Priced(p.index, amounts(p.index)) in quoted
      else Passed(p.index, if p.skip.Some? then p.skip.value else p.refusal.value) in skipped
  {
    quoted, skipped := [], [];
    for n := 0 to |legs|
      invariant forall q | q in quoted :: q.index in unsent && q.amount == amounts(q.index)
      invariant forall s | s in skipped :: s.index in unsent
      invariant forall q | q in quoted :: exists p | p in legs[..n] :: p.index == q.index && p.index in unsent && p.skip == None && p.refusal == None
      invariant forall p | p in legs[..n] && p.index in unsent ::
        if p.skip.None? && p.refusal.None? then Priced(p.index, amounts(p.index)) in quoted
        else Passed(p.index, if p.skip.Some? then p.skip.value else p.refusal.value) in skipped
    {
      var leg := legs[n];
      assert legs[..n + 1] == legs[..n] + [leg];
      if leg.index !in unsent {
        continue;
      }
      if leg.skip.Some? {
        skipped := skipped + [Passed(leg.index, leg.skip.value)];
      } else if leg.refusal.Some? {
        skipped := skipped + [Passed(leg.index, leg.refusal.value)];
      } else {
        quoted := quoted + [Priced(leg.index, amounts(leg.index))];
      }
    }
    assert legs[..|legs|] == legs;
  }

  /** No leg of the resumption can be sent: mark them, and leave the verdict to the reconciler. */
  method ConcludeResume(store: JobStore, lease: Lease, skipped: seq<nat>, ghost exempt: Exempt)
    returns (r: Resumption, ghost trace: seq<Call>)
    requires Valid(store.Contents()) && lease.job in store.jobs
    modifies store
    ensures Valid(store.Contents()) && lease.job in store.jobs
    ensures Traced(old(store.Contents()), lease, trace, store.Contents()) && BookTrace(lease, trace, exempt)
    ensures store.jobs[lease.job].state == old(store.jobs[lease.job].state) && (r.Failing? || r == Concludes(skipped))
    ensures OnlySkipped(old(store.Contents()), store.Contents(), lease.job, skipped)
    ensures r.Concludes? ==> AllSkipped(store.Contents(), lease.job, skipped)
    ensures Current(old(store.Contents()), lease) && AllFound(old(store.Contents()), lease.job, skipped) ==> r.Concludes?
  {
    var error;
    error, trace := SkipAll(store, lease, skipped, exempt);
    r := if error.Some? then Failing(error.value) else Concludes(skipped);
  }

  /** Some leg of the job was never started. */
  ghost predicate SomeUnstarted(db: Db, job: string) {
    exists i: nat :: UnstartedAt(db, job, i)
  }

  /** The checks leave an unstarted leg that can be sent. */
  ghost predicate SomeGood(db: Db, job: string, preflight: Preflight) {
    preflight.PROCEED? && exists p | p in preflight.legs :: p.skip == None && p.refusal == None && UnstartedAt(db, job, p.index)
  }

  lemma UnstartedMembers(db: Db, job: string)
    requires job in db.jobs
    ensures forall i: nat :: i in UnstartedOf(db, job, db.jobs[job].legs) <==> UnstartedAt(db, job, i)
    ensures UnstartedOf(db, job, db.jobs[job].legs) != [] <==> SomeUnstarted(db, job)
  {
    hide Unstarted;
    var unsent := UnstartedOf(db, job, db.jobs[job].legs);
    if unsent != [] { assert unsent[0] in unsent; }
  }

  /** Sifting finds something to send exactly when the checks leave something. */
  lemma SiftFinds(db: Db, job: string, legs: seq<Prepared>, unsent: seq<nat>, quoted: seq<Priced>, amounts: nat -> Option<nat>)
    requires forall i: nat :: i in unsent <==> UnstartedAt(db, job, i)
    requires forall p | p in legs && p.index in unsent && p.skip == None && p.refusal == None :: Priced(p.index, amounts(p.index)) in quoted
    requires forall q | q in quoted :: exists p | p in legs :: p.index == q.index && p.index in unsent && p.skip == None && p.refusal == None
    ensures quoted != [] <==> SomeGood(db, job, PROCEED(legs))
  {
    hide UnstartedAt;
    if quoted != [] { assert quoted[0] in quoted; }
  }

  /** The one way back into CREATING sends what was never sent, all of it paid for; and a resumption neither ends
      the job nor arms it again. */
  method Resume(store: JobStore, lease: Lease, at: int, preflight: Preflight, amounts: nat -> Option<nat>, budget: Budget,
      minted: nat -> string, ghost exempt: Exempt)
    returns (r: Resumption, ghost trace: seq<Call>)
    requires Valid(store.Contents()) && lease.job in store.jobs
    requires InFlight(store.jobs[lease.job].state) && AllPaid(store.Contents(), exempt, lease.job)
    requires forall i: nat :: exempt(lease.job, i) <==> amounts(i).None?
    modifies store
    ensures Valid(store.Contents()) && lease.job in store.jobs
    ensures Traced(old(store.Contents()), lease, trace, store.Contents()) && BookTrace(lease, trace, exempt)
    ensures store.jobs[lease.job].state == if r.Sends? then CREATING else old(store.jobs[lease.job].state)
    ensures r.Waits? ==> store.Contents() == old(store.Contents()) && preflight.PAUSE? && at < store.jobs[lease.job].expiresAt
    ensures r.Concludes? ==>
      && OnlySkipped(old(store.Contents()), store.Contents(), lease.job, r.skipped)
      && AllSkipped(store.Contents(), lease.job, r.skipped)
      && forall i | i in r.skipped :: UnstartedAt(old(store.Contents()), lease.job, i)
    ensures r.Sends? ==>
      && r.legs != [] && at < old(store.jobs[lease.job].expiresAt) && AllPaid(store.Contents(), exempt, lease.job)
      && forall q | q in r.legs :: UnstartedAt(old(store.Contents()), lease.job, q.index) && q.amount == amounts(q.index)
    ensures
      var (before, over) := (old(store.Contents()), old(store.jobs[lease.job].expiresAt) <= at);
      && (r.Waits? ==> SomeUnstarted(before, lease.job) && preflight.PAUSE?)
      && (r.Sends? ==> !over && SomeGood(before, lease.job, preflight))
      && (r.Concludes? ==>
          !SomeUnstarted(before, lease.job) || over || preflight.STOP?
          || (preflight.PROCEED? && !SomeGood(before, lease.job, preflight)))
      && (r.Concludes? && (over || preflight.STOP?) ==> forall i: nat | UnstartedAt(before, lease.job, i) :: i in r.skipped)
    ensures old(store.jobs[lease.job].state) == RECONCILING && Current(old(store.Contents()), lease) ==>
      (forall indexes: seq<nat> :: KeysFree(old(store.Contents()), indexes, minted)) ==>
      !r.Failing?
  {
    hide Valid, Apply, Traced, BookTrace, SpecOf, FindLeg, Paid, AllPaid, Unstarted, OnlySkipped, AllSkipped, Rows, Covers, Current, Afford,
      KeysFree, SomeUnstarted, SomeGood, UnstartedAt;
    trace := [];
    ghost var before := store.Contents();
    NoTrace(before, lease, exempt);
    var job := store.jobs[lease.job];
    var unsent := UnstartedOf(Db(store.instances, store.jobs, store.attempts, store.spends), lease.job, job.legs);
    UnstartedMembers(before, lease.job);
    forall i | i in unsent ensures FindLeg(job.legs, i).Some? { UnstartedPaid(before, exempt, lease.job, i); }
    if unsent == [] {
      r, trace := ConcludeResume(store, lease, [], exempt);
      return;
    }
    if job.expiresAt <= at || preflight.STOP? {
      r, trace := ConcludeResume(store, lease, unsent, exempt);
      return;
    }
    if preflight.PAUSE? {
      return Waits, [];
    }
    var quoted, skipped := Sift(preflight.legs, unsent, amounts);
    SiftFinds(before, lease.job, preflight.legs, unsent, quoted, amounts);
    if quoted == [] {
      r, trace := ConcludeResume(store, lease, PassedIndexes(skipped), exempt);
      return;
    }
    var named := Indexes(quoted) + PassedIndexes(skipped);
    PaidCovers(before, exempt, lease.job, named);
    forall i | i in named ensures UnstartedAt(before, lease.job, i) && FindLeg(job.legs, i).Some? && Paid(before.spends, exempt, lease.job, i) {
      UnstartedPaid(before, exempt, lease.job, i);
    }
    forall q | q in quoted ensures q.index in named { IndexOf(quoted, q); }
    var pass;
    pass, trace := Execute(store, lease, quoted, skipped, budget, minted, exempt);
    r := if pass.Sending? then Sends(pass.legs, pass.over) else Failing(pass.error);
  }

  // ---------- Passes in a run ----------

  /** A run whose writes for a job are the calls of such passes is by the book. */
  lemma PassKeepsBook(worlds: seq<World>, events: seq<Event>, exempt: Exempt, n: nat, lease: Lease, trace: seq<Call>)
    requires |worlds| == |events| + 1 && n + |trace| < |worlds| && BookRun(worlds, events, exempt, n, lease.job)
    requires BookTrace(lease, trace, exempt)
    requires forall i :: 0 <= i < |trace| ==>
      worlds[n + i].db == trace[i].before && events[n + i] == Write(lease.instance, lease.job, Driver, trace[i].op)
    ensures BookRun(worlds, events, exempt, n + |trace|, lease.job)
  {
    hide ByTheBook;
    forall m | 0 <= m < n + |trace| && events[m].Write? && events[m].job == lease.job
      ensures ByTheBook(worlds[m].db, exempt, events[m])
    {
      if m >= n { assert worlds[n + (m - n)].db == trace[m - n].before; }
    }
  }
}
