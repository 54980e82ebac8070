/** The scheduler's round: claim what nobody runs, as far as there is room, then give every held job
    one pass. */
module RunnerScheduler {
  import opened Options
  import opened RunnerStates
  import opened RunnerStore
  import opened RunnerLease

  /** How driving a job ended: in a state, or by throwing, fenced out or otherwise. */
  datatype Driven = Drove(to: JobState) | Threw(leaseLost: bool)

  datatype Report = Report(claimed: seq<string>, passes: seq<string>, released: seq<string>, failures: seq<string>,
    skipped: seq<string>, deferred: nat, admitting: bool)

  ghost predicate NoRepeat(jobs: seq<string>) {
    forall m, n :: 0 <= m < n < |jobs| ==> jobs[m] != jobs[n]
  }

  function Members(jobs: seq<string>): set<string> {
    set j | j in jobs
  }

  /** Each of these jobs is in exactly one of the three lists, once. */
  ghost predicate AccountedOnce(jobs: set<string>, passes: seq<string>, failures: seq<string>, skipped: seq<string>) {
    NoRepeat(passes + failures + skipped) && Members(passes + failures + skipped) == jobs
  }

  function Max(a: int, b: int): int {
    if a > b then a else b
  }

  lemma AccountedOneMore(jobs: set<string>, passes: seq<string>, failures: seq<string>, skipped: seq<string>, job: string)
    requires AccountedOnce(jobs, passes, failures, skipped) && job !in jobs
    ensures AccountedOnce(jobs + {job}, passes + [job], failures, skipped)
    ensures AccountedOnce(jobs + {job}, passes, failures + [job], skipped)
    ensures AccountedOnce(jobs + {job}, passes, failures, skipped + [job])
  {
    var all := passes + failures + skipped;
    forall x | x in all ensures x in jobs { assert x in Members(all); }
    assert passes + (failures + skipped) == all;
    Inserted(passes, failures + skipped, job);
    assert passes + [job] + (failures + skipped) == passes + [job] + failures + skipped;
    Inserted(passes + failures, skipped, job);
    assert passes + failures + [job] + skipped == passes + (failures + [job]) + skipped;
    assert all + [] == all;
    Inserted(all, [], job);
    assert all + [] == all && all + [job] + [] == passes + failures + (skipped + [job]);
  }

  lemma Inserted(a: seq<string>, b: seq<string>, job: string)
    requires NoRepeat(a + b) && job !in a + b
    ensures NoRepeat(a + [job] + b) && Members(a + [job] + b) == Members(a + b) + {job}
  {
    var more := a + [job] + b;
    forall m, n | 0 <= m < n < |more| ensures more[m] != more[n] {
      var x, y := if m <= |a| then m else m - 1, if n <= |a| then n else n - 1;
      if m != |a| { assert more[m] == (a + b)[x]; }
      if n != |a| { assert more[n] == (a + b)[y]; }
    }
    forall j ensures j in more <==> j in a + b || j == job {}
  }

  // ---------- What there is to claim ----------

  /** The store gives the job to the instance: it is registered, the job has not ended, and no other instance's
      lease on it still runs. */
  predicate IsFree(db: Db, job: string, instance: string, at: int) {
    && instance in db.instances && job in db.jobs
    && db.jobs[job].state !in {FILLED, FAILED, CANCELLED, EXPIRED}
    && (match (db.jobs[job].holder, db.jobs[job].leaseExpires)
        case (Some(other), Some(end)) => other == instance || end <= at
        case _ => true)
  }

  /** The listed jobs that are free and not held, each once, in listing order. */
  function Wanted(db: Db, candidates: seq<string>, n: nat, before: set<string>, instance: string, at: int): (jobs: seq<string>)
    requires n <= |candidates|
    ensures forall j :: j in jobs <==> j in candidates[..n] && j !in before && IsFree(db, j, instance, at)
    ensures NoRepeat(jobs)
  {
    if n == 0 then []
    else
      var jobs, job := Wanted(db, candidates, n - 1, before, instance, at), candidates[n - 1];
      assert candidates[..n] == candidates[..n - 1] + [job];
      if job in before || job in jobs || !IsFree(db, job, instance, at) then jobs else jobs + [job]
  }

  function Cut(jobs: seq<string>, room: int): seq<string> {
    if room <= 0 then [] else if |jobs| <= room then jobs else jobs[..room]
  }

  lemma FreeIsClaimable(db: Db, job: string, instance: string, at: int, ttl: int)
    ensures IsFree(db, job, instance, at) <==>
      ApplyClaim(db, job, instance, at, ttl).Ok? && ApplyClaim(db, job, instance, at, ttl).value.1.Some?
  {
  }

  /** The row of a claimed job, and the lease it is held under. */
  function ClaimedRow(row: Job, instance: string, at: int, ttl: int): Job {
    row.(holder := Some(instance), leaseExpires := Some(at + ttl), fence := row.fence + 1)
  }

  /** In the store, claiming took these jobs and left everything else as it was. */
  ghost predicate RowsClaimed(db: Db, after: Db, claimed: seq<string>, instance: string, at: int, ttl: int) {
    && after.instances == db.instances && after.attempts == db.attempts && after.spends == db.spends
    && after.jobs.Keys == db.jobs.Keys
    && (forall j | j in claimed :: j in db.jobs && after.jobs[j] == ClaimedRow(db.jobs[j], instance, at, ttl))
    && (forall j | j in db.jobs && j !in claimed :: after.jobs[j] == db.jobs[j])
  }

  /** And here: each is held under the lease it was claimed with, and what was held is held as before. */
  ghost predicate HasClaimed(db: Db, after: Db, before: map<string, Entry>, entries: map<string, Entry>, claimed: seq<string>,
      instance: string, at: int, ttl: int)
  {
    && RowsClaimed(db, after, claimed, instance, at, ttl) && entries.Keys == before.Keys + Members(claimed)
    && (forall j | j in claimed :: j in entries && entries[j].lease == Lease(j, instance, db.jobs[j].fence + 1, at + ttl))
    && (forall j | j in before && j !in claimed :: j in entries && entries[j] == before[j])
  }

  lemma NothingClaimed(db: Db, before: map<string, Entry>, candidates: seq<string>, instance: string, at: int, ttl: int, room: int)
    ensures HasClaimed(db, db, before, before, [], instance, at, ttl)
    ensures Cut(Wanted(db, candidates, 0, before.Keys, instance, at), room) == []
  {
    assert Members([]) == {};
  }

  /** What is held is what was, and what has been claimed; of the rest the store says what it said before. */
  lemma HeldOrNot(db: Db, middle: Db, before: map<string, Entry>, held: map<string, Entry>, claimed: seq<string>, job: string,
      instance: string, at: int, ttl: int)
    requires HasClaimed(db, middle, before, held, claimed, instance, at, ttl)
    ensures job in held <==> job in before || job in claimed
    ensures job !in held ==> (IsFree(middle, job, instance, at) <==> IsFree(db, job, instance, at))
  {
    assert job in claimed <==> job in Members(claimed);
  }

  /** How one more listed job adds to what is claimed. */
  lemma CutNext(db: Db, candidates: seq<string>, n: nat, before: set<string>, instance: string, at: int, room: int)
    requires n < |candidates|
    ensures
      var claimed, job := Cut(Wanted(db, candidates, n, before, instance, at), room), candidates[n];
      Cut(Wanted(db, candidates, n + 1, before, instance, at), room)
        == if job in before || job in claimed || |claimed| >= room || !IsFree(db, job, instance, at) then claimed else claimed + [job]
  {
    hide IsFree;
    var wanted := Wanted(db, candidates, n, before, instance, at);
    if 0 < room <= |wanted| {
      assert Cut(wanted, room) == wanted[..room] && |wanted[..room]| == room;
      assert (wanted + [candidates[n]])[..room] == wanted[..room];
    }
  }

  lemma RowsOn(db: Db, middle: Db, after: Db, claimed: seq<string>, more: seq<string>, instance: string, at: int, ttl: int)
    requires RowsClaimed(db, middle, claimed, instance, at, ttl) && RowsClaimed(middle, after, more, instance, at, ttl)
    requires forall j | j in more :: j !in claimed
    ensures RowsClaimed(db, after, claimed + more, instance, at, ttl)
  {
    hide ClaimedRow;
  }

  lemma ClaimedOn(db: Db, middle: Db, after: Db, before: map<string, Entry>, held: map<string, Entry>, entries: map<string, Entry>,
      claimed: seq<string>, more: seq<string>, instance: string, at: int, ttl: int)
    requires HasClaimed(db, middle, before, held, claimed, instance, at, ttl)
    requires HasClaimed(middle, after, held, entries, more, instance, at, ttl)
    requires forall j | j in more :: j !in held
    ensures HasClaimed(db, after, before, entries, claimed + more, instance, at, ttl)
  {
    assert Members(claimed + more) == Members(claimed) + Members(more);
    hide RowsClaimed, IsFree;
    forall j | j in claimed ensures j in held {}
    RowsOn(db, middle, after, claimed, more, instance, at, ttl);
  }

  /** What is free of these jobs is held. */
  ghost predicate AllTaken(db: Db, jobs: seq<string>, held: set<string>, instance: string, at: int) {
    forall j | j in jobs && IsFree(db, j, instance, at) :: j in held
  }

  lemma TakenNext(db: Db, candidates: seq<string>, n: nat, held: set<string>, more: set<string>, instance: string, at: int)
    requires n < |candidates| && held <= more
    ensures AllTaken(db, candidates[..n], held, instance, at) && (IsFree(db, candidates[n], instance, at) ==> candidates[n] in more)
      ==> AllTaken(db, candidates[..n + 1], more, instance, at)
  {
    assert candidates[..n + 1] == candidates[..n] + [candidates[n]];
  }

  lemma AllOfThem(db: Db, candidates: seq<string>, held: set<string>, instance: string, at: int)
    ensures AllTaken(db, candidates[..|candidates|], held, instance, at) <==>
      forall j | j in candidates && IsFree(db, j, instance, at) :: j in held
    ensures AllTaken(db, candidates[..0], held, instance, at)
  {
    assert candidates[..|candidates|] == candidates;
  }

  /** Nothing claimed is let go, and a free job is passed by only for want of room. */
  lemma NoneLetGo(db: Db, candidates: seq<string>, n: nat, before: map<string, Entry>, held: map<string, Entry>,
      entries: map<string, Entry>, after: Db, claimed: seq<string>, more: seq<string>, late: bool, instance: string, at: int, ttl: int,
      room: int)
    requires n < |candidates| && held.Keys == before.Keys + Members(claimed)
    requires HasClaimed(db, after, before, entries, more, instance, at, ttl)
    requires claimed == Cut(Wanted(db, candidates, n, before.Keys, instance, at), room)
    requires more == Cut(Wanted(db, candidates, n + 1, before.Keys, instance, at), room)
    requires late <==> candidates[n] !in held && |claimed| >= room
    ensures held.Keys <= entries.Keys
    ensures !late && IsFree(db, candidates[n], instance, at) ==> candidates[n] in entries
  {
    hide IsFree, Wanted, Cut;
    CutNext(db, candidates, n, before.Keys, instance, at, room);
    forall j | j in held ensures j in entries {
      if j !in before { assert j in Members(claimed); assert j in more; assert j in Members(more); }
    }
    if candidates[n] in more { assert candidates[n] in Members(more); }
  }

  /** The pass of some held job finds that the keeper has dropped this one. */
  ghost predicate DroppedBy(job: string, held: set<string>, dropped: string -> set<string>) {
    exists k | k in held :: job in dropped(k)
  }

  /** The hold on the job ends in the round: some pass finds it dropped, its drive was fenced out, or it ended. */
  ghost predicate LetGo(job: string, held: set<string>, driven: string -> Driven, dropped: string -> set<string>) {
    || DroppedBy(job, held, dropped)
    || driven(job) == Threw(true)
    || (driven(job).Drove? && driven(job).to in {FILLED, FAILED, CANCELLED, EXPIRED})
  }

  /** The passes of a round: every job held is accounted for once, skipped only where its hold was dropped, else
      as a pass or a failure as its drive went; what was not dropped, fenced out or ended stays held as it was. */
  ghost predicate Round(held: map<string, Entry>, entries: map<string, Entry>, passes: seq<string>, released: seq<string>,
      failures: seq<string>, skipped: seq<string>, driven: string -> Driven, dropped: string -> set<string>)
  {
    && AccountedOnce(held.Keys, passes, failures, skipped)
    && (forall j :: j in skipped ==> DroppedBy(j, held.Keys, dropped))
    && (forall j :: j in passes ==> driven(j).Drove?) && (forall j :: j in failures ==> driven(j).Threw?)
    && (forall j | j in held && !DroppedBy(j, held.Keys, dropped) ::
          (j in passes <==> driven(j).Drove?) && (j in failures <==> driven(j).Threw?))
    && (forall j :: j in released <==> j in passes && driven(j).Drove? && driven(j).to in {FILLED, FAILED, CANCELLED, EXPIRED})
    && (forall j | j in entries :: j in held && entries[j] == held[j])
    && (forall j | j in held && !LetGo(j, held.Keys, driven, dropped) :: j in entries)
    && (forall j :: j in released ==> j !in entries)
    && (forall j :: j in failures && driven(j) == Threw(true) ==> j !in entries)
  }

  /** As far as the round has come, with the jobs in `rest` still to be passed. */
  ghost predicate Midway(held: map<string, Entry>, rest: set<string>, entries: map<string, Entry>, passes: seq<string>,
      released: seq<string>, failures: seq<string>, skipped: seq<string>, driven: string -> Driven, dropped: string -> set<string>)
  {
    && rest <= held.Keys && AccountedOnce(held.Keys - rest, passes, failures, skipped)
    && (forall j :: j in skipped ==> DroppedBy(j, held.Keys, dropped))
    && (forall j :: j in passes ==> driven(j).Drove?) && (forall j :: j in failures ==> driven(j).Threw?)
    && (forall j :: j in released <==> j in passes && driven(j).Drove? && Terminal(driven(j).to))
    && (forall j | j in entries :: j in held && entries[j] == held[j])
    && (forall j | j in held && j !in entries ::
          DroppedBy(j, held.Keys, dropped) || (j !in rest && LetGo(j, held.Keys, driven, dropped)))
    && (forall j :: j in released ==> j !in entries)
    && (forall j :: j in failures && driven(j) == Threw(true) ==> j !in entries)
  }

  lemma RoundBegins(held: map<string, Entry>, driven: string -> Driven, dropped: string -> set<string>)
    ensures Midway(held, held.Keys, held, [], [], [], [], driven, dropped)
  {
    NoneAccounted();
    assert held.Keys - held.Keys == {};
  }

  lemma EndedStates(state: JobState)
    ensures Terminal(state) <==> state in {FILLED, FAILED, CANCELLED, EXPIRED}
  {
  }

  lemma RoundEnds(held: map<string, Entry>, entries: map<string, Entry>, passes: seq<string>, released: seq<string>,
      failures: seq<string>, skipped: seq<string>, driven: string -> Driven, dropped: string -> set<string>)
    requires Midway(held, {}, entries, passes, released, failures, skipped, driven, dropped)
    ensures Round(held, entries, passes, released, failures, skipped, driven, dropped)
  {
    hide AccountedOnce, SpecOf, Terminal, DroppedBy, LetGo;
    assert held.Keys - {} == held.Keys;
    forall j | j in held && !DroppedBy(j, held.Keys, dropped)
      ensures (j in passes <==> driven(j).Drove?) && (j in failures <==> driven(j).Threw?)
    {
      Accounted(held.Keys, passes, failures, skipped, j);
    }
    forall state ensures Terminal(state) <==> state in {FILLED, FAILED, CANCELLED, EXPIRED} { EndedStates(state); }
    forall j | j in held && !LetGo(j, held.Keys, driven, dropped) ensures j in entries {
      DroppedIsLetGo(j, held.Keys, driven, dropped);
    }
  }

  lemma DroppedIsLetGo(job: string, held: set<string>, driven: string -> Driven, dropped: string -> set<string>)
    ensures DroppedBy(job, held, dropped) ==> LetGo(job, held, driven, dropped)
  {
  }

  /** One job more has had its pass. */
  lemma PassedOne(held: map<string, Entry>, rest: set<string>, entries: map<string, Entry>, after: map<string, Entry>,
      passes: seq<string>, released: seq<string>, failures: seq<string>, skipped: seq<string>, driven: string -> Driven,
      dropped: string -> set<string>, job: string)
    requires Midway(held, rest, entries, passes, released, failures, skipped, driven, dropped) && job in rest
    requires
      var over := driven(job) == Threw(true) || (driven(job).Drove? && Terminal(driven(job).to));
      after == if job !in entries || job in dropped(job) || !over then entries - dropped(job) else entries - dropped(job) - {job}
    ensures
      var skips, ends := job !in entries || job in dropped(job), driven(job).Drove? && Terminal(driven(job).to);
      Midway(held, rest - {job}, after,
        if !skips && driven(job).Drove? then passes + [job] else passes,
        if !skips && ends then released + [job] else released,
        if !skips && driven(job).Threw? then failures + [job] else failures,
        if skips then skipped + [job] else skipped, driven, dropped)
  {
    hide AccountedOnce, SpecOf, Terminal, LetGo, DroppedBy;
    assert held.Keys - (rest - {job}) == held.Keys - rest + {job};
    AccountedOneMore(held.Keys - rest, passes, failures, skipped, job);
    NotYetPassed(held, rest, passes, failures, skipped, job);
    DropsOf(job, held.Keys, dropped);
    forall j | j in held && j !in after
      ensures DroppedBy(j, held.Keys, dropped) || (j !in rest - {job} && LetGo(j, held.Keys, driven, dropped))
    {
      if j == job && !DroppedBy(job, held.Keys, dropped) { OverIsLetGo(job, held.Keys, driven, dropped); }
    }
  }

  lemma NotYetPassed(held: map<string, Entry>, rest: set<string>, passes: seq<string>, failures: seq<string>, skipped: seq<string>,
      job: string)
    requires AccountedOnce(held.Keys - rest, passes, failures, skipped) && job in rest
    ensures job !in passes && job !in failures && job !in skipped
  {
    assert job !in Members(passes + failures + skipped);
  }

  lemma DropsOf(job: string, held: set<string>, dropped: string -> set<string>)
    requires job in held
    ensures forall j | j in dropped(job) :: DroppedBy(j, held, dropped)
  {
  }

  lemma OverIsLetGo(job: string, held: set<string>, driven: string -> Driven, dropped: string -> set<string>)
    requires driven(job) == Threw(true) || (driven(job).Drove? && Terminal(driven(job).to))
    ensures LetGo(job, held, driven, dropped)
  {
    if driven(job).Drove? { EndedStates(driven(job).to); }
  }

  class JobScheduler {
    const leases: LeaseKeeper
    const instance: string
    const maxJobs: int

    constructor (leases: LeaseKeeper, instance: string, maxJobs: int)
      ensures this.leases == leases && this.instance == instance && this.maxJobs == maxJobs
    {
      this.leases, this.instance, this.maxJobs := leases, instance, maxJobs;
    }

    /** One listed job: claimed unless it is held elsewhere, or the store refuses. */
    method ClaimOne(job: string, at: int) returns (got: bool)
      requires leases.Valid() && job !in leases.entries
      modifies leases`entries, leases`issued, leases.store
      ensures leases.Valid() && got == IsFree(old(leases.store.Contents()), job, instance, at)
      ensures HasClaimed(old(leases.store.Contents()), leases.store.Contents(), old(leases.entries), leases.entries,
        if got then [job] else [], instance, at, leases.ttl)
    {
      hide IsFree;
      FreeIsClaimable(leases.store.Contents(), job, instance, at, leases.ttl);
      var claim := leases.store.ClaimJob(job, instance, at, leases.ttl);
      got := claim.Ok? && claim.value.Some?;
      if got {
        var signal := leases.Hold(claim.value.value);
      }
    }

    /** One turn of the claiming loop. */
    method ClaimNext(candidates: seq<string>, n: nat, at: int, claimed: seq<string>, room: int, ghost db: Db,
        ghost before: map<string, Entry>)
      returns (more: seq<string>, late: bool)
      requires leases.Valid() && n < |candidates| && room == maxJobs - |before| - |claimed|
      requires HasClaimed(db, leases.store.Contents(), before, leases.entries, claimed, instance, at, leases.ttl)
      requires claimed == Cut(Wanted(db, candidates, n, before.Keys, instance, at), maxJobs - |before|)
      modifies leases`entries, leases`issued, leases.store
      ensures leases.Valid()
      ensures HasClaimed(db, leases.store.Contents(), before, leases.entries, more, instance, at, leases.ttl)
      ensures more == Cut(Wanted(db, candidates, n + 1, before.Keys, instance, at), maxJobs - |before|)
      ensures |more| >= |claimed| && (late <==> candidates[n] !in old(leases.entries) && room <= 0)
    {
      hide LeaseKeeper.Valid, IsFree, HasClaimed;
      more, late := claimed, false;
      ghost var middle, held := leases.store.Contents(), leases.entries;
      var job := candidates[n];
      HeldOrNot(db, middle, before, held, claimed, job, instance, at, leases.ttl);
      CutNext(db, candidates, n, before.Keys, instance, at, maxJobs - |before|);
      if job in leases.entries.Keys {
        return;
      }
      if room <= 0 {
        return claimed, true;
      }
      var got := ClaimOne(job, at);
      if got {
        more := claimed + [job];
      }
      ClaimedOn(db, middle, leases.store.Contents(), before, held, leases.entries, claimed, if got then [job] else [], instance, at,
        leases.ttl);
      assert claimed + [] == claimed;
    }

    lemma ClaimedKeys(db: Db, after: Db, before: map<string, Entry>, entries: map<string, Entry>, claimed: seq<string>, at: int)
      requires HasClaimed(db, after, before, entries, claimed, instance, at, leases.ttl)
      ensures entries.Keys == before.Keys + Members(claimed)
    {
    }

    /** Takes responsibility for listed jobs nobody runs, first those listed first, until this instance is at
        capacity. */
    method ClaimRunnable(candidates: seq<string>, at: int) returns (claimed: seq<string>, deferred: nat)
      requires leases.Valid()
      modifies leases`entries, leases`issued, leases.store
      ensures leases.Valid()
      ensures HasClaimed(old(leases.store.Contents()), leases.store.Contents(), old(leases.entries), leases.entries, claimed,
        instance, at, leases.ttl)
      ensures claimed == Cut(Wanted(old(leases.store.Contents()), candidates, |candidates|, old(leases.entries).Keys, instance, at),
        maxJobs - |old(leases.entries)|)
      ensures deferred > 0 ==> |claimed| >= maxJobs - |old(leases.entries)|
      ensures deferred == 0 ==>
        forall j | j in candidates && IsFree(old(leases.store.Contents()), j, instance, at) :: j in leases.entries
    {
      hide LeaseKeeper.Valid, IsFree, HasClaimed, Wanted, Cut, AllTaken;
      ghost var before, db := leases.entries, leases.store.Contents();
      var room := maxJobs - |leases.entries|;
      claimed, deferred := [], 0;
      NothingClaimed(db, before, candidates, instance, at, leases.ttl, maxJobs - |before|);
      AllOfThem(db, candidates, before.Keys, instance, at);
      for n := 0 to |candidates|
        invariant leases.Valid() && room == maxJobs - |before| - |claimed|
        invariant HasClaimed(db, leases.store.Contents(), before, leases.entries, claimed, instance, at, leases.ttl)
        invariant claimed == Cut(Wanted(db, candidates, n, before.Keys, instance, at), maxJobs - |before|)
        invariant deferred > 0 ==> room <= 0
        invariant deferred == 0 ==> AllTaken(db, candidates[..n], leases.entries.Keys, instance, at)
      {
        ghost var held := leases.entries;
        assert held.Keys == before.Keys + Members(claimed) by { ClaimedKeys(db, leases.store.Contents(), before, held, claimed, at); }
        var more, late := ClaimNext(candidates, n, at, claimed, room, db, before);
        NoneLetGo(db, candidates, n, before, held, leases.entries, leases.store.Contents(), claimed, more, late, instance, at,
          leases.ttl, maxJobs - |before|);
        TakenNext(db, candidates, n, held.Keys, leases.entries.Keys, instance, at);
        if late {
          deferred := deferred + 1;
        }
        room := room - (|more| - |claimed|);
        claimed := more;
      }
      AllOfThem(db, candidates, leases.entries.Keys, instance, at);
    }

    /** Gives a held job its pass. `dropped` are the holds the keeper's own tick ends before it. */
    method Pass(job: string, driven: Driven, dropped: set<string>) returns (outcome: Option<Driven>)
      requires leases.Valid()
      modifies leases`entries, leases`aborted
      ensures leases.Valid()
      ensures outcome == if job in old(leases.entries) && job !in dropped then Some(driven) else None
      ensures leases.entries == old(leases.entries) - dropped - if outcome == Some(Threw(true)) then {job} else {}
    {
      DropAll(dropped);
      if job !in leases.entries {
        return None;
      }
      if driven == Threw(true) {
        leases.Forget(job);
      }
      return Some(driven);
    }

    method DropAll(dropped: set<string>)
      requires leases.Valid()
      modifies leases`entries, leases`aborted
      ensures leases.Valid() && leases.entries == old(leases.entries) - dropped
    {
      hide LeaseKeeper.Valid;
      var rest := dropped;
      while rest != {}
        invariant leases.Valid() && rest <= dropped
        invariant leases.entries == old(leases.entries) - (dropped - rest)
      {
        var gone :| gone in rest;
        ghost var held := leases.entries;
        leases.Forget(gone);
        assert held - {gone} == old(leases.entries) - (dropped - (rest - {gone}));
        rest := rest - {gone};
      }
      assert dropped - {} == dropped;
    }

    /** Every held job gets its pass; a job that ended is forgotten, since the store cleared its lease. */
    method PassAll(driven: string -> Driven, dropped: string -> set<string>)
      returns (passes: seq<string>, released: seq<string>, failures: seq<string>, skipped: seq<string>)
      requires leases.Valid()
      modifies leases`entries, leases`aborted
      ensures leases.Valid()
      ensures Round(old(leases.entries), leases.entries, passes, released, failures, skipped, driven, dropped)
    {
      hide LeaseKeeper.Valid, SpecOf, Midway, Round, Terminal;
      ghost var held := leases.entries;
      var rest := leases.entries.Keys;
      passes, released, failures, skipped := [], [], [], [];
      RoundBegins(held, driven, dropped);
      while rest != {}
        invariant leases.Valid() && Midway(held, rest, leases.entries, passes, released, failures, skipped, driven, dropped)
      {
        var job :| job in rest;
        ghost var entries := leases.entries;
        var outcome := Pass(job, driven(job), dropped(job));
        if outcome.Some? && outcome.value.Drove? && Terminal(outcome.value.to) {
          leases.Forget(job);
        }
        PassedOne(held, rest, entries, leases.entries, passes, released, failures, skipped, driven, dropped, job);
        rest := rest - {job};
        match outcome
        case None => skipped := skipped + [job];
        case Some(Threw(_)) => failures := failures + [job];
        case Some(Drove(to)) =>
          passes := passes + [job];
          if Terminal(to) {
            released := released + [job];
          }
      }
      RoundEnds(held, leases.entries, passes, released, failures, skipped, driven, dropped);
    }

    /** One round. If it admits, it claims what is free, in listing order, as far as there is room. Then every
        job held has its pass. Capacity is respected, and a round that does not admit only lets go. `held` is
        what is held between the two. */
    method RunTick(admitting: bool, candidates: seq<string>, at: int, driven: string -> Driven, dropped: string -> set<string>)
      returns (report: Report, ghost held: map<string, Entry>)
      requires leases.Valid()
      modifies leases`entries, leases`issued, leases`aborted, leases.store
      ensures leases.Valid() && report.admitting == admitting
      ensures report.claimed == if admitting
        then Cut(Wanted(old(leases.store.Contents()), candidates, |candidates|, old(leases.entries).Keys, instance, at),
               maxJobs - |old(leases.entries)|)
        else []
      ensures HasClaimed(old(leases.store.Contents()), leases.store.Contents(), old(leases.entries), held, report.claimed,
        instance, at, leases.ttl)
      ensures report.deferred > 0 ==> |report.claimed| >= maxJobs - |old(leases.entries)|
      ensures admitting && report.deferred == 0 ==>
        forall j | j in candidates && IsFree(old(leases.store.Contents()), j, instance, at) :: j in held
      ensures Round(held, leases.entries, report.passes, report.released, report.failures, report.skipped, driven, dropped)
      ensures |leases.entries.Keys| <= |held.Keys| <= Max(|old(leases.entries).Keys|, maxJobs)
      ensures !admitting ==> leases.entries.Keys <= old(leases.entries).Keys
    {
      hide LeaseKeeper.Valid, AccountedOnce, IsFree, Wanted, Cut, RowsClaimed, Round;
      ghost var before, db := leases.entries, leases.store.Contents();
      var claimed: seq<string>, deferred: nat := [], 0;
      NothingClaimed(db, before, candidates, instance, at, leases.ttl, 0);
      if admitting {
        claimed, deferred := ClaimRunnable(candidates, at);
      }
      held := leases.entries;
      CutFits(db, candidates, before.Keys, instance, at, maxJobs - |before|);
      Capacity(before.Keys, held.Keys, claimed, maxJobs);
      var passes, released, failures, skipped := PassAll(driven, dropped);
      RoundOnlyLetsGo(held, leases.entries, passes, released, failures, skipped, driven, dropped);
      report := Report(claimed, passes, released, failures, skipped, deferred, admitting);
    }
  }

  lemma RoundOnlyLetsGo(held: map<string, Entry>, entries: map<string, Entry>, passes: seq<string>, released: seq<string>,
      failures: seq<string>, skipped: seq<string>, driven: string -> Driven, dropped: string -> set<string>)
    requires Round(held, entries, passes, released, failures, skipped, driven, dropped)
    ensures entries.Keys <= held.Keys && |entries.Keys| <= |held.Keys|
  {
    hide AccountedOnce;
    SubsetIsNoLarger(entries.Keys, held.Keys);
  }

  lemma CutFits(db: Db, candidates: seq<string>, before: set<string>, instance: string, at: int, room: int)
    ensures
      var claimed := Cut(Wanted(db, candidates, |candidates|, before, instance, at), room);
      NoRepeat(claimed) && (forall j | j in claimed :: j in candidates && j !in before) && |claimed| <= Max(room, 0)
  {
    hide IsFree;
    var wanted := Wanted(db, candidates, |candidates|, before, instance, at);
    assert candidates[..|candidates|] == candidates;
    forall j | j in Cut(wanted, room) ensures j in wanted {}
  }

  lemma Capacity(before: set<string>, held: set<string>, claimed: seq<string>, maxJobs: int)
    requires held == before + Members(claimed) && NoRepeat(claimed) && forall j | j in claimed :: j !in before
    requires claimed == [] || |claimed| <= Max(maxJobs - |before|, 0)
    ensures |held| <= Max(|before|, maxJobs)
  {
    MembersCount(claimed);
    assert before !! Members(claimed);
    assert |held| == |before| + |Members(claimed)|;
  }

  lemma {:induction false} MembersCount(jobs: seq<string>)
    requires NoRepeat(jobs)
    ensures |Members(jobs)| == |jobs|
  {
    if jobs != [] {
      var front, last := jobs[..|jobs| - 1], jobs[|jobs| - 1];
      MembersCount(front);
      assert Members(jobs) == Members(front) + {last};
    }
  }

  /** A job that is accounted for is in one of the lists, and in no two. */
  lemma Accounted(jobs: set<string>, passes: seq<string>, failures: seq<string>, skipped: seq<string>, job: string)
    requires AccountedOnce(jobs, passes, failures, skipped) && job in jobs
    ensures job in passes || job in failures || job in skipped
  {
    assert job in Members(passes + failures + skipped);
  }

  lemma SubsetIsNoLarger(a: set<string>, b: set<string>)
    requires a <= b
    ensures |a| <= |b|
  {
    assert |b| == |a| + |b - a|;
  }

  lemma NoneAccounted()
    ensures AccountedOnce({}, [], [], [])
  {
    assert Members([]) == {};
  }
}
