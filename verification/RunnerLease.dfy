/** The lease keeper: it renews what is held, and aborts a job's work the moment this instance can no
    longer show it owns the job. */
module RunnerLease {
  import opened Options
  import opened RunnerStates
  import opened RunnerStore

  datatype LossReason = LOST | UNRENEWABLE | RELEASED

  /** A numbered abort signal: what work under a lease watches. */
  type Signal = nat

  datatype Entry = Entry(lease: Lease, signal: Signal)

  /** What a tick makes of one held lease. */
  datatype Fate = Kept(lease: Lease) | Dropped(reason: LossReason)

  /** A renewal extends the lease; a superseded one ends the hold at once; one that could not be made
      ends it when the margin is reached. */
  function FateOf(db: Db, lease: Lease, at: int, ttl: int, margin: int, answers: bool): Fate {
    if answers && Current(db, lease) then Kept(lease.(expires := at + ttl))
    else if answers && lease.job in db.jobs then Dropped(LOST)
    else if lease.expires - at <= margin then Dropped(UNRENEWABLE)
    else Kept(lease)
  }

  /** When the hold ends and when it goes on: lost exactly when the store answers that another claim has come
      since, given up exactly when nothing is heard and the margin is reached; renewed to a full term exactly when
      the row still names the holder and its fence. */
  lemma FateIsExact(db: Db, lease: Lease, at: int, ttl: int, margin: int, answers: bool)
    ensures
      var heard := answers && lease.job in db.jobs;
      var ours := heard && db.jobs[lease.job].holder == Some(lease.instance) && db.jobs[lease.job].fence == lease.fence;
      var fate := FateOf(db, lease, at, ttl, margin, answers);
      && (fate == Dropped(LOST) <==> heard && !ours)
      && (fate == Dropped(UNRENEWABLE) <==> !heard && lease.expires <= at + margin)
      && (fate.Kept? <==> ours || (!heard && lease.expires > at + margin))
      && (fate.Kept? ==> fate.lease == Lease(lease.job, lease.instance, lease.fence, if ours then at + ttl else lease.expires))
  {
  }

  /** What a tick leaves of a held job's row, and what giving it back does. */
  function RenewedRow(row: Job, lease: Lease, answers: bool, at: int, ttl: int): Job {
    if answers && row.holder == Some(lease.instance) && row.fence == lease.fence then row.(leaseExpires := Some(at + ttl)) else row
  }

  function ReleasedRow(row: Job, lease: Lease, answers: bool): Job {
    if answers && row.holder == Some(lease.instance) && row.fence == lease.fence
    then row.(holder := None, leaseExpires := None) else row
  }

  /** The rows of the holds outside `rest` have been renewed; every other row is as it was. */
  ghost predicate RowsRenewed(before: map<string, Job>, after: map<string, Job>, holds: map<string, Entry>, rest: set<string>,
      at: int, ttl: int, answers: string -> bool)
  {
    && after.Keys == before.Keys
    && forall j | j in before :: after[j] ==
         if j in holds && j !in rest then RenewedRow(before[j], holds[j].lease, answers(j), at, ttl) else before[j]
  }

  ghost predicate RowsReleased(before: map<string, Job>, after: map<string, Job>, holds: map<string, Entry>, rest: set<string>,
      answers: string -> bool)
  {
    && after.Keys == before.Keys
    && forall j | j in before :: after[j] ==
         if j in holds && j !in rest then ReleasedRow(before[j], holds[j].lease, answers(j)) else before[j]
  }

  /** Only the lease's own row decides its fate. */
  lemma FateOfRow(db: Db, after: Db, lease: Lease, at: int, ttl: int, margin: int, answers: bool)
    requires lease.job in after.jobs <==> lease.job in db.jobs
    requires lease.job in db.jobs ==> after.jobs[lease.job] == db.jobs[lease.job]
    ensures FateOf(after, lease, at, ttl, margin, answers) == FateOf(db, lease, at, ttl, margin, answers)
  {
  }

  /** A lease that is kept outlasts the margin, however it was kept. */
  lemma KeptOutlasts(db: Db, lease: Lease, at: int, ttl: int, margin: int, answers: bool)
    requires margin < ttl
    ensures
      var fate := FateOf(db, lease, at, ttl, margin, answers);
      fate.Kept? ==> fate.lease.expires > at + margin && fate.lease.job == lease.job
  {
  }

  /** What is held once a hold has met its fate. */
  function Holding(entries: map<string, Entry>, job: string, fate: Fate): map<string, Entry>
    requires job in entries
  {
    match fate
    case Kept(lease) => entries[job := Entry(lease, entries[job].signal)]
    case Dropped(_) => entries - {job}
  }

  /** A hold has met its fate: it goes on under the renewed lease, or it is over and its work aborted. */
  predicate Met(entries: map<string, Entry>, aborted: set<Signal>, lost: map<string, LossReason>, job: string,
    entry: Entry, fate: Fate)
  {
    match fate
    case Kept(lease) => job in entries && entries[job] == Entry(lease, entry.signal) && job !in lost
    case Dropped(reason) => job !in entries && job in lost && lost[job] == reason && entry.signal in aborted
  }

  class LeaseKeeper {
    const store: JobStore
    const instance: string
    const ttl: int
    const margin: int
    var entries: map<string, Entry>
    var issued: nat
    var aborted: set<Signal>
    var stopped: bool

    /** What is held has not been aborted, and no two jobs share a signal. */
    ghost predicate Valid()
      reads this
    {
      && margin < ttl
      && (forall j | j in entries ::
          entries[j].lease.job == j && entries[j].signal < issued && entries[j].signal !in aborted)
      && (forall i, j | i in entries && j in entries && entries[i].signal == entries[j].signal :: i == j)
      && (forall s | s in aborted :: s < issued)
    }

    constructor (store: JobStore, instance: string, ttl: int, margin: int)
      requires margin < ttl
      ensures Valid() && entries == map[] && this.store == store
      ensures this.instance == instance && this.ttl == ttl && this.margin == margin
    {
      this.store, this.instance, this.ttl, this.margin := store, instance, ttl, margin;
      entries, issued, aborted, stopped := map[], 0, {}, false;
    }

    /** A new hold gets a new signal, a job already held keeps the one it has. */
    method Hold(lease: Lease) returns (signal: Signal)
      requires Valid()
      modifies this`entries, this`issued
      ensures Valid() && signal !in aborted
      ensures entries == old(entries)[lease.job := Entry(lease, signal)]
      ensures lease.job in old(entries) ==> signal == old(entries)[lease.job].signal
    {
      if lease.job in entries {
        signal := entries[lease.job].signal;
      } else {
        signal := issued;
        issued := issued + 1;
      }
      entries := entries[lease.job := Entry(lease, signal)];
    }

    /** Ends a hold and aborts its work. */
    method Drop(job: string)
      requires Valid() && job in entries
      modifies this`entries, this`aborted
      ensures Valid() && entries == old(entries) - {job}
      ensures aborted == old(aborted) + {old(entries)[job].signal}
    {
      var signal := entries[job].signal;
      entries := entries - {job};
      aborted := aborted + {signal};
    }

    /** Ends a hold without a word to the store, where the lease is gone with the job's end. */
    method Forget(job: string)
      requires Valid()
      modifies this`entries, this`aborted
      ensures Valid() && entries == old(entries) - {job}
      ensures aborted == old(aborted) + if job in old(entries) then {old(entries)[job].signal} else {}
    {
      if job in entries {
        Drop(job);
      }
    }

    /** Hands the job back. The work is stopped before the store is asked. */
    method Release(job: string, answers: bool)
      requires Valid()
      modifies this`entries, this`aborted, store
      ensures Valid() && entries == old(entries) - {job}
      ensures aborted == old(aborted) + if job in old(entries) then {old(entries)[job].signal} else {}
      ensures
        if job in old(entries) && answers && Apply(old(store.Contents()), old(entries)[job].lease, RunnerStore.Release).Ok?
        then store.Contents() == Apply(old(store.Contents()), old(entries)[job].lease, RunnerStore.Release).value
        else store.Contents() == old(store.Contents())
    {
      if job !in entries {
        return;
      }
      var entry := entries[job];
      Drop(job);
      if answers {
        var done := store.ReleaseJob(entry.lease);
      }
    }

    /** One turn of the loop in a tick. `answers` says whether the store can be reached for this job. */
    method RenewOne(job: string, at: int, answers: bool) returns (lost: map<string, LossReason>)
      requires Valid() && job in entries
      modifies this`entries, this`aborted, store
      ensures Valid()
      ensures store.jobs.Keys == old(store.jobs).Keys && store.instances == old(store.instances)
      ensures forall j | j in store.jobs && j != job :: store.jobs[j] == old(store.jobs)[j]
      ensures job in store.jobs ==>
        store.jobs[job] == RenewedRow(old(store.jobs)[job], old(entries)[job].lease, answers, at, ttl)
      ensures
        var fate := FateOf(old(store.Contents()), old(entries)[job].lease, at, ttl, margin, answers);
        && entries == Holding(old(entries), job, fate)
        && lost == (if fate.Kept? then map[] else map[job := fate.reason])
        && aborted == old(aborted) + if fate.Kept? then {} else {old(entries)[job].signal}
    {
      var entry := entries[job];
      if answers {
        var renewed := store.RenewLease(entry.lease, at, ttl);
        if renewed.Ok? {
          entries := entries[job := entry.(lease := renewed.value)];
          return map[];
        }
        if renewed.error == LEASE_LOST {
          Drop(job);
          return map[job := LOST];
        }
      }
      if entry.lease.expires - at <= margin {
        Drop(job);
        return map[job := UNRENEWABLE];
      }
      assert entries == entries[job := entry];
      return map[];
    }

    /** Every hold outside `rest` has met its fate, those in it are as they were. */
    ghost predicate Halfway(before: map<string, Entry>, db: Db, at: int, answers: string -> bool,
        lost: map<string, LossReason>, rest: set<string>)
      reads this, store
    {
      && rest <= entries.Keys <= before.Keys && lost.Keys <= before.Keys - rest
      && store.jobs.Keys == db.jobs.Keys && store.instances == db.instances
      && (forall j | j in rest :: entries[j] == before[j] && before[j].lease.job == j)
      && (forall j | j in rest && j in db.jobs :: store.jobs[j] == db.jobs[j])
      && (forall j | j in before && j !in rest ::
          Met(entries, aborted, lost, j, before[j], FateOf(db, before[j].lease, at, ttl, margin, answers(j))))
    }

    method RenewNext(job: string, at: int, answers: string -> bool, lost: map<string, LossReason>,
        ghost before: map<string, Entry>, ghost db: Db, ghost rest: set<string>)
      returns (more: map<string, LossReason>)
      requires Valid() && job in rest && Halfway(before, db, at, answers, lost, rest)
      modifies this`entries, this`aborted, store
      ensures Valid() && old(aborted) <= aborted && Halfway(before, db, at, answers, more, rest - {job})
      ensures store.jobs.Keys == old(store.jobs).Keys && forall j | j in store.jobs ::
        store.jobs[j] == if j == job then RenewedRow(old(store.jobs)[j], before[j].lease, answers(j), at, ttl) else old(store.jobs)[j]
    {
      hide FateOf, Met, Holding, Valid, Current, RenewedRow;
      ghost var held, over := entries, aborted;
      ghost var fate := FateOf(db, before[job].lease, at, ttl, margin, answers(job));
      FateOfRow(db, store.Contents(), entries[job].lease, at, ttl, margin, answers(job));
      var gone := RenewOne(job, at, answers(job));
      more := lost + gone;
      AllMeet(before, rest, held, over, lost, job, fate,
        map j | j in before :: FateOf(db, before[j].lease, at, ttl, margin, answers(j)));
    }

    /** One pass: the instance's heartbeat, then everything held. `beats` says whether the heartbeat gets
        through; a missed one ends no hold. Whatever is still held afterwards outlasts the margin, and
        work is aborted exactly where the hold ended. */
    method Tick(at: int, beats: bool, answers: string -> bool) returns (lost: map<string, LossReason>)
      requires Valid()
      modifies this`entries, this`aborted, store
      ensures Valid() && entries.Keys <= old(entries).Keys && old(aborted) <= aborted
      ensures
        var beat := ApplyHeartbeat(old(store.Contents()), instance, at);
        store.instances == if beats && beat.Ok? then beat.value.instances else old(store.instances)
      ensures forall j | j in old(entries) ::
        Met(entries, aborted, lost, j, old(entries)[j],
          FateOf(old(store.Contents()), old(entries)[j].lease, at, ttl, margin, answers(j)))
      ensures forall j | j in entries :: entries[j].lease.expires > at + margin
      ensures RowsRenewed(old(store.jobs), store.jobs, old(entries), {}, at, ttl, answers)
    {
      hide Met, RowsRenewed;
      if beats {
        var beat := store.Heartbeat(instance, at);
      }
      lost := RenewAll(at, answers);
    }

    method RenewAll(at: int, answers: string -> bool) returns (lost: map<string, LossReason>)
      requires Valid()
      modifies this`entries, this`aborted, store
      ensures Valid() && entries.Keys <= old(entries).Keys && old(aborted) <= aborted && store.instances == old(store.instances)
      ensures forall j | j in old(entries) ::
        Met(entries, aborted, lost, j, old(entries)[j],
          FateOf(old(store.Contents()), old(entries)[j].lease, at, ttl, margin, answers(j)))
      ensures forall j | j in entries :: entries[j].lease.expires > at + margin
      ensures RowsRenewed(old(store.jobs), store.jobs, old(entries), {}, at, ttl, answers)
    {
      hide FateOf, Met, RenewedRow, RowsRenewed;
      lost := map[];
      NoneRenewed(store.jobs, entries, at, ttl, answers);
      var rest := entries.Keys;
      ghost var before, db := entries, store.Contents();
      while rest != {}
        invariant Valid() && old(aborted) <= aborted && Halfway(before, db, at, answers, lost, rest)
        invariant RowsRenewed(db.jobs, store.jobs, before, rest, at, ttl, answers)
        decreases |rest|
      {
        var job :| job in rest;
        ghost var middle := store.jobs;
        lost := RenewNext(job, at, answers, lost, before, db, rest);
        RenewedOn(db.jobs, middle, store.jobs, before, rest, job, at, ttl, answers);
        rest := rest - {job};
      }
      forall j | j in entries ensures entries[j].lease.expires > at + margin {
        MetOutlasts(entries, aborted, lost, j, before[j], db, at, ttl, margin, answers(j));
      }
    }

    /** The keeper's own end: each hold is released in turn. */
    method Stop(answers: string -> bool)
      requires Valid()
      modifies this`entries, this`aborted, this`stopped, store
      ensures Valid() && stopped && entries == map[]
      ensures forall j | j in old(entries) :: old(entries)[j].signal in aborted
      ensures RowsReleased(old(store.jobs), store.jobs, old(entries), {}, answers)
    {
      hide RowsReleased, Halted;
      stopped := true;
      var rest := entries.Keys;
      ghost var before, jobs := entries, store.jobs;
      NoneReleased(jobs, before, answers);
      NoneHalted(entries, aborted);
      while rest != {}
        invariant Valid() && stopped && Halted(entries, aborted, before, rest)
        invariant RowsReleased(jobs, store.jobs, before, rest, answers)
        decreases |rest|
      {
        var job :| job in rest;
        ghost var held, over := entries, aborted;
        HaltedNext(held, over, before, rest, job);
        StopNext(job, answers, jobs, before, rest);
        rest := rest - {job};
      }
      AllHalted(entries, aborted, before);
    }

    method StopNext(job: string, answers: string -> bool, ghost jobs: map<string, Job>, ghost before: map<string, Entry>,
        ghost rest: set<string>)
      requires Valid() && job in rest && job in entries && job in before && entries[job] == before[job]
      requires RowsReleased(jobs, store.jobs, before, rest, answers)
      modifies this`entries, this`aborted, store
      ensures Valid() && entries == old(entries) - {job} && aborted == old(aborted) + {before[job].signal}
      ensures RowsReleased(jobs, store.jobs, before, rest - {job}, answers)
    {
      hide RowsReleased, ReleasedRow;
      ghost var middle := store.jobs;
      ReleaseGivesBack(store.Contents(), entries[job].lease, answers(job));
      Release(job, answers(job));
      ReleasedOn(jobs, middle, store.jobs, before, rest, job, answers);
    }
  }

  lemma NoneRenewed(jobs: map<string, Job>, holds: map<string, Entry>, at: int, ttl: int, answers: string -> bool)
    ensures RowsRenewed(jobs, jobs, holds, holds.Keys, at, ttl, answers)
  {
  }

  /** Every hold outside `rest` is over and its work aborted; the others are as they were. */
  ghost predicate Halted(entries: map<string, Entry>, aborted: set<Signal>, before: map<string, Entry>, rest: set<string>) {
    && rest == entries.Keys <= before.Keys
    && (forall j | j in rest :: entries[j] == before[j])
    && (forall j | j in before && j !in rest :: before[j].signal in aborted)
  }

  lemma NoneHalted(entries: map<string, Entry>, aborted: set<Signal>)
    ensures Halted(entries, aborted, entries, entries.Keys)
  {
  }

  lemma HaltedNext(entries: map<string, Entry>, aborted: set<Signal>, before: map<string, Entry>, rest: set<string>, job: string)
    requires Halted(entries, aborted, before, rest) && job in rest
    ensures job in entries && job in before && entries[job] == before[job]
    ensures Halted(entries - {job}, aborted + {before[job].signal}, before, rest - {job})
  {
  }

  lemma AllHalted(entries: map<string, Entry>, aborted: set<Signal>, before: map<string, Entry>)
    requires Halted(entries, aborted, before, {})
    ensures entries == map[] && forall j | j in before :: before[j].signal in aborted
  {
  }

  lemma NoneReleased(jobs: map<string, Job>, holds: map<string, Entry>, answers: string -> bool)
    ensures RowsReleased(jobs, jobs, holds, holds.Keys, answers)
  {
  }

  lemma ReleasedOn(before: map<string, Job>, middle: map<string, Job>, after: map<string, Job>, holds: map<string, Entry>,
      rest: set<string>, job: string, answers: string -> bool)
    requires RowsReleased(before, middle, holds, rest, answers) && job in rest && job in holds
    requires after.Keys == middle.Keys && forall j | j in middle && j != job :: after[j] == middle[j]
    requires job in middle ==> after[job] == ReleasedRow(middle[job], holds[job].lease, answers(job))
    ensures RowsReleased(before, after, holds, rest - {job}, answers)
  {
    hide ReleasedRow;
  }

  lemma RenewedOn(before: map<string, Job>, middle: map<string, Job>, after: map<string, Job>, holds: map<string, Entry>,
      rest: set<string>, job: string, at: int, ttl: int, answers: string -> bool)
    requires RowsRenewed(before, middle, holds, rest, at, ttl, answers) && job in rest && job in holds
    requires after.Keys == middle.Keys && forall j | j in middle && j != job :: after[j] == middle[j]
    requires job in middle ==> after[job] == RenewedRow(middle[job], holds[job].lease, answers(job), at, ttl)
    ensures RowsRenewed(before, after, holds, rest - {job}, at, ttl, answers)
  {
    hide RenewedRow;
  }

  /** What the store makes of a release, refused or not. */
  lemma ReleaseGivesBack(db: Db, lease: Lease, answers: bool)
    ensures
      var after := if answers && Apply(db, lease, Release).Ok? then Apply(db, lease, Release).value else db;
      && after.jobs.Keys == db.jobs.Keys
      && (forall j | j in db.jobs :: after.jobs[j] == if j == lease.job then ReleasedRow(db.jobs[j], lease, answers) else db.jobs[j])
  {
  }

  /** One hold more has met its fate, and the others have met theirs as before. */
  lemma AllMeet(before: map<string, Entry>, rest: set<string>, held: map<string, Entry>, over: set<Signal>,
      lost: map<string, LossReason>, job: string, fate: Fate, fates: map<string, Fate>)
    requires rest <= held.Keys <= before.Keys && lost.Keys <= before.Keys - rest && job in rest
    requires forall j | j in rest :: held[j] == before[j]
    requires fates.Keys == before.Keys
    requires fate == fates[job] && forall j | j in before && j !in rest :: Met(held, over, lost, j, before[j], fates[j])
    ensures
      var entries, aborted := Holding(held, job, fate), over + if fate.Kept? then {} else {held[job].signal};
      var more := lost + if fate.Kept? then map[] else map[job := fate.reason];
      && rest - {job} <= entries.Keys <= before.Keys && more.Keys <= before.Keys - (rest - {job})
      && (forall j | j in rest - {job} :: entries[j] == before[j])
      && (forall j | j in before && j !in rest - {job} :: Met(entries, aborted, more, j, before[j], fates[j]))
  {
    MeetsFate(held, over, lost, job, fate);
    forall j | j in before && j !in rest
      ensures Met(Holding(held, job, fate), over + (if fate.Kept? then {} else {held[job].signal}),
        lost + (if fate.Kept? then map[] else map[job := fate.reason]), j, before[j], fates[j])
    {
      StillMet(held, over, lost, job, fate, j, before[j], fates[j]);
    }
  }

  lemma MeetsFate(entries: map<string, Entry>, aborted: set<Signal>, lost: map<string, LossReason>, job: string, fate: Fate)
    requires job in entries && job !in lost
    ensures Met(Holding(entries, job, fate), aborted + (if fate.Kept? then {} else {entries[job].signal}),
      lost + (if fate.Kept? then map[] else map[job := fate.reason]), job, entries[job], fate)
  {
  }

  lemma StillMet(entries: map<string, Entry>, aborted: set<Signal>, lost: map<string, LossReason>, job: string, fate: Fate,
      j: string, entry: Entry, other: Fate)
    requires job in entries && j != job && Met(entries, aborted, lost, j, entry, other)
    ensures Met(Holding(entries, job, fate), aborted + (if fate.Kept? then {} else {entries[job].signal}),
      lost + (if fate.Kept? then map[] else map[job := fate.reason]), j, entry, other)
  {
  }

  lemma MetOutlasts(entries: map<string, Entry>, aborted: set<Signal>, lost: map<string, LossReason>, job: string,
      entry: Entry, db: Db, at: int, ttl: int, margin: int, answers: bool)
    requires margin < ttl && job in entries
    requires Met(entries, aborted, lost, job, entry, FateOf(db, entry.lease, at, ttl, margin, answers))
    ensures entries[job].lease.expires > at + margin
  {
    KeptOutlasts(db, entry.lease, at, ttl, margin, answers);
  }
}
