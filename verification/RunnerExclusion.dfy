/** Time and leases: when a safety margin keeps two instances from writing for one job at once. Time
    is in whole milliseconds, as the store's instants are. */
module RunnerExclusion {
  import opened Options
  import opened RunnerStates
  import opened RunnerStore
  import opened RunnerLease

  /** `interval` is the most that passes from one reading of the clock by the keeper to its next
      decision about the job, `duration` the longest a write lasts. */
  datatype Timing = Timing(ttl: int, margin: int, interval: int, duration: int)

  ghost predicate IsTiming(p: Timing) {
    0 <= p.margin < p.ttl && p.interval >= 1 && p.duration >= 0
  }

  /** One instance's hold on a job, from its claim at time 0: when the lease expires in the store, the
      clock reading behind the keeper's last decision, whether the work was aborted, the start times
      of writes still running, and whether the lease was given back or another instance has claimed. */
  datatype Hold = Hold(now: int, expires: int, lastReading: int, aborted: bool, running: set<int>, released: bool,
    claimed: bool)

  function Claimed(p: Timing): Hold {
    Hold(0, p.ttl, 0, false, {}, false, false)
  }

  /** A keeper tick reads the clock once and then goes through its holds one after the other, so it
      decides about this one on a reading that may be past. `answers` says whether the store does. */
  datatype Event =
    | Wait
    | Decide(reading: int, answers: bool)
    | StartWrite
    | EndWrite(start: int)
    | GiveBack
    | OtherClaims

  function Decided(p: Timing, h: Hold, reading: int, answers: bool): Hold {
    if answers && !h.claimed then h.(expires := reading + p.ttl, lastReading := reading)
    else h.(lastReading := reading, aborted := answers || h.expires - reading <= p.margin)
  }

  ghost predicate Next(p: Timing, h: Hold, e: Event, after: Hold) {
    match e
    case Wait =>
      // No decision is overdue while the work goes on, and no write outlasts its bound.
      && (h.aborted || h.now + 1 - h.lastReading <= p.interval)
      && (forall s | s in h.running :: h.now + 1 - s <= p.duration)
      && after == h.(now := h.now + 1)
    case Decide(reading, answers) =>
      !h.aborted && reading <= h.now <= reading + p.interval && after == Decided(p, h, reading, answers)
    case StartWrite => !h.aborted && after == h.(running := h.running + {h.now})
    case EndWrite(s) => s in h.running && after == h.(running := h.running - {s})
    case GiveBack => h.running == {} && after == h.(aborted := true, released := true)
    case OtherClaims =>
      !h.claimed && (h.released || h.expires <= h.now) && after == h.(claimed := true)
  }

  ghost predicate Run(p: Timing, holds: seq<Hold>, events: seq<Event>) {
    && |holds| == |events| + 1 && holds[0] == Claimed(p)
    && forall n :: 0 <= n < |events| ==> Next(p, holds[n], events[n], holds[n + 1])
  }

  ghost predicate Reached(p: Timing, h: Hold) {
    exists holds, events :: Run(p, holds, events) && holds[|holds| - 1] == h
  }

  /** From the moment another instance's claim goes through, no write runs here, and none can start. */
  predicate Exclusive(h: Hold) {
    h.claimed ==> h.running == {} && h.aborted
  }

  // ---------- The events are what the keeper and the store do ----------

  /** The store's row and the keeper's lease stand as the hold says. */
  ghost predicate Shows(db: Db, lease: Lease, h: Hold) {
    && lease.job in db.jobs && !Terminal(db.jobs[lease.job].state)
    && lease.expires == h.expires
    && (h.claimed <==> lease.fence < db.jobs[lease.job].fence)
    && (!h.claimed ==> db.jobs[lease.job].fence == lease.fence)
    && (!h.claimed && !h.released ==>
        db.jobs[lease.job].holder == Some(lease.instance) && db.jobs[lease.job].leaseExpires == Some(h.expires))
    && (!h.claimed && h.released ==> db.jobs[lease.job].holder.None?)
  }

  /** What one round of the keeper leaves of the database: renewed, if the store answers and the lease is
      current. */
  ghost function AfterRound(db: Db, lease: Lease, reading: int, ttl: int, answers: bool): Db {
    if answers && Apply(db, lease, Renew(reading, ttl)).Ok? then Apply(db, lease, Renew(reading, ttl)).value else db
  }

  /** The keeper drops a hold exactly when the event aborts it, and otherwise keeps it under the lease
      the event says. */
  lemma DecideIsFate(p: Timing, h: Hold, db: Db, lease: Lease, reading: int, answers: bool)
    requires Shows(db, lease, h) && !h.aborted && !h.released
    ensures
      var fate, after := FateOf(db, lease, reading, p.ttl, p.margin, answers), Decided(p, h, reading, answers);
      && (fate.Kept? <==> !after.aborted)
      && (fate.Kept? ==> Shows(AfterRound(db, lease, reading, p.ttl, answers), fate.lease, after))
  {
    hide SpecOf;
  }

  /** A claim by another instance, on a clock that is not ahead, succeeds only when the event can
      happen; read at that very time it succeeds exactly then. */
  lemma ClaimIsEvent(p: Timing, h: Hold, db: Db, lease: Lease, other: string, at: int, ttl: int)
    requires Shows(db, lease, h) && !h.claimed && other in db.instances && other != lease.instance && at <= h.now
    ensures
      var claim, after := ApplyClaim(db, lease.job, other, at, ttl), h.(claimed := true);
      && claim.Ok?
      && (claim.value.1.Some? ==> Next(p, h, OtherClaims, after) && Shows(claim.value.0, lease, after))
      && (at == h.now ==> (claim.value.1.Some? <==> Next(p, h, OtherClaims, after)))
  {
    hide SpecOf;
  }

  /** Giving a lease back is releasing it in the store. */
  lemma ReleaseIsEvent(p: Timing, h: Hold, db: Db, lease: Lease)
    requires Shows(db, lease, h) && !h.claimed && !h.released && h.running == {}
    ensures Apply(db, lease, Release).Ok?
    ensures
      var after := h.(aborted := true, released := true);
      Next(p, h, GiveBack, after) && Shows(Apply(db, lease, Release).value, lease, after)
  {
    hide SpecOf;
  }

  /** A claim starts a hold. */
  lemma ClaimStarts(p: Timing, db: Db, job: string, instance: string)
    requires ApplyClaim(db, job, instance, 0, p.ttl).Ok? && ApplyClaim(db, job, instance, 0, p.ttl).value.1.Some?
    ensures
      var (after, lease) := ApplyClaim(db, job, instance, 0, p.ttl).value;
      Shows(after, lease.value, Claimed(p))
  {
    hide SpecOf;
  }

  // ---------- A wide enough margin excludes ----------

  ghost predicate Inv(p: Timing, h: Hold) {
    && h.lastReading <= h.now
    && (!h.aborted ==> h.lastReading + p.margin < h.expires && h.now <= h.lastReading + p.interval && !h.released)
    && (forall s | s in h.running :: s <= h.now <= s + p.duration < h.expires)
    && (h.released ==> h.running == {})
    && Exclusive(h)
  }

  lemma NextKeeps(p: Timing, h: Hold, e: Event, after: Hold)
    requires IsTiming(p) && p.margin >= p.interval + p.duration && Inv(p, h) && Next(p, h, e, after)
    ensures Inv(p, after)
  {
  }

  lemma {:induction false} RunKeeps(p: Timing, holds: seq<Hold>, events: seq<Event>, n: nat)
    requires IsTiming(p) && p.margin >= p.interval + p.duration && Run(p, holds, events) && n < |holds|
    ensures Inv(p, holds[n])
  {
    hide Inv, Next;
    if n == 0 {
      StartHolds(p);
    } else {
      RunKeeps(p, holds, events, n - 1);
      NextKeeps(p, holds[n - 1], events[n - 1], holds[n]);
    }
  }

  lemma StartHolds(p: Timing)
    requires IsTiming(p)
    ensures Inv(p, Claimed(p))
  {
  }

  // ---------- A narrower one does not ----------

  lemma ReachNext(p: Timing, h: Hold, e: Event, after: Hold)
    requires Reached(p, h) && Next(p, h, e, after)
    ensures Reached(p, after)
  {
    hide Next;
    var holds, events :| Run(p, holds, events) && holds[|holds| - 1] == h;
    var more, also := holds + [after], events + [e];
    forall n | 0 <= n < |also| ensures Next(p, more[n], also[n], more[n + 1]) {
      assert n < |events| ==> Next(p, holds[n], events[n], holds[n + 1]);
    }
    assert Run(p, more, also) && more[|more| - 1] == after;
  }

  /** The store stays out of reach: the keeper decides and keeps, until the margin is one away. */
  lemma {:induction false} KeptWaiting(p: Timing, t: nat)
    requires IsTiming(p) && t < p.ttl - p.margin
    ensures Reached(p, Hold(t, p.ttl, t, false, {}, false, false))
  {
    hide Reached;
    if t == 0 {
      StartReached(p);
    } else {
      KeptWaiting(p, t - 1);
      var h := Hold(t - 1, p.ttl, t - 1, false, {}, false, false);
      ReachNext(p, h, Wait, h.(now := t));
      ReachNext(p, h.(now := t), Decide(t, false), Hold(t, p.ttl, t, false, {}, false, false));
    }
  }

  lemma StartReached(p: Timing)
    ensures Reached(p, Claimed(p))
  {
    assert Run(p, [Claimed(p)], []);
  }

  lemma {:induction false} Waiting(p: Timing, h: Hold, until: int)
    requires Reached(p, h) && h.now <= until
    requires h.aborted || until - h.lastReading <= p.interval
    requires forall s | s in h.running :: until - s <= p.duration
    ensures Reached(p, h.(now := until))
    decreases until - h.now
  {
    hide Reached;
    if h.now < until {
      ReachNext(p, h, Wait, h.(now := h.now + 1));
      Waiting(p, h.(now := h.now + 1), until);
    }
  }

  /** A write started just before the keeper notices is still running when the lease runs out. */
  lemma NarrowMarginFails(p: Timing)
    requires IsTiming(p) && p.margin < p.interval + p.duration
    ensures exists h :: Reached(p, h) && !Exclusive(h)
  {
    hide Reached;
    var t := p.ttl - p.margin - 1;
    var s := if t + p.interval <= p.ttl then t + p.interval else p.ttl;
    KeptWaiting(p, t);
    var h0 := Hold(t, p.ttl, t, false, {}, false, false);
    Waiting(p, h0, s);
    var h1 := h0.(now := s);
    var h2 := h1.(running := {s});
    assert h1.running + {s} == {s};
    ReachNext(p, h1, StartWrite, h2);
    var h3 := h2.(lastReading := s, aborted := true);
    ReachNext(p, h2, Decide(s, false), h3);
    Waiting(p, h3, p.ttl);
    var h4 := h3.(now := p.ttl);
    var h5 := h4.(claimed := true);
    ReachNext(p, h4, OtherClaims, h5);
    assert s in h5.running;
  }

  /** The margin must be at least the longest time from a clock reading to the next decision plus the
      longest write: that, and nothing less, keeps two instances from writing at once. */
  lemma MarginIsExact(p: Timing)
    requires IsTiming(p)
    ensures (forall h :: Reached(p, h) ==> Exclusive(h)) <==> p.margin >= p.interval + p.duration
  {
    if p.margin >= p.interval + p.duration {
      forall h | Reached(p, h) ensures Exclusive(h) {
        var holds, events :| Run(p, holds, events) && holds[|holds| - 1] == h;
        RunKeeps(p, holds, events, |holds| - 1);
      }
    } else {
      NarrowMarginFails(p);
    }
  }
}
