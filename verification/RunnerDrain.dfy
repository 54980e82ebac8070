/** Rounds that never overlap, and the drain: refuse new work, then wait for this instance's own
    requests to be resolved, no longer than the deadline. */
module RunnerDrain {
  import opened Options
  import opened RunnerStore
  import opened RunnerLease
  import RunnerScheduler

  // ---------- One round at a time ----------

  /** A call of `tick` starts a round, or joins the one that is running and gets its report. */
  class TickGate {
    var inFlight: Option<nat>
    var started: nat

    constructor ()
      ensures inFlight.None? && started == 0
    {
      inFlight, started := None, 0;
    }

    /** Rounds are numbered in the order they start. */
    ghost predicate Valid()
      reads this
    {
      inFlight.Some? ==> inFlight.value + 1 == started
    }

    method Call() returns (round: nat, joined: bool)
      requires Valid()
      modifies this
      ensures Valid() && inFlight == Some(round)
      ensures joined <==> old(inFlight).Some?
      ensures joined ==> round == old(inFlight).value && started == old(started)
      ensures !joined ==> round == old(started) && started == old(started) + 1
    {
      if inFlight.Some? {
        return inFlight.value, true;
      }
      round, joined := started, false;
      inFlight, started := Some(started), started + 1;
    }

    method Finish()
      requires Valid() && inFlight.Some?
      modifies this
      ensures Valid() && inFlight.None? && started == old(started)
    {
      inFlight := None;
    }
  }

  // ---------- The drain ----------

  /** What the store and the clock show at each poll: the open attempts, and the time. A round and a sleep
      separate two polls. */
  datatype Poll = Poll(open: set<string>, at: int)

  datatype DrainReport = DrainReport(settled: bool, deadlineExceeded: bool, waited: nat, settling: set<string>,
    inherited: set<string>, polls: nat)

  function Waited(poll: Poll, started: int): nat {
    if poll.at >= started then poll.at - started else 0
  }

  /** A poll at which the wait ends: nothing of this instance's is open, or the deadline has come. */
  ghost predicate Ends(poll: Poll, started: int, deadline: int, begunBy: string -> string, instance: string) {
    Waited(poll, started) >= deadline || forall a | a in poll.open :: begunBy(a) != instance
  }

  class DrainController {
    const instance: string
    var beganAt: Option<int>
    var running: bool

    constructor (instance: string)
      ensures this.instance == instance && beganAt.None? && !running
    {
      this.instance, beganAt, running := instance, None, false;
    }

    predicate Admitting()
      reads this
    {
      beganAt.None?
    }

    /** A call of `drain`: admission closes before anything is awaited, and stays closed. A call during
        a drain joins it. */
    method Enter(now: int) returns (joined: bool)
      modifies this
      ensures !Admitting() && running && (joined <==> old(running))
      ensures beganAt == if old(beganAt).Some? then old(beganAt) else Some(now)
    {
      if beganAt.None? {
        beganAt := Some(now);
      }
      joined := running;
      running := true;
    }

    /** Sorts the open attempts of a poll into this instance's and everybody else's. */
    method Snapshot(open: set<string>, begunBy: string -> string) returns (mine: set<string>, theirs: set<string>)
      ensures mine == set a | a in open && begunBy(a) == instance
      ensures theirs == open - mine
    {
      mine, theirs := {}, {};
      var rest := open;
      while rest != {}
        invariant rest <= open
        invariant mine == set a | a in open - rest && begunBy(a) == instance
        invariant theirs == (open - rest) - mine
      {
        var a :| a in rest;
        rest := rest - {a};
        if begunBy(a) == instance {
          mine := mine + {a};
        } else {
          theirs := theirs + {a};
        }
      }
    }

    /** The wait, of the call that did not join: it stops at the first poll that ends it, whatever the poll
        interval. Then the next call may start another. */
    method RunDrain(started: int, deadline: int, polls: nat -> Poll, begunBy: string -> string, ghost last: nat)
      returns (report: DrainReport)
      requires running && Ends(polls(last), started, deadline, begunBy, instance)
      modifies this
      ensures !running && beganAt == old(beganAt)
      ensures 0 < report.polls <= last + 1
      ensures
        var poll := polls(report.polls - 1);
        && Ends(poll, started, deadline, begunBy, instance)
        && report.settling == (set a | a in poll.open && begunBy(a) == instance)
        && report.inherited == poll.open - report.settling
        && report.waited == Waited(poll, started)
      ensures forall n: nat | n < report.polls - 1 :: !Ends(polls(n), started, deadline, begunBy, instance)
      ensures report.settled <==> report.settling == {}
      ensures report.deadlineExceeded <==> !report.settled
    {
      var n: nat := 0;
      while true
        invariant running && beganAt == old(beganAt) && n <= last
        invariant forall k: nat | k < n :: !Ends(polls(k), started, deadline, begunBy, instance)
        decreases last - n
      {
        var poll := polls(n);
        var mine, theirs := Snapshot(poll.open, begunBy);
        assert forall a | a in poll.open :: begunBy(a) == instance <==> a in mine;
        var waited := Waited(poll, started);
        if mine == {} {
          running := false;
          return DrainReport(true, false, waited, mine, theirs, n + 1);
        }
        if waited >= deadline {
          running := false;
          return DrainReport(false, true, waited, mine, theirs, n + 1);
        }
        var a :| a in mine;
        assert a in poll.open && begunBy(a) == instance;
        n := n + 1;
      }
    }
  }

  /** Between two polls the clock moves on by the interval. */
  ghost predicate Polling(polls: nat -> Poll, started: int, interval: int) {
    && polls(0).at >= started
    && forall n: nat :: polls(n).at + interval <= polls(n + 1).at
  }

  lemma {:induction false} ClockMovesOn(polls: nat -> Poll, started: int, interval: int, n: nat)
    requires Polling(polls, started, interval)
    ensures polls(n).at >= started + n * interval
  {
    if n > 0 {
      ClockMovesOn(polls, started, interval, n - 1);
      assert polls(n - 1).at + interval <= polls(n - 1 + 1).at;
      assert (n - 1) * interval + interval == n * interval;
    }
  }

  /** So with a positive interval the wait ends by the poll that many intervals fill the deadline. */
  lemma WaitEnds(polls: nat -> Poll, started: int, deadline: int, interval: int, begunBy: string -> string, instance: string,
      n: nat)
    requires Polling(polls, started, interval) && interval > 0 && n * interval >= deadline
    ensures Ends(polls(n), started, deadline, begunBy, instance)
  {
    ClockMovesOn(polls, started, interval, n);
    assert n * interval >= 0;
  }

  /** The scheduler asks the drain before it claims. Once a drain has begun, a round claims nothing and
      the jobs held can only become fewer. */
  method TickUnderDrain(controller: DrainController, scheduler: RunnerScheduler.JobScheduler, candidates: seq<string>, at: int,
      driven: string -> RunnerScheduler.Driven, dropped: string -> set<string>)
    returns (report: RunnerScheduler.Report, ghost held: map<string, RunnerLease.Entry>)
    requires scheduler.leases.Valid()
    modifies scheduler.leases`entries, scheduler.leases`issued, scheduler.leases`aborted, scheduler.leases.store
    ensures scheduler.leases.Valid() && report.admitting == controller.Admitting()
    ensures !controller.Admitting() ==>
      report.claimed == [] && held.Keys == old(scheduler.leases.entries).Keys
      && scheduler.leases.entries.Keys <= old(scheduler.leases.entries).Keys
    ensures RunnerScheduler.Round(held, scheduler.leases.entries, report.passes, report.released, report.failures, report.skipped,
      driven, dropped)
    ensures |scheduler.leases.entries.Keys| <= RunnerScheduler.Max(|old(scheduler.leases.entries).Keys|, scheduler.maxJobs)
  {
    hide LeaseKeeper.Valid, RunnerScheduler.Round, RunnerScheduler.RowsClaimed;
    report, held := scheduler.RunTick(controller.Admitting(), candidates, at, driven, dropped);
  }
}
