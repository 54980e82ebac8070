/** The write authority's ledgers: one-shot approvals, with and without pruning, and cumulative spend
    held as decimal strings. */
module CliLedgers {
  import opened Options
  import opened CliDecimal

  // ---------- Approvals ----------

  const APPROVAL_TTL_MS: int := 10 * 60_000
  const PRUNE_AFTER_MS: int := 24 * 60 * 60_000

  datatype Approval = Approval(token: string, intent: string, issuedAt: int, expiresAt: int, consumedAt: Option<int>,
    approvedBy: Option<string>)

  datatype Refusal = UNKNOWN_APPROVAL | INTENT_MISMATCH | APPROVAL_SPENT | APPROVAL_EXPIRED

  datatype Consumed = Spent(record: Approval) | Denied(reason: Refusal)

  function FindToken(records: seq<Approval>, token: string): (n: nat)
    ensures n <= |records| && (n < |records| ==> records[n].token == token)
    ensures forall m :: 0 <= m < n ==> records[m].token != token
  {
    if records == [] || records[0].token == token then 0 else 1 + FindToken(records[1..], token)
  }

  function Issued(intent: string, token: string, now: int): Approval {
    Approval(token, intent, now, now + APPROVAL_TTL_MS, None, None)
  }

  function Decide(records: seq<Approval>, token: string, intent: string, now: int, approvedBy: string): Consumed {
    var n := FindToken(records, token);
    if n == |records| then Denied(UNKNOWN_APPROVAL)
    else if records[n].intent != intent then Denied(INTENT_MISMATCH)
    else if records[n].consumedAt.Some? then Denied(APPROVAL_SPENT)
    else if now >= records[n].expiresAt then Denied(APPROVAL_EXPIRED)
    else Spent(records[n].(consumedAt := Some(now), approvedBy := Some(approvedBy)))
  }

  function AfterConsume(records: seq<Approval>, token: string, intent: string, now: int, approvedBy: string): seq<Approval> {
    var decision := Decide(records, token, intent, now, approvedBy);
    if decision.Denied? then records else records[FindToken(records, token) := decision.record]
  }

  /** When a record stopped being usable. */
  function EndOf(record: Approval): int {
    if record.consumedAt.Some? then record.consumedAt.value else record.expiresAt
  }

  function Prune(records: seq<Approval>, now: int): seq<Approval> {
    if records == [] then []
    else
      var last := records[|records| - 1];
      Prune(records[..|records| - 1], now) + if EndOf(last) >= now - PRUNE_AFTER_MS then [last] else []
  }

  /** The approval ledger; the file ledger prunes whenever it issues. */
  class ApprovalLedger {
    const prunes: bool
    var records: seq<Approval>

    constructor (prunes: bool)
      ensures this.prunes == prunes && records == []
    {
      this.prunes, records := prunes, [];
    }

    method Issue(intent: string, token: string, now: int) returns (record: Approval)
      modifies this
      ensures record == Issued(intent, token, now)
      ensures records == (if prunes then Prune(old(records), now) else old(records)) + [record]
    {
      if prunes {
        records := Prune(records, now);
      }
      record := Issued(intent, token, now);
      records := records + [record];
    }

    method Consume(token: string, intent: string, now: int, approvedBy: string) returns (outcome: Consumed)
      modifies this
      ensures outcome == Decide(old(records), token, intent, now, approvedBy)
      ensures records == AfterConsume(old(records), token, intent, now, approvedBy)
    {
      var index := FindToken(records, token);
      if index == |records| {
        return Denied(UNKNOWN_APPROVAL);
      }
      var record := records[index];
      if record.intent != intent {
        return Denied(INTENT_MISMATCH);
      }
      if record.consumedAt.Some? {
        return Denied(APPROVAL_SPENT);
      }
      if now >= record.expiresAt {
        return Denied(APPROVAL_EXPIRED);
      }
      var spent := record.(consumedAt := Some(now), approvedBy := Some(approvedBy));
      records := records[index := spent];
      return Spent(spent);
    }
  }

  // ---------- Histories ----------

  datatype Call =
    | Issue(intent: string, token: string, now: int)
    | Consume(token: string, intent: string, now: int, approvedBy: string)

  function Step(records: seq<Approval>, call: Call, prunes: bool): seq<Approval> {
    match call
    case Issue(intent, token, now) => (if prunes then Prune(records, now) else records) + [Issued(intent, token, now)]
    case Consume(token, intent, now, who) => AfterConsume(records, token, intent, now, who)
  }

  /** The ledger after the first `n` calls. */
  function After(calls: seq<Call>, prunes: bool, n: nat): seq<Approval>
    requires n <= |calls|
  {
    if n == 0 then [] else Step(After(calls, prunes, n - 1), calls[n - 1], prunes)
  }

  /** The n-th call is a consume that succeeds. */
  predicate Succeeds(calls: seq<Call>, prunes: bool, n: nat)
    requires n < |calls|
  {
    calls[n].Consume?
    && Decide(After(calls, prunes, n), calls[n].token, calls[n].intent, calls[n].now, calls[n].approvedBy).Spent?
  }

  /** Tokens are fresh each time one is issued, and the clock never runs backwards. */
  ghost predicate IsHistory(calls: seq<Call>) {
    && (forall m, n :: 0 <= m < n < |calls| ==> calls[m].now <= calls[n].now)
    && (forall m, n :: 0 <= m < n < |calls| && calls[m].Issue? && calls[n].Issue? ==> calls[m].token != calls[n].token)
  }

  ghost predicate Distinct(records: seq<Approval>) {
    forall m, n :: 0 <= m < n < |records| ==> records[m].token != records[n].token
  }

  /** Pruning drops exactly what ended more than a day ago: spent then, or never spent and expired then. */
  lemma {:induction false} PruneKeeps(records: seq<Approval>, now: int)
    ensures forall r :: r in Prune(records, now) <==> r in records && EndOf(r) >= now - PRUNE_AFTER_MS
    ensures forall r :: r in records && r !in Prune(records, now) <==>
      r in records && (if r.consumedAt != None then r.consumedAt.value else r.expiresAt) < now - 86_400_000
  {
    if records != [] {
      PruneKeeps(records[..|records| - 1], now);
      assert records == records[..|records| - 1] + [records[|records| - 1]];
    }
  }

  lemma {:induction false} PruneDistinct(records: seq<Approval>, now: int)
    requires Distinct(records)
    ensures Distinct(Prune(records, now))
  {
    if records != [] {
      var front, last := records[..|records| - 1], records[|records| - 1];
      PruneDistinct(front, now);
      PruneKeeps(front, now);
      forall r | r in front ensures r.token != last.token {
        var q :| 0 <= q < |front| && front[q] == r;
        assert records[q] == r;
      }
      if EndOf(last) >= now - PRUNE_AFTER_MS { AppendDistinct(Prune(front, now), last); }
    }
  }

  lemma FindDistinct(records: seq<Approval>, r: Approval)
    requires Distinct(records) && r in records
    ensures FindToken(records, r.token) < |records| && records[FindToken(records, r.token)] == r
  {
    var q :| 0 <= q < |records| && records[q] == r;
    assert FindToken(records, r.token) <= q;
  }

  lemma FindAbsent(records: seq<Approval>, token: string)
    requires forall r :: r in records ==> r.token != token
    ensures FindToken(records, token) == |records|
  {
  }

  /** No consume at this time or later can spend the record. */
  predicate Dead(r: Approval, now: int) {
    r.consumedAt.Some? || r.expiresAt <= now
  }

  /** The pruned ledger is the full one less some dead records. */
  ghost predicate Agree(file: seq<Approval>, memory: seq<Approval>, now: int) {
    && Distinct(file) && Distinct(memory)
    && (forall r :: r in file ==> r in memory)
    && (forall r :: r in memory && r !in file ==> Dead(r, now))
  }

  ghost predicate IsFreshFor(records: seq<Approval>, call: Call) {
    call.Issue? ==> forall r :: r in records ==> r.token != call.token
  }

  lemma AppendDistinct(records: seq<Approval>, r: Approval)
    requires Distinct(records) && forall x :: x in records ==> x.token != r.token
    ensures Distinct(records + [r])
  {
  }

  /** What one accepted consume does to a ledger of distinct tokens. */
  lemma SpentOne(records: seq<Approval>, r: Approval, spent: Approval)
    requires Distinct(records) && r in records && spent.token == r.token
    ensures
      var after := records[FindToken(records, r.token) := spent];
      FindToken(records, r.token) < |records| && Distinct(after) && forall x :: x in after <==> x == spent || (x in records && x.token != r.token)
  {
    FindDistinct(records, r);
    var n := FindToken(records, r.token);
    var after := records[n := spent];
    assert after[n] == spent;
    forall x | x in records && x.token != r.token ensures x in after {
      var q :| 0 <= q < |records| && records[q] == x;
      assert after[q] == x;
    }
    forall x | x in after ensures x == spent || (x in records && x.token != r.token) {
      var q :| 0 <= q < |after| && after[q] == x;
      if q != n { assert records[q].token != records[n].token; }
    }
  }

  lemma IssueAgrees(file: seq<Approval>, memory: seq<Approval>, clock: int, call: Call)
    requires Agree(file, memory, clock) && call.Issue? && clock <= call.now && IsFreshFor(memory, call)
    ensures Agree(Step(file, call, true), Step(memory, call, false), call.now)
  {
    PruneKeeps(file, call.now);
    PruneDistinct(file, call.now);
    var record := Issued(call.intent, call.token, call.now);
    AppendDistinct(Prune(file, call.now), record);
    AppendDistinct(memory, record);
  }

  lemma ConsumeAgrees(file: seq<Approval>, memory: seq<Approval>, clock: int, call: Call)
    requires Agree(file, memory, clock) && call.Consume? && clock <= call.now
    ensures Agree(Step(file, call, true), Step(memory, call, false), call.now)
    ensures
      var inFile := Decide(file, call.token, call.intent, call.now, call.approvedBy);
      var inMemory := Decide(memory, call.token, call.intent, call.now, call.approvedBy);
      (inFile.Spent? <==> inMemory.Spent?) && (inFile == inMemory || inFile == Denied(UNKNOWN_APPROVAL))
  {
    var n := FindToken(memory, call.token);
    if n < |memory| {
      var r := memory[n];
      assert r in memory;
      if r in file {
        FindDistinct(file, r);
        var decision := Decide(memory, call.token, call.intent, call.now, call.approvedBy);
        if decision.Spent? {
          SpentOne(file, r, decision.record);
          SpentOne(memory, r, decision.record);
        }
      } else {
        forall x | x in file ensures x.token != call.token { FindDistinct(memory, x); }
        FindAbsent(file, call.token);
      }
    } else {
      forall x | x in file ensures x.token != call.token { FindDistinct(memory, x); }
      FindAbsent(file, call.token);
    }
  }

  /** The call issues this token for this intent, to expire then. */
  predicate Issues(call: Call, token: string, intent: string, expiresAt: int) {
    call.Issue? && call.token == token && call.intent == intent && call.now + APPROVAL_TTL_MS == expiresAt
  }

  lemma {:induction false} TokensFromIssues(calls: seq<Call>, n: nat, r: Approval)
    requires n <= |calls| && r in After(calls, false, n)
    ensures exists m :: 0 <= m < n && Issues(calls[m], r.token, r.intent, r.expiresAt)
  {
    var before := After(calls, false, n - 1);
    var call := calls[n - 1];
    if r in before {
      TokensFromIssues(calls, n - 1, r);
    } else if call.Consume? {
      var k := FindToken(before, call.token);
      assert before[k] in before;
      TokensFromIssues(calls, n - 1, before[k]);
    }
  }

  /** Both ledgers stay in step over a whole history. */
  lemma {:induction false} LedgersAgree(calls: seq<Call>, n: nat)
    requires IsHistory(calls) && n <= |calls|
    ensures n > 0 ==> Agree(After(calls, true, n), After(calls, false, n), calls[n - 1].now)
    ensures Agree(After(calls, true, n), After(calls, false, n), if n < |calls| then calls[n].now else if n > 0 then calls[n - 1].now else 0)
    ensures n < |calls| ==> IsFreshFor(After(calls, false, n), calls[n])
  {
    if n > 0 {
      LedgersAgree(calls, n - 1);
      var file, memory := After(calls, true, n - 1), After(calls, false, n - 1);
      if calls[n - 1].Issue? {
        IssueAgrees(file, memory, calls[n - 1].now, calls[n - 1]);
      } else {
        ConsumeAgrees(file, memory, calls[n - 1].now, calls[n - 1]);
      }
    }
    if n < |calls| && calls[n].Issue? {
      forall r | r in After(calls, false, n) ensures r.token != calls[n].token {
        TokensFromIssues(calls, n, r);
      }
    }
  }

  /** The file ledger accepts exactly the consumes the never-pruning one accepts, on every history. */
  lemma PruningIsInvisible(calls: seq<Call>, n: nat)
    requires IsHistory(calls) && n < |calls|
    ensures Succeeds(calls, true, n) <==> Succeeds(calls, false, n)
  {
    LedgersAgree(calls, n);
    if calls[n].Consume? { ConsumeAgrees(After(calls, true, n), After(calls, false, n), calls[n].now, calls[n]); }
  }

  /** A consume succeeds only for a token an earlier call issued, for that call's own intent, and
      before it expires. */
  lemma SucceedsForItsOwn(calls: seq<Call>, prunes: bool, n: nat)
    requires IsHistory(calls) && n < |calls| && Succeeds(calls, prunes, n)
    ensures exists m, expiresAt :: 0 <= m < n && Issues(calls[m], calls[n].token, calls[n].intent, expiresAt) && calls[n].now < expiresAt
  {
    PruningIsInvisible(calls, n);
    var records := After(calls, false, n);
    var k := FindToken(records, calls[n].token);
    assert records[k] in records;
    TokensFromIssues(calls, n, records[k]);
  }

  /** A spent record outlives every later call of the full ledger. */
  lemma SpentOverStep(records: seq<Approval>, call: Call, r: Approval)
    requires Distinct(records) && r in records && r.consumedAt.Some?
    ensures r in Step(records, call, false)
  {
    if call.Consume? {
      var decision := Decide(records, call.token, call.intent, call.now, call.approvedBy);
      if decision.Spent? {
        var k := FindToken(records, call.token);
        assert records[k] in records;
        FindDistinct(records, r);
        SpentOne(records, records[k], decision.record);
      }
    }
  }

  lemma {:induction false} SpentStays(calls: seq<Call>, m: nat, n: nat)
    requires IsHistory(calls) && m < n <= |calls| && Succeeds(calls, false, m)
    ensures exists r :: r in After(calls, false, n) && r.token == calls[m].token && r.consumedAt.Some?
  {
    hide IsHistory, Decide, Distinct;
    LedgersAgree(calls, n - 1);
    var before := After(calls, false, n - 1);
    if m == n - 1 {
      SpentNow(before, calls[m]);
    } else {
      SpentStays(calls, m, n - 1);
      var r :| r in before && r.token == calls[m].token && r.consumedAt.Some?;
      SpentOverStep(before, calls[n - 1], r);
      assert r in After(calls, false, n);
    }
  }

  lemma SpentNow(records: seq<Approval>, call: Call)
    requires Distinct(records) && call.Consume?
    requires Decide(records, call.token, call.intent, call.now, call.approvedBy).Spent?
    ensures exists r :: r in Step(records, call, false) && r.token == call.token && r.consumedAt.Some?
  {
    var k := FindToken(records, call.token);
    assert records[k] in records;
    SpentOne(records, records[k], Decide(records, call.token, call.intent, call.now, call.approvedBy).record);
  }

  /** No token is ever spent twice, by either ledger. */
  lemma SpentOnce(calls: seq<Call>, prunes: bool, m: nat, n: nat)
    requires IsHistory(calls) && m < n < |calls| && Succeeds(calls, prunes, m)
    requires calls[n].Consume? && calls[n].token == calls[m].token
    ensures !Succeeds(calls, prunes, n)
  {
    PruningIsInvisible(calls, m);
    PruningIsInvisible(calls, n);
    SpentStays(calls, m, n);
    LedgersAgree(calls, n);
    var records := After(calls, false, n);
    var r :| r in records && r.token == calls[m].token && r.consumedAt.Some?;
    FindDistinct(records, r);
  }

  // ---------- What each consume is answered, told from the calls alone ----------

  /** A consume of the token issued by the m-th call went through before the n-th. */
  ghost predicate SpentBetween(calls: seq<Call>, prunes: bool, m: nat, n: nat)
    requires m < n <= |calls|
  {
    exists k :: m < k < n && calls[k].token == calls[m].token && Succeeds(calls, prunes, k)
  }

  /** The record an issue left behind, and whether it has been spent. */
  ghost predicate Follows(calls: seq<Call>, m: nat, n: nat, r: Approval)
    requires m < n <= |calls| && calls[m].Issue?
  {
    && r in After(calls, false, n) && r.token == calls[m].token && r.intent == calls[m].intent
    && r.issuedAt == calls[m].now && r.expiresAt == calls[m].now + 600_000
    && (r.consumedAt.Some? <==> SpentBetween(calls, false, m, n))
  }

  lemma {:induction false} RecordFollows(calls: seq<Call>, m: nat, n: nat) returns (r: Approval)
    requires IsHistory(calls) && m < n <= |calls| && calls[m].Issue?
    ensures Follows(calls, m, n, r)
  {
    hide IsHistory, Distinct, Agree, IsFreshFor, FindToken;
    var records := After(calls, false, n - 1);
    if m == n - 1 {
      r := Issued(calls[m].intent, calls[m].token, calls[m].now);
    } else {
      r := RecordFollows(calls, m, n - 1);
      r := FollowsOn(calls, m, n, r);
    }
  }

  /** One more call: the record is spent now, or stays as it was. */
  lemma FollowsOn(calls: seq<Call>, m: nat, n: nat, r: Approval) returns (next: Approval)
    requires IsHistory(calls) && m < n - 1 < |calls| && calls[m].Issue? && Follows(calls, m, n - 1, r)
    ensures Follows(calls, m, n, next)
  {
    hide IsHistory, IsFreshFor, FindToken;
    next := r;
    var records, call := After(calls, false, n - 1), calls[n - 1];
    LedgersAgree(calls, n - 1);
    SpentBefore(calls, m, n);
    if call.Consume? && Succeeds(calls, false, n - 1) {
      var k := FindToken(records, call.token);
      var decision := Decide(records, call.token, call.intent, call.now, call.approvedBy);
      assert records[k] in records;
      SpentOne(records, records[k], decision.record);
      FindDistinct(records, r);
      if call.token == r.token { next := decision.record; }
    }
  }

  /** What a consume makes of the record of an issue. */
  function SpentRecord(issue: Call, consume: Call): Approval
    requires issue.Issue? && consume.Consume?
  {
    Approval(issue.token, issue.intent, issue.now, issue.now + 600_000, Some(consume.now), Some(consume.approvedBy))
  }

  lemma SpentBefore(calls: seq<Call>, m: nat, n: nat)
    requires m < n - 1 < |calls|
    ensures SpentBetween(calls, false, m, n)
      <==> SpentBetween(calls, false, m, n - 1) || (calls[n - 1].token == calls[m].token && Succeeds(calls, false, n - 1))
  {
    hide Succeeds;
  }

  /** What the ledger that never prunes answers a consume: unknown exactly when the token was never issued; then,
      of the one issue, a mismatch exactly when its intent is another; then spent exactly when a consume of it
      went through; then expired exactly from ten minutes after the issue on. */
  lemma AnswerIsExact(calls: seq<Call>, n: nat)
    requires IsHistory(calls) && n < |calls| && calls[n].Consume?
    ensures
      var answer := Decide(After(calls, false, n), calls[n].token, calls[n].intent, calls[n].now, calls[n].approvedBy);
      && (answer == Denied(UNKNOWN_APPROVAL) <==> forall m | 0 <= m < n && calls[m].Issue? :: calls[m].token != calls[n].token)
      && (forall m | 0 <= m < n && calls[m].Issue? && calls[m].token == calls[n].token ::
            && (answer == Denied(INTENT_MISMATCH) <==> calls[m].intent != calls[n].intent)
            && (answer == Denied(APPROVAL_SPENT) <==> calls[m].intent == calls[n].intent && SpentBetween(calls, false, m, n))
            && (answer == Denied(APPROVAL_EXPIRED) <==>
                calls[m].intent == calls[n].intent && !SpentBetween(calls, false, m, n) && calls[n].now >= calls[m].now + 600_000)
            && (answer.Spent? ==> answer.record == SpentRecord(calls[m], calls[n])))
  {
    hide IsHistory, Agree, IsFreshFor, SpentBetween;
    LedgersAgree(calls, n);
    var records, token := After(calls, false, n), calls[n].token;
    assert Distinct(records) by { AgreeDistinct(records, After(calls, true, n), calls, n); }
    if FindToken(records, token) < |records| {
      var r := records[FindToken(records, token)];
      assert r in records;
      TokensFromIssues(calls, n, r);
    }
    forall m | 0 <= m < n && calls[m].Issue? && calls[m].token == token
      ensures exists r :: Follows(calls, m, n, r) && FindToken(records, token) < |records| && records[FindToken(records, token)] == r
    {
      var r := RecordFollows(calls, m, n);
      FindDistinct(records, r);
    }
  }

  lemma AgreeDistinct(memory: seq<Approval>, file: seq<Approval>, calls: seq<Call>, n: nat)
    requires exists now :: Agree(file, memory, now)
    ensures Distinct(memory)
  {
  }

  /** Either ledger accepts a consume if and only if an earlier call issued its token for its intent, less than
      ten minutes before, and no consume of that token went through in between. */
  lemma SucceedsExactly(calls: seq<Call>, prunes: bool, n: nat)
    requires IsHistory(calls) && n < |calls| && calls[n].Consume?
    ensures Succeeds(calls, prunes, n)
      <==> exists m :: 0 <= m < n && calls[m].Issue? && calls[m].token == calls[n].token && calls[m].intent == calls[n].intent
                       && calls[n].now - calls[m].now < 600_000 && !SpentBetween(calls, prunes, m, n)
  {
    hide IsHistory, Decide, SpentBetween, After;
    PruningIsInvisible(calls, n);
    AnswerIsExact(calls, n);
    ReasonsOnly(After(calls, false, n), calls[n]);
    forall m | 0 <= m < n ensures SpentBetween(calls, prunes, m, n) <==> SpentBetween(calls, false, m, n) {
      SpentInBoth(calls, prunes, m, n);
    }
  }

  lemma ReasonsOnly(records: seq<Approval>, call: Call)
    requires call.Consume?
    ensures
      var answer := Decide(records, call.token, call.intent, call.now, call.approvedBy);
      answer.Denied? ==> answer.reason in {UNKNOWN_APPROVAL, INTENT_MISMATCH, APPROVAL_SPENT, APPROVAL_EXPIRED}
  {
  }

  lemma SpentInBoth(calls: seq<Call>, prunes: bool, m: nat, n: nat)
    requires IsHistory(calls) && m < n <= |calls|
    ensures SpentBetween(calls, prunes, m, n) <==> SpentBetween(calls, false, m, n)
  {
    hide IsHistory, Succeeds;
    forall k | m < k < n ensures Succeeds(calls, prunes, k) <==> Succeeds(calls, false, k) { PruningIsInvisible(calls, k); }
  }

  /** The pruned ledger answers as the other does, or that it does not know the token any more. */
  lemma FileAnswers(calls: seq<Call>, n: nat)
    requires IsHistory(calls) && n < |calls| && calls[n].Consume?
    ensures
      var inFile := Decide(After(calls, true, n), calls[n].token, calls[n].intent, calls[n].now, calls[n].approvedBy);
      var inMemory := Decide(After(calls, false, n), calls[n].token, calls[n].intent, calls[n].now, calls[n].approvedBy);
      inFile == inMemory || (inFile == Denied(UNKNOWN_APPROVAL) && inMemory.Denied?)
  {
    LedgersAgree(calls, n);
    ConsumeAgrees(After(calls, true, n), After(calls, false, n), calls[n].now, calls[n]);
  }
}
