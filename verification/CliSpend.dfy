/** Cumulative spend: reservations against a scope's ceiling, settled down or released, and totalled.
    Amounts are stored as decimal strings, so every total rests on reading back what was printed. */
module CliSpend {
  import opened Options
  import opened CliDecimal

  datatype SpendRecord = SpendRecord(scope: string, amount: string, at: int, released: bool, id: string)

  // ---------- What the records add up to ----------

  /** What a record counts for; an unreadable amount counts for nothing. */
  function Counted(record: SpendRecord): nat {
    if record.released then 0
    else match ParseDecimal(record.amount) case Some(n) => n case None => 0
  }

  function SumOf(records: seq<SpendRecord>, scope: string): nat {
    if records == [] then 0
    else
      var last := records[|records| - 1];
      SumOf(records[..|records| - 1], scope) + if last.scope == scope then Counted(last) else 0
  }

  function SumElsewhere(records: seq<SpendRecord>, scope: string): nat {
    if records == [] then 0
    else
      var last := records[|records| - 1];
      SumElsewhere(records[..|records| - 1], scope) + if last.scope == scope then 0 else Counted(last)
  }

  function LiveSum(records: seq<SpendRecord>): nat {
    if records == [] then 0 else LiveSum(records[..|records| - 1]) + Counted(records[|records| - 1])
  }

  function LiveScopes(records: seq<SpendRecord>): set<string> {
    set r | r in records && !r.released :: r.scope
  }

  /** Nothing is counted twice or lost between a scope's total and the rest. */
  lemma {:induction false} TotalsAddUp(records: seq<SpendRecord>, scope: string)
    ensures SumOf(records, scope) + SumElsewhere(records, scope) == LiveSum(records)
  {
    if records != [] { TotalsAddUp(records[..|records| - 1], scope); }
  }

  // ---------- The operations ----------

  datatype Refused = UNREADABLE | OVER_CEILING(left: nat, asked: nat)

  datatype Reserved = Granted(id: string, total: string) | Denied(reason: Refused)

  function Settled(record: SpendRecord, committed: string): SpendRecord {
    var asked, reserved := ParseDecimal(committed), ParseDecimal(record.amount);
    if asked.None? || reserved.None? || record.released then record
    else if asked.value <= 0 then record.(released := true)
    else if asked.value >= reserved.value then record
    else record.(amount := FormatDecimal(asked.value))
  }

  datatype Op =
    | Reserve(scope: string, amount: string, ceiling: string, at: int, id: string)
    | Settle(id: string, committed: string)
    | Release(id: string)

  predicate Fits(records: seq<SpendRecord>, op: Op)
    requires op.Reserve?
  {
    var add, limit := ParseDecimal(op.amount), ParseDecimal(op.ceiling);
    add.Some? && limit.Some? && SumOf(records, op.scope) + add.value <= limit.value
  }

  function Changed(record: SpendRecord, op: Op): SpendRecord {
    match op
    case Reserve(_, _, _, _, _) => record
    case Settle(id, committed) => if record.id == id then Settled(record, committed) else record
    case Release(id) => if record.id == id then record.(released := true) else record
  }

  /** The records after an operation. */
  function Apply(records: seq<SpendRecord>, op: Op): seq<SpendRecord> {
    match op
    case Reserve(scope, amount, _, at, id) =>
      if Fits(records, op)
      then records + [SpendRecord(scope, FormatDecimal(ParseDecimal(amount).value), at, false, id)] else records
    case _ => seq(|records|, n requires 0 <= n < |records| => Changed(records[n], op))
  }

  class SpendLedger {
    var records: seq<SpendRecord>

    constructor ()
      ensures records == []
    {
      records := [];
    }

    /** The ledger's `sumOf`: a loop over the records. */
    method Sum(scope: string) returns (total: nat)
      ensures total == SumOf(records, scope)
    {
      total := 0;
      for n := 0 to |records|
        invariant total == SumOf(records[..n], scope)
      {
        var record := records[n];
        assert records[..n + 1][..n] == records[..n];
        if record.scope == scope && !record.released {
          var amount := ParseDecimal(record.amount);
          total := total + if amount.Some? then amount.value else 0;
        }
      }
      assert records[..|records|] == records;
    }

    /** The ledger's `elsewhereIn`. */
    method Elsewhere(scope: string) returns (scopes: nat, total: string)
      ensures scopes == |LiveScopes(records) - {scope}|
      ensures ParseDecimal(total) == Some(SumElsewhere(records, scope))
    {
      hide ParseDecimal, FormatDecimal, IsCanonical, LiveScopes;
      NoScopes();
      var others: set<string> := {};
      var sum := 0;
      for n := 0 to |records|
        invariant sum == SumElsewhere(records[..n], scope)
        invariant others == LiveScopes(records[..n]) - {scope}
      {
        var record := records[n];
        assert records[..n + 1][..n] == records[..n];
        LiveScopesNext(records, n);
        if record.scope != scope && !record.released {
          others := others + {record.scope};
          var amount := ParseDecimal(record.amount);
          sum := sum + if amount.Some? then amount.value else 0;
        }
      }
      assert records[..|records|] == records;
      ParseOfFormat(sum);
      return |others|, FormatDecimal(sum);
    }

    method Total(scope: string) returns (total: string)
      ensures ParseDecimal(total) == Some(SumOf(records, scope))
    {
      var sum := Sum(scope);
      ParseOfFormat(sum);
      total := FormatDecimal(sum);
    }

    method Reserve(scope: string, amount: string, ceiling: string, at: int, id: string) returns (r: Reserved)
      modifies this
      ensures
        var op := Op.Reserve(scope, amount, ceiling, at, id);
        && records == Apply(old(records), op)
        && (r.Granted? <==>
            ParseDecimal(amount).Some? && ParseDecimal(ceiling).Some?
            && SumOf(old(records), scope) + ParseDecimal(amount).value <= ParseDecimal(ceiling).value)
        && (r.Granted? ==>
            && r.id == id && ParseDecimal(r.total) == Some(SumOf(records, scope))
            && SumOf(records, scope) == SumOf(old(records), scope) + ParseDecimal(amount).value
            && records == old(records) + [records[|old(records)|]]
            && records[|old(records)|] == SpendRecord(scope, records[|old(records)|].amount, at, false, id))
        && (r == Denied(UNREADABLE) <==> ParseDecimal(amount).None? || ParseDecimal(ceiling).None?)
        && (r.Denied? && r.reason.OVER_CEILING? ==>
            && r.reason.asked == ParseDecimal(amount).value
            && r.reason.left == if ParseDecimal(ceiling).value > SumOf(old(records), scope)
                 then ParseDecimal(ceiling).value - SumOf(old(records), scope) else 0)
        && (r.Denied? ==> records == old(records))
    {
      hide ParseDecimal, FormatDecimal, IsCanonical, SumOf;
      var add, limit := ParseDecimal(amount), ParseDecimal(ceiling);
      if add.None? || limit.None? {
        return Denied(UNREADABLE);
      }
      var already := Sum(scope);
      if already + add.value > limit.value {
        return Denied(OVER_CEILING(if limit.value > already then limit.value - already else 0, add.value));
      }
      var record := SpendRecord(scope, FormatDecimal(add.value), at, false, id);
      SumReserved(records, Op.Reserve(scope, amount, ceiling, at, id), scope);
      ParseOfFormat(already + add.value);
      records := records + [record];
      return Granted(id, FormatDecimal(already + add.value));
    }

    method Settle(id: string, committed: string)
      modifies this
      ensures records == Apply(old(records), Op.Settle(id, committed))
    {
      records := seq(|records|, n requires 0 <= n < |records| reads this =>
        if records[n].id == id then Settled(records[n], committed) else records[n]);
    }

    method Release(id: string)
      modifies this
      ensures records == Apply(old(records), Op.Release(id))
    {
      records := seq(|records|, n requires 0 <= n < |records| reads this =>
        if records[n].id == id then records[n].(released := true) else records[n]);
    }
  }

  lemma NoScopes()
    ensures LiveScopes([]) == {}
  {
  }

  lemma LiveScopesNext(records: seq<SpendRecord>, n: nat)
    requires n < |records|
    ensures LiveScopes(records[..n + 1]) == LiveScopes(records[..n]) + if records[n].released then {} else {records[n].scope}
  {
    assert records[..n + 1] == records[..n] + [records[n]];
  }

  // ---------- What every run keeps ----------

  /** Releasing makes a record count for nothing. Settling makes it count for what was committed, and never for
      more than before; an amount nobody can read, or one that is not less, leaves the record whole. Other records
      stay, and so do scope, time and id. */
  lemma ChangedCounts(record: SpendRecord, op: Op)
    ensures
      var after := Changed(record, op);
      && Counted(after) <= Counted(record)
      && after.scope == record.scope && after.at == record.at && after.id == record.id
      && (op.Reserve? || record.id != op.id ==> after == record)
      && (op.Release? && record.id == op.id ==> Counted(after) == 0 && after.amount == record.amount && after.released)
      && (op.Settle? && record.id == op.id ==>
          match ParseDecimal(op.committed)
          case None => after == record
          case Some(committed) =>
            && Counted(after) == (if committed < Counted(record) then committed else Counted(record))
            && (committed >= Counted(record) && committed > 0 ==> after == record))
  {
    hide ParseDecimal, FormatDecimal;
    if op.Settle? && ParseDecimal(op.committed).Some? { ParseOfFormat(ParseDecimal(op.committed).value); }
  }

  lemma {:induction false} SumChanged(records: seq<SpendRecord>, op: Op, scope: string)
    requires !op.Reserve?
    ensures SumOf(Apply(records, op), scope) <= SumOf(records, scope)
  {
    hide Counted, Changed;
    if records != [] {
      var front, last := records[..|records| - 1], records[|records| - 1];
      SumChanged(front, op, scope);
      assert Apply(records, op)[..|records| - 1] == Apply(front, op);
      ChangedCounts(last, op);
    }
  }

  /** A reservation adds its amount to its own scope and nothing elsewhere. */
  lemma SumReserved(records: seq<SpendRecord>, op: Op, scope: string)
    requires op.Reserve? && Fits(records, op)
    ensures SumOf(Apply(records, op), scope)
      == SumOf(records, scope) + if scope == op.scope then ParseDecimal(op.amount).value else 0
  {
    hide ParseDecimal, FormatDecimal;
    ParseOfFormat(ParseDecimal(op.amount).value);
    var record := SpendRecord(op.scope, FormatDecimal(ParseDecimal(op.amount).value), op.at, false, op.id);
    assert (records + [record])[..|records|] == records;
  }

  function Run(ops: seq<Op>): seq<SpendRecord> {
    if ops == [] then [] else Apply(Run(ops[..|ops| - 1]), ops[|ops| - 1])
  }

  /** Each scope is only ever reserved against under one ceiling. */
  ghost predicate OneCeiling(ops: seq<Op>, ceilings: map<string, string>) {
    forall n :: 0 <= n < |ops| && ops[n].Reserve? ==> ops[n].scope in ceilings && ops[n].ceiling == ceilings[ops[n].scope]
  }

  /** A scope's ceiling; a scope nobody reserved against, or with an unreadable ceiling, has none to spend. */
  function Limit(ceilings: map<string, string>, scope: string): nat {
    if scope !in ceilings then 0
    else match ParseDecimal(ceilings[scope]) case Some(n) => n case None => 0
  }

  /** Under any interleaving of reserves, settles and releases from any number of invocations, no
      scope's live total passes its ceiling. */
  lemma {:induction false} NeverOverCeiling(ops: seq<Op>, ceilings: map<string, string>, scope: string)
    requires OneCeiling(ops, ceilings)
    ensures SumOf(Run(ops), scope) <= Limit(ceilings, scope)
  {
    hide ParseDecimal, FormatDecimal, SumOf;
    if ops == [] {
      NothingSpent(scope);
    } else {
      var front, op := ops[..|ops| - 1], ops[|ops| - 1];
      NeverOverCeiling(front, ceilings, scope);
      if !op.Reserve? {
        SumChanged(Run(front), op, scope);
      } else if Fits(Run(front), op) {
        SumReserved(Run(front), op, scope);
      }
    }
  }

  lemma NothingSpent(scope: string)
    ensures SumOf([], scope) == 0
  {
  }

  /** Every stored amount is a canonical decimal, so it reads back as what was printed. */
  lemma {:induction false} StoredAmountsRead(ops: seq<Op>)
    ensures forall r :: r in Run(ops) ==> IsCanonical(r.amount) && ParseDecimal(r.amount).Some?
  {
    hide ParseDecimal, FormatDecimal, IsCanonical, Fits;
    if ops != [] {
      var before, op := Run(ops[..|ops| - 1]), ops[|ops| - 1];
      StoredAmountsRead(ops[..|ops| - 1]);
      forall r | r in Run(ops) ensures IsCanonical(r.amount) && ParseDecimal(r.amount).Some? {
        if r !in before {
          if op.Reserve? {
            ReservedAmount(before, op);
          } else {
            var n :| 0 <= n < |before| && r == Changed(before[n], op);
            assert before[n] in before;
            if op.Settle? && ParseDecimal(op.committed).Some? { ParseOfFormat(ParseDecimal(op.committed).value); }
          }
        }
      }
    }
  }

  lemma ReservedAmount(records: seq<SpendRecord>, op: Op)
    requires op.Reserve?
    ensures forall r :: r in Apply(records, op) && r !in records ==> IsCanonical(r.amount) && ParseDecimal(r.amount).Some?
  {
    hide ParseDecimal, FormatDecimal, IsCanonical;
    if Fits(records, op) { ParseOfFormat(ParseDecimal(op.amount).value); }
  }
}
