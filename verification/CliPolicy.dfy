/** What may be written, and how often the signer may run: the execution policy from its sources, the
    authorization of one write, and the gate that counts signatures. */
module CliPolicy {
  import opened Options
  import opened Strings
  import opened CliDecimal

  // ---------- Values as they come from a configuration file ----------

  datatype Json = Null | Bool(b: bool) | Num(n: real) | Str(s: string) | Arr(items: seq<Json>) | Obj(fields: map<string, Json>)

  // ---------- Policies and scopes ----------

  datatype Mode = READ_ONLY | INTERACTIVE | DELEGATED_AUTO

  /** From the strictest to the most permissive. */
  function Permissiveness(mode: Mode): nat {
    match mode case READ_ONLY => 0 case INTERACTIVE => 1 case DELEGATED_AUTO => 2
  }

  function AsMode(name: string): Option<Mode> {
    if name == "read-only" then Some(READ_ONLY)
    else if name == "interactive" then Some(INTERACTIVE)
    else if name == "delegated-auto" then Some(DELEGATED_AUTO)
    else None
  }

  datatype Scope = Scope(accounts: seq<string>, markets: Option<seq<string>>, sides: seq<Side>,
    maxBuyAmount: Option<string>, maxCumulativeBuyAmount: Option<string>, maxSellShares: Option<string>,
    maxSlippageBps: int, maxLegs: int, notAfter: string, strategyIds: Option<seq<string>>)

  datatype Source = DEFAULT | CONFIG_FILE | ENVIRONMENT | FLAG

  datatype Policy = Policy(mode: Mode, scope: Option<Scope>, hasConfiguredScope: bool, source: Source)

  /** `Date.parse`, as milliseconds; absent for a string that names no instant. */
  type Dates = string -> Option<int>

  const SCOPE_KEYS: set<string> := {"accounts", "markets", "sides", "maxBuyAmount", "maxCumulativeBuyAmount", "maxSellShares",
    "maxSlippageBps", "maxLegs", "notAfter", "strategyIds"}

  predicate IsStringList(value: Json) {
    value.Arr? && value.items != [] && forall i :: 0 <= i < |value.items| ==> value.items[i].Str? && Trim(value.items[i].s) != ""
  }

  function StringList(value: Option<Json>): Option<seq<string>> {
    if value.Some? && IsStringList(value.value)
    then Some(seq(|value.value.items|, i requires 0 <= i < |value.value.items| => value.value.items[i].s))
    else None
  }

  function SidesOf(names: seq<string>): Option<seq<Side>> {
    if forall i :: 0 <= i < |names| ==> names[i] == "BUY" || names[i] == "SELL"
    then Some(seq(|names|, i requires 0 <= i < |names| => if names[i] == "BUY" then BUY else SELL))
    else None
  }

  function BoundedInteger(value: Option<Json>, min: int, max: int): (r: Option<int>)
    ensures r.Some? ==> min <= r.value <= max
  {
    if value.Some? && value.value.Num? && value.value.n == value.value.n.Floor as real
       && min <= value.value.n.Floor <= max
    then Some(value.value.n.Floor) else None
  }

  predicate IsCeiling(amount: string) {
    ParseDecimal(amount).Some? && ParseDecimal(amount).value > 0
  }

  function DecimalCeiling(value: Option<Json>): (r: Option<string>)
    ensures r.Some? ==> IsCeiling(r.value)
  {
    if value.Some? && value.value.Str? && IsCeiling(value.value.s) then Some(value.value.s) else None
  }

  function Get(fields: map<string, Json>, key: string): Option<Json> {
    if key in fields then Some(fields[key]) else None
  }

  /** A setting that may be absent; `None` when it is present and wrong. */
  function OptionalList(value: Option<Json>): Option<Option<seq<string>>> {
    if value.None? then Some(None)
    else match StringList(value) case None => None case Some(names) => Some(Some(names))
  }

  /** The scope a block of settings spells out; `None` where the program refuses the configuration. */
  function ParseDelegatedScope(raw: Json, dates: Dates): Option<Scope> {
    if !raw.Obj? || !(raw.fields.Keys <= SCOPE_KEYS) then None
    else
      var f := raw.fields;
      var names := StringList(Get(f, "sides"));
      if names.None? || SidesOf(names.value).None? then None
      else
        var sides := SidesOf(names.value).value;
        var notAfter := Get(f, "notAfter");
        if notAfter.None? || !notAfter.value.Str? || dates(notAfter.value.s).None? then None
        else
          var accounts, markets := StringList(Get(f, "accounts")), OptionalList(Get(f, "markets"));
          var buy, all, sell := DecimalCeiling(Get(f, "maxBuyAmount")), DecimalCeiling(Get(f, "maxCumulativeBuyAmount")),
            DecimalCeiling(Get(f, "maxSellShares"));
          var slippage, legs := BoundedInteger(Get(f, "maxSlippageBps"), 0, 9_999), BoundedInteger(Get(f, "maxLegs"), 1, 20);
          var strategies := OptionalList(Get(f, "strategyIds"));
          if accounts.None? || markets.None? || slippage.None? || legs.None? || strategies.None?
            || (BUY in sides && (buy.None? || all.None?)) || (SELL in sides && sell.None?) then None
          else
            Some(Scope(accounts.value, markets.value, sides,
              if BUY in sides then buy else None, if BUY in sides then all else None, if SELL in sides then sell else None,
              slippage.value, legs.value, notAfter.value.s, strategies.value))
  }

  /** Every bound an allowed side needs is stated and closed. */
  predicate IsBounded(scope: Scope, dates: Dates) {
    && scope.accounts != [] && scope.sides != [] && dates(scope.notAfter).Some?
    && (scope.markets.Some? ==> scope.markets.value != []) && (scope.strategyIds.Some? ==> scope.strategyIds.value != [])
    && 0 <= scope.maxSlippageBps <= 9_999 && 1 <= scope.maxLegs <= 20
    && (if BUY in scope.sides
        then scope.maxBuyAmount.Some? && IsCeiling(scope.maxBuyAmount.value)
             && scope.maxCumulativeBuyAmount.Some? && IsCeiling(scope.maxCumulativeBuyAmount.value)
        else scope.maxBuyAmount.None? && scope.maxCumulativeBuyAmount.None?)
    && (if SELL in scope.sides then scope.maxSellShares.Some? && IsCeiling(scope.maxSellShares.value) else scope.maxSellShares.None?)
  }

  lemma ParsedScopeIsBounded(raw: Json, dates: Dates)
    requires ParseDelegatedScope(raw, dates).Some?
    ensures IsBounded(ParseDelegatedScope(raw, dates).value, dates)
  {
    hide IsCeiling, Trim;
  }

  function WriteList(names: seq<string>): Json {
    Arr(seq(|names|, i requires 0 <= i < |names| => Str(names[i])))
  }

  function SideNames(sides: seq<Side>): seq<string> {
    seq(|sides|, i requires 0 <= i < |sides| => if sides[i] == BUY then "BUY" else "SELL")
  }

  function AsStr(text: Option<string>): Option<Json> {
    if text.Some? then Some(Str(text.value)) else None
  }

  function AsList(names: Option<seq<string>>): Option<Json> {
    if names.Some? then Some(WriteList(names.value)) else None
  }

  function SettingOf(scope: Scope, key: string): Option<Json> {
    if key == "accounts" then Some(WriteList(scope.accounts))
    else if key == "markets" then AsList(scope.markets)
    else if key == "sides" then Some(WriteList(SideNames(scope.sides)))
    else if key == "maxBuyAmount" then AsStr(scope.maxBuyAmount)
    else if key == "maxCumulativeBuyAmount" then AsStr(scope.maxCumulativeBuyAmount)
    else if key == "maxSellShares" then AsStr(scope.maxSellShares)
    else if key == "maxSlippageBps" then Some(Num(scope.maxSlippageBps as real))
    else if key == "maxLegs" then Some(Num(scope.maxLegs as real))
    else if key == "notAfter" then Some(Str(scope.notAfter))
    else AsList(scope.strategyIds)
  }

  /** A scope written down, with the settings it has. */
  function WriteScope(scope: Scope): Json {
    Obj(map key | key in SCOPE_KEYS && SettingOf(scope, key).Some? :: SettingOf(scope, key).value)
  }

  predicate NoneIsBlank(names: seq<string>) {
    forall i :: 0 <= i < |names| ==> Trim(names[i]) != ""
  }

  lemma ListReads(names: seq<string>)
    requires names != [] && NoneIsBlank(names)
    ensures StringList(Some(WriteList(names))) == Some(names)
  {
    hide Trim;
    var value := WriteList(names);
    assert IsStringList(value);
    assert StringList(Some(value)).value == names;
  }

  lemma SidesRead(sides: seq<Side>)
    requires sides != []
    ensures StringList(Some(WriteList(SideNames(sides)))) == Some(SideNames(sides))
    ensures SidesOf(SideNames(sides)) == Some(sides)
  {
    hide Trim, IsSpace;
    SideNamesAreNames();
    ListReads(SideNames(sides));
    assert SidesOf(SideNames(sides)).value == sides;
  }

  lemma SideNamesAreNames()
    ensures Trim("BUY") != "" && Trim("SELL") != ""
  {
    assert TrimStart("BUY") == "BUY" && TrimStart("SELL") == "SELL";
  }

  /** Every bounded scope can be configured: written down, it is read back as it is. */
  lemma ScopeReadsBack(scope: Scope, dates: Dates)
    requires IsBounded(scope, dates) && NoneIsBlank(scope.accounts)
    requires scope.markets.Some? ==> NoneIsBlank(scope.markets.value)
    requires scope.strategyIds.Some? ==> NoneIsBlank(scope.strategyIds.value)
    ensures ParseDelegatedScope(WriteScope(scope), dates) == Some(scope)
  {
    hide Trim, IsStringList, IsCeiling, WriteList, StringList, SidesOf, NoneIsBlank;
    SidesRead(scope.sides);
    ListReads(scope.accounts);
    if scope.markets.Some? { ListReads(scope.markets.value); }
    if scope.strategyIds.Some? { ListReads(scope.strategyIds.value); }
  }

  lemma ListSays(value: Option<Json>, names: seq<string>)
    requires StringList(value) == Some(names)
    ensures value == Some(WriteList(names))
  {
    hide Trim;
    assert value.value.items == WriteList(names).items;
  }

  lemma SidesSay(names: seq<string>, sides: seq<Side>)
    requires SidesOf(names) == Some(sides)
    ensures SideNames(sides) == names
  {
  }

  lemma IntegerSays(value: Option<Json>, min: int, max: int)
    requires BoundedInteger(value, min, max).Some?
    ensures value == Some(Num(BoundedInteger(value, min, max).value as real))
  {
  }

  /** The settings a scope takes over as they are written; a ceiling counts only for a side that is allowed. */
  predicate TakenOver(scope: Scope, key: string) {
    if key == "maxBuyAmount" || key == "maxCumulativeBuyAmount" then BUY in scope.sides
    else if key == "maxSellShares" then SELL in scope.sides
    else true
  }

  /** And nothing else can be: a block that is accepted has no other settings, and says in each what the scope says. */
  lemma ParsedScopeSays(raw: Json, dates: Dates)
    requires ParseDelegatedScope(raw, dates).Some?
    ensures
      var scope := ParseDelegatedScope(raw, dates).value;
      && raw.Obj? && raw.fields.Keys <= SCOPE_KEYS
      && forall key | key in SCOPE_KEYS && TakenOver(scope, key) :: Get(raw.fields, key) == SettingOf(scope, key)
  {
    hide Trim, IsStringList, IsCeiling, WriteList, StringList, SidesOf, SideNames, BoundedInteger;
    var f, scope := raw.fields, ParseDelegatedScope(raw, dates).value;
    ListSays(Get(f, "accounts"), scope.accounts);
    ListSays(Get(f, "sides"), StringList(Get(f, "sides")).value);
    SidesSay(StringList(Get(f, "sides")).value, scope.sides);
    if scope.markets.Some? { ListSays(Get(f, "markets"), scope.markets.value); }
    if scope.strategyIds.Some? { ListSays(Get(f, "strategyIds"), scope.strategyIds.value); }
    IntegerSays(Get(f, "maxSlippageBps"), 0, 9_999);
    IntegerSays(Get(f, "maxLegs"), 1, 20);
  }

  // ---------- The policy in force ----------

  /** The file's block, the environment variable, the flag, and the mode when none names one. */
  datatype Sources = Sources(file: Option<Json>, env: Option<string>, flag: Option<string>, fallback: Mode)

  predicate Given(value: Option<string>) {
    value.Some? && Trim(value.value) != ""
  }

  /** The file names a mode, or says nothing about it. */
  predicate FileIsReadable(file: Option<Json>) {
    file.Some? ==>
      && file.value.Obj? && file.value.fields.Keys <= {"mode", "scope"}
      && ("mode" in file.value.fields ==> file.value.fields["mode"].Str? && AsMode(file.value.fields["mode"].s).Some?)
  }

  function FileMode(file: Option<Json>): Option<Mode>
    requires FileIsReadable(file)
  {
    if file.Some? && "mode" in file.value.fields then AsMode(file.value.fields["mode"].s) else None
  }

  function RawScope(file: Option<Json>): Option<Json>
    requires FileIsReadable(file)
  {
    if file.Some? then Get(file.value.fields, "scope") else None
  }

  /** The mode before the flag: the environment's, else the file's, else the fallback. */
  function ConfiguredMode(sources: Sources): Option<Mode>
    requires FileIsReadable(sources.file)
  {
    if Given(sources.env) then AsMode(Trim(sources.env.value))
    else if FileMode(sources.file).Some? then FileMode(sources.file) else Some(sources.fallback)
  }

  /** Resolves the policy of this invocation; `None` where the configuration is refused. */
  method ParseExecutionPolicy(sources: Sources, dates: Dates) returns (policy: Option<Policy>)
    ensures policy.Some? <==>
      && FileIsReadable(sources.file) && ConfiguredMode(sources).Some?
      && (RawScope(sources.file).Some? ==> ParseDelegatedScope(RawScope(sources.file).value, dates).Some?)
      && (Given(sources.flag) ==>
          AsMode(Trim(sources.flag.value)).Some?
          && Permissiveness(AsMode(Trim(sources.flag.value)).value) <= Permissiveness(ConfiguredMode(sources).value))
      && ((if Given(sources.flag) then AsMode(Trim(sources.flag.value)) else ConfiguredMode(sources)) == Some(DELEGATED_AUTO)
          ==> RawScope(sources.file).Some?)
    ensures policy.Some? ==>
      && policy.value.mode
         == (if Given(sources.flag) then AsMode(Trim(sources.flag.value)).value else ConfiguredMode(sources).value)
      && Permissiveness(policy.value.mode) <= Permissiveness(ConfiguredMode(sources).value)
      && (policy.value.mode == DELEGATED_AUTO <==> policy.value.scope.Some?)
      && (policy.value.scope.Some? ==> IsBounded(policy.value.scope.value, dates))
      && (policy.value.hasConfiguredScope <==> RawScope(sources.file).Some?)
      && policy.value.source ==
         (if Given(sources.flag) then FLAG else if Given(sources.env) then ENVIRONMENT
          else if FileMode(sources.file).Some? then CONFIG_FILE else DEFAULT)
  {
    hide ParseDelegatedScope, IsBounded, Trim, AsMode;
    var mode, source := sources.fallback, DEFAULT;
    var rawScope: Option<Json> := None;
    if sources.file.Some? {
      if !sources.file.value.Obj? || !(sources.file.value.fields.Keys <= {"mode", "scope"}) {
        return None;
      }
      var block := sources.file.value.fields;
      rawScope := Get(block, "scope");
      if "mode" in block {
        if !block["mode"].Str? || AsMode(block["mode"].s).None? {
          return None;
        }
        mode, source := AsMode(block["mode"].s).value, CONFIG_FILE;
      }
    }
    if Given(sources.env) {
      var named := AsMode(Trim(sources.env.value));
      if named.None? {
        return None;
      }
      mode, source := named.value, ENVIRONMENT;
    }
    var scope: Option<Scope> := None;
    if rawScope.Some? {
      scope := ParseDelegatedScope(rawScope.value, dates);
      if scope.None? {
        return None;
      }
      ParsedScopeIsBounded(rawScope.value, dates);
    }
    if Given(sources.flag) {
      var requested := AsMode(Trim(sources.flag.value));
      if requested.None? || Permissiveness(requested.value) > Permissiveness(mode) {
        return None;
      }
      mode, source := requested.value, FLAG;
    }
    if mode == DELEGATED_AUTO && scope.None? {
      return None;
    }
    return Some(Policy(mode, if mode == DELEGATED_AUTO then scope else None, scope.Some?, source));
  }

  // ---------- One write ----------

  /** What was typed for one order; an absent field and one that is not a string are alike. */
  datatype OrderInput = OrderInput(accountId: string, marketId: string, outcomeId: string, side: string,
    buyAmount: Option<string>, sellShares: Option<string>, positionId: Option<string>, maxSlippageBps: real,
    worstAcceptablePrice: Option<string>, strategyId: Option<string>, clientOrderId: Option<string>)

  datatype SizeUnit = WXUSD_BUDGET | SHARES

  datatype Leg = Leg(accountId: string, marketId: string, outcomeId: string, side: Side, sizeUnit: SizeUnit, size: string,
    positionId: Option<string>, maxSlippageBps: real, worstAcceptablePrice: Option<string>, strategyId: Option<string>,
    clientOrderId: Option<string>)

  /** A size in one unit, the side's own; anything else is refused and nothing is guessed. */
  function NormalizeLeg(input: OrderInput): (leg: Option<Leg>)
    ensures leg.Some? <==> if input.side == "SELL" then input.buyAmount.None? && input.sellShares.Some?
                           else input.buyAmount.Some? && input.sellShares.None?
    ensures leg.Some? ==> (leg.value.side == SELL <==> input.side == "SELL") && (leg.value.sizeUnit == SHARES <==> leg.value.side == SELL)
    ensures leg.Some? ==> Some(leg.value.size) == if leg.value.side == SELL then input.sellShares else input.buyAmount
    ensures leg.Some? ==>
      && leg.value.accountId == input.accountId && leg.value.marketId == input.marketId && leg.value.outcomeId == input.outcomeId
      && leg.value.positionId == input.positionId && leg.value.maxSlippageBps == input.maxSlippageBps
      && leg.value.worstAcceptablePrice == input.worstAcceptablePrice && leg.value.strategyId == input.strategyId
      && leg.value.clientOrderId == input.clientOrderId
  {
    var side := if input.side == "SELL" then SELL else BUY;
    if input.buyAmount.None? == input.sellShares.None? then None
    else if (side == BUY) != input.buyAmount.Some? then None
    else
      Some(Leg(input.accountId, input.marketId, input.outcomeId, side, if side == BUY then WXUSD_BUDGET else SHARES,
        if input.buyAmount.Some? then input.buyAmount.value else input.sellShares.value,
        input.positionId, input.maxSlippageBps, input.worstAcceptablePrice, input.strategyId, input.clientOrderId))
  }

  /** `capacity` is what the server says can be spent, when it was read; `digest` stands for the hash of
      the canonical legs. */
  datatype Request = Request(legs: seq<Leg>, approval: Option<string>, capacity: Option<string>, now: int)

  datatype Basis = INTERACTIVE_APPROVAL | DELEGATED

  datatype Authorization = Authorization(permits: nat, basis: Basis, intent: string, approval: Option<string>,
    buyAmount: Option<string>)

  /** What about an order is outside the scope. */
  datatype Violation = ACCOUNT | MARKET | ON_SIDE | TOO_LOOSE | STRATEGY | SIZE | CEILING

  datatype Denial = POLICY_IS_READ_ONLY | NOT_APPROVED | NO_SCOPE | WINDOW_CLOSED | TOO_MANY_LEGS
    | OUTSIDE_SCOPE(leg: nat, why: Violation) | OVER_CUMULATIVE | OVER_CAPACITY

  datatype Outcome = Authorized(authorization: Authorization) | Refused(denial: Denial)

  predicate IsHex(s: string) {
    forall i :: 0 <= i < |s| ==> IsDigit(s[i]) || 'a' <= s[i] <= 'f'
  }

  /** The intent an approval token names, when it is one. */
  function ApprovalIntent(token: string): Option<string> {
    if |token| == 38 && token[..5] == "apv2_" && IsHex(token[5..21]) && token[21] == '_' && IsHex(token[22..])
    then Some("apv1_" + token[5..21]) else None
  }

  function MintToken(intent: string, random: string): string
    requires |intent| >= 5
  {
    "apv2_" + intent[5..] + "_" + random
  }

  /** A minted token names the intent it was minted for. */
  lemma MintedNamesIntent(intent: string, random: string)
    requires |intent| == 21 && intent[..5] == "apv1_" && IsHex(intent[5..]) && |random| == 16 && IsHex(random)
    ensures ApprovalIntent(MintToken(intent, random)) == Some(intent)
  {
    var token := MintToken(intent, random);
    assert token[..5] == "apv2_" && token[5..21] == intent[5..] && token[21] == '_' && token[22..] == random;
    assert intent == intent[..5] + intent[5..];
  }

  /** A token names an intent exactly when it could have been minted for it. */
  lemma OnlyMintedTokens(token: string, intent: string)
    ensures ApprovalIntent(token) == Some(intent) <==>
      && |intent| == 21 && intent[..5] == "apv1_" && IsHex(intent[5..])
      && exists random | |random| == 16 && IsHex(random) :: token == MintToken(intent, random)
  {
    if ApprovalIntent(token) == Some(intent) {
      var random := token[22..];
      assert intent[..5] == "apv1_" && intent[5..] == token[5..21];
      assert token == token[..5] + token[5..21] + [token[21]] + token[22..];
      assert token == MintToken(intent, random);
    }
    if |intent| == 21 && intent[..5] == "apv1_" && IsHex(intent[5..]) {
      forall random | |random| == 16 && IsHex(random) && token == MintToken(intent, random) ensures ApprovalIntent(token) == Some(intent) {
        MintedNamesIntent(intent, random);
      }
    }
  }

  /** The order's own bounds: who, where, which side, how much slippage, whose strategy, how large. */
  predicate LegCovered(scope: Scope, leg: Leg) {
    && leg.accountId in scope.accounts
    && (scope.markets.Some? ==> leg.marketId in scope.markets.value)
    && leg.side in scope.sides
    && leg.maxSlippageBps <= scope.maxSlippageBps as real
    && (scope.strategyIds.Some? ==> leg.strategyId.Some? && leg.strategyId.value in scope.strategyIds.value)
    && AtMost(leg.size, if leg.side == BUY then scope.maxBuyAmount else scope.maxSellShares)
  }

  /** A size that can be traded, within a ceiling that can be read. */
  predicate AtMost(size: string, ceiling: Option<string>) {
    && ParseDecimal(size).Some? && ceiling.Some? && ParseDecimal(ceiling.value).Some?
    && ParseDecimal(size).value <= ParseDecimal(ceiling.value).value
  }

  /** The exact sum of what the BUY legs commit. */
  function BuySum(legs: seq<Leg>): nat {
    if legs == [] then 0
    else
      var last := legs[|legs| - 1];
      BuySum(legs[..|legs| - 1])
        + if last.side == BUY && ParseDecimal(last.size).Some? then ParseDecimal(last.size).value else 0
  }

  predicate LegsCovered(scope: Scope, legs: seq<Leg>) {
    forall i :: 0 <= i < |legs| ==> LegCovered(scope, legs[i])
  }

  predicate WithinCeiling(scope: Scope, sum: nat) {
    scope.maxCumulativeBuyAmount.Some? && ParseDecimal(scope.maxCumulativeBuyAmount.value).Some?
    && sum <= ParseDecimal(scope.maxCumulativeBuyAmount.value).value
  }

  predicate WithinCapacity(capacity: Option<string>, sum: nat) {
    capacity.Some? && ParseDecimal(capacity.value).Some? ==> sum <= ParseDecimal(capacity.value).value
  }

  predicate Covered(scope: Scope, request: Request, dates: Dates) {
    && dates(scope.notAfter).Some? && request.now <= dates(scope.notAfter).value
    && |request.legs| <= scope.maxLegs && LegsCovered(scope, request.legs)
    && (BuySum(request.legs) > 0 ==>
        WithinCeiling(scope, BuySum(request.legs)) && WithinCapacity(request.capacity, BuySum(request.legs)))
  }

  predicate Violates(scope: Scope, leg: Leg, why: Violation) {
    match why
    case ACCOUNT => leg.accountId !in scope.accounts
    case MARKET => scope.markets.Some? && leg.marketId !in scope.markets.value
    case ON_SIDE => leg.side !in scope.sides
    case TOO_LOOSE => leg.maxSlippageBps > scope.maxSlippageBps as real
    case STRATEGY => scope.strategyIds.Some? && (leg.strategyId.None? || leg.strategyId.value !in scope.strategyIds.value)
    case SIZE => ParseDecimal(leg.size).None?
    case CEILING =>
      ParseDecimal(leg.size).Some? && !AtMost(leg.size, if leg.side == BUY then scope.maxBuyAmount else scope.maxSellShares)
  }

  /** The place of a check among those made of an order. */
  function CheckNumber(why: Violation): nat {
    match why
    case ACCOUNT => 0
    case MARKET => 1
    case ON_SIDE => 2
    case TOO_LOOSE => 3
    case STRATEGY => 4
    case SIZE => 5
    case CEILING => 6
  }

  /** This check fails, and none before it does. */
  predicate FailsFirst(scope: Scope, leg: Leg, why: Violation) {
    Violates(scope, leg, why) && forall w: Violation :: CheckNumber(w) < CheckNumber(why) ==> !Violates(scope, leg, w)
  }

  /** An order is covered exactly when nothing about it is outside the scope. */
  lemma CoveredMeansNoViolation(scope: Scope, leg: Leg)
    ensures LegCovered(scope, leg) <==> forall why :: !Violates(scope, leg, why)
  {
    hide ParseDecimal;
    if !LegCovered(scope, leg) {
      assert Violates(scope, leg, ACCOUNT) || Violates(scope, leg, MARKET) || Violates(scope, leg, ON_SIDE)
        || Violates(scope, leg, TOO_LOOSE) || Violates(scope, leg, STRATEGY) || Violates(scope, leg, SIZE)
        || Violates(scope, leg, CEILING);
    }
  }

  /** What is wrong with an order, in the order the checks are made. */
  method CheckLeg(scope: Scope, leg: Leg) returns (violation: Option<Violation>)
    ensures violation.None? <==> LegCovered(scope, leg)
    ensures violation.Some? ==> FailsFirst(scope, leg, violation.value)
  {
    hide ParseDecimal;
    if leg.accountId !in scope.accounts { return Some(ACCOUNT); }
    if scope.markets.Some? && leg.marketId !in scope.markets.value { return Some(MARKET); }
    if leg.side !in scope.sides { return Some(ON_SIDE); }
    if leg.maxSlippageBps > scope.maxSlippageBps as real { return Some(TOO_LOOSE); }
    if scope.strategyIds.Some? && (leg.strategyId.None? || leg.strategyId.value !in scope.strategyIds.value) {
      return Some(STRATEGY);
    }
    var size := ParseDecimal(leg.size);
    if size.None? { return Some(SIZE); }
    var bound := if leg.side == BUY then scope.maxBuyAmount else scope.maxSellShares;
    var ceiling := if bound.None? then None else ParseDecimal(bound.value);
    if ceiling.None? || size.value > ceiling.value { return Some(CEILING); }
    return None;
  }

  /** The loop over the legs: the sum of the BUY sizes, or the first leg that is not covered and why. */
  method CheckLegs(scope: Scope, legs: seq<Leg>) returns (cumulativeBuy: nat, violation: Option<(nat, Violation)>)
    ensures violation.None? <==> LegsCovered(scope, legs)
    ensures violation.None? ==> cumulativeBuy == BuySum(legs)
    ensures violation.Some? ==>
      violation.value.0 < |legs| && LegsCovered(scope, legs[..violation.value.0])
      && FailsFirst(scope, legs[violation.value.0], violation.value.1)
  {
    hide ParseDecimal, LegCovered, FailsFirst;
    cumulativeBuy := 0;
    for index := 0 to |legs|
      invariant LegsCovered(scope, legs[..index]) && cumulativeBuy == BuySum(legs[..index])
    {
      var leg := legs[index];
      assert legs[..index + 1][..index] == legs[..index];
      var why := CheckLeg(scope, leg);
      if why.Some? { return 0, Some((index, why.value)); }
      if leg.side == BUY {
        assert ParseDecimal(leg.size).Some? by { CoveredHasSize(scope, leg); }
        cumulativeBuy := cumulativeBuy + ParseDecimal(leg.size).value;
      }
    }
    assert legs[..|legs|] == legs;
    violation := None;
  }

  lemma CoveredHasSize(scope: Scope, leg: Leg)
    requires LegCovered(scope, leg)
    ensures ParseDecimal(leg.size).Some?
  {
    hide ParseDecimal;
  }

  /** The write comes while the scope is open. */
  predicate InWindow(scope: Scope, request: Request, dates: Dates) {
    dates(scope.notAfter).Some? && request.now <= dates(scope.notAfter).value
  }

  /** The request is outside the scope in the way the refusal says, and passes every check made before. */
  predicate Denies(scope: Scope, request: Request, dates: Dates, denial: Denial) {
    match denial
    case WINDOW_CLOSED => !InWindow(scope, request, dates)
    case TOO_MANY_LEGS => InWindow(scope, request, dates) && |request.legs| > scope.maxLegs
    case OUTSIDE_SCOPE(leg, why) =>
      InWindow(scope, request, dates) && |request.legs| <= scope.maxLegs
      && leg < |request.legs| && LegsCovered(scope, request.legs[..leg]) && FailsFirst(scope, request.legs[leg], why)
    case OVER_CUMULATIVE =>
      InWindow(scope, request, dates) && |request.legs| <= scope.maxLegs && LegsCovered(scope, request.legs)
      && BuySum(request.legs) > 0 && !WithinCeiling(scope, BuySum(request.legs))
    case OVER_CAPACITY =>
      InWindow(scope, request, dates) && |request.legs| <= scope.maxLegs && LegsCovered(scope, request.legs)
      && BuySum(request.legs) > 0 && WithinCeiling(scope, BuySum(request.legs))
      && !WithinCapacity(request.capacity, BuySum(request.legs))
    case _ => false
  }

  /** A refusal that says what is so. */
  predicate Justified(policy: Policy, request: Request, expected: string, dates: Dates, denial: Denial) {
    match policy.mode
    case READ_ONLY => denial == POLICY_IS_READ_ONLY
    case INTERACTIVE =>
      denial == NOT_APPROVED && (request.approval.None? || ApprovalIntent(request.approval.value) != Some(expected))
    case DELEGATED_AUTO =>
      if policy.scope.None? then denial == NO_SCOPE else Denies(policy.scope.value, request, dates, denial)
  }

  /** The policy's answer to a write: the permits it is granted, or one reason against it. */
  method AuthorizeWrite(policy: Policy, request: Request, digest: seq<Leg> -> string, dates: Dates) returns (r: Outcome)
    ensures policy.mode == READ_ONLY ==> r == Refused(POLICY_IS_READ_ONLY)
    ensures policy.mode == INTERACTIVE ==>
      (r.Authorized? <==> request.approval.Some? && ApprovalIntent(request.approval.value) == Some(digest(request.legs)))
      && (r.Authorized? ==> r.authorization.approval == request.approval && r.authorization.buyAmount.None?)
    ensures policy.mode == DELEGATED_AUTO ==>
      (r == Refused(NO_SCOPE) <==> policy.scope.None?)
      && (r.Authorized? <==> policy.scope.Some? && Covered(policy.scope.value, request, dates))
      && (r.Authorized? ==>
          r.authorization.approval.None?
          && r.authorization.buyAmount
            == if BuySum(request.legs) > 0 then Some(FormatDecimal(BuySum(request.legs))) else None)
    ensures r.Authorized? ==>
      r.authorization.permits == |request.legs| && r.authorization.intent == digest(request.legs)
      && (r.authorization.basis == DELEGATED <==> policy.mode == DELEGATED_AUTO)
    ensures r.Refused? ==> Justified(policy, request, digest(request.legs), dates, r.denial)
  {
    hide ParseDecimal, FormatDecimal, LegsCovered, BuySum, ApprovalIntent, FailsFirst;
    if policy.mode == READ_ONLY {
      return Refused(POLICY_IS_READ_ONLY);
    }
    var expected := digest(request.legs);
    if policy.mode == INTERACTIVE {
      if request.approval.None? || ApprovalIntent(request.approval.value) != Some(expected) {
        return Refused(NOT_APPROVED);
      }
      return Authorized(Authorization(|request.legs|, INTERACTIVE_APPROVAL, expected, request.approval, None));
    }
    if policy.scope.None? {
      return Refused(NO_SCOPE);
    }
    var scope := policy.scope.value;
    var notAfter := dates(scope.notAfter);
    if notAfter.None? || request.now > notAfter.value {
      return Refused(WINDOW_CLOSED);
    }
    if |request.legs| > scope.maxLegs {
      return Refused(TOO_MANY_LEGS);
    }
    var cumulativeBuy, violation := CheckLegs(scope, request.legs);
    if violation.Some? {
      return Refused(OUTSIDE_SCOPE(violation.value.0, violation.value.1));
    }
    if cumulativeBuy > 0 {
      if !WithinCeiling(scope, cumulativeBuy) {
        return Refused(OVER_CUMULATIVE);
      }
      if !WithinCapacity(request.capacity, cumulativeBuy) {
        return Refused(OVER_CAPACITY);
      }
    }
    return Authorized(Authorization(|request.legs|, DELEGATED, expected, None,
      if cumulativeBuy > 0 then Some(FormatDecimal(cumulativeBuy)) else None));
  }

  /** What an order may be under a parsed scope, in numbers. */
  predicate WithinScope(scope: Scope, dates: Dates, leg: Leg)
    requires IsBounded(scope, dates)
  {
    && (exists i :: 0 <= i < |scope.accounts| && scope.accounts[i] == leg.accountId)
    && (scope.markets == None || exists i :: 0 <= i < |scope.markets.value| && scope.markets.value[i] == leg.marketId)
    && (scope.strategyIds == None
        || (leg.strategyId != None && exists i :: 0 <= i < |scope.strategyIds.value| && scope.strategyIds.value[i] == leg.strategyId.value))
    && leg.maxSlippageBps <= scope.maxSlippageBps as real
    && match ParseDecimal(leg.size)
       case None => false
       case Some(size) =>
         if leg.side == BUY then BUY in scope.sides && size <= ParseDecimal(scope.maxBuyAmount.value).value
         else SELL in scope.sides && size <= ParseDecimal(scope.maxSellShares.value).value
  }

  /** Under a parsed scope a write is authorized exactly when it comes before the stated end, has no more orders than
      stated, each within the stated accounts, markets, sides, slippage, strategies and size, and buys in all no more
      than the stated total and what can be spent. */
  lemma CoveredExactly(scope: Scope, request: Request, dates: Dates)
    requires IsBounded(scope, dates)
    ensures Covered(scope, request, dates) <==>
      && request.now <= dates(scope.notAfter).value && |request.legs| <= scope.maxLegs
      && (forall leg | leg in request.legs :: WithinScope(scope, dates, leg))
      && (BUY in scope.sides ==> BuySum(request.legs) <= ParseDecimal(scope.maxCumulativeBuyAmount.value).value)
      && (BuySum(request.legs) == 0 || request.capacity == None || ParseDecimal(request.capacity.value) == None
          || BuySum(request.legs) <= ParseDecimal(request.capacity.value).value)
  {
    hide ParseDecimal, BuySum, LegCovered, WithinScope;
    forall leg ensures LegCovered(scope, leg) <==> WithinScope(scope, dates, leg) { CoveredIsWithin(scope, dates, leg); }
    assert LegsCovered(scope, request.legs) <==> forall leg | leg in request.legs :: WithinScope(scope, dates, leg) by {
      assert forall i :: 0 <= i < |request.legs| ==> request.legs[i] in request.legs;
    }
    if LegsCovered(scope, request.legs) && BUY !in scope.sides { NothingBought(scope, request.legs); }
  }

  lemma CoveredIsWithin(scope: Scope, dates: Dates, leg: Leg)
    requires IsBounded(scope, dates)
    ensures LegCovered(scope, leg) <==> WithinScope(scope, dates, leg)
  {
    hide ParseDecimal;
  }

  /** So no order is too large, and all of them together never pass the stated total: a printed budget reads back as
      the sum that was checked. */
  lemma CoveredIsBounded(scope: Scope, request: Request, dates: Dates, i: nat)
    requires IsBounded(scope, dates) && Covered(scope, request, dates) && i < |request.legs|
    ensures
      var leg := request.legs[i];
      && ParseDecimal(leg.size).Some? && request.now <= dates(scope.notAfter).value && |request.legs| <= 20
      && (leg.side == BUY ==> ParseDecimal(leg.size).value <= ParseDecimal(scope.maxBuyAmount.value).value)
      && (leg.side == SELL ==> ParseDecimal(leg.size).value <= ParseDecimal(scope.maxSellShares.value).value)
      && leg.maxSlippageBps <= 9_999.0
      && (BUY in scope.sides ==> BuySum(request.legs) <= ParseDecimal(scope.maxCumulativeBuyAmount.value).value)
      && (BUY !in scope.sides ==> BuySum(request.legs) == 0)
      && ParseDecimal(FormatDecimal(BuySum(request.legs))) == Some(BuySum(request.legs))
  {
    hide ParseDecimal, FormatDecimal, IsCanonical;
    assert LegCovered(scope, request.legs[i]);
    ParseOfFormat(BuySum(request.legs));
    if BUY !in scope.sides { NothingBought(scope, request.legs); }
  }

  lemma {:induction false} NothingBought(scope: Scope, legs: seq<Leg>)
    requires LegsCovered(scope, legs) && BUY !in scope.sides
    ensures BuySum(legs) == 0
  {
    hide ParseDecimal, AtMost;
    if legs != [] {
      NothingBought(scope, legs[..|legs| - 1]);
      assert LegCovered(scope, legs[|legs| - 1]);
    }
  }

  // ---------- The signing gate ----------

  class SigningGate {
    const mode: Mode
    var permits: int
    var granted: int
    var used: int

    /** Every permit granted is still there or was used. */
    ghost predicate Valid()
      reads this
    {
      permits >= 0 && used >= 0 && permits + used == granted && (mode == READ_ONLY ==> granted == 0)
    }

    constructor (mode: Mode)
      ensures Valid() && this.mode == mode && permits == 0 && granted == 0 && used == 0
    {
      this.mode := mode;
      permits, granted, used := 0, 0, 0;
    }

    method Grant(authorization: Authorization) returns (ok: bool)
      requires Valid()
      modifies this
      ensures Valid() && (ok <==> mode != READ_ONLY)
      ensures ok ==> permits == old(permits) + authorization.permits && granted == old(granted) + authorization.permits && used == old(used)
      ensures !ok ==> permits == old(permits) && granted == old(granted) && used == old(used)
    {
      if mode == READ_ONLY {
        return false;
      }
      permits := permits + authorization.permits;
      granted := granted + authorization.permits;
      return true;
    }

    method Consume() returns (ok: bool)
      requires Valid()
      modifies this
      ensures Valid() && (ok <==> old(permits) > 0) && granted == old(granted)
      ensures permits == old(permits) - (if ok then 1 else 0) && used == old(used) + if ok then 1 else 0
    {
      if permits <= 0 {
        return false;
      }
      permits := permits - 1;
      used := used + 1;
      return true;
    }
  }

  /** The transaction signer, for an invocation with a gate or without. `signatures` counts how often the
      signing process was started. */
  class TransactionSigner {
    const mode: Mode
    const gate: SigningGate?
    var signatures: nat

    constructor (mode: Mode, gate: SigningGate?)
      ensures this.mode == mode && this.gate == gate && signatures == 0
    {
      this.mode, this.gate, signatures := mode, gate, 0;
    }

    /** The permit is spent before the process starts; without a gate nothing is signed. */
    method SignTransaction() returns (ok: bool)
      requires gate != null ==> gate.Valid()
      modifies this, gate
      ensures gate != null ==> gate.Valid()
      ensures ok <==> mode != READ_ONLY && gate != null && old(gate.permits) > 0
      ensures signatures == old(signatures) + if ok then 1 else 0
      ensures gate != null ==> gate.used == old(gate.used) + (if ok then 1 else 0) && gate.granted == old(gate.granted)
    {
      if mode == READ_ONLY {
        return false;
      }
      if gate == null {
        return false;
      }
      ok := gate.Consume();
      if ok {
        signatures := signatures + 1;
      }
    }
  }

  /** What happens at a gate: a write of so many legs is authorized, or a signature is asked for. */
  datatype GateEvent = Grants(legs: nat) | Signs

  function PermitsAfter(mode: Mode, events: seq<GateEvent>): nat {
    if events == [] then 0
    else
      var before := PermitsAfter(mode, events[..|events| - 1]);
      match events[|events| - 1]
      case Grants(legs) => if mode == READ_ONLY then before else before + legs
      case Signs => if before > 0 then before - 1 else 0
  }

  function SignaturesAfter(mode: Mode, events: seq<GateEvent>): nat {
    if events == [] then 0
    else
      var front := events[..|events| - 1];
      SignaturesAfter(mode, front) + if events[|events| - 1].Signs? && mode != READ_ONLY && PermitsAfter(mode, front) > 0 then 1 else 0
  }

  function LegsAuthorized(events: seq<GateEvent>): nat {
    if events == [] then 0
    else LegsAuthorized(events[..|events| - 1]) + match events[|events| - 1] case Grants(legs) => legs case Signs => 0
  }

  /** Whatever order grants and signing calls come in, no more is signed than was authorized, and under
      read-only nothing is. */
  lemma {:induction false} NeverOversigned(mode: Mode, events: seq<GateEvent>)
    ensures mode != READ_ONLY ==> SignaturesAfter(mode, events) + PermitsAfter(mode, events) == LegsAuthorized(events)
    ensures mode == READ_ONLY ==> SignaturesAfter(mode, events) == 0 && PermitsAfter(mode, events) == 0
  {
    if events != [] { NeverOversigned(mode, events[..|events| - 1]); }
  }

  /** The gate and the signer do exactly that on every sequence of calls. */
  method RunGate(mode: Mode, events: seq<GateEvent>) returns (signatures: nat)
    ensures signatures == SignaturesAfter(mode, events) <= LegsAuthorized(events)
    ensures mode == READ_ONLY ==> signatures == 0
  {
    var gate := new SigningGate(mode);
    var signer := new TransactionSigner(mode, gate);
    for n := 0 to |events|
      invariant gate.Valid() && gate.mode == mode
      invariant gate.permits == PermitsAfter(mode, events[..n]) && signer.signatures == SignaturesAfter(mode, events[..n])
    {
      assert events[..n + 1][..n] == events[..n];
      NeverOversigned(mode, events[..n]);
      match events[n]
      case Grants(legs) =>
        var granted := gate.Grant(Authorization(legs, DELEGATED, "", None, None));
      case Signs =>
        var signed := signer.SignTransaction();
    }
    assert events[..|events|] == events;
    NeverOversigned(mode, events);
    return signer.signatures;
  }
}
