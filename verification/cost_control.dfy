/** The spend ledger: per user and calendar day, how many model requests were
    made and what they cost, against a daily limit. The table is the DynamoDB
    spend table keyed by (user id, date); "today" and "now" are parameters and
    each store call may fail with a transport error (None: it succeeds).
    Money is `real`: float64 rounding is not modelled. */
module CostControl {
  import opened Common

  type Money = real

  datatype SpendRecord = SpendRecord(
    userId: string,
    date: string,
    llmRequests: int,
    llmCost: Money,
    dailyLimit: Money,
    createdAt: Time,
    updatedAt: Time,
    ttl: int)

  type SpendKey = (string, string)
  type SpendTable = map<SpendKey, SpendRecord>

  /** The figures of the denial message
      "Daily limit exceeded. Current: $%.4f, Request: $%.4f, Limit: $%.4f". */
  datatype LimitExceeded = LimitExceeded(current: Money, request: Money, limit: Money)

  /** The answer of an admission check; `reason` is empty (None) when allowed. */
  datatype CostControlResult = CostControlResult(
    allowed: bool,
    remaining: Money,
    currentCost: Money,
    dailyLimit: Money,
    reason: Option<LimitExceeded>)

  const GetFailedMsg := "failed to get user spend record"
  const SaveFailedMsg := "failed to save user spend record"

  /** Daily limit of a user without a record for the day (the same for every user). */
  function DefaultDailyLimit(userId: string): (limit: Money)
    ensures limit > 0.0
  {
    5.0
  }

  /** Records are kept for 7 days. */
  const RetentionSeconds: int := 7 * Day

  /** The store's invariant: a record sits under its own (user, date). */
  ghost predicate KeyedByUserAndDate(t: SpendTable)
  {
    forall k :: k in t ==> t[k].userId == k.0 && t[k].date == k.1
  }

  /** Today's record of the user, or the fresh record used when there is none. */
  function TodaysRecord(t: SpendTable, userId: string, today: string, now: Time): SpendRecord
  {
    if (userId, today) in t then t[(userId, today)]
    else SpendRecord(userId, today, 0, 0.0, DefaultDailyLimit(userId), now, now, 0)
  }

  /** The record after one more request costing `cost`. */
  function Charged(r: SpendRecord, cost: Money, now: Time): SpendRecord
  {
    r.(llmRequests := r.llmRequests + 1, llmCost := r.llmCost + cost, updatedAt := now, ttl := now + RetentionSeconds)
  }

  /** Whether the request may run: the check denies only on a strict excess. */
  function Admission(r: SpendRecord, estimatedCost: Money): (c: CostControlResult)
    ensures c.allowed <==> r.llmCost + estimatedCost <= r.dailyLimit
    ensures c.currentCost == r.llmCost && c.dailyLimit == r.dailyLimit
    ensures c.remaining == r.dailyLimit - r.llmCost
    ensures c.reason.None? <==> c.allowed
    ensures c.reason.Some? ==> c.reason.value == LimitExceeded(r.llmCost, estimatedCost, r.dailyLimit)
  {
    var newTotalCost := r.llmCost + estimatedCost;
    var result := CostControlResult(false, r.dailyLimit - r.llmCost, r.llmCost, r.dailyLimit, None);
    if newTotalCost > r.dailyLimit then
      result.(allowed := false, reason := Some(LimitExceeded(r.llmCost, estimatedCost, r.dailyLimit)))
    else
      result.(allowed := true)
  }

  class CostControlService {
    var table: SpendTable

    ghost predicate Valid()
      reads this
    {
      KeyedByUserAndDate(table)
    }

    constructor ()
      ensures Valid() && table == map[]
    {
      table := map[];
    }

    /** Admission check for a request estimated at `estimatedCost`. It only
        reads the table: an absent record counts as no requests, no cost and
        the default limit. */
    function CheckUserSpendLimit(userId: string, today: string, estimatedCost: Money, now: Time, getErr: Option<Error>)
      : (r: Result<CostControlResult, Error>)
      reads this
      ensures getErr.Some? ==> r == Failure(Wrap(GetFailedMsg, Wrap("failed to get item", getErr.value)))
      ensures getErr.None? ==> r.Success?
      ensures r.Success? ==>
                var present := (userId, today) in table;
                var current := if present then table[(userId, today)].llmCost else 0.0;
                var limit := if present then table[(userId, today)].dailyLimit else 5.0;
                && (r.value.allowed <==> current + estimatedCost <= limit)
                && r.value.currentCost == current
                && r.value.dailyLimit == limit
                && r.value.remaining == limit - current
                && (r.value.reason.None? <==> r.value.allowed)
    {
      if getErr.Some? then Failure(Wrap(GetFailedMsg, Wrap("failed to get item", getErr.value)))
      else Success(Admission(TodaysRecord(table, userId, today, now), estimatedCost))
    }

    /** Today's record of the user as stored, if any. */
    function GetUserSpendSummary(userId: string, today: string, getErr: Option<Error>)
      : (r: Result<Option<SpendRecord>, Error>)
      requires Valid()
      reads this
      ensures getErr.Some? <==> r.Failure?
      ensures getErr.Some? ==> r == Failure(Wrap("failed to get item", getErr.value))
      ensures r.Success? && r.value.Some? ==> r.value.value.userId == userId && r.value.value.date == today
      ensures r.Success? ==> (r.value.Some? <==> (userId, today) in table)
      ensures r.Success? && r.value.Some? ==> r.value.value == table[(userId, today)]
    {
      if getErr.Some? then Failure(Wrap("failed to get item", getErr.value))
      else if (userId, today) in table then Success(Some(table[(userId, today)]))
      else Success(None)
    }

    /** Read-modify-write of today's record: one more request, `cost` more spent.
        Only that record is written. */
    method RecordLLMRequest(userId: string, today: string, cost: Money, now: Time,
                            getErr: Option<Error>, putErr: Option<Error>)
      returns (r: Option<Error>)
      requires Valid()
      modifies this
      ensures Valid()
      ensures getErr.Some? ==> r == Some(Wrap(GetFailedMsg, Wrap("failed to get item", getErr.value)))
      ensures getErr.None? && putErr.Some? ==> r == Some(Wrap(SaveFailedMsg, Wrap("failed to put item", putErr.value)))
      ensures r.Some? ==> table == old(table)
      ensures r.None? <==> getErr.None? && putErr.None?
      ensures r.None? ==> table == old(table)[(userId, today) := Charged(TodaysRecord(old(table), userId, today, now), cost, now)]
    {
      if getErr.Some? {
        return Some(Wrap(GetFailedMsg, Wrap("failed to get item", getErr.value)));
      }
      var record := TodaysRecord(table, userId, today, now);
      record := record.(llmRequests := record.llmRequests + 1);
      record := record.(llmCost := record.llmCost + cost);
      record := record.(updatedAt := now);
      record := record.(ttl := now + RetentionSeconds);
      if putErr.Some? {
        return Some(Wrap(SaveFailedMsg, Wrap("failed to put item", putErr.value)));
      }
      table := table[(userId, today) := record];
      return None;
    }
  }

  // ---------------------------------------------------------------------------
  // Model prices.

  datatype Pricing = Pricing(input: Money, output: Money)

  const Sonnet := "anthropic.claude-3-sonnet-20240229-v1:0"
  const Haiku := "anthropic.claude-3-haiku-20240307-v1:0"
  const Opus := "anthropic.claude-3-opus-20240229-v1:0"

  /** Dollars per 1000 tokens, by model. */
  const Prices: map<string, Pricing> := map[
    Sonnet := Pricing(0.003, 0.015),
    Haiku := Pricing(0.00025, 0.00125),
    Opus := Pricing(0.015, 0.075)]

  /** The price table entry of a model; an unknown model is priced as Sonnet. */
  function PricingFor(model: string): Pricing
  {
    if model in Prices then Prices[model] else Prices[Sonnet]
  }

  /** Estimated dollars of a request: input and output tokens at the model's price. */
  function EstimateLLMCost(inputTokens: int, outputTokens: int, model: string): (cost: Money)
    ensures inputTokens >= 0 && outputTokens >= 0 ==> cost >= 0.0
  {
    var pricing := PricingFor(model);
    var inputCost := (inputTokens as real / 1000.0) * pricing.input;
    var outputCost := (outputTokens as real / 1000.0) * pricing.output;
    inputCost + outputCost
  }

  // ---------------------------------------------------------------------------
  // Properties of the ledger.

  /** An unknown model name costs what Sonnet costs. */
  lemma UnknownModelPricedAsSonnet(inputTokens: int, outputTokens: int, model: string)
    requires model !in Prices
    ensures EstimateLLMCost(inputTokens, outputTokens, model) == EstimateLLMCost(inputTokens, outputTokens, Sonnet)
  {
  }

  /** The estimate is the input part plus the output part, each linear in its tokens. */
  lemma EstimateIsSumOfParts(inputTokens: int, outputTokens: int, model: string)
    ensures EstimateLLMCost(inputTokens, outputTokens, model)
            == EstimateLLMCost(inputTokens, 0, model) + EstimateLLMCost(0, outputTokens, model)
  {
  }

  /** Recording keeps who and which day the record is about and its limit, adds
      one request, and with a non-negative cost never lowers the spent amount. */
  lemma ChargeKeepsIdentityAndGrows(r: SpendRecord, cost: Money, now: Time)
    requires cost >= 0.0
    ensures var r' := Charged(r, cost, now);
            r'.userId == r.userId && r'.date == r.date && r'.dailyLimit == r.dailyLimit
            && r'.llmRequests == r.llmRequests + 1 && r'.llmCost >= r.llmCost
  {
  }

  /** Checking and then recording the same cost keeps the day within its limit:
      an admitted cost, once recorded, leaves the spent amount at most the limit. */
  lemma AdmittedChargeStaysWithinLimit(t: SpendTable, userId: string, today: string, cost: Money, now: Time)
    requires Admission(TodaysRecord(t, userId, today, now), cost).allowed
    ensures Charged(TodaysRecord(t, userId, today, now), cost, now).llmCost
            <= TodaysRecord(t, userId, today, now).dailyLimit
  {
  }

  /** A user's first request of the day is checked against the default limit
      alone: admitted exactly when the estimate fits in it, nothing yet spent. */
  lemma FreshDayAdmitsUpToDefault(t: SpendTable, userId: string, today: string, now: Time, cost: Money)
    requires (userId, today) !in t
    ensures var c := Admission(TodaysRecord(t, userId, today, now), cost);
            (c.allowed <==> cost <= DefaultDailyLimit(userId))
            && c.currentCost == 0.0 && c.remaining == DefaultDailyLimit(userId)
  {
  }

  /** A user at $4.99 of the default $5.00 asking for $0.50 is denied, with
      $0.01 remaining. */
  lemma NearLimitIsDenied(userId: string, today: string, now: Time)
    ensures var r := SpendRecord(userId, today, 3, 4.99, DefaultDailyLimit(userId), now, now, 0);
            var c := Admission(r, 0.5);
            !c.allowed && c.remaining == 0.01 && c.reason.Some?
  {
  }
}
