/** The failover loop: error classification, fallback by tier, and retry delays with geometric backoff. */
module Failover {
  import opened Wrappers

  // ---------- models and tiers ----------

  datatype Model = Model(name: string, tier: int)

  const TIER_REASONING := 1
  const TIER_BALANCED := 3
  const TIER_ECONOMY := 4

  datatype Reason = NoReason | RateLimit | ServerError | Timeout | Quality | Cost

  /** The registry's models by tier, in registration order. */
  type Registry = map<int, seq<Model>>

  function Registered(registry: Registry, model: Model): Registry {
    registry[model.tier := (if model.tier in registry then registry[model.tier] else []) + [model]]
  }

  /** The registry after registering these models one after another. */
  function RegistryOf(models: seq<Model>): Registry {
    if models == [] then map[] else Registered(RegistryOf(models[..|models| - 1]), models[|models| - 1])
  }

  ghost predicate TiersOk(registry: Registry) {
    forall t, m | t in registry && m in registry[t] :: m.tier == t
  }

  function FallbackTier(tier: int, reason: Reason): int {
    match reason
    case RateLimit => if tier < TIER_ECONOMY then tier + 1 else tier
    case ServerError => if tier < TIER_ECONOMY then tier + 1 else tier
    case Timeout => if tier < TIER_ECONOMY then tier + 1 else tier
    case Cost => if tier < TIER_ECONOMY then tier + 1 else tier
    case Quality => if tier > TIER_REASONING then tier - 1 else tier
    case NoReason => TIER_BALANCED
  }

  /** The first model of the fallback tier, or the model itself when that tier is empty. */
  function SelectFallback(registry: Registry, primary: Model, reason: Reason): Model {
    var tier := FallbackTier(primary.tier, reason);
    if tier in registry && registry[tier] != [] then registry[tier][0] else primary
  }

  /** The first model registered under a tier. */
  ghost predicate FirstOfTier(models: seq<Model>, tier: int, model: Model) {
    model.tier == tier &&
    exists k :: 0 <= k < |models| && models[k] == model && forall j | 0 <= j < k :: models[j].tier != tier
  }

  lemma {:induction false} RegistryHolds(models: seq<Model>, tier: int)
    ensures var registry := RegistryOf(models);
      && (tier in registry <==> exists m :: m in models && m.tier == tier)
      && (tier in registry ==> registry[tier] != [] && FirstOfTier(models, tier, registry[tier][0]))
  {
    if models != [] {
      var n := |models| - 1;
      RegistryHolds(models[..n], tier);
      assert models == models[..n] + [models[n]];
      if tier in RegistryOf(models[..n]) {
        var k :| 0 <= k < n && models[..n][k] == RegistryOf(models[..n])[tier][0]
                 && forall j | 0 <= j < k :: models[..n][j].tier != tier;
        assert forall j | 0 <= j < k :: models[j] == models[..n][j];
        assert models[k].tier == tier;
      } else {
        assert forall j | 0 <= j < n :: models[j] == models[..n][j] && models[j].tier != tier;
      }
    }
  }

  /** What the fallback is: after a failed call the first model registered one tier down, at the last tier the
      first one of that tier; for better quality the first one a tier up; and the model itself where none is
      registered. */
  lemma FallbackSays(models: seq<Model>, primary: Model, reason: Reason, tier: int)
    requires tier == match reason
                     case Quality => if primary.tier > 1 then primary.tier - 1 else primary.tier
                     case NoReason => 3
                     case _ => if primary.tier < 4 then primary.tier + 1 else primary.tier
    ensures var fallback := SelectFallback(RegistryOf(models), primary, reason);
      if exists m :: m in models && m.tier == tier then FirstOfTier(models, tier, fallback) else fallback == primary
  {
    RegistryHolds(models, tier);
  }

  // ---------- error classification ----------

  predicate MatchesAt(s: string, sub: string, i: nat) {
    i + |sub| <= |s| && s[i..i + |sub|] == sub
  }

  predicate Contains(s: string, sub: string) {
    sub != "" && exists i | 0 <= i <= |s| :: MatchesAt(s, sub, i)
  }

  method ContainsAny(s: string, sub: string) returns (found: bool)
    ensures found == Contains(s, sub)
  {
    if |sub| == 0 || |sub| > |s| {
      return false;
    }
    for i := 0 to |s| - |sub| + 1
      invariant forall j | 0 <= j < i :: !MatchesAt(s, sub, j)
    {
      if s[i..i + |sub|] == sub {
        assert MatchesAt(s, sub, i);
        return true;
      }
    }
    return false;
  }

  predicate MatchesOne(s: string, subs: seq<string>) {
    exists i | 0 <= i < |subs| :: Contains(s, subs[i])
  }

  method ContainsOneOf(s: string, subs: seq<string>) returns (found: bool)
    ensures found == MatchesOne(s, subs)
  {
    for i := 0 to |subs|
      invariant forall j | 0 <= j < i :: !Contains(s, subs[j])
    {
      var hit := ContainsAny(s, subs[i]);
      if hit {
        return true;
      }
    }
    return false;
  }

  const RATE_LIMIT_WORDS := ["rate limit", "429", "too many requests"]
  const SERVER_ERROR_WORDS := ["500", "502", "503", "server error"]
  const TIMEOUT_WORDS := ["timeout", "deadline exceeded"]
  const QUOTA_WORDS := ["quota", "exceeded"]

  /** The first matching class; an unrecognised error counts as a server error. */
  function ReasonFor(err: string): Reason {
    if MatchesOne(err, RATE_LIMIT_WORDS) then RateLimit
    else if MatchesOne(err, SERVER_ERROR_WORDS) then ServerError
    else if MatchesOne(err, TIMEOUT_WORDS) then Timeout
    else if MatchesOne(err, QUOTA_WORDS) then Cost
    else ServerError
  }

  /** One text is found in another exactly when it is a part of it and not empty. */
  lemma ContainsIff(s: string, sub: string)
    ensures Contains(s, sub) <==> sub != "" && exists a, b :: s == a + sub + b
  {
    if Contains(s, sub) {
      var i :| 0 <= i <= |s| && MatchesAt(s, sub, i);
      assert s == s[..i] + sub + s[i + |sub|..];
    }
    if exists a, b :: s == a + sub + b {
      var a, b :| s == a + sub + b;
      assert MatchesAt(s, sub, |a|);
    }
  }

  /** The classes by the texts an error contains. */
  lemma ClassSays(err: string)
    ensures var limited := Contains(err, "rate limit") || Contains(err, "429") || Contains(err, "too many requests");
      var failed := Contains(err, "500") || Contains(err, "502") || Contains(err, "503")
                    || Contains(err, "server error");
      var late := Contains(err, "timeout") || Contains(err, "deadline exceeded");
      var over := Contains(err, "quota") || Contains(err, "exceeded");
      && (ReasonFor(err) == RateLimit <==> limited)
      && (ReasonFor(err) == Timeout <==> !limited && !failed && late)
      && (ReasonFor(err) == Cost <==> !limited && !failed && !late && over)
      && (ReasonFor(err) == ServerError <==> !limited && (failed || (!late && !over)))
  {
    OneOf(err, RATE_LIMIT_WORDS);
    OneOf(err, SERVER_ERROR_WORDS);
    OneOf(err, TIMEOUT_WORDS);
    OneOf(err, QUOTA_WORDS);
  }

  lemma OneOf(s: string, subs: seq<string>)
    requires 2 <= |subs| <= 4
    ensures MatchesOne(s, subs) <==>
            || Contains(s, subs[0]) || Contains(s, subs[1])
            || (|subs| > 2 && Contains(s, subs[2])) || (|subs| > 3 && Contains(s, subs[3]))
  {
  }

  method DetermineFallbackReason(err: Option<string>) returns (reason: Reason)
    ensures reason == if err.None? then NoReason else ReasonFor(err.value)
    ensures reason != Quality && (reason == NoReason <==> err.None?)
  {
    if err.None? {
      return NoReason;
    }
    var rateLimited := ContainsOneOf(err.value, RATE_LIMIT_WORDS);
    if rateLimited {
      return RateLimit;
    }
    var serverError := ContainsOneOf(err.value, SERVER_ERROR_WORDS);
    if serverError {
      return ServerError;
    }
    var timedOut := ContainsOneOf(err.value, TIMEOUT_WORDS);
    if timedOut {
      return Timeout;
    }
    var overQuota := ContainsOneOf(err.value, QUOTA_WORDS);
    return if overQuota then Cost else ServerError;
  }

  // ---------- delays ----------

  datatype Config = Config(
    maxRetries: int, retryDelayMs: int, enableHotSwitch: bool, backoffMultiplier: real, maxRetryDelayMs: int)

  function Power(base: real, n: nat): real {
    if n == 0 then 1.0 else Power(base, n - 1) * base
  }

  method Pow(base: real, n: nat) returns (result: real)
    ensures result == Power(base, n)
  {
    result := 1.0;
    for i := 0 to n
      invariant result == Power(base, i)
    {
      result := result * base;
    }
  }

  /** Conversion to whole milliseconds cuts towards zero. */
  function Truncate(x: real): int {
    if x >= 0.0 then x.Floor else -(-x).Floor
  }

  function Uncapped(c: Config, attempt: nat): real
    requires attempt >= 1
  {
    c.retryDelayMs as real * Power(c.backoffMultiplier, attempt - 1)
  }

  function RetryDelay(c: Config, attempt: nat): int
    requires attempt >= 1
  {
    var delay := Uncapped(c, attempt);
    Truncate(if delay > c.maxRetryDelayMs as real then c.maxRetryDelayMs as real else delay)
  }

  method CalculateRetryDelay(c: Config, attempt: nat) returns (ms: int)
    requires attempt >= 1
    ensures ms == RetryDelay(c, attempt)
  {
    var factor := Pow(c.backoffMultiplier, attempt - 1);
    var delay := c.retryDelayMs as real * factor;
    assert delay == Uncapped(c, attempt);
    if delay > c.maxRetryDelayMs as real {
      delay := c.maxRetryDelayMs as real;
    }
    return Truncate(delay);
  }

  /** The delay before the cap starts at the configured one and is multiplied from attempt to attempt; the
      wait is that delay, or the cap if that is less, cut to whole milliseconds. */
  lemma DelaySays(c: Config, attempt: nat)
    requires attempt >= 1
    ensures Uncapped(c, 1) == c.retryDelayMs as real
    ensures Uncapped(c, attempt + 1) == Uncapped(c, attempt) * c.backoffMultiplier
    ensures var ms, delay := RetryDelay(c, attempt), Uncapped(c, attempt);
      && (delay > c.maxRetryDelayMs as real ==> ms == c.maxRetryDelayMs)
      && (0.0 <= delay <= c.maxRetryDelayMs as real ==> ms as real <= delay < ms as real + 1.0)
      && (delay < 0.0 && delay <= c.maxRetryDelayMs as real ==> ms as real - 1.0 < delay <= ms as real)
  {
    var d, power, b := c.retryDelayMs as real, Power(c.backoffMultiplier, attempt - 1), c.backoffMultiplier;
    assert d * (power * b) == d * power * b;
    var cap := c.maxRetryDelayMs;
    assert Truncate(cap as real) == cap;
  }

  /** The first `n` waits. */
  function Delays(c: Config, n: nat): seq<int> {
    seq(n, i requires 0 <= i < n => RetryDelay(c, i + 1))
  }

  /** These are the first `n` waits. */
  ghost predicate AreDelays(c: Config, delays: seq<int>, n: nat) {
    |delays| == n && forall i | 0 <= i < n :: delays[i] == RetryDelay(c, i + 1)
  }

  lemma DelaysAreUnique(c: Config, delays: seq<int>, n: nat)
    ensures AreDelays(c, delays, n) <==> delays == Delays(c, n)
  {
  }

  /** The next wait is computed and begun. */
  method Wait(c: Config, delays: seq<int>, attempts: nat) returns (longer: seq<int>)
    requires attempts >= 1 && AreDelays(c, delays, attempts - 1)
    ensures AreDelays(c, longer, attempts)
  {
    var delay := CalculateRetryDelay(c, attempts);
    longer := delays + [delay];
  }

  // ---------- the loop ----------

  /** What surrounds one execution: the called function by attempt and model, the classification of its
      errors, fallback selection, and whether the context ends during the wait after an attempt. */
  datatype World = World(
    call: (nat, Model) -> Result<string, string>,
    classify: string -> Reason,
    select: (Model, Reason) -> Option<Model>,
    cancelled: nat -> bool)

  /** The model the loop holds after a failed attempt with `model`. */
  function NextModel(c: Config, w: World, model: Model, err: string): Model {
    if w.classify(err) == NoReason || !c.enableHotSwitch then model
    else
      match w.select(model, w.classify(err))
      case None => model
      case Some(other) => other
  }

  /** The model the loop holds after calling the models in `tried` in turn. */
  function Held(c: Config, w: World, first: Model, tried: seq<Model>): Model {
    if tried == [] then first
    else
      var k := |tried| - 1;
      match w.call(k, tried[k])
      case Ok(_) => tried[k]
      case Err(e) => NextModel(c, w, tried[k], e)
  }

  datatype Ending = Success(value: string) | Cancelled | Exhausted(attempts: nat)

  /** Call `k` failed, and the wait after it was not cancelled. */
  predicate FailedOver(w: World, tried: seq<Model>, k: nat)
    requires k < |tried|
  {
    w.call(k, tried[k]).Err? && !w.cancelled(k + 1)
  }

  /** Every call goes to the model held at that point, and all calls but the last fail. */
  ghost predicate Called(c: Config, w: World, first: Model, tried: seq<Model>) {
    && (forall k | 0 <= k < |tried| :: tried[k] == Held(c, w, first, tried[..k]))
    && forall k | 0 <= k < |tried| - 1 :: FailedOver(w, tried, k)
  }

  function Budget(c: Config): nat {
    if c.maxRetries < 0 then 0 else c.maxRetries + 1
  }

  /** How a run with these calls ends and which model it returns; after a failure that is the model held
      for a retry, which may never have been called. */
  ghost predicate Ends(c: Config, w: World, first: Model, tried: seq<Model>, ending: Ending, model: Model) {
    var n := |tried|;
    match ending
    case Success(v) => n >= 1 && model == tried[n - 1] && w.call(n - 1, model) == Ok(v)
    case Cancelled =>
      1 <= n < Budget(c) && w.call(n - 1, tried[n - 1]).Err? && w.cancelled(n) && model == Held(c, w, first, tried)
    case Exhausted(attempts) =>
      && attempts == n == Budget(c) && model == Held(c, w, first, tried)
      && forall k | 0 <= k < n :: w.call(k, tried[k]).Err?
  }

  /** `tried` logs the model of every call, `delays` every wait begun. The models called, how often,
      how the loop ends, the model returned and every wait are determined. */
  method ExecuteWithFailover(c: Config, w: World, first: Model)
    returns (ending: Ending, model: Model, tried: seq<Model>, delays: seq<int>)
    ensures Called(c, w, first, tried) && |tried| <= Budget(c)
    ensures Ends(c, w, first, tried, ending, model)
    ensures AreDelays(c, delays, Waits(ending, tried))
    ensures |delays| == if ending.Cancelled? then |tried| else if |tried| == 0 then 0 else |tried| - 1
    ensures forall i | 0 <= i < |delays| :: delays[i] == RetryDelay(c, i + 1)
  {
    model := first;
    tried, delays := [], [];
    var attempts := 0;
    while attempts <= c.maxRetries
      invariant attempts == |tried| && (attempts == 0 || attempts < Budget(c))
      invariant Retrying(c, w, first, tried, model)
      invariant AreDelays(c, delays, attempts)
      decreases c.maxRetries - attempts
    {
      var result := w.call(attempts, model);
      OneMoreCall(c, w, first, tried, model);
      tried := tried + [model];
      if result.Ok? {
        return Success(result.value), model, tried, delays;
      }
      attempts := attempts + 1;
      model := SwitchModel(c, w, model, result.error);
      if attempts > c.maxRetries {
        return Exhausted(attempts), model, tried, delays;
      }
      delays := Wait(c, delays, attempts);
      if w.cancelled(attempts) {
        return Cancelled, model, tried, delays;
      }
    }
    return Exhausted(attempts), model, tried, delays;
  }

  /** The same model, unless switching is on and a fallback is found. */
  method SwitchModel(c: Config, w: World, model: Model, err: string) returns (next: Model)
    ensures next == NextModel(c, w, model, err)
  {
    var reason := w.classify(err);
    if reason == NoReason || !c.enableHotSwitch {
      return model;
    }
    var fallback := w.select(model, reason);
    if fallback.None? {
      return model;
    }
    return fallback.value;
  }

  /** All calls so far failed, each wait passed, and `model` is next. */
  ghost predicate Retrying(c: Config, w: World, first: Model, tried: seq<Model>, model: Model) {
    && Called(c, w, first, tried) && model == Held(c, w, first, tried)
    && forall k | 0 <= k < |tried| :: FailedOver(w, tried, k)
  }

  lemma OneMoreCall(c: Config, w: World, first: Model, tried: seq<Model>, model: Model)
    requires Retrying(c, w, first, tried, model)
    ensures var longer := tried + [model];
      && Called(c, w, first, longer)
      && match w.call(|tried|, model)
         case Ok(v) => Ends(c, w, first, longer, Success(v), model)
         case Err(e) =>
           var next := NextModel(c, w, model, e);
           && next == Held(c, w, first, longer)
           && (|longer| == Budget(c) ==> Ends(c, w, first, longer, Exhausted(|longer|), next))
           && (|longer| < Budget(c) && w.cancelled(|longer|) ==> Ends(c, w, first, longer, Cancelled, next))
           && (!w.cancelled(|longer|) ==> Retrying(c, w, first, longer, next))
  {
    var longer := tried + [model];
    forall k | 0 <= k < |longer| ensures longer[k] == Held(c, w, first, longer[..k]) {
      if k < |tried| {
        assert longer[..k] == tried[..k];
      } else {
        assert longer[..k] == tried;
      }
    }
    forall k | 0 <= k < |longer| - 1 ensures FailedOver(w, longer, k) {
      assert FailedOver(w, tried, k);
    }
    if w.call(|tried|, model).Err? {
      forall k | 0 <= k < |longer| ensures w.call(k, longer[k]).Err? {
        assert k < |tried| ==> FailedOver(w, tried, k);
      }
    }
  }

  /** If every call fails and no wait is cancelled, the function is called exactly `maxRetries + 1` times. */
  lemma PersistentFailureUsesTheBudget(c: Config, w: World, first: Model, tried: seq<Model>, ending: Ending,
                                       model: Model)
    requires Called(c, w, first, tried) && Ends(c, w, first, tried, ending, model)
    requires (forall k, m :: w.call(k, m).Err?) && forall k :: !w.cancelled(k)
    ensures |tried| == (if c.maxRetries >= 0 then c.maxRetries + 1 else 0) && ending == Exhausted(|tried|)
  {
  }

  /** A world with the handler's own classification and the default router's fallback selection among the
      registered models. */
  ghost predicate DefaultRouter(w: World, models: seq<Model>) {
    && (forall err :: w.classify(err) == ReasonFor(err))
    && forall m, r :: w.select(m, r) == Some(SelectFallback(RegistryOf(models), m, r))
  }

  lemma RegistrationKeepsTiers(registry: Registry, model: Model)
    requires TiersOk(registry)
    ensures TiersOk(Registered(registry, model))
  {
  }

  lemma {:induction false} RegistriesFileByTier(models: seq<Model>)
    ensures TiersOk(RegistryOf(models))
  {
    if models != [] {
      RegistriesFileByTier(models[..|models| - 1]);
      RegistrationKeepsTiers(RegistryOf(models[..|models| - 1]), models[|models| - 1]);
    }
  }

  /** The tiers tried never decrease: each switch moves at most one tier towards the economy tier and
      never past it, whatever the errors say. */
  lemma {:induction false} TiersNeverDecrease(
    c: Config, w: World, first: Model, models: seq<Model>, tried: seq<Model>, i: nat, j: nat)
    requires DefaultRouter(w, models) && Called(c, w, first, tried) && i <= j < |tried|
    ensures tried[i].tier <= tried[j].tier <= tried[i].tier + (j - i)
    ensures tried[j].tier <= TIER_ECONOMY || tried[j].tier == tried[i].tier
    decreases j - i
  {
    if i < j {
      TiersNeverDecrease(c, w, first, models, tried, i, j - 1);
      assert tried[j] == Held(c, w, first, tried[..j]);
      assert tried[..j][j - 1] == tried[j - 1] && FailedOver(w, tried, j - 1);
      RegistriesFileByTier(models);
      OneSwitchMovesOneTier(RegistryOf(models), tried[j - 1], w.call(j - 1, tried[j - 1]).error);
    }
  }

  lemma OneSwitchMovesOneTier(registry: Registry, model: Model, err: string)
    requires TiersOk(registry)
    ensures ReasonFor(err) in {RateLimit, ServerError, Timeout, Cost}
    ensures var other := SelectFallback(registry, model, ReasonFor(err));
      && model.tier <= other.tier <= model.tier + 1
      && (other.tier <= TIER_ECONOMY || other.tier == model.tier)
  {
    var tier := FallbackTier(model.tier, ReasonFor(err));
    if tier in registry && registry[tier] != [] {
      assert registry[tier][0] in registry[tier];
    }
  }

  /** Where a failed call leads: without hot switching to the same model; with it, under the default router, to
      the first model registered one tier down, at the economy tier the first one of that tier, and to the same
      model where none is registered. */
  lemma NextCallGoes(c: Config, w: World, first: Model, models: seq<Model>, tried: seq<Model>, k: nat, tier: int)
    requires DefaultRouter(w, models) && Called(c, w, first, tried) && k + 1 < |tried|
    requires tier == if tried[k].tier < 4 then tried[k].tier + 1 else tried[k].tier
    ensures tried[0] == first
    ensures if c.enableHotSwitch && exists m :: m in models && m.tier == tier
            then FirstOfTier(models, tier, tried[k + 1]) else tried[k + 1] == tried[k]
  {
    assert tried[k + 1] == Held(c, w, first, tried[..k + 1]);
    assert tried[0] == Held(c, w, first, tried[..0]);
    assert tried[..k + 1][k] == tried[k] && FailedOver(w, tried, k);
    var err := w.call(k, tried[k]).error;
    ReasonIsAnError(err);
    FallbackSays(models, tried[k], ReasonFor(err), tier);
  }

  lemma ReasonIsAnError(err: string)
    ensures ReasonFor(err) in {RateLimit, ServerError, Timeout, Cost}
  {
  }

  // ---------- backoff ----------

  ghost predicate Backoff(c: Config) {
    c.retryDelayMs >= 0 && c.backoffMultiplier >= 1.0 && c.maxRetryDelayMs >= 0
  }

  lemma {:induction false} PowerGrows(base: real, n: nat)
    requires base >= 1.0
    ensures 1.0 <= Power(base, n) <= Power(base, n + 1)
  {
    if n > 0 {
      PowerGrows(base, n - 1);
    }
    ScaleUp(Power(base, n), base);
  }

  lemma ScaleUp(x: real, base: real)
    requires x >= 0.0 && base >= 1.0
    ensures x <= x * base
  {
    assert x * base - x == x * (base - 1.0);
  }

  lemma OrderedProducts(a: real, x: real, y: real)
    requires a >= 0.0 && x <= y
    ensures a * x <= a * y
  {
    assert a * y - a * x == a * (y - x);
  }

  lemma UncappedGrows(c: Config, attempt: nat)
    requires Backoff(c) && attempt >= 1
    ensures 0.0 <= Uncapped(c, attempt) <= Uncapped(c, attempt + 1)
  {
    var d, b := c.retryDelayMs as real, c.backoffMultiplier;
    PowerGrows(b, attempt - 1);
    OrderedProducts(d, 0.0, Power(b, attempt - 1));
    OrderedProducts(d, Power(b, attempt - 1), Power(b, attempt));
  }

  /** Delays never shrink, are never negative, and each is at most the cap and at most its uncapped value. */
  lemma {:induction false} DelaysGrow(c: Config, i: nat, j: nat)
    requires Backoff(c) && 1 <= i <= j
    ensures 0 <= RetryDelay(c, i) <= RetryDelay(c, j) <= c.maxRetryDelayMs
    ensures RetryDelay(c, j) as real <= Uncapped(c, j)
    decreases j - i
  {
    UncappedGrows(c, i);
    if i < j {
      DelaysGrow(c, i + 1, j);
    }
  }

  function Sum(waits: seq<int>): int {
    if waits == [] then 0 else Sum(waits[..|waits| - 1]) + waits[|waits| - 1]
  }

  /** The time waited in the first `n` waits. */
  function TotalWait(c: Config, n: nat): int {
    Sum(Delays(c, n))
  }

  lemma TotalWaitStep(c: Config, n: nat)
    requires n > 0
    ensures TotalWait(c, n) == TotalWait(c, n - 1) + RetryDelay(c, n)
  {
    assert Delays(c, n)[..|Delays(c, n)| - 1] == Delays(c, n - 1);
  }

  function PowerSum(base: real, n: nat): real {
    if n == 0 then 0.0 else PowerSum(base, n - 1) + Power(base, n - 1)
  }

  lemma {:induction false} GeometricSum(base: real, n: nat)
    ensures Scaled(base - 1.0, PowerSum(base, n)) == Power(base, n) - 1.0
  {
    if n > 0 {
      GeometricSum(base, n - 1);
      var s, q := PowerSum(base, n - 1), Power(base, n - 1);
      assert (base - 1.0) * (s + q) == (base - 1.0) * s + (base - 1.0) * q;
      assert (base - 1.0) * q == q * base - q;
    }
  }

  /** The total wait is bounded by the cap per retry ... */
  lemma {:induction false} TotalWaitIsCapped(c: Config, n: nat)
    requires Backoff(c)
    ensures 0 <= TotalWait(c, n) <= n * c.maxRetryDelayMs
  {
    if n > 0 {
      TotalWaitIsCapped(c, n - 1);
      DelaysGrow(c, n, n);
      TotalWaitStep(c, n);
      AddOneCap(n, c.maxRetryDelayMs, TotalWait(c, n - 1), RetryDelay(c, n));
    }
  }

  /** ... and by the sum of the uncapped delays ... */
  lemma {:induction false} TotalWaitIsBounded(c: Config, n: nat)
    requires Backoff(c)
    ensures TotalWait(c, n) as real <= Scaled(c.retryDelayMs as real, PowerSum(c.backoffMultiplier, n))
  {
    if n > 0 {
      TotalWaitIsBounded(c, n - 1);
      DelaysGrow(c, n, n);
      TotalWaitStep(c, n);
      UncappedIsScaled(c, n);
      AddOneWait(c.retryDelayMs as real, PowerSum(c.backoffMultiplier, n - 1), Power(c.backoffMultiplier, n - 1),
                 TotalWait(c, n - 1), RetryDelay(c, n));
    }
  }

  lemma UncappedIsScaled(c: Config, n: nat)
    requires n > 0
    ensures Uncapped(c, n) == Scaled(c.retryDelayMs as real, Power(c.backoffMultiplier, n - 1))
  {
  }

  lemma AddOneWait(d: real, sum: real, power: real, waited: int, delay: int)
    requires waited as real <= Scaled(d, sum) && delay as real <= Scaled(d, power)
    ensures (waited + delay) as real <= Scaled(d, sum + power)
  {
    assert d * (sum + power) == d * sum + d * power;
  }

  lemma AddOneCap(n: nat, cap: int, waited: int, delay: int)
    requires n > 0 && waited <= (n - 1) * cap && delay <= cap
    ensures waited + delay <= n * cap
  {
    assert n * cap == (n - 1) * cap + cap;
  }

  /** ... which is the closed geometric form: with a multiplier above one, at most
      `retryDelayMs * (multiplier^n - 1) / (multiplier - 1)`, stated without the division. */
  lemma TotalWaitIsGeometric(c: Config, n: nat)
    requires Backoff(c)
    ensures Scaled(c.backoffMultiplier - 1.0, TotalWait(c, n) as real)
            <= Scaled(c.retryDelayMs as real, Power(c.backoffMultiplier, n) - 1.0)
  {
    var d, b, t := c.retryDelayMs as real, c.backoffMultiplier, TotalWait(c, n) as real;
    var s := PowerSum(b, n);
    TotalWaitIsBounded(c, n);
    GeometricSum(b, n);
    ScaleBound(b - 1.0, t, Scaled(d, s));
    Reassociate(b - 1.0, d, s);
  }

  lemma {:induction false} TotalWaitGrows(c: Config, m: nat, n: nat)
    requires Backoff(c) && m <= n
    ensures TotalWait(c, m) <= TotalWait(c, n)
    decreases n
  {
    if m < n {
      TotalWaitGrows(c, m, n - 1);
      DelaysGrow(c, n, n);
      TotalWaitStep(c, n);
    }
  }

  /** How many waits a run has begun. */
  function Waits(ending: Ending, tried: seq<Model>): nat {
    if ending.Cancelled? then |tried| else if tried == [] then 0 else |tried| - 1
  }

  /** The waits of any run, however it ends, add up to at most `maxRetries` times the cap, and to at most the
      geometric sum over `maxRetries`. */
  lemma WaitsOfARunAreBounded(c: Config, w: World, first: Model, tried: seq<Model>, delays: seq<int>, ending: Ending,
                              model: Model)
    requires Backoff(c) && c.maxRetries >= 0 && |tried| <= Budget(c) && Ends(c, w, first, tried, ending, model)
    requires AreDelays(c, delays, Waits(ending, tried))
    ensures 0 <= Sum(delays) <= c.maxRetries * c.maxRetryDelayMs
    ensures Scaled(c.backoffMultiplier - 1.0, Sum(delays) as real)
            <= Scaled(c.retryDelayMs as real, Power(c.backoffMultiplier, c.maxRetries) - 1.0)
  {
    var n := Waits(ending, tried);
    DelaysAreUnique(c, delays, n);
    assert n <= c.maxRetries && Sum(delays) == TotalWait(c, n);
    TotalWaitIsCapped(c, n);
    TotalWaitGrows(c, n, c.maxRetries);
    TotalWaitIsCapped(c, c.maxRetries);
    TotalWaitIsGeometric(c, c.maxRetries);
    ScaleBound(c.backoffMultiplier - 1.0, Sum(delays) as real, TotalWait(c, c.maxRetries) as real);
  }

  function Scaled(factor: real, x: real): real {
    factor * x
  }

  lemma ScaleBound(factor: real, x: real, y: real)
    requires factor >= 0.0 && x <= y
    ensures Scaled(factor, x) <= Scaled(factor, y)
  {
    OrderedProducts(factor, x, y);
  }

  lemma Reassociate(a: real, b: real, x: real)
    ensures Scaled(a, Scaled(b, x)) == Scaled(b, Scaled(a, x))
  {
  }
}
