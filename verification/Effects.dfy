/** The in-memory effect system: two result indexes, idempotent execution, and record/replay through
    the LLM, tool and HTTP wrappers. Calls are sequential. */
module Effects {
  import opened Wrappers

  datatype Kind = LLM | Tool | HTTP

  /** The `Data` of a result: nothing yet, or the response of one of the wrappers. */
  datatype Data = NoData | Response(kind: Kind, body: string)

  datatype Outcome = Outcome(id: string, kind: Kind, data: Data, cached: bool, replayFromID: string)

  datatype Effect = Effect(id: string, kind: Kind, idempotencyKey: string)

  datatype EffectError = ReplayingForbidden

  /** Both indexes as one value. */
  datatype Store = Store(byID: map<string, Outcome>, byKey: map<string, Outcome>)

  const EMPTY_STORE := Store(map[], map[])

  function Cached(originalID: string, o: Outcome): Outcome {
    o.(cached := true, replayFromID := originalID)
  }

  function WithData(o: Outcome, data: Data): Outcome {
    o.(data := data)
  }

  function Updated(o: Outcome, id: string, data: Data): Outcome {
    if o.id == id then WithData(o, data) else o
  }

  // ---------- the system ----------

  function Executed(s: Store, replaying: bool, effect: Effect): (Store, Result<Outcome, EffectError>) {
    if replaying then
      if effect.id != "" && effect.id in s.byID then (s, Ok(Cached(effect.id, s.byID[effect.id])))
      else if effect.idempotencyKey != "" && effect.idempotencyKey in s.byKey then
        (s, Ok(Cached("", s.byKey[effect.idempotencyKey])))
      else (s, Err(ReplayingForbidden))
    else if effect.idempotencyKey != "" && effect.idempotencyKey in s.byKey then
      var existing := s.byKey[effect.idempotencyKey];
      (s, Ok(Cached(existing.id, existing)))
    else
      var o := Outcome(effect.id, effect.kind, NoData, false, "");
      (Store(s.byID[effect.id := o],
             if effect.idempotencyKey != "" then s.byKey[effect.idempotencyKey := o] else s.byKey),
       Ok(o))
  }

  function Completed(s: Store, id: string, data: Data): Store {
    Store(
      if id in s.byID then s.byID[id := WithData(s.byID[id], data)] else s.byID,
      map k | k in s.byKey :: Updated(s.byKey[k], id, data))
  }

  class MemorySystem {
    var byID: map<string, Outcome>
    var byKey: map<string, Outcome>

    ghost function State(): Store
      reads this
    {
      Store(byID, byKey)
    }

    constructor ()
      ensures State() == EMPTY_STORE
    {
      byID, byKey := map[], map[];
    }

    /** `newID` is the generated identifier an effect without one gets in live mode. */
    method Execute(replaying: bool, effect: Effect, newID: string) returns (r: Result<Outcome, EffectError>)
      modifies this
      ensures (State(), r) ==
              Executed(old(State()), replaying, if effect.id == "" && !replaying then effect.(id := newID) else effect)
    {
      if replaying {
        if effect.id != "" {
          var found := Replay(effect.id);
          if found.Some? {
            return Ok(Cached(effect.id, found.value));
          }
        }
        if effect.idempotencyKey != "" && effect.idempotencyKey in byKey {
          return Ok(Cached("", byKey[effect.idempotencyKey]));
        }
        return Err(ReplayingForbidden);
      }
      var id := if effect.id == "" then newID else effect.id;
      var result := Outcome(id, effect.kind, NoData, false, "");
      if effect.idempotencyKey != "" && effect.idempotencyKey in byKey {
        var existing := byKey[effect.idempotencyKey];
        return Ok(Cached(existing.id, existing));
      }
      byID := byID[id := result];
      if effect.idempotencyKey != "" {
        byKey := byKey[effect.idempotencyKey := result];
      }
      return Ok(result);
    }

    method Complete(id: string, data: Data)
      modifies this
      ensures State() == Completed(old(State()), id, data)
    {
      if id in byID {
        byID := byID[id := WithData(byID[id], data)];
      }
      CompleteKeyed(id, data);
    }

    /** The keys are visited in an arbitrary order. */
    method CompleteKeyed(id: string, data: Data)
      modifies this`byKey
      ensures byKey == map k | k in old(byKey) :: Updated(old(byKey)[k], id, data)
    {
      var rest := byKey.Keys;
      ghost var before := byKey;
      while rest != {}
        invariant rest <= byKey.Keys == before.Keys
        invariant forall k | k in before :: byKey[k] == if k in rest then before[k] else Updated(before[k], id, data)
        decreases |rest|
      {
        var key :| key in rest;
        rest := rest - {key};
        if byKey[key].id == id {
          byKey := byKey[key := WithData(byKey[key], data)];
        }
      }
    }

    method Replay(effectID: string) returns (r: Option<Outcome>)
      ensures r == if effectID in byID then Some(byID[effectID]) else None
    {
      if effectID in byID {
        return Some(byID[effectID]);
      }
      return None;
    }

    method Clear()
      modifies this
      ensures State() == EMPTY_STORE
    {
      byID := map[];
      byKey := map[];
    }

    /** The common course of `ExecuteLLM`, `ExecuteTool` and `ExecuteHTTP`. `caller` is what the real
        caller would answer; `invoked` tells whether it was asked. `id` is the identifier the new effect
        got; it is never empty. */
    method Call(hash: string -> string, replaying: bool, req: Request, id: string, caller: Result<string, string>)
      returns (reply: Result<Reply, CallError>, invoked: bool)
      requires id != ""
      modifies this
      ensures CallOutcome(State(), reply, invoked) == Called(hash, old(State()), replaying, req, id, caller)
    {
      var effect := Effect(id, req.kind, Key(hash, req));
      var result := Execute(replaying, effect, "");
      if result.Err? {
        return Err(Forbidden), false;
      }
      if result.value.cached {
        return Extract(req.kind, result.value.data), false;
      }
      if caller.Err? {
        return Err(CallerFailed(caller.error)), true;
      }
      Complete(result.value.id, Response(req.kind, caller.value));
      return Ok(Value(caller.value)), true;
    }
  }

  // ---------- requests and their keys ----------

  /** `canonical` is the printed key data; `fallback` is hashed instead when printing fails. */
  datatype Request = Request(kind: Kind, canonical: Option<string>, fallback: string)

  ghost predicate Sha256(hash: string -> string) {
    forall x :: |hash(x)| == 64 && HexDigit(hash(x)[0])
  }

  predicate HexDigit(c: char) {
    '0' <= c <= '9' || 'a' <= c <= 'f'
  }

  function Take(s: string, n: nat): string {
    if n <= |s| then s[..n] else s
  }

  /** LLM keys are bare digests, tool keys carry a prefix, HTTP keys a prefix and a shortened digest. */
  function Key(hash: string -> string, req: Request): string {
    var digest := hash(if req.canonical.Some? then req.canonical.value else req.fallback);
    match req.kind
    case LLM => digest
    case Tool => "tool:" + digest
    case HTTP => "http:" + Take(digest, 16)
  }

  function KeyKind(key: string): Kind {
    if key != "" && key[0] == 't' then Tool
    else if key != "" && key[0] == 'h' then HTTP
    else LLM
  }

  /** The three key spaces are disjoint: a key tells which wrapper made it. */
  lemma KeysTellKinds(hash: string -> string, req: Request)
    requires Sha256(hash)
    ensures KeyKind(Key(hash, req)) == req.kind && Key(hash, req) != ""
  {
  }

  /** The text a key stands for: the printed request, or the fallback when it cannot be printed. */
  ghost predicate StandsFor(req: Request, text: string) {
    req.canonical == Some(text) || (req.canonical == None && req.fallback == text)
  }

  /** Two different texts have digests a wrapper of this kind cannot tell apart. */
  ghost predicate Coincide(hash: string -> string, kind: Kind, x: string, y: string)
    requires Sha256(hash)
  {
    x != y && if kind == HTTP then hash(x)[..16] == hash(y)[..16] else hash(x) == hash(y)
  }

  /** Requests of one kind share a key exactly when they stand for the same text, or their digests coincide. */
  lemma KeysTellTexts(hash: string -> string, a: Request, b: Request, x: string, y: string)
    requires Sha256(hash) && a.kind == b.kind && StandsFor(a, x) && StandsFor(b, y)
    ensures Key(hash, a) == Key(hash, b) <==> x == y || Coincide(hash, a.kind, x, y)
  {
    match a.kind
    case LLM =>
    case Tool => SamePrefix("tool:", hash(x), hash(y));
    case HTTP => SamePrefix("http:", hash(x)[..16], hash(y)[..16]);
  }

  lemma SamePrefix(prefix: string, x: string, y: string)
    ensures prefix + x == prefix + y <==> x == y
  {
    assert (prefix + x)[|prefix|..] == x && (prefix + y)[|prefix|..] == y;
  }

  /** What execution returns, case by case: nothing is found, something stored is returned marked with where it
      came from, or a new result is stored under both indexes. */
  lemma HowResultsAreMarked(s: Store, replaying: bool, effect: Effect)
    ensures var (after, r) := Executed(s, replaying, effect);
      var byID := effect.id != "" && effect.id in s.byID;
      var byKey := effect.idempotencyKey != "" && effect.idempotencyKey in s.byKey;
      && (r.Err? <==> replaying && !byID && !byKey)
      && (replaying || byKey ==> after == s)
      && (replaying && byID ==> r == Ok(s.byID[effect.id].(cached := true, replayFromID := effect.id)))
      && (replaying && !byID && byKey ==> r == Ok(s.byKey[effect.idempotencyKey].(cached := true, replayFromID := "")))
      && (!replaying && byKey ==>
            var known := s.byKey[effect.idempotencyKey]; r == Ok(known.(cached := true, replayFromID := known.id)))
      && (!replaying && !byKey ==>
            && r == Ok(Outcome(effect.id, effect.kind, NoData, false, ""))
            && after.byID == s.byID[effect.id := r.value]
            && (after.byKey ==
                if effect.idempotencyKey == "" then s.byKey else s.byKey[effect.idempotencyKey := r.value]))
  {
  }

  // ---------- the wrappers ----------

  /** `Empty` is the zero response returned for a cached result that carries no data. */
  datatype Reply = Empty | Value(body: string)

  /** `WrongType` stands for the failing type assertion on cached data. */
  datatype CallError = Forbidden | CallerFailed(error: string) | WrongType

  function Extract(kind: Kind, data: Data): Result<Reply, CallError> {
    match data
    case NoData => Ok(Empty)
    case Response(k, body) => if k == kind then Ok(Value(body)) else Err(WrongType)
  }

  datatype CallOutcome = CallOutcome(store: Store, reply: Result<Reply, CallError>, invoked: bool)

  function Called(hash: string -> string, s: Store, replaying: bool, req: Request, id: string,
                  caller: Result<string, string>)
    : CallOutcome
  {
    var (s', result) := Executed(s, replaying, Effect(id, req.kind, Key(hash, req)));
    match result
    case Err(_) => CallOutcome(s', Err(Forbidden), false)
    case Ok(o) =>
      if o.cached then CallOutcome(s', Extract(req.kind, o.data), false)
      else
        match caller
        case Err(e) => CallOutcome(s', Err(CallerFailed(e)), true)
        case Ok(v) => CallOutcome(Completed(s', o.id, Response(req.kind, v)), Ok(Value(v)), true)
  }

  // ---------- runs ----------

  datatype Op =
    | Issue(replaying: bool, req: Request, id: string, caller: Result<string, string>)
    | Clear

  function Performed(hash: string -> string, s: Store, op: Op): CallOutcome {
    match op
    case Clear => CallOutcome(EMPTY_STORE, Ok(Empty), false)
    case Issue(replaying, req, id, caller) => Called(hash, s, replaying, req, id, caller)
  }

  function After(hash: string -> string, s: Store, ops: seq<Op>): Store {
    if ops == [] then s
    else Performed(hash, After(hash, s, ops[..|ops| - 1]), ops[|ops| - 1]).store
  }

  /** What operation `i` of a run returns. */
  function At(hash: string -> string, s: Store, ops: seq<Op>, i: nat): CallOutcome
    requires i < |ops|
  {
    Performed(hash, After(hash, s, ops[..i]), ops[i])
  }

  /** Results returned by live or replayed execution are marked cached only on the way out. */
  ghost predicate Plain(s: Store) {
    (forall k | k in s.byKey :: !s.byKey[k].cached) && forall i | i in s.byID :: !s.byID[i].cached
  }

  // ---------- at most once ----------

  lemma CallKeepsKeys(hash: string -> string, s: Store, op: Op, key: string)
    requires op.Issue? && key in s.byKey
    ensures key in Performed(hash, s, op).store.byKey
  {
  }

  lemma AfterOneMore(hash: string -> string, s: Store, ops: seq<Op>, n: nat)
    requires n < |ops|
    ensures After(hash, s, ops[..n + 1]) == At(hash, s, ops, n).store
  {
    assert ops[..n + 1][..n] == ops[..n];
  }

  /** A key stays until the next `Clear`. */
  lemma {:induction false} KeysPersist(hash: string -> string, s: Store, ops: seq<Op>, i: nat, j: nat, key: string)
    requires i <= j <= |ops| && key in After(hash, s, ops[..i]).byKey
    requires forall k | i <= k < j :: !ops[k].Clear?
    ensures key in After(hash, s, ops[..j]).byKey
    decreases j
  {
    if i < j {
      KeysPersist(hash, s, ops, i, j - 1, key);
      AfterOneMore(hash, s, ops, j - 1);
      CallKeepsKeys(hash, After(hash, s, ops[..j - 1]), ops[j - 1], key);
    }
  }

  /** Between two invocations of the real caller for one key there is a `Clear`; this needs nothing of
      the identifiers, and covers failing callers and any mix of live and replayed calls. */
  lemma CallerRunsAtMostOncePerKey(hash: string -> string, s: Store, ops: seq<Op>, i: nat, j: nat)
    requires Sha256(hash) && i < j < |ops| && ops[i].Issue? && ops[j].Issue?
    requires At(hash, s, ops, i).invoked && At(hash, s, ops, j).invoked
    requires Key(hash, ops[i].req) == Key(hash, ops[j].req)
    ensures exists k :: i < k < j && ops[k].Clear?
  {
    var key := Key(hash, ops[i].req);
    KeysTellKinds(hash, ops[i].req);
    assert ops[..i + 1][..i] == ops[..i];
    assert key in After(hash, s, ops[..i + 1]).byKey;
    if forall k | i < k < j :: !ops[k].Clear? {
      KeysPersist(hash, s, ops, i + 1, j, key);
    }
  }

  // ---------- exactly when the caller is asked ----------

  /** Operation `j` is a live call with this key, and nothing has been cleared between it and operation `i`. */
  ghost predicate Remembered(hash: string -> string, ops: seq<Op>, j: nat, i: nat, key: string)
    requires i <= |ops|
  {
    && j < i && ops[j].Issue? && !ops[j].replaying && Key(hash, ops[j].req) == key
    && forall k | j < k < i :: !ops[k].Clear?
  }

  lemma KnownAfterCall(hash: string -> string, s: Store, op: Op, key: string)
    requires Sha256(hash)
    ensures var after := Performed(hash, s, op).store;
      key in after.byKey <==>
        op.Issue? && (key in s.byKey || (!op.replaying && Key(hash, op.req) == key))
  {
    if op.Issue? {
      KeysTellKinds(hash, op.req);
    }
  }

  ghost predicate SomeRemembered(hash: string -> string, ops: seq<Op>, i: nat, key: string)
    requires i <= |ops|
  {
    exists j: nat :: Remembered(hash, ops, j, i, key)
  }

  lemma RememberedOneMore(hash: string -> string, ops: seq<Op>, i: nat, key: string)
    requires 0 < i <= |ops|
    ensures SomeRemembered(hash, ops, i, key) <==>
            && ops[i - 1].Issue?
            && (SomeRemembered(hash, ops, i - 1, key) || (!ops[i - 1].replaying && Key(hash, ops[i - 1].req) == key))
  {
    var n := i - 1;
    if SomeRemembered(hash, ops, i, key) {
      var j: nat :| Remembered(hash, ops, j, i, key);
      assert j < n ==> Remembered(hash, ops, j, n, key) && !ops[n].Clear?;
    }
    if ops[n].Issue? {
      if SomeRemembered(hash, ops, n, key) {
        var j: nat :| Remembered(hash, ops, j, n, key);
        assert Remembered(hash, ops, j, i, key);
      }
      assert !ops[n].replaying && Key(hash, ops[n].req) == key ==> Remembered(hash, ops, n, i, key);
    }
  }

  lemma {:induction false} KnownExactlyWhenRemembered(hash: string -> string, ops: seq<Op>, i: nat, key: string)
    requires Sha256(hash) && i <= |ops|
    ensures key in After(hash, EMPTY_STORE, ops[..i]).byKey <==> SomeRemembered(hash, ops, i, key)
  {
    if i > 0 {
      KnownExactlyWhenRemembered(hash, ops, i - 1, key);
      AfterOneMore(hash, EMPTY_STORE, ops, i - 1);
      KnownAfterCall(hash, After(hash, EMPTY_STORE, ops[..i - 1]), ops[i - 1], key);
      RememberedOneMore(hash, ops, i, key);
    }
  }

  /** In any run from the start, the caller is asked exactly by a live call whose key is not remembered. */
  lemma CallerIsAskedIff(hash: string -> string, ops: seq<Op>, i: nat)
    requires Sha256(hash) && i < |ops| && ops[i].Issue?
    ensures At(hash, EMPTY_STORE, ops, i).invoked <==>
            !ops[i].replaying && !SomeRemembered(hash, ops, i, Key(hash, ops[i].req))
  {
    KeysTellKinds(hash, ops[i].req);
    KnownExactlyWhenRemembered(hash, ops, i, Key(hash, ops[i].req));
  }

  /** Operations `j` and `i` issue requests of one kind standing for one text. */
  ghost predicate SameRequest(a: Op, b: Op) {
    a.Issue? && b.Issue? && a.req.kind == b.req.kind && exists text :: StandsFor(a.req, text) && StandsFor(b.req, text)
  }

  ghost predicate NoCoincidence(hash: string -> string, a: Op, b: Op)
    requires Sha256(hash)
  {
    a.Issue? && b.Issue? && a.req.kind == b.req.kind ==>
      forall x, y | StandsFor(a.req, x) && StandsFor(b.req, y) :: !Coincide(hash, a.req.kind, x, y)
  }

  lemma SameKeyIff(hash: string -> string, a: Op, b: Op)
    requires Sha256(hash) && a.Issue? && b.Issue? && NoCoincidence(hash, a, b)
    ensures Key(hash, a.req) == Key(hash, b.req) <==> SameRequest(a, b)
  {
    KeysTellKinds(hash, a.req);
    KeysTellKinds(hash, b.req);
    var x := if a.req.canonical.Some? then a.req.canonical.value else a.req.fallback;
    var y := if b.req.canonical.Some? then b.req.canonical.value else b.req.fallback;
    assert StandsFor(a.req, x) && StandsFor(b.req, y);
    if a.req.kind == b.req.kind {
      KeysTellTexts(hash, a.req, b.req, x, y);
    }
  }

  /** Without coincidences, a live call asks its caller exactly when no live call since the last `Clear`
      issued the same request: a new request is never answered with an older one's answer. */
  lemma CallerIsAskedForNewRequests(hash: string -> string, ops: seq<Op>, i: nat)
    requires Sha256(hash) && i < |ops| && ops[i].Issue? && !ops[i].replaying
    requires forall j | 0 <= j < i :: NoCoincidence(hash, ops[j], ops[i])
    ensures At(hash, EMPTY_STORE, ops, i).invoked <==>
            forall j | 0 <= j < i && ops[j].Issue? && !ops[j].replaying && SameRequest(ops[j], ops[i]) ::
              exists k :: j < k < i && ops[k].Clear?
  {
    var key := Key(hash, ops[i].req);
    CallerIsAskedIff(hash, ops, i);
    forall j | 0 <= j < i && ops[j].Issue? && !ops[j].replaying
      ensures Remembered(hash, ops, j, i, key) <==>
              SameRequest(ops[j], ops[i]) && !exists k :: j < k < i && ops[k].Clear?
    {
      SameKeyIff(hash, ops[j], ops[i]);
    }
  }

  /** An asked caller's answer is the reply, its failure the error. */
  lemma LiveCallRelaysItsCaller(hash: string -> string, s: Store, op: Op)
    requires op.Issue? && Performed(hash, s, op).invoked
    ensures Performed(hash, s, op).reply ==
            match op.caller
            case Ok(v) => Ok(Value(v))
            case Err(e) => Err(CallerFailed(e))
  {
  }

  // ---------- the two indexes agree ----------

  /** Every keyed result is the result stored under its identifier, no two keys share an identifier,
      and its data, if any, is of the type the key's wrapper produces. */
  ghost predicate Agree(s: Store) {
    && Plain(s)
    && (forall k | k in s.byKey ::
          && s.byKey[k].id in s.byID && s.byID[s.byKey[k].id] == s.byKey[k]
          && (s.byKey[k].data.Response? ==> s.byKey[k].data.kind == KeyKind(k)))
    && forall k, l | k in s.byKey && l in s.byKey && k != l :: s.byKey[k].id != s.byKey[l].id
  }

  function Stored(s: Store, o: Outcome, key: string): Store {
    Store(s.byID[o.id := o], s.byKey[key := o])
  }

  lemma StoringKeepsAgreement(s: Store, o: Outcome, key: string)
    requires Agree(s) && o.id !in s.byID && key !in s.byKey && !o.cached && o.data == NoData
    ensures Agree(Stored(s, o, key))
    ensures forall k | k in Stored(s, o, key).byKey && Stored(s, o, key).byKey[k].id == o.id :: k == key
  {
  }

  lemma CompletingKeepsAgreement(s: Store, id: string, data: Data)
    requires Agree(s) && data.Response? && forall k | k in s.byKey && s.byKey[k].id == id :: KeyKind(k) == data.kind
    ensures Agree(Completed(s, id, data))
  {
    var after := Completed(s, id, data);
    forall k | k in after.byKey
      ensures after.byKey[k].id == s.byKey[k].id && after.byKey[k] == Updated(s.byKey[k], id, data)
    {
    }
  }

  lemma CallKeepsAgreement(hash: string -> string, s: Store, op: Op)
    requires Sha256(hash) && Agree(s)
    requires op.Issue? ==> op.id !in s.byID
    ensures Agree(Performed(hash, s, op).store)
  {
    if op.Issue? && !op.replaying {
      var key := Key(hash, op.req);
      KeysTellKinds(hash, op.req);
      if key !in s.byKey {
        var o := Outcome(op.id, op.req.kind, NoData, false, "");
        StoringKeepsAgreement(s, o, key);
        if op.caller.Ok? {
          CompletingKeepsAgreement(Stored(s, o, key), op.id, Response(op.req.kind, op.caller.value));
        }
      }
    }
  }

  /** Identifiers are fresh: no operation reuses one the store or an earlier operation knows. */
  ghost predicate FreshIDs(s: Store, ops: seq<Op>) {
    && (forall i | 0 <= i < |ops| && ops[i].Issue? :: ops[i].id !in s.byID)
    && forall i, j | 0 <= i < j < |ops| && ops[i].Issue? && ops[j].Issue? :: ops[i].id != ops[j].id
  }

  lemma {:induction false} KnownIDs(hash: string -> string, s: Store, ops: seq<Op>, id: string)
    requires id in After(hash, s, ops).byID
    ensures id in s.byID || exists i :: 0 <= i < |ops| && ops[i].Issue? && ops[i].id == id
  {
    if ops != [] {
      var n := |ops| - 1;
      if id in After(hash, s, ops[..n]).byID {
        KnownIDs(hash, s, ops[..n], id);
        if id !in s.byID {
          var i :| 0 <= i < n && ops[..n][i].Issue? && ops[..n][i].id == id;
          assert ops[i].Issue? && ops[i].id == id;
        }
      } else {
        assert ops[n].Issue? && ops[n].id == id;
      }
    }
  }

  lemma {:induction false} IndexesAgree(hash: string -> string, s: Store, ops: seq<Op>)
    requires Sha256(hash) && Agree(s) && FreshIDs(s, ops)
    ensures Agree(After(hash, s, ops))
  {
    if ops != [] {
      var n := |ops| - 1;
      IndexesAgree(hash, s, ops[..n]);
      if ops[n].Issue? {
        FreshAtTheEnd(hash, s, ops);
      }
      CallKeepsAgreement(hash, After(hash, s, ops[..n]), ops[n]);
    }
  }

  lemma FreshAtTheEnd(hash: string -> string, s: Store, ops: seq<Op>)
    requires ops != [] && FreshIDs(s, ops) && ops[|ops| - 1].Issue?
    ensures ops[|ops| - 1].id !in After(hash, s, ops[..|ops| - 1]).byID
  {
    var n := |ops| - 1;
    if ops[n].id in After(hash, s, ops[..n]).byID {
      KnownIDs(hash, s, ops[..n], ops[n].id);
    }
  }

  /** The situation operation `i` of a run with fresh identifiers finds. */
  lemma Situation(hash: string -> string, s: Store, ops: seq<Op>, i: nat)
    requires Sha256(hash) && Agree(s) && FreshIDs(s, ops) && i < |ops|
    ensures Agree(After(hash, s, ops[..i]))
    ensures ops[i].Issue? ==> ops[i].id !in After(hash, s, ops[..i]).byID
    ensures After(hash, s, ops[..i + 1]) == At(hash, s, ops, i).store
  {
    AfterOneMore(hash, s, ops, i);
    IndexesAgree(hash, s, ops[..i]);
    if ops[i].Issue? {
      assert ops[..i + 1][..i] == ops[..i];
      FreshAtTheEnd(hash, s, ops[..i + 1]);
    }
  }

  /** A cached hit always carries its wrapper's own response type: no type assertion fails. */
  lemma NoTypeAssertionFails(hash: string -> string, s: Store, ops: seq<Op>, i: nat)
    requires Sha256(hash) && Agree(s) && FreshIDs(s, ops) && i < |ops|
    ensures At(hash, s, ops, i).reply != Err(WrongType)
  {
    Situation(hash, s, ops, i);
    if ops[i].Issue? {
      KeysTellKinds(hash, ops[i].req);
    }
  }

  // ---------- record, then replay ----------

  ghost predicate AllLive(ops: seq<Op>) {
    forall i | 0 <= i < |ops| :: ops[i].Issue? && !ops[i].replaying
  }

  lemma EntryIsFinal(hash: string -> string, s: Store, op: Op, key: string)
    requires Agree(s) && op.Issue? && !op.replaying && op.id !in s.byID && key in s.byKey
    ensures var s' := Performed(hash, s, op).store; key in s'.byKey && s'.byKey[key] == s.byKey[key]
  {
  }

  ghost predicate KeptBy(hash: string -> string, s: Store, ops: seq<Op>, key: string, i: nat)
    requires i < |ops|
  {
    var before, after := After(hash, s, ops[..i]).byKey, After(hash, s, ops[..i + 1]).byKey;
    key in before ==> key in after && after[key] == before[key]
  }

  lemma EveryCallKeepsEntries(hash: string -> string, s: Store, ops: seq<Op>, key: string, i: nat)
    requires Sha256(hash) && Agree(s) && FreshIDs(s, ops) && AllLive(ops) && i < |ops|
    ensures KeptBy(hash, s, ops, key, i)
  {
    Situation(hash, s, ops, i);
    if key in After(hash, s, ops[..i]).byKey {
      EntryIsFinal(hash, After(hash, s, ops[..i]), ops[i], key);
    }
  }

  lemma {:induction false} KeptThroughout(hash: string -> string, s: Store, ops: seq<Op>, i: nat, j: nat, key: string)
    requires i <= j <= |ops| && key in After(hash, s, ops[..i]).byKey
    requires forall k | i <= k < j :: KeptBy(hash, s, ops, key, k)
    ensures key in After(hash, s, ops[..j]).byKey
    ensures After(hash, s, ops[..j]).byKey[key] == After(hash, s, ops[..i]).byKey[key]
    decreases j
  {
    if i < j {
      KeptThroughout(hash, s, ops, i, j - 1, key);
      assert KeptBy(hash, s, ops, key, j - 1);
    }
  }

  /** Once an operation is over, a keyed result no longer changes. */
  lemma EntriesAreFinal(hash: string -> string, s: Store, ops: seq<Op>, i: nat, j: nat, key: string)
    requires Sha256(hash) && Agree(s) && FreshIDs(s, ops) && AllLive(ops)
    requires i <= j <= |ops| && key in After(hash, s, ops[..i]).byKey
    ensures key in After(hash, s, ops[..j]).byKey
    ensures After(hash, s, ops[..j]).byKey[key] == After(hash, s, ops[..i]).byKey[key]
  {
    forall k | i <= k < j ensures KeptBy(hash, s, ops, key, k) {
      EveryCallKeepsEntries(hash, s, ops, key, k);
    }
    KeptThroughout(hash, s, ops, i, j, key);
  }

  /** Replaying a request whose key is known looks its result up and does nothing else. */
  lemma ReplayLooksUp(hash: string -> string, s: Store, op: Op)
    requires Sha256(hash) && op.Issue? && op.replaying && op.id !in s.byID && Key(hash, op.req) in s.byKey
    ensures Performed(hash, s, op) ==
            CallOutcome(s, Extract(op.req.kind, s.byKey[Key(hash, op.req)].data), false)
  {
    KeysTellKinds(hash, op.req);
  }

  /** The data operation `i` of a live run leaves under its key. */
  lemma WhatALiveCallLeaves(hash: string -> string, s: Store, op: Op)
    requires Sha256(hash) && Agree(s) && op.Issue? && !op.replaying && op.id !in s.byID
    ensures var key, o := Key(hash, op.req), Performed(hash, s, op);
      && key in o.store.byKey && !o.store.byKey[key].cached
      && (o.invoked <==> key !in s.byKey)
      && Extract(op.req.kind, o.store.byKey[key].data) ==
           if o.invoked && op.caller.Err? then Ok(Empty) else o.reply
  {
    KeysTellKinds(hash, op.req);
  }

  /** ... and what is still there when the run is over. */
  lemma LiveEntryAtTheEnd(hash: string -> string, s: Store, ops: seq<Op>, i: nat)
    requires Sha256(hash) && Agree(s) && FreshIDs(s, ops) && AllLive(ops) && i < |ops|
    ensures var key, live, end := Key(hash, ops[i].req), At(hash, s, ops, i), After(hash, s, ops);
      && key in end.byKey && !end.byKey[key].cached
      && Extract(ops[i].req.kind, end.byKey[key].data) ==
           if live.invoked && ops[i].caller.Err? then Ok(Empty) else live.reply
  {
    Situation(hash, s, ops, i);
    WhatALiveCallLeaves(hash, After(hash, s, ops[..i]), ops[i]);
    EntriesAreFinal(hash, s, ops, i + 1, |ops|, Key(hash, ops[i].req));
    assert ops[..|ops|] == ops;
  }

  lemma FailingCallsReportTheFailure(hash: string -> string, s: Store, op: Op)
    requires op.Issue? && Performed(hash, s, op).invoked && op.caller.Err?
    ensures Performed(hash, s, op).reply == Err(CallerFailed(op.caller.error))
  {
  }

  /** A request issued again in replay mode, with a fresh identifier, invokes nobody, leaves the store
      unchanged, and answers as the live run did exactly when that live call did not fail. */
  lemma ReplayReproducesTheLiveRun(hash: string -> string, s: Store, ops: seq<Op>, i: nat, again: Op)
    requires Sha256(hash) && Agree(s) && FreshIDs(s, ops) && AllLive(ops) && i < |ops|
    requires again.Issue? && again.replaying && again.req == ops[i].req && again.id !in After(hash, s, ops).byID
    ensures var live, replay := At(hash, s, ops, i), Performed(hash, After(hash, s, ops), again);
      && !replay.invoked && replay.store == After(hash, s, ops)
      && (replay.reply == live.reply <==> !(live.invoked && ops[i].caller.Err?))
      && (live.invoked && ops[i].caller.Err? ==> replay.reply == Ok(Empty))
  {
    LiveEntryAtTheEnd(hash, s, ops, i);
    ReplayLooksUp(hash, After(hash, s, ops), again);
    if At(hash, s, ops, i).invoked && ops[i].caller.Err? {
      FailingCallsReportTheFailure(hash, After(hash, s, ops[..i]), ops[i]);
    }
  }

  lemma WhatAnAskedCallerLeaves(hash: string -> string, s: Store, op: Op)
    requires Sha256(hash) && Agree(s) && op.Issue? && op.id !in s.byID
    requires Performed(hash, s, op).invoked && op.caller.Ok?
    ensures var key, after := Key(hash, op.req), Performed(hash, s, op).store;
      && key in after.byKey && after.byKey[key].id == op.id
      && after.byKey[key].data == Response(op.req.kind, op.caller.value)
  {
    KeysTellKinds(hash, op.req);
  }

  /** Replaying a known identifier answers with that call's answer, whatever the request says; only a request
      of another kind fails, at the type assertion. */
  lemma ReplayByIdentifier(hash: string -> string, s: Store, ops: seq<Op>, i: nat, again: Op)
    requires Sha256(hash) && Agree(s) && FreshIDs(s, ops) && AllLive(ops) && i < |ops|
    requires At(hash, s, ops, i).invoked && ops[i].caller.Ok? && ops[i].id != ""
    requires again.Issue? && again.replaying && again.id == ops[i].id
    ensures var replay := Performed(hash, After(hash, s, ops), again);
      && !replay.invoked && replay.store == After(hash, s, ops)
      && replay.reply ==
           if again.req.kind == ops[i].req.kind then Ok(Value(ops[i].caller.value)) else Err(WrongType)
  {
    var key := Key(hash, ops[i].req);
    Situation(hash, s, ops, i);
    WhatAnAskedCallerLeaves(hash, After(hash, s, ops[..i]), ops[i]);
    EntriesAreFinal(hash, s, ops, i + 1, |ops|, key);
    IndexesAgree(hash, s, ops);
    assert ops[..|ops|] == ops;
  }

  /** The same requests in the same order, in replay mode; identifiers and callers may differ. */
  ghost predicate ReplayOf(ops: seq<Op>, replayed: seq<Op>, known: set<string>) {
    && |replayed| == |ops|
    && forall i | 0 <= i < |ops| ::
         && ops[i].Issue? && replayed[i].Issue? && replayed[i].replaying
         && replayed[i].req == ops[i].req && replayed[i].id !in known
  }

  ghost predicate CallersSucceed(hash: string -> string, s: Store, ops: seq<Op>) {
    forall i | 0 <= i < |ops| && ops[i].Issue? :: At(hash, s, ops, i).invoked ==> ops[i].caller.Ok?
  }

  /** Operation `i` of the replay answers as operation `i` of the live run, invoking nobody. */
  ghost predicate AnswersAlike(hash: string -> string, s: Store, ops: seq<Op>, replayed: seq<Op>, i: nat)
    requires i < |ops| && i < |replayed|
  {
    var replay := At(hash, After(hash, s, ops), replayed, i);
    !replay.invoked && replay.reply == At(hash, s, ops, i).reply
  }

  /** A successful live run and the same requests to be replayed after it. */
  ghost predicate Recording(hash: string -> string, s: Store, ops: seq<Op>, replayed: seq<Op>) {
    && Agree(s) && FreshIDs(s, ops) && AllLive(ops) && CallersSucceed(hash, s, ops)
    && ReplayOf(ops, replayed, After(hash, s, ops).byID.Keys)
  }

  /** Asked of the store the live run left, operation `i` of the replay answers as the live one did. */
  ghost predicate ReplaysFrom(hash: string -> string, end: Store, reply: Result<Reply, CallError>, again: Op) {
    Performed(hash, end, again) == CallOutcome(end, reply, false)
  }

  lemma OneReplayedCall(hash: string -> string, s: Store, ops: seq<Op>, replayed: seq<Op>, i: nat)
    requires Sha256(hash) && Recording(hash, s, ops, replayed) && i < |ops|
    ensures ReplaysFrom(hash, After(hash, s, ops), At(hash, s, ops, i).reply, replayed[i])
  {
    ReplayReproducesTheLiveRun(hash, s, ops, i, replayed[i]);
  }

  /** Operations that each leave a store unchanged leave it unchanged one after another. */
  lemma {:induction false} NothingHappens(hash: string -> string, s: Store, ops: seq<Op>, n: nat)
    requires n <= |ops| && forall i | 0 <= i < |ops| :: Performed(hash, s, ops[i]).store == s
    ensures After(hash, s, ops[..n]) == s
  {
    if n > 0 {
      NothingHappens(hash, s, ops, n - 1);
      AfterOneMore(hash, s, ops, n - 1);
    }
  }

  /** Record, then replay: when every invoked caller succeeds, replaying the whole sequence returns the
      same replies in order, invokes no caller and changes nothing. */
  lemma RecordThenReplay(hash: string -> string, s: Store, ops: seq<Op>, replayed: seq<Op>)
    requires Sha256(hash) && Recording(hash, s, ops, replayed)
    ensures After(hash, After(hash, s, ops), replayed) == After(hash, s, ops)
    ensures forall i | 0 <= i < |ops| :: AnswersAlike(hash, s, ops, replayed, i)
  {
    var end := After(hash, s, ops);
    forall i | 0 <= i < |ops|
      ensures ReplaysFrom(hash, end, At(hash, s, ops, i).reply, replayed[i])
    {
      OneReplayedCall(hash, s, ops, replayed, i);
    }
    forall i | 0 <= i < |ops| ensures AnswersAlike(hash, s, ops, replayed, i) {
      NothingHappens(hash, end, replayed, i);
      assert ReplaysFrom(hash, end, At(hash, s, ops, i).reply, replayed[i]);
    }
    NothingHappens(hash, end, replayed, |ops|);
    assert replayed[..|ops|] == replayed;
  }

  /** A request repeated live, before any `Clear`, invokes nobody, changes nothing, and is answered as the
      first time exactly when that call did not fail; a failed one is answered with an empty success. */
  lemma LiveRetryAnswersAlikeIff(hash: string -> string, s: Store, ops: seq<Op>, i: nat, again: Op)
    requires Sha256(hash) && Agree(s) && FreshIDs(s, ops) && AllLive(ops) && i < |ops|
    requires again.Issue? && !again.replaying && again.req == ops[i].req
    ensures var live, retry := At(hash, s, ops, i), Performed(hash, After(hash, s, ops), again);
      && !retry.invoked && retry.store == After(hash, s, ops)
      && (retry.reply == live.reply <==> !(live.invoked && ops[i].caller.Err?))
      && (live.invoked && ops[i].caller.Err? ==> retry.reply == Ok(Empty))
  {
    LiveEntryAtTheEnd(hash, s, ops, i);
    KeysTellKinds(hash, ops[i].req);
    if At(hash, s, ops, i).invoked && ops[i].caller.Err? {
      FailingCallsReportTheFailure(hash, After(hash, s, ops[..i]), ops[i]);
    }
  }

  /** In particular a failed call is remembered as an empty success. */
  lemma FailureIsRememberedAsEmptySuccess(hash: string -> string, s: Store, ops: seq<Op>, i: nat, again: Op)
    requires Sha256(hash) && Agree(s) && FreshIDs(s, ops) && AllLive(ops) && i < |ops|
    requires At(hash, s, ops, i).invoked && ops[i].caller.Err?
    requires again.Issue? && !again.replaying && again.req == ops[i].req
    ensures var retry := Performed(hash, After(hash, s, ops), again);
      !retry.invoked && retry.reply == Ok(Empty) && retry.store == After(hash, s, ops)
  {
    LiveRetryAnswersAlikeIff(hash, s, ops, i, again);
  }
}
