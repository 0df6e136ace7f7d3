/** Alignment of the tool ledger with the event stream, and its independence from redaction. */
module Ledger {
  import opened Wrappers
  import opened Text
  import opened HashChain
  import opened Redaction

  datatype ToolInvocation = ToolInvocation(
    id: string, jobID: string, idempotencyKey: string, stepID: string, toolName: string, argsHash: string,
    status: string, result: string, committed: bool, timestamp: string, externalID: string)

  /** The key and payload of a finished tool event, if it has both. */
  function Finished(p: Platform, e: Event): Option<(string, Fields)> {
    if e.eventType != "tool_invocation_finished" then None
    else
      match DecodeMap(p, e.payload)
      case None => None
      case Some(fields) =>
        match AsString(fields, "idempotency_key")
        case None => None
        case Some(key) => if key == "" then None else Some((key, fields))
  }

  /** Per idempotency key the payload of its last finished event. */
  function FinishedPayloads(p: Platform, events: seq<Event>): map<string, Fields> {
    if events == [] then map[]
    else
      var before := FinishedPayloads(p, events[..|events| - 1]);
      match Finished(p, events[|events| - 1])
      case None => before
      case Some((key, fields)) => before[key := fields]
  }

  /** Per idempotency key the last ledger entry. */
  function ByKey(ledger: seq<ToolInvocation>): map<string, ToolInvocation> {
    if ledger == [] then map[]
    else ByKey(ledger[..|ledger| - 1])[ledger[|ledger| - 1].idempotencyKey := ledger[|ledger| - 1]]
  }

  /** A finished event agrees with its ledger entry: same tool if it names one, committed on success. */
  predicate EntryMatches(fields: Fields, inv: ToolInvocation) {
    && (AsString(fields, "tool_name") in {None, Some(""), Some(inv.toolName)})
    && (AsString(fields, "outcome") == Some("success") ==> inv.committed)
  }

  ghost predicate LedgerConsistent(p: Platform, events: seq<Event>, ledger: seq<ToolInvocation>) {
    var finished, byKey := FinishedPayloads(p, events), ByKey(ledger);
    && (forall key | key in finished :: key in byKey && EntryMatches(finished[key], byKey[key]))
    && forall inv | inv in ledger && inv.committed :: inv.idempotencyKey in finished
  }

  datatype LedgerError =
    | MissingInLedger(key: string)
    | ToolNameMismatch(key: string)
    | NotCommitted(key: string)
    | NoFinishedEvent(key: string)

  /** The reported error is a misalignment that is there. */
  ghost predicate Explains(
    finished: map<string, Fields>, byKey: map<string, ToolInvocation>, ledger: seq<ToolInvocation>, error: LedgerError)
  {
    match error
    case MissingInLedger(key) => key in finished && key !in byKey
    case ToolNameMismatch(key) =>
      && key in finished && key in byKey
      && AsString(finished[key], "tool_name") !in {None, Some(""), Some(byKey[key].toolName)}
    case NotCommitted(key) =>
      key in finished && key in byKey && AsString(finished[key], "outcome") == Some("success") && !byKey[key].committed
    case NoFinishedEvent(key) =>
      key !in finished && exists inv :: inv in ledger && inv.committed && inv.idempotencyKey == key
  }

  method CollectFinished(p: Platform, events: seq<Event>) returns (finished: map<string, Fields>)
    ensures finished == FinishedPayloads(p, events)
  {
    finished := map[];
    for i := 0 to |events|
      invariant finished == FinishedPayloads(p, events[..i])
    {
      assert events[..i + 1][..i] == events[..i];
      if events[i].eventType == "tool_invocation_finished" {
        var payload := DecodeMap(p, events[i].payload);
        if payload.Some? {
          var key := AsString(payload.value, "idempotency_key");
          if key.Some? && key.value != "" {
            finished := finished[key.value := payload.value];
          }
        }
      }
    }
    assert events[..|events|] == events;
  }

  method CollectLedger(ledger: seq<ToolInvocation>) returns (byKey: map<string, ToolInvocation>)
    ensures byKey == ByKey(ledger)
  {
    byKey := map[];
    for i := 0 to |ledger|
      invariant byKey == ByKey(ledger[..i])
    {
      byKey := byKey[ledger[i].idempotencyKey := ledger[i]];
      assert ledger[..i + 1][..i] == ledger[..i];
    }
    assert ledger[..|ledger|] == ledger;
  }

  /** Every finished event has a matching ledger entry, or the first mismatch met. */
  method CheckFinished(finished: map<string, Fields>, byKey: map<string, ToolInvocation>)
    returns (error: Option<LedgerError>)
    ensures error.None? <==> forall key | key in finished :: key in byKey && EntryMatches(finished[key], byKey[key])
    ensures error.Some? ==> !error.value.NoFinishedEvent? && Explains(finished, byKey, [], error.value)
  {
    var rest := finished.Keys;
    while rest != {}
      invariant rest <= finished.Keys
      invariant forall key | key in finished && key !in rest :: key in byKey && EntryMatches(finished[key], byKey[key])
      decreases |rest|
    {
      var key :| key in rest;
      rest := rest - {key};
      if key !in byKey {
        return Some(MissingInLedger(key));
      }
      var toolName := AsString(finished[key], "tool_name");
      if toolName.Some? && toolName.value != "" && toolName.value != byKey[key].toolName {
        return Some(ToolNameMismatch(key));
      }
      if AsString(finished[key], "outcome") == Some("success") && !byKey[key].committed {
        return Some(NotCommitted(key));
      }
    }
    return None;
  }

  /** Every committed ledger entry has a finished event, or the first without one. */
  method CheckCommitted(finished: map<string, Fields>, ledger: seq<ToolInvocation>) returns (error: Option<LedgerError>)
    ensures error.None? <==> forall inv | inv in ledger && inv.committed :: inv.idempotencyKey in finished
    ensures error.Some? ==> error.value.NoFinishedEvent? && Explains(finished, map[], ledger, error.value)
  {
    for i := 0 to |ledger|
      invariant forall inv | inv in ledger[..i] && inv.committed :: inv.idempotencyKey in finished
    {
      if ledger[i].committed && ledger[i].idempotencyKey !in finished {
        assert ledger[i] in ledger;
        return Some(NoFinishedEvent(ledger[i].idempotencyKey));
      }
    }
    return None;
  }

  method ValidateLedgerConsistency(p: Platform, events: seq<Event>, ledger: seq<ToolInvocation>)
    returns (r: Result<(), LedgerError>)
    ensures r.Ok? <==> LedgerConsistent(p, events, ledger)
    ensures r.Err? ==> Explains(FinishedPayloads(p, events), ByKey(ledger), ledger, r.error)
  {
    var finished := CollectFinished(p, events);
    var byKey := CollectLedger(ledger);
    var mismatch := CheckFinished(finished, byKey);
    if mismatch.Some? {
      return Err(mismatch.value);
    }
    var missing := CheckCommitted(finished, ledger);
    if missing.Some? {
      return Err(missing.value);
    }
    return Ok(());
  }

  // ---------- what the check means, read off the two lists ----------

  /** A finished tool event with this key. */
  ghost predicate Finishes(p: Platform, e: Event, key: string) {
    && e.eventType == "tool_invocation_finished" && key != ""
    && DecodeMap(p, e.payload).Some? && Lookup(DecodeMap(p, e.payload).value, "idempotency_key") == Some(Str(key))
  }

  /** Event number `i` is the last finished one with this key. */
  ghost predicate FinishesLast(p: Platform, events: seq<Event>, i: nat, key: string) {
    i < |events| && Finishes(p, events[i], key) && forall j | i < j < |events| :: !Finishes(p, events[j], key)
  }

  /** Entry number `k` is the last one with this key. */
  ghost predicate EntersLast(ledger: seq<ToolInvocation>, k: nat, key: string) {
    && k < |ledger| && ledger[k].idempotencyKey == key
    && forall j | k < j < |ledger| :: ledger[j].idempotencyKey != key
  }

  /** The entry bears out the event: the tool it names, if it names one, and committed if it succeeded. */
  ghost predicate BearsOut(fields: Fields, inv: ToolInvocation) {
    && (forall tool | Lookup(fields, "tool_name") == Some(Str(tool)) && tool != "" :: inv.toolName == tool)
    && (Lookup(fields, "outcome") == Some(Str("success")) ==> inv.committed)
  }

  /** The ledger bears out event number `i` by its last entry with the same key. */
  ghost predicate BorneOut(p: Platform, events: seq<Event>, ledger: seq<ToolInvocation>, i: nat, key: string)
    requires FinishesLast(p, events, i, key)
  {
    exists k: nat :: EntersLast(ledger, k, key) && BearsOut(DecodeMap(p, events[i].payload).value, ledger[k])
  }

  lemma {:induction false} LastFinished(p: Platform, events: seq<Event>, key: string) returns (i: nat)
    ensures key in FinishedPayloads(p, events) <==> exists e :: e in events && Finishes(p, e, key)
    ensures key in FinishedPayloads(p, events) ==>
              && FinishesLast(p, events, i, key)
              && FinishedPayloads(p, events)[key] == DecodeMap(p, events[i].payload).value
  {
    i := 0;
    if events != [] {
      var n := |events| - 1;
      assert events == events[..n] + [events[n]];
      i := LastFinished(p, events[..n], key);
      if Finishes(p, events[n], key) {
        i := n;
      }
    }
  }

  lemma {:induction false} LastEntry(ledger: seq<ToolInvocation>, key: string) returns (k: nat)
    ensures key in ByKey(ledger) <==> exists inv :: inv in ledger && inv.idempotencyKey == key
    ensures key in ByKey(ledger) ==> EntersLast(ledger, k, key) && ByKey(ledger)[key] == ledger[k]
  {
    k := 0;
    if ledger != [] {
      var n := |ledger| - 1;
      assert ledger == ledger[..n] + [ledger[n]];
      k := LastEntry(ledger[..n], key);
      if ledger[n].idempotencyKey == key {
        k := n;
      }
    }
  }

  lemma MatchesIffBearsOut(fields: Fields, inv: ToolInvocation)
    ensures EntryMatches(fields, inv) <==> BearsOut(fields, inv)
  {
  }

  /** The check accepts exactly when the last finished event with each key is borne out by the last entry with
      that key, and every committed entry, last or not, has a finished event. */
  lemma LedgerConsistentIff(p: Platform, events: seq<Event>, ledger: seq<ToolInvocation>)
    ensures LedgerConsistent(p, events, ledger) <==>
            && (forall i: nat, key | FinishesLast(p, events, i, key) :: BorneOut(p, events, ledger, i, key))
            && forall inv | inv in ledger && inv.committed ::
                 exists e :: e in events && Finishes(p, e, inv.idempotencyKey)
  {
    var finished, byKey := FinishedPayloads(p, events), ByKey(ledger);
    forall inv | inv in ledger
      ensures inv.idempotencyKey in finished <==> exists e :: e in events && Finishes(p, e, inv.idempotencyKey)
    {
      var _ := LastFinished(p, events, inv.idempotencyKey);
    }
    forall i: nat, key | FinishesLast(p, events, i, key)
      ensures key in finished
      ensures key in byKey && EntryMatches(finished[key], byKey[key]) <==> BorneOut(p, events, ledger, i, key)
    {
      EventIsBorneOutIff(p, events, ledger, i, key);
    }
    forall key | key in finished ensures exists i: nat :: FinishesLast(p, events, i, key) {
      var i := LastFinished(p, events, key);
    }
  }

  lemma EventIsBorneOutIff(p: Platform, events: seq<Event>, ledger: seq<ToolInvocation>, i: nat, key: string)
    requires FinishesLast(p, events, i, key)
    ensures var finished, byKey := FinishedPayloads(p, events), ByKey(ledger);
      && key in finished
      && (key in byKey && EntryMatches(finished[key], byKey[key]) <==> BorneOut(p, events, ledger, i, key))
  {
    var j := LastFinished(p, events, key);
    var k := LastEntry(ledger, key);
    assert events[i] in events && i == j;
    var fields := DecodeMap(p, events[i].payload).value;
    if key in ByKey(ledger) {
      MatchesIffBearsOut(fields, ledger[k]);
    }
    forall l: nat | EntersLast(ledger, l, key) ensures key in ByKey(ledger) && l == k {
      assert ledger[l] in ledger;
    }
  }

  lemma {:induction false} EmptyKeyIsNeverFinished(p: Platform, events: seq<Event>)
    ensures "" !in FinishedPayloads(p, events)
  {
    if events != [] {
      EmptyKeyIsNeverFinished(p, events[..|events| - 1]);
    }
  }

  // ---------- redaction does not change the verdict ----------

  /** Equal in every field the ledger check reads. */
  ghost predicate SameLedgerFields(a: Fields, b: Fields) {
    forall key | LedgerKey(key) :: Lookup(a, key) == Lookup(b, key)
  }

  ghost predicate SameFinished(a: Option<(string, Fields)>, b: Option<(string, Fields)>) {
    match (a, b)
    case (None, None) => true
    case (Some((k, x)), Some((l, y))) => k == l && SameLedgerFields(x, y)
    case _ => false
  }

  lemma RedactionKeepsLedgerFields(p: Platform, salt: string, e: Event, payload: string)
    requires p.Lawful() && RedactedPayload(p, ExportPolicy(salt), e, NO_NONCES) == Ok(payload)
    ensures SameDecoded(DecodeMap(p, e.payload), DecodeMap(p, payload))
  {
    GlobalRulesOnly(ExportMasks(salt), e.eventType);
    forall key | LedgerKey(key) ensures !Touches(ExportMasks(salt), key) {
      ExportMasksAvoidLedgerFields(salt, key);
    }
    AvoidingMasksKeepLedgerFields(p, ExportPolicy(salt), ExportMasks(salt), e, payload);
  }

  ghost predicate SameDecoded(a: Option<Fields>, b: Option<Fields>) {
    (a.Some? <==> b.Some?) && (a.Some? ==> SameLedgerFields(a.value, b.value))
  }

  lemma AvoidingMasksKeepLedgerFields(p: Platform, policy: Policy, rules: seq<FieldMask>, e: Event, payload: string)
    requires p.Lawful() && rules == Rules(policy, e.eventType) && forall key | LedgerKey(key) :: !Touches(rules, key)
    requires RedactedPayload(p, policy, e, NO_NONCES) == Ok(payload)
    ensures SameDecoded(DecodeMap(p, e.payload), DecodeMap(p, payload))
  {
    if IsObject(p, e.payload) {
      var fields := FieldsIn(p, e.payload);
      ObjectPayloadIsRedacted(p, policy, e, rules, NO_NONCES);
      AvoidedFieldsStay(p, fields, rules);
      EncodedFieldsDecode(p, ApplyAll(p, fields, rules, NO_NONCES));
    } else {
      assert p.decode(p.encode(Null)) == Some(Null);
    }
  }

  lemma AvoidedFieldsStay(p: Platform, fields: Fields, rules: seq<FieldMask>)
    requires forall key | LedgerKey(key) :: !Touches(rules, key)
    ensures SameLedgerFields(fields, ApplyAll(p, fields, rules, NO_NONCES))
  {
    forall key | LedgerKey(key) ensures Lookup(fields, key) == Lookup(ApplyAll(p, fields, rules, NO_NONCES), key) {
      OtherFieldsAreKept(p, fields, rules, NO_NONCES, key);
    }
  }

  lemma EncodedFieldsDecode(p: Platform, fields: Fields)
    requires p.Lawful()
    ensures DecodeMap(p, p.encode(Obj(fields))) == Some(fields)
  {
    assert p.decode(p.encode(Obj(fields))) == Some(Obj(fields));
  }

  lemma RedactionKeepsFinished(p: Platform, salt: string, e: Event, e': Event)
    requires p.Lawful() && e'.eventType == e.eventType
    requires RedactedPayload(p, ExportPolicy(salt), e, NO_NONCES) == Ok(e'.payload)
    ensures SameFinished(Finished(p, e), Finished(p, e'))
  {
    RedactionKeepsLedgerFields(p, salt, e, e'.payload);
    assert LedgerKey("idempotency_key");
    forall a, b: Fields | SameLedgerFields(a, b)
      ensures AsString(a, "idempotency_key") == AsString(b, "idempotency_key")
    {
      assert Lookup(a, "idempotency_key") == Lookup(b, "idempotency_key");
    }
  }

  lemma {:induction false} RedactionKeepsFinishedPayloads(p: Platform, salt: string, events: seq<Event>,
                                                          out: seq<Event>)
    requires p.Lawful() && |out| == |events|
    requires forall i | 0 <= i < |events| ::
               && out[i].eventType == events[i].eventType
               && RedactedPayload(p, ExportPolicy(salt), events[i], NO_NONCES) == Ok(out[i].payload)
    ensures var a, b := FinishedPayloads(p, events), FinishedPayloads(p, out);
      a.Keys == b.Keys && forall key | key in a :: SameLedgerFields(a[key], b[key])
  {
    if events != [] {
      var n := |events| - 1;
      RedactionKeepsFinishedPayloads(p, salt, events[..n], out[..n]);
      RedactionKeepsFinished(p, salt, events[n], out[n]);
    }
  }

  /** The ledger check gives a redacted export the verdict of the original stream, for every ledger. */
  lemma RedactionKeepsLedgerVerdict(p: Platform, salt: string, events: seq<Event>, ledger: seq<ToolInvocation>)
    requires p.Lawful() && RedactedForExport(p, salt, events).Ok?
    ensures LedgerConsistent(p, RedactedForExport(p, salt, events).value, ledger) <==>
            LedgerConsistent(p, events, ledger)
  {
    var out := RedactedForExport(p, salt, events).value;
    RedactedStreamIsAChain(p, ExportPolicy(salt), events, NO_RANDOMNESS);
    RedactionKeepsFinishedPayloads(p, salt, events, out);
    var a, b := FinishedPayloads(p, events), FinishedPayloads(p, out);
    forall key, inv: ToolInvocation | key in a ensures EntryMatches(a[key], inv) == EntryMatches(b[key], inv) {
      SameFieldsMatchAlike(a[key], b[key], inv);
    }
  }

  lemma SameFieldsMatchAlike(a: Fields, b: Fields, inv: ToolInvocation)
    requires SameLedgerFields(a, b)
    ensures EntryMatches(a, inv) == EntryMatches(b, inv)
  {
    assert Lookup(a, "tool_name") == Lookup(b, "tool_name");
    assert Lookup(a, "outcome") == Lookup(b, "outcome");
  }
}
