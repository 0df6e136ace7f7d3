/** Field masks over JSON payloads and the re-chained redacted event stream of an export. */
module Redaction {
  import opened Wrappers
  import opened Text
  import opened HashChain

  /** `Unknown` stands for a mode string the engine does not recognise: the field stays as it is. */
  datatype Mode = Redact | Hash | Encrypt | Remove | Unknown

  datatype FieldMask = FieldMask(fieldPath: string, mode: Mode, salt: string)

  datatype Policy = Policy(eventRules: map<string, seq<FieldMask>>, globalRules: seq<FieldMask>)

  type Fields = map<string, Json>

  function Lookup(fields: Fields, key: string): Option<Json> {
    if key in fields then Some(fields[key]) else None
  }

  function Store(fields: Fields, key: string, value: Option<Json>): Fields {
    match value
    case None => fields - {key}
    case Some(v) => fields[key := v]
  }

  /** What the random reader yields to each mask of a redaction. */
  type Nonces = nat -> string

  const NO_NONCES: Nonces := i => ""

  /** What a mask makes of a field; an absent field stays absent. Encryption fails without a key, and
      otherwise depends on a nonce drawn for the occasion. */
  function MaskField(p: Platform, mask: FieldMask, field: Option<Json>, nonce: string): Option<Json> {
    if field.None? then None
    else
      match mask.mode
      case Redact => Some(Str("***REDACTED***"))
      case Hash => Some(Str("hash:" + p.hash(p.show(field.value) + mask.salt)))
      case Encrypt => (
        match p.encrypt(nonce, p.show(field.value))
        case None => field
        case Some(c) => Some(Str("enc:" + c)))
      case Remove => None
      case Unknown => field
  }

  /** Walks the path through nested objects and masks its last field; a missing step changes nothing. */
  function MaskPath(p: Platform, mask: FieldMask, nonce: string, fields: Fields, parts: seq<string>): Fields
    requires parts != []
    decreases |parts|
  {
    var key := parts[0];
    if |parts| == 1 then
      if key in fields then Store(fields, key, MaskField(p, mask, Some(fields[key]), nonce)) else fields
    else if key in fields && fields[key].Obj? then
      fields[key := Obj(MaskPath(p, mask, nonce, fields[key].fields, parts[1..]))]
    else fields
  }

  function ApplyFieldMask(p: Platform, fields: Fields, mask: FieldMask, nonce: string): Fields {
    MaskPath(p, mask, nonce, fields, Split(mask.fieldPath, '.'))
  }

  function ApplyAll(p: Platform, fields: Fields, rules: seq<FieldMask>, nonces: Nonces): Fields {
    if rules == [] then fields
    else
      var n := |rules| - 1;
      ApplyFieldMask(p, ApplyAll(p, fields, rules[..n], nonces), rules[n], nonces(n))
  }

  function Rules(policy: Policy, eventType: string): seq<FieldMask> {
    (if eventType in policy.eventRules then policy.eventRules[eventType] else []) + policy.globalRules
  }

  datatype RedactError = NotAnObject

  function Redacted(p: Platform, policy: Policy, eventType: string, data: string, nonces: Nonces)
    : Result<string, RedactError>
  {
    if data == "" then Ok(data)
    else
      match p.decode(data)
      case Some(Null) => Ok(p.encode(Null))
      case Some(Obj(fields)) => Ok(p.encode(Obj(ApplyAll(p, fields, Rules(policy, eventType), nonces))))
      case _ => Err(NotAnObject)
  }

  method RedactData(p: Platform, policy: Option<Policy>, eventType: string, data: string, nonces: Nonces)
    returns (r: Result<string, RedactError>)
    ensures r == if policy.None? then Ok(data) else Redacted(p, policy.value, eventType, data, nonces)
  {
    if policy.None? || |data| == 0 {
      return Ok(data);
    }
    var j := p.decode(data);
    if j == Some(Null) {
      return Ok(p.encode(Null));
    }
    if j.None? || !j.value.Obj? {
      return Err(NotAnObject);
    }
    var fields := ApplyRules(p, j.value.fields, Rules(policy.value, eventType), nonces);
    return Ok(p.encode(Obj(fields)));
  }

  method ApplyRules(p: Platform, original: Fields, rules: seq<FieldMask>, nonces: Nonces) returns (fields: Fields)
    ensures fields == ApplyAll(p, original, rules, nonces)
  {
    fields := original;
    for i := 0 to |rules|
      invariant fields == ApplyAll(p, original, rules[..i], nonces)
    {
      fields := ApplyFieldMask(p, fields, rules[i], nonces(i));
      assert rules[..i + 1][..i] == rules[..i];
    }
    assert rules[..|rules|] == rules;
  }

  // ---------- streams ----------

  function RedactedPayload(p: Platform, policy: Policy, e: Event, nonces: Nonces): Result<string, RedactError> {
    if TrimSpace(e.payload) == "" then Ok(e.payload) else Redacted(p, policy, e.eventType, e.payload, nonces)
  }

  function Rechained(p: Platform, e: Event, payload: string, prev: string): Event {
    var unhashed := e.(payload := payload, prevHash := prev);
    unhashed.(hash := ComputeEventHash(p, unhashed))
  }

  /** The nonces drawn for each event of a stream. */
  type Randomness = nat -> Nonces

  const NO_RANDOMNESS: Randomness := k => NO_NONCES

  /** The whole stream redacted and chained anew, or the error of the first payload that is no object. */
  function RedactedStream(p: Platform, policy: Policy, events: seq<Event>, random: Randomness)
    : Result<seq<Event>, RedactError>
  {
    if events == [] then Ok([])
    else
      var n := |events| - 1;
      match RedactedStream(p, policy, events[..n], random)
      case Err(e) => Err(e)
      case Ok(out) =>
        match RedactedPayload(p, policy, events[n], random(n))
        case Err(e) => Err(e)
        case Ok(payload) => Ok(out + [Rechained(p, events[n], payload, LastHash(out))])
  }

  function ExportMasks(salt: string): seq<FieldMask> {
    [ FieldMask("email", Hash, salt),
      FieldMask("phone", Hash, salt),
      FieldMask("ssn", Redact, ""),
      FieldMask("credit_card", Redact, ""),
      FieldMask("api_key", Remove, ""),
      FieldMask("token", Remove, ""),
      FieldMask("password", Remove, ""),
      FieldMask("secret", Remove, "")]
  }

  function ExportPolicy(salt: string): Policy {
    Policy(map[], ExportMasks(salt))
  }

  /** An export has no encryption key and draws nothing. */
  function RedactedForExport(p: Platform, salt: string, events: seq<Event>): Result<seq<Event>, RedactError> {
    RedactedStream(p, ExportPolicy(salt), events, NO_RANDOMNESS)
  }

  method RedactEventsForExport(p: Platform, events: seq<Event>, salt: string)
    returns (r: Result<seq<Event>, RedactError>)
    ensures r == RedactedForExport(p, salt, events)
  {
    var policy := ExportPolicy(salt);
    var out: seq<Event> := [];
    var prevHash := "";
    for i := 0 to |events|
      invariant RedactedStream(p, policy, events[..i], NO_RANDOMNESS) == Ok(out)
      invariant prevHash == LastHash(out)
    {
      var redacted := events[i];
      assert events[..i + 1][..i] == events[..i];
      if TrimSpace(redacted.payload) != "" {
        var payload := RedactData(p, Some(policy), redacted.eventType, redacted.payload, NO_NONCES);
        if payload.Err? {
          RedactedStreamPrefix(p, policy, events, NO_RANDOMNESS, i + 1);
          return Err(payload.error);
        }
        redacted := redacted.(payload := payload.value);
      }
      redacted := redacted.(prevHash := prevHash);
      redacted := redacted.(hash := ComputeEventHash(p, redacted));
      out := out + [redacted];
      prevHash := redacted.hash;
    }
    assert events[..|events|] == events;
    return Ok(out);
  }

  /** An error in a prefix is the error of the whole. */
  lemma {:induction false} RedactedStreamPrefix(p: Platform, policy: Policy, events: seq<Event>, random: Randomness,
                                                n: nat)
    requires n <= |events| && RedactedStream(p, policy, events[..n], random).Err?
    ensures RedactedStream(p, policy, events, random) == RedactedStream(p, policy, events[..n], random)
    decreases |events| - n
  {
    if n == |events| {
      assert events[..n] == events;
    } else {
      assert events[..n + 1][..n] == events[..n];
      RedactedStreamPrefix(p, policy, events, random, n + 1);
    }
  }

  /** An event of a redacted stream: only payload and link differ, the payload redacted on its own. */
  ghost predicate RedactedFrom(p: Platform, policy: Policy, e: Event, e': Event, nonces: Nonces) {
    && e' == e.(payload := e'.payload, prevHash := e'.prevHash, hash := e'.hash)
    && RedactedPayload(p, policy, e, nonces) == Ok(e'.payload)
  }

  /** Redaction re-chains: a redacted stream is a valid chain over the same identifiers, jobs, types
      and times. */
  lemma {:induction false} RedactedStreamIsAChain(p: Platform, policy: Policy, events: seq<Event>, random: Randomness)
    requires RedactedStream(p, policy, events, random).Ok?
    ensures var out := RedactedStream(p, policy, events, random).value;
      && ValidChain(p, out) && |out| == |events|
      && forall i | 0 <= i < |events| :: RedactedFrom(p, policy, events[i], out[i], random(i))
  {
    if events != [] {
      var n := |events| - 1;
      RedactedStreamIsAChain(p, policy, events[..n], random);
      var before := RedactedStream(p, policy, events[..n], random).value;
      var out := RedactedStream(p, policy, events, random).value;
      assert out[..n] == before && out == before + [out[n]];
      assert RedactedFrom(p, policy, events[n], out[n], random(n));
      assert LinkOk(p, out, n);
      ChainStep(p, out, n);
      assert out[..n + 1] == out;
    }
  }

  /** A blank payload, a JSON object or `null`. */
  predicate Redactable(p: Platform, payload: string) {
    || TrimSpace(payload) == ""
    || (p.decode(payload).Some? && FieldsOf(p.decode(payload).value).Some?)
  }

  lemma PayloadIsRedactedIff(p: Platform, policy: Policy, e: Event, nonces: Nonces)
    ensures RedactedPayload(p, policy, e, nonces).Ok? <==> Redactable(p, e.payload)
  {
  }

  ghost predicate AllRedactable(p: Platform, events: seq<Event>) {
    forall i | 0 <= i < |events| :: Redactable(p, events[i].payload)
  }

  lemma AllRedactableButTheLast(p: Platform, events: seq<Event>)
    requires events != []
    ensures var n := |events| - 1;
      AllRedactable(p, events) <==> AllRedactable(p, events[..n]) && Redactable(p, events[n].payload)
  {
    var n := |events| - 1;
    assert forall i | 0 <= i < n :: events[..n][i] == events[i];
  }

  /** Redaction succeeds exactly when every non-blank payload is a JSON object or `null`. */
  lemma {:induction false} RedactionSucceedsIff(p: Platform, policy: Policy, events: seq<Event>, random: Randomness)
    ensures RedactedStream(p, policy, events, random).Ok? <==> AllRedactable(p, events)
  {
    if events != [] {
      var n := |events| - 1;
      RedactionSucceedsIff(p, policy, events[..n], random);
      PayloadIsRedactedIff(p, policy, events[n], random(n));
      AllRedactableButTheLast(p, events);
    }
  }

  // ---------- what masking does to each field ----------

  predicate TopLevel(rules: seq<FieldMask>) {
    && (forall i | 0 <= i < |rules| :: '.' !in rules[i].fieldPath)
    && forall i, j | 0 <= i < j < |rules| :: rules[i].fieldPath != rules[j].fieldPath
  }

  predicate Touches(rules: seq<FieldMask>, key: string) {
    exists i :: 0 <= i < |rules| && Split(rules[i].fieldPath, '.')[0] == key
  }

  /** A field that starts no mask path is untouched, whatever the masks. */
  lemma {:induction false} OtherFieldsAreKept(p: Platform, fields: Fields, rules: seq<FieldMask>, nonces: Nonces,
                                              key: string)
    requires !Touches(rules, key)
    ensures Lookup(ApplyAll(p, fields, rules, nonces), key) == Lookup(fields, key)
  {
    if rules != [] {
      var n := |rules| - 1;
      assert !Touches(rules[..n], key) by {
        assert forall i | 0 <= i < n :: rules[..n][i] == rules[i];
      }
      OtherFieldsAreKept(p, fields, rules[..n], nonces, key);
      assert Split(rules[n].fieldPath, '.')[0] != key;
    }
  }

  /** Under distinct top-level masks each masked field is masked once. */
  lemma {:induction false} MaskedFieldIsMaskedOnce(p: Platform, fields: Fields, rules: seq<FieldMask>, nonces: Nonces,
                                                   i: nat)
    requires TopLevel(rules) && i < |rules|
    ensures Lookup(ApplyAll(p, fields, rules, nonces), rules[i].fieldPath)
            == MaskField(p, rules[i], Lookup(fields, rules[i].fieldPath), nonces(i))
  {
    var n := |rules| - 1;
    var key := rules[i].fieldPath;
    SplitWithoutSeparator(rules[n].fieldPath, '.');
    if i < n {
      MaskedFieldIsMaskedOnce(p, fields, rules[..n], nonces, i);
    } else {
      forall j | 0 <= j < n ensures Split(rules[..n][j].fieldPath, '.')[0] != key {
        SplitWithoutSeparator(rules[j].fieldPath, '.');
      }
      OtherFieldsAreKept(p, fields, rules[..n], nonces, key);
    }
  }

  /** One mask shows the same of both payloads, each masked with its own nonce. */
  ghost predicate ShowsAlike(p: Platform, mask: FieldMask, a: Fields, b: Fields, m: string, n: string) {
    MaskField(p, mask, Lookup(a, mask.fieldPath), m) == MaskField(p, mask, Lookup(b, mask.fieldPath), n)
  }

  /** The part of a payload that top-level masks let through: unmasked fields as they are, masked
      fields only as their mask shows them. */
  ghost predicate SameView(p: Platform, rules: seq<FieldMask>, a: Fields, b: Fields, m: Nonces, n: Nonces) {
    && (forall key :: !Touches(rules, key) ==> Lookup(a, key) == Lookup(b, key))
    && forall i | 0 <= i < |rules| :: ShowsAlike(p, rules[i], a, b, m(i), n(i))
  }

  /** Masked payloads, each masked with nonces of its own, are equal exactly when the views are: nothing
      else can be told apart. */
  lemma MaskingHidesExactlyTheRest(p: Platform, rules: seq<FieldMask>, a: Fields, b: Fields, m: Nonces, n: Nonces)
    requires TopLevel(rules)
    ensures ApplyAll(p, a, rules, m) == ApplyAll(p, b, rules, n) <==> SameView(p, rules, a, b, m, n)
  {
    if ApplyAll(p, a, rules, m) == ApplyAll(p, b, rules, n) {
      EqualMaskingsLookTheSame(p, rules, a, b, m, n);
    }
    if SameView(p, rules, a, b, m, n) {
      SameViewsMaskAlike(p, rules, a, b, m, n);
    }
  }

  lemma EqualMaskingsLookTheSame(p: Platform, rules: seq<FieldMask>, a: Fields, b: Fields, m: Nonces, n: Nonces)
    requires TopLevel(rules) && ApplyAll(p, a, rules, m) == ApplyAll(p, b, rules, n)
    ensures SameView(p, rules, a, b, m, n)
  {
    forall i | 0 <= i < |rules| ensures ShowsAlike(p, rules[i], a, b, m(i), n(i)) {
      MaskedFieldIsMaskedOnce(p, a, rules, m, i);
      MaskedFieldIsMaskedOnce(p, b, rules, n, i);
    }
    forall key | !Touches(rules, key) ensures Lookup(a, key) == Lookup(b, key) {
      OtherFieldsAreKept(p, a, rules, m, key);
      OtherFieldsAreKept(p, b, rules, n, key);
    }
  }

  lemma SameViewsMaskAlike(p: Platform, rules: seq<FieldMask>, a: Fields, b: Fields, m: Nonces, n: Nonces)
    requires TopLevel(rules) && SameView(p, rules, a, b, m, n)
    ensures ApplyAll(p, a, rules, m) == ApplyAll(p, b, rules, n)
  {
    var a', b' := ApplyAll(p, a, rules, m), ApplyAll(p, b, rules, n);
    forall key ensures Lookup(a', key) == Lookup(b', key) {
      if Touches(rules, key) {
        var i :| 0 <= i < |rules| && Split(rules[i].fieldPath, '.')[0] == key;
        SplitWithoutSeparator(rules[i].fieldPath, '.');
        MaskedFieldIsMaskedOnce(p, a, rules, m, i);
        MaskedFieldIsMaskedOnce(p, b, rules, n, i);
        assert ShowsAlike(p, rules[i], a, b, m(i), n(i));
      } else {
        OtherFieldsAreKept(p, a, rules, m, key);
        OtherFieldsAreKept(p, b, rules, n, key);
      }
    }
    LookupsDecide(a', b');
  }

  lemma LookupsDecide(a: Fields, b: Fields)
    requires forall key :: Lookup(a, key) == Lookup(b, key)
    ensures a == b
  {
    forall key ensures (key in a <==> key in b) && (key in a ==> a[key] == b[key]) {
      assert Lookup(a, key) == Lookup(b, key);
    }
  }

  predicate Encrypts(p: Platform, field: Option<Json>, nonce: string) {
    field.Some? && p.encrypt(nonce, p.show(field.value)).Some?
  }

  /** How much each mode shows: `Remove` nothing, `Redact` only presence, `Hash` the salted digest, and
      `Encrypt` the ciphertexts, which equal values need not share. */
  lemma WhatEachModeShows(p: Platform, mask: FieldMask, a: Option<Json>, b: Option<Json>, m: string, n: string)
    ensures var alike := MaskField(p, mask, a, m) == MaskField(p, mask, b, n);
      && (mask.mode == Remove ==> alike)
      && (mask.mode == Redact ==> (alike <==> (a.Some? <==> b.Some?)))
      && (mask.mode == Hash ==> (alike <==>
            (a.Some? <==> b.Some?) &&
            (a.Some? ==> p.hash(p.show(a.value) + mask.salt) == p.hash(p.show(b.value) + mask.salt))))
      && (mask.mode == Encrypt && Encrypts(p, a, m) && Encrypts(p, b, n) ==>
            (alike <==> p.encrypt(m, p.show(a.value)) == p.encrypt(n, p.show(b.value))))
      && (mask.mode == Unknown ==> (alike <==> a == b))
  {
    if mask.mode == Hash && a.Some? && b.Some? {
      PrefixesCancel("hash:", p.hash(p.show(a.value) + mask.salt), p.hash(p.show(b.value) + mask.salt));
    }
    if mask.mode == Encrypt && Encrypts(p, a, m) && Encrypts(p, b, n) {
      PrefixesCancel("enc:", p.encrypt(m, p.show(a.value)).value, p.encrypt(n, p.show(b.value)).value);
    }
  }

  lemma PrefixesCancel(prefix: string, x: string, y: string)
    ensures prefix + x == prefix + y <==> x == y
  {
    assert (prefix + x)[|prefix|..] == x && (prefix + y)[|prefix|..] == y;
  }

  // ---------- what is written, field by field ----------

  /** What the payload `masked` holds at the mask's path, given what `original` held there. */
  ghost predicate Written(p: Platform, mask: FieldMask, original: Fields, masked: Fields, nonce: string) {
    var path := mask.fieldPath;
    if path !in original || mask.mode == Remove then path !in masked
    else
      && path in masked
      && match mask.mode
         case Redact => masked[path] == Str("***REDACTED***")
         case Hash => masked[path] == Str("hash:" + p.hash(p.show(original[path]) + mask.salt))
         case Encrypt =>
           masked[path] == (
             match p.encrypt(nonce, p.show(original[path]))
             case Some(text) => Str("enc:" + text)
             case None => original[path])
         case Unknown => masked[path] == original[path]
         case Remove => false
  }

  lemma MaskedFieldIsWritten(p: Platform, mask: FieldMask, original: Fields, masked: Fields, nonce: string)
    requires Lookup(masked, mask.fieldPath) == MaskField(p, mask, Lookup(original, mask.fieldPath), nonce)
    ensures Written(p, mask, original, masked, nonce)
  {
  }

  /** Each mask has written what its mode says, and no other field has changed. */
  ghost predicate AllWritten(p: Platform, rules: seq<FieldMask>, original: Fields, masked: Fields, nonces: Nonces) {
    && (forall i | 0 <= i < |rules| :: Written(p, rules[i], original, masked, nonces(i)))
    && forall key :: Unnamed(rules, key) ==> Lookup(masked, key) == Lookup(original, key)
  }

  ghost predicate Unnamed(rules: seq<FieldMask>, key: string) {
    forall i | 0 <= i < |rules| :: rules[i].fieldPath != key
  }

  lemma RulesAreWritten(p: Platform, rules: seq<FieldMask>, original: Fields, nonces: Nonces)
    requires TopLevel(rules)
    ensures AllWritten(p, rules, original, ApplyAll(p, original, rules, nonces), nonces)
  {
    var masked := ApplyAll(p, original, rules, nonces);
    forall i | 0 <= i < |rules| ensures Written(p, rules[i], original, masked, nonces(i)) {
      MaskedFieldIsMaskedOnce(p, original, rules, nonces, i);
      MaskedFieldIsWritten(p, rules[i], original, masked, nonces(i));
    }
    forall key | Unnamed(rules, key) ensures Lookup(masked, key) == Lookup(original, key) {
      UnnamedFieldsAreKept(p, original, rules, nonces, key);
    }
  }

  /** An object payload comes out as an object in which each mask of its type, and each global one, has written
      what its mode says, and no other field has changed. */
  lemma EachMaskIsWritten(p: Platform, policy: Policy, e: Event, nonces: Nonces, rules: seq<FieldMask>)
    requires p.Lawful() && IsObject(p, e.payload) && TopLevel(rules)
    requires e.eventType in policy.eventRules ==> rules == policy.eventRules[e.eventType] + policy.globalRules
    requires e.eventType !in policy.eventRules ==> rules == policy.globalRules
    ensures var r := RedactedPayload(p, policy, e, nonces);
      && r.Ok? && IsObjectText(p, r.value)
      && AllWritten(p, rules, FieldsIn(p, e.payload), p.decode(r.value).value.fields, nonces)
  {
    assert rules == Rules(policy, e.eventType);
    var original := FieldsIn(p, e.payload);
    ObjectPayloadIsRedacted(p, policy, e, rules, nonces);
    PrintedObjectIsObject(p, ApplyAll(p, original, rules, nonces));
    RulesAreWritten(p, rules, original, nonces);
  }

  lemma PrintedObjectIsObject(p: Platform, fields: Fields)
    requires p.Lawful()
    ensures IsObjectText(p, p.encode(Obj(fields))) && p.decode(p.encode(Obj(fields))).value.fields == fields
  {
    assert p.decode(p.encode(Obj(fields))) == Some(Obj(fields));
  }

  predicate IsObjectText(p: Platform, text: string) {
    p.decode(text).Some? && p.decode(text).value.Obj?
  }

  lemma UnnamedFieldsAreKept(p: Platform, fields: Fields, rules: seq<FieldMask>, nonces: Nonces, key: string)
    requires TopLevel(rules) && Unnamed(rules, key)
    ensures Lookup(ApplyAll(p, fields, rules, nonces), key) == Lookup(fields, key)
  {
    forall i | 0 <= i < |rules| ensures Split(rules[i].fieldPath, '.')[0] != key {
      SplitWithoutSeparator(rules[i].fieldPath, '.');
    }
    OtherFieldsAreKept(p, fields, rules, nonces, key);
  }

  /** Blank payloads stay as they are, and `null` stays `null`. */
  lemma OtherPayloadsStay(p: Platform, policy: Policy, e: Event, nonces: Nonces)
    requires p.Lawful()
    ensures TrimSpace(e.payload) == "" ==> RedactedPayload(p, policy, e, nonces) == Ok(e.payload)
    ensures TrimSpace(e.payload) != "" && p.decode(e.payload) == Some(Null) ==>
              RedactedPayload(p, policy, e, nonces).Ok? &&
              p.decode(RedactedPayload(p, policy, e, nonces).value) == Some(Null)
  {
    NothingToTrim();
    assert p.decode(p.encode(Null)) == Some(Null);
  }

  // Masks that reach into nested objects.

  /** What is found by following the path through nested objects. */
  function Deep(fields: Fields, parts: seq<string>): Option<Json>
    requires parts != []
    decreases |parts|
  {
    if parts[0] !in fields then None
    else if |parts| == 1 then Some(fields[parts[0]])
    else if fields[parts[0]].Obj? then Deep(fields[parts[0]].fields, parts[1..])
    else None
  }

  /** The field at the end of the path is masked, if it is there. */
  lemma {:induction false} NestedFieldIsMasked(
    p: Platform, mask: FieldMask, nonce: string, fields: Fields, parts: seq<string>)
    requires parts != []
    ensures Deep(MaskPath(p, mask, nonce, fields, parts), parts) == MaskField(p, mask, Deep(fields, parts), nonce)
    decreases |parts|
  {
    if |parts| > 1 && parts[0] in fields && fields[parts[0]].Obj? {
      NestedFieldIsMasked(p, mask, nonce, fields[parts[0]].fields, parts[1..]);
    }
  }

  /** Where the paths part, nothing changes. */
  lemma {:induction false} FieldsElsewhereAreKept(
    p: Platform, mask: FieldMask, nonce: string, fields: Fields, parts: seq<string>, other: seq<string>)
    requires parts != [] && other != [] && !(parts <= other) && !(other <= parts)
    ensures Deep(MaskPath(p, mask, nonce, fields, parts), other) == Deep(fields, other)
    decreases |parts|
  {
    if parts[0] == other[0] {
      assert |parts| > 1 && |other| > 1 by {
        assert |parts| == 1 ==> parts <= other;
        assert |other| == 1 ==> other <= parts;
      }
      if parts[0] in fields && fields[parts[0]].Obj? {
        assert parts[1..] <= other[1..] ==> parts <= other;
        assert other[1..] <= parts[1..] ==> other <= parts;
        FieldsElsewhereAreKept(p, mask, nonce, fields[parts[0]].fields, parts[1..], other[1..]);
      }
    }
  }

  /** As the engine applies a mask: along its dotted path, and nowhere else. */
  lemma MaskReachesItsPath(p: Platform, mask: FieldMask, nonce: string, fields: Fields, other: seq<string>)
    requires other != []
    ensures var parts, masked := Split(mask.fieldPath, '.'), ApplyFieldMask(p, fields, mask, nonce);
      && JoinWith(parts, '.') == mask.fieldPath
      && Deep(masked, parts) == MaskField(p, mask, Deep(fields, parts), nonce)
      && (!(parts <= other) && !(other <= parts) ==> Deep(masked, other) == Deep(fields, other))
  {
    var parts := Split(mask.fieldPath, '.');
    SplitIsExact(mask.fieldPath, '.');
    NestedFieldIsMasked(p, mask, nonce, fields, parts);
    if !(parts <= other) && !(other <= parts) {
      FieldsElsewhereAreKept(p, mask, nonce, fields, parts, other);
    }
  }

  /** Nonces matter only to encrypting masks. */
  lemma {:induction false} OnlyEncryptionIsRandom(p: Platform, fields: Fields, rules: seq<FieldMask>, m: Nonces,
                                                  n: Nonces)
    requires forall i | 0 <= i < |rules| :: rules[i].mode != Encrypt
    ensures ApplyAll(p, fields, rules, m) == ApplyAll(p, fields, rules, n)
  {
    if rules != [] {
      var k := |rules| - 1;
      OnlyEncryptionIsRandom(p, fields, rules[..k], m, n);
      NonceIsNotUsed(p, rules[k], m(k), n(k), ApplyAll(p, fields, rules[..k], m), Split(rules[k].fieldPath, '.'));
    }
  }

  lemma {:induction false} NonceIsNotUsed(p: Platform, mask: FieldMask, m: string, n: string, fields: Fields,
                                          parts: seq<string>)
    requires mask.mode != Encrypt && parts != []
    ensures MaskPath(p, mask, m, fields, parts) == MaskPath(p, mask, n, fields, parts)
    decreases |parts|
  {
    if |parts| > 1 && parts[0] in fields && fields[parts[0]].Obj? {
      NonceIsNotUsed(p, mask, m, n, fields[parts[0]].fields, parts[1..]);
    }
  }

  // ---------- what a redacted stream shows ----------

  /** Same event up to the payload, and payloads that look the same once masked. */
  ghost predicate SameRedactedView(p: Platform, policy: Policy, a: Event, b: Event, m: Nonces, n: Nonces) {
    && a.id == b.id && a.jobID == b.jobID && a.eventType == b.eventType && a.createdAt == b.createdAt
    && RedactedPayload(p, policy, a, m) == RedactedPayload(p, policy, b, n)
  }

  ghost predicate SameRedactedViews(p: Platform, policy: Policy, a: seq<Event>, b: seq<Event>, r: Randomness,
                                    s: Randomness)
  {
    |a| == |b| && forall i | 0 <= i < |a| :: SameRedactedView(p, policy, a[i], b[i], r(i), s(i))
  }

  /** Redacted streams, hashes included, are identical exactly when they look the same event by
      event: the chain leaks nothing about masked values. */
  lemma {:induction false} RedactedStreamsAreIdenticalIff(
    p: Platform, policy: Policy, a: seq<Event>, b: seq<Event>, r: Randomness, s: Randomness)
    requires RedactedStream(p, policy, a, r).Ok? && RedactedStream(p, policy, b, s).Ok?
    ensures RedactedStream(p, policy, a, r) == RedactedStream(p, policy, b, s) <==>
            SameRedactedViews(p, policy, a, b, r, s)
  {
    RedactedStreamIsAChain(p, policy, a, r);
    RedactedStreamIsAChain(p, policy, b, s);
    if SameRedactedViews(p, policy, a, b, r, s) {
      SameViewsRechainAlike(p, policy, a, b, r, s);
    }
    if RedactedStream(p, policy, a, r) == RedactedStream(p, policy, b, s) {
      var out := RedactedStream(p, policy, a, r).value;
      forall i | 0 <= i < |a| ensures SameRedactedView(p, policy, a[i], b[i], r(i), s(i)) {
        assert RedactedFrom(p, policy, a[i], out[i], r(i)) && RedactedFrom(p, policy, b[i], out[i], s(i));
      }
    }
  }

  lemma {:induction false} SameViewsRechainAlike(
    p: Platform, policy: Policy, a: seq<Event>, b: seq<Event>, r: Randomness, s: Randomness)
    requires SameRedactedViews(p, policy, a, b, r, s)
    ensures RedactedStream(p, policy, a, r) == RedactedStream(p, policy, b, s)
  {
    if a != [] {
      var n := |a| - 1;
      forall i | 0 <= i < n ensures SameRedactedView(p, policy, a[..n][i], b[..n][i], r(i), s(i)) {
        assert SameRedactedView(p, policy, a[i], b[i], r(i), s(i));
      }
      SameViewsRechainAlike(p, policy, a[..n], b[..n], r, s);
      assert SameRedactedView(p, policy, a[n], b[n], r(n), s(n));
    }
  }

  predicate IsObject(p: Platform, payload: string) {
    TrimSpace(payload) != "" && p.decode(payload).Some? && p.decode(payload).value.Obj?
  }

  function FieldsIn(p: Platform, payload: string): Fields
    requires IsObject(p, payload)
  {
    p.decode(payload).value.fields
  }

  lemma ObjectPayloadIsRedacted(p: Platform, policy: Policy, e: Event, rules: seq<FieldMask>, nonces: Nonces)
    requires IsObject(p, e.payload) && rules == Rules(policy, e.eventType)
    ensures RedactedPayload(p, policy, e, nonces) ==
            Ok(p.encode(Obj(ApplyAll(p, FieldsIn(p, e.payload), rules, nonces))))
  {
    NothingToTrim();
    ObjectIsRedacted(p, policy, e.eventType, e.payload, FieldsIn(p, e.payload), nonces);
  }

  lemma NothingToTrim()
    ensures TrimSpace("") == ""
  {
  }

  lemma ObjectIsRedacted(p: Platform, policy: Policy, eventType: string, data: string, fields: Fields, nonces: Nonces)
    requires data != "" && p.decode(data) == Some(Obj(fields))
    ensures Redacted(p, policy, eventType, data, nonces) ==
            Ok(p.encode(Obj(ApplyAll(p, fields, Rules(policy, eventType), nonces))))
  {
  }

  /** For two object payloads of the same event type, looking the same after redaction is exactly
      having the same view. */
  lemma ObjectPayloadsLookTheSameIff(p: Platform, policy: Policy, a: Event, b: Event, m: Nonces, n: Nonces)
    requires p.Lawful() && a.eventType == b.eventType && TopLevel(Rules(policy, a.eventType))
    requires IsObject(p, a.payload) && IsObject(p, b.payload)
    ensures RedactedPayload(p, policy, a, m) == RedactedPayload(p, policy, b, n) <==>
            SameView(p, Rules(policy, a.eventType), FieldsIn(p, a.payload), FieldsIn(p, b.payload), m, n)
  {
    var rules := Rules(policy, a.eventType);
    var x, y := ApplyAll(p, FieldsIn(p, a.payload), rules, m), ApplyAll(p, FieldsIn(p, b.payload), rules, n);
    ObjectPayloadIsRedacted(p, policy, a, rules, m);
    ObjectPayloadIsRedacted(p, policy, b, rules, n);
    EncodingTellsApart(p, x, y);
    MaskingHidesExactlyTheRest(p, rules, FieldsIn(p, a.payload), FieldsIn(p, b.payload), m, n);
  }

  lemma EncodingTellsApart(p: Platform, a: Fields, b: Fields)
    requires p.Lawful()
    ensures p.encode(Obj(a)) == p.encode(Obj(b)) <==> a == b
  {
    assert p.decode(p.encode(Obj(a))) == Some(Obj(a)) && p.decode(p.encode(Obj(b))) == Some(Obj(b));
  }

  // ---------- the export policy ----------

  /** Tells the masked paths, and the fields the ledger check reads, apart. */
  function Signature(path: string): (int, char) {
    (|path|, if path == "" then ' ' else path[0])
  }

  const EXPORT_SIGNATURES: seq<(int, char)> :=
    [(5, 'e'), (5, 'p'), (3, 's'), (11, 'c'), (7, 'a'), (5, 't'), (8, 'p'), (6, 's')]

  ghost predicate HasSignatures(rules: seq<FieldMask>, signatures: seq<(int, char)>) {
    && |rules| == |signatures|
    && forall i | 0 <= i < |rules| :: Signature(rules[i].fieldPath) == signatures[i] && '.' !in rules[i].fieldPath
  }

  lemma ExportMasksHaveSignatures(salt: string)
    ensures HasSignatures(ExportMasks(salt), EXPORT_SIGNATURES)
  {
    forall i | 0 <= i < 8
      ensures Signature(ExportMasks(salt)[i].fieldPath) == EXPORT_SIGNATURES[i]
      ensures '.' !in ExportMasks(salt)[i].fieldPath
    {
      if i < 4 {
        if i < 2 { if i == 0 {} else {} } else { if i == 2 {} else {} }
      } else {
        if i < 6 { if i == 4 {} else {} } else { if i == 6 {} else {} }
      }
    }
  }

  lemma SignaturesSeparate(rules: seq<FieldMask>, signatures: seq<(int, char)>, key: string)
    requires HasSignatures(rules, signatures)
    requires forall i, j | 0 <= i < j < |signatures| :: signatures[i] != signatures[j]
    requires Signature(key) !in signatures
    ensures TopLevel(rules) && !Touches(rules, key)
  {
    forall i | 0 <= i < |rules| ensures Split(rules[i].fieldPath, '.')[0] != key {
      SplitWithoutSeparator(rules[i].fieldPath, '.');
      assert Signature(rules[i].fieldPath) in signatures;
    }
  }

  /** Without event rules only the global ones apply. */
  lemma GlobalRulesOnly(rules: seq<FieldMask>, eventType: string)
    ensures Rules(Policy(map[], rules), eventType) == rules
  {
  }

  predicate LedgerKey(key: string) {
    key == "idempotency_key" || key == "tool_name" || key == "outcome"
  }

  /** The export masks are distinct top-level masks, and none touches what the ledger check reads. */
  lemma ExportMasksAvoidLedgerFields(salt: string, key: string)
    requires LedgerKey(key)
    ensures TopLevel(ExportMasks(salt)) && !Touches(ExportMasks(salt), key)
  {
    ExportMasksHaveSignatures(salt);
    LedgerKeySignature(key);
    SignaturesSeparate(ExportMasks(salt), EXPORT_SIGNATURES, key);
  }

  lemma LedgerKeySignature(key: string)
    requires LedgerKey(key)
    ensures Signature(key) !in EXPORT_SIGNATURES
  {
    assert |key| == 15 || |key| == 9 || (|key| == 7 && key[0] == 'o');
  }

  /** Whatever random source an export had, its redacted stream would be the same. */
  lemma {:induction false} ExportedStreamIsDeterministic(
    p: Platform, salt: string, events: seq<Event>, random: Randomness)
    ensures RedactedStream(p, ExportPolicy(salt), events, random) == RedactedForExport(p, salt, events)
  {
    if events != [] {
      var n := |events| - 1;
      ExportedStreamIsDeterministic(p, salt, events[..n], random);
      ExportedPayloadIsDeterministic(p, salt, events[n], random(n), NO_RANDOMNESS(n));
    }
  }

  lemma ExportedPayloadIsDeterministic(p: Platform, salt: string, e: Event, m: Nonces, n: Nonces)
    ensures RedactedPayload(p, ExportPolicy(salt), e, m) == RedactedPayload(p, ExportPolicy(salt), e, n)
  {
    GlobalRulesOnly(ExportMasks(salt), e.eventType);
    PayloadIsDeterministic(p, ExportPolicy(salt), e, ExportMasks(salt), m, n);
  }

  lemma PayloadIsDeterministic(p: Platform, policy: Policy, e: Event, rules: seq<FieldMask>, m: Nonces, n: Nonces)
    requires rules == Rules(policy, e.eventType) && forall i | 0 <= i < |rules| :: rules[i].mode != Encrypt
    ensures RedactedPayload(p, policy, e, m) == RedactedPayload(p, policy, e, n)
  {
    if IsObject(p, e.payload) {
      ObjectPayloadIsRedacted(p, policy, e, rules, m);
      ObjectPayloadIsRedacted(p, policy, e, rules, n);
      OnlyEncryptionIsRandom(p, FieldsIn(p, e.payload), rules, m, n);
    }
  }

  lemma ExportMasksAreTopLevel(salt: string)
    ensures TopLevel(ExportMasks(salt))
  {
    ExportMasksAvoidLedgerFields(salt, "outcome");
  }

  /** The two payloads are objects an export shows the same of. */
  ghost predicate SameExportView(p: Platform, salt: string, a: Event, b: Event) {
    && a.id == b.id && a.jobID == b.jobID && a.eventType == b.eventType && a.createdAt == b.createdAt
    && IsObject(p, a.payload) && IsObject(p, b.payload)
    && SameView(p, ExportMasks(salt), FieldsIn(p, a.payload), FieldsIn(p, b.payload), NO_NONCES, NO_NONCES)
  }

  /** Streams of object payloads that differ only in what the export masks hide give identical redacted
      streams, hashes included; this needs no law of the codec. */
  lemma HiddenDifferencesDoNotShow(p: Platform, salt: string, a: seq<Event>, b: seq<Event>)
    requires |a| == |b| && forall i | 0 <= i < |a| :: SameExportView(p, salt, a[i], b[i])
    ensures RedactedForExport(p, salt, a) == RedactedForExport(p, salt, b)
  {
    forall i | 0 <= i < |a|
      ensures SameRedactedView(p, ExportPolicy(salt), a[i], b[i], NO_RANDOMNESS(i), NO_RANDOMNESS(i))
    {
      assert SameExportView(p, salt, a[i], b[i]);
      SameExportViewsRedactAlike(p, salt, a[i], b[i]);
    }
    SameViewsRechainAlike(p, ExportPolicy(salt), a, b, NO_RANDOMNESS, NO_RANDOMNESS);
  }

  lemma SameExportViewsRedactAlike(p: Platform, salt: string, a: Event, b: Event)
    requires SameExportView(p, salt, a, b)
    ensures RedactedPayload(p, ExportPolicy(salt), a, NO_NONCES) == RedactedPayload(p, ExportPolicy(salt), b, NO_NONCES)
  {
    GlobalRulesOnly(ExportMasks(salt), a.eventType);
    ExportMasksAreTopLevel(salt);
    ObjectPayloadIsRedacted(p, ExportPolicy(salt), a, ExportMasks(salt), NO_NONCES);
    ObjectPayloadIsRedacted(p, ExportPolicy(salt), b, ExportMasks(salt), NO_NONCES);
    SameViewsMaskAlike(p, ExportMasks(salt), FieldsIn(p, a.payload), FieldsIn(p, b.payload), NO_NONCES, NO_NONCES);
  }

  /** ... and nothing else is hidden: identical redacted streams of object payloads have the same views. */
  lemma ExportedStreamsAreIdenticalIff(p: Platform, salt: string, a: seq<Event>, b: seq<Event>)
    requires p.Lawful() && (forall e | e in a :: IsObject(p, e.payload)) && forall e | e in b :: IsObject(p, e.payload)
    ensures RedactedForExport(p, salt, a) == RedactedForExport(p, salt, b) <==>
            |a| == |b| && forall i | 0 <= i < |a| :: SameExportView(p, salt, a[i], b[i])
  {
    if RedactedForExport(p, salt, a) == RedactedForExport(p, salt, b) {
      var policy := ExportPolicy(salt);
      ObjectStreamIsRedacted(p, policy, a);
      ObjectStreamIsRedacted(p, policy, b);
      RedactedStreamsAreIdenticalIff(p, policy, a, b, NO_RANDOMNESS, NO_RANDOMNESS);
      forall i | 0 <= i < |a| ensures SameExportView(p, salt, a[i], b[i]) {
        assert a[i] in a && b[i] in b;
        assert SameRedactedView(p, policy, a[i], b[i], NO_RANDOMNESS(i), NO_RANDOMNESS(i));
        SameRedactionsHaveSameViews(p, salt, a[i], b[i]);
      }
    }
    if |a| == |b| && forall i | 0 <= i < |a| :: SameExportView(p, salt, a[i], b[i]) {
      HiddenDifferencesDoNotShow(p, salt, a, b);
    }
  }

  lemma ObjectStreamIsRedacted(p: Platform, policy: Policy, events: seq<Event>)
    requires forall e | e in events :: IsObject(p, e.payload)
    ensures RedactedStream(p, policy, events, NO_RANDOMNESS).Ok?
  {
    RedactionSucceedsIff(p, policy, events, NO_RANDOMNESS);
    forall i | 0 <= i < |events| ensures Redactable(p, events[i].payload) {
      assert IsObject(p, events[i].payload);
    }
  }

  lemma SameRedactionsHaveSameViews(p: Platform, salt: string, a: Event, b: Event)
    requires p.Lawful() && IsObject(p, a.payload) && IsObject(p, b.payload) && a.eventType == b.eventType
    requires RedactedPayload(p, ExportPolicy(salt), a, NO_NONCES) ==
             RedactedPayload(p, ExportPolicy(salt), b, NO_NONCES)
    ensures SameView(p, ExportMasks(salt), FieldsIn(p, a.payload), FieldsIn(p, b.payload), NO_NONCES, NO_NONCES)
  {
    GlobalRulesOnly(ExportMasks(salt), a.eventType);
    ExportMasksAreTopLevel(salt);
    ObjectPayloadsLookTheSameIff(p, ExportPolicy(salt), a, b, NO_NONCES, NO_NONCES);
  }

  predicate MaskedBy(rules: seq<FieldMask>, mode: Mode, key: string) {
    exists i :: 0 <= i < |rules| && rules[i].mode == mode && rules[i].fieldPath == key
  }

  /** Equal fields, except for the value or presence of removed ones and for the value of redacted ones. */
  ghost predicate DifferInSecretsOnly(rules: seq<FieldMask>, a: Fields, b: Fields) {
    forall key ::
      || Lookup(a, key) == Lookup(b, key)
      || MaskedBy(rules, Remove, key)
      || (MaskedBy(rules, Redact, key) && key in a && key in b)
  }

  lemma SecretsAreHidden(p: Platform, rules: seq<FieldMask>, a: Fields, b: Fields, nonces: Nonces)
    requires TopLevel(rules) && DifferInSecretsOnly(rules, a, b)
    ensures SameView(p, rules, a, b, nonces, nonces)
  {
    forall i | 0 <= i < |rules| ensures ShowsAlike(p, rules[i], a, b, nonces(i), nonces(i)) {
      var path := rules[i].fieldPath;
      WhatEachModeShows(p, rules[i], Lookup(a, path), Lookup(b, path), nonces(i), nonces(i));
    }
    forall key | !Touches(rules, key) ensures Lookup(a, key) == Lookup(b, key) {
      forall i | 0 <= i < |rules| ensures rules[i].fieldPath != key {
        SplitWithoutSeparator(rules[i].fieldPath, '.');
      }
    }
  }

  /** In particular, streams that differ only in masked secrets give identical redacted streams. */
  lemma SecretsDoNotShow(p: Platform, salt: string, a: seq<Event>, b: seq<Event>)
    requires |a| == |b|
    requires forall i | 0 <= i < |a| ::
               && IsObject(p, a[i].payload) && IsObject(p, b[i].payload)
               && b[i] == a[i].(payload := b[i].payload, prevHash := b[i].prevHash, hash := b[i].hash)
               && DifferInSecretsOnly(ExportMasks(salt), FieldsIn(p, a[i].payload), FieldsIn(p, b[i].payload))
    ensures RedactedForExport(p, salt, a) == RedactedForExport(p, salt, b)
  {
    ExportMasksAreTopLevel(salt);
    forall i | 0 <= i < |a| ensures SameExportView(p, salt, a[i], b[i]) {
      SecretsAreHidden(p, ExportMasks(salt), FieldsIn(p, a[i].payload), FieldsIn(p, b[i].payload), NO_NONCES);
    }
    HiddenDifferencesDoNotShow(p, salt, a, b);
  }

  // ---------- what an export hides ----------

  /** A hashed field: a salted digest in its place. */
  ghost predicate Hashed(p: Platform, salt: string, key: string, original: Fields, exported: Fields) {
    if key in original then key in exported && exported[key] == Str("hash:" + p.hash(p.show(original[key]) + salt))
    else key !in exported
  }

  ghost predicate Starred(key: string, original: Fields, exported: Fields) {
    if key in original then key in exported && exported[key] == Str("***REDACTED***") else key !in exported
  }

  /** Secrets are gone, numbers starred, addresses hashed, and everything else is as it was. */
  ghost predicate Hides(p: Platform, salt: string, original: Fields, exported: Fields) {
    && "api_key" !in exported && "token" !in exported && "password" !in exported && "secret" !in exported
    && Starred("ssn", original, exported) && Starred("credit_card", original, exported)
    && Hashed(p, salt, "email", original, exported) && Hashed(p, salt, "phone", original, exported)
    && forall key ::
         key !in ["api_key", "token", "password", "secret", "ssn", "credit_card", "email", "phone"] ==>
           Lookup(exported, key) == Lookup(original, key)
  }

  /** The event as exported: its object payload hides what it should, anything else comes out as it was. */
  ghost predicate HiddenIn(p: Platform, salt: string, e: Event, e': Event) {
    && (IsObject(p, e.payload) ==>
          && IsObjectText(p, e'.payload)
          && Hides(p, salt, FieldsIn(p, e.payload), p.decode(e'.payload).value.fields))
    && (TrimSpace(e.payload) == "" ==> e'.payload == e.payload)
    && (TrimSpace(e.payload) != "" && p.decode(e.payload) == Some(Null) ==> p.decode(e'.payload) == Some(Null))
  }

  lemma ExportMasksHide(p: Platform, salt: string, original: Fields, exported: Fields)
    requires AllWritten(p, ExportMasks(salt), original, exported, NO_NONCES)
    ensures Hides(p, salt, original, exported)
  {
    var rules := ExportMasks(salt);
    assert Written(p, rules[0], original, exported, NO_NONCES(0));
    assert Written(p, rules[1], original, exported, NO_NONCES(1));
    assert Written(p, rules[2], original, exported, NO_NONCES(2));
    assert Written(p, rules[3], original, exported, NO_NONCES(3));
    assert Written(p, rules[4], original, exported, NO_NONCES(4));
    assert Written(p, rules[5], original, exported, NO_NONCES(5));
    assert Written(p, rules[6], original, exported, NO_NONCES(6));
    assert Written(p, rules[7], original, exported, NO_NONCES(7));
    forall key | key !in ["api_key", "token", "password", "secret", "ssn", "credit_card", "email", "phone"]
      ensures Lookup(exported, key) == Lookup(original, key)
    {
      assert Unnamed(rules, key);
    }
  }

  lemma ExportedPayloadHides(p: Platform, salt: string, e: Event, e': Event)
    requires p.Lawful() && RedactedPayload(p, ExportPolicy(salt), e, NO_NONCES) == Ok(e'.payload)
    ensures HiddenIn(p, salt, e, e')
  {
    OtherPayloadsStay(p, ExportPolicy(salt), e, NO_NONCES);
    if IsObject(p, e.payload) {
      ExportMasksAreTopLevel(salt);
      EachMaskIsWritten(p, ExportPolicy(salt), e, NO_NONCES, ExportMasks(salt));
      ExportMasksHide(p, salt, FieldsIn(p, e.payload), p.decode(e'.payload).value.fields);
    }
  }

  /** Every event of an export with redaction hides what it should. */
  lemma RedactedStreamHides(p: Platform, salt: string, events: seq<Event>)
    requires p.Lawful() && RedactedForExport(p, salt, events).Ok?
    ensures var out := RedactedForExport(p, salt, events).value;
      |out| == |events| && forall i | 0 <= i < |events| :: HiddenIn(p, salt, events[i], out[i])
  {
    var out := RedactedForExport(p, salt, events).value;
    RedactedStreamIsAChain(p, ExportPolicy(salt), events, NO_RANDOMNESS);
    forall i | 0 <= i < |events| ensures HiddenIn(p, salt, events[i], out[i]) {
      assert RedactedFrom(p, ExportPolicy(salt), events[i], out[i], NO_RANDOMNESS(i));
      ExportedPayloadHides(p, salt, events[i], out[i]);
    }
  }
}
