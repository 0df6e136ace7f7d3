/** The evidence package: export of an event stream and its ledger as named files, and verification. */
module Evidence {
  import opened Wrappers
  import opened Text
  import opened HashChain
  import opened Redaction
  import opened Ndjson
  import opened Ledger

  // ---------- records as JSON ----------

  function EventToJson(e: Event): Json {
    Obj(map["id" := Str(e.id), "job_id" := Str(e.jobID), "type" := Str(e.eventType), "payload" := Str(e.payload),
            "created_at" := Str(e.createdAt), "prev_hash" := Str(e.prevHash), "hash" := Str(e.hash)])
  }

  function TimeField(p: Platform, fields: Fields, key: string): Option<string> {
    if key !in fields then Some(ZERO_TIME)
    else
      match fields[key]
      case Null => Some(ZERO_TIME)
      case Str(s) => p.parseTime(s)
      case _ => None
  }

  function EventFromFields(p: Platform, f: Fields): Option<Event> {
    match (StringField(f, "id"), StringField(f, "job_id"), StringField(f, "type"), StringField(f, "payload"))
    case (Some(id), Some(jobID), Some(eventType), Some(payload)) => (
      match (TimeField(p, f, "created_at"), StringField(f, "prev_hash"), StringField(f, "hash"))
      case (Some(createdAt), Some(prevHash), Some(hash)) =>
        Some(Event(id, jobID, eventType, payload, createdAt, prevHash, hash))
      case _ => None)
    case _ => None
  }

  /** The optional `external_id` is left out when empty. */
  function InvocationToJson(inv: ToolInvocation): Json {
    var required := map[
      "id" := Str(inv.id), "job_id" := Str(inv.jobID), "idempotency_key" := Str(inv.idempotencyKey),
      "step_id" := Str(inv.stepID), "tool_name" := Str(inv.toolName), "args_hash" := Str(inv.argsHash),
      "status" := Str(inv.status), "result" := Str(inv.result), "committed" := Bool(inv.committed),
      "timestamp" := Str(inv.timestamp)];
    Obj(if inv.externalID == "" then required else required["external_id" := Str(inv.externalID)])
  }

  function InvocationFromFields(f: Fields): Option<ToolInvocation> {
    match (StringField(f, "id"), StringField(f, "job_id"), StringField(f, "idempotency_key"), StringField(f, "step_id"))
    case (Some(id), Some(jobID), Some(key), Some(stepID)) => (
      match (StringField(f, "tool_name"), StringField(f, "args_hash"), StringField(f, "status"),
             StringField(f, "result"))
      case (Some(toolName), Some(argsHash), Some(status), Some(result)) => (
        match (BoolField(f, "committed"), StringField(f, "timestamp"), StringField(f, "external_id"))
        case (Some(committed), Some(timestamp), Some(externalID)) =>
          Some(ToolInvocation(
                 id, jobID, key, stepID, toolName, argsHash, status, result, committed, timestamp, externalID))
        case _ => None)
      case _ => None)
    case _ => None
  }

  function PrintEvent(p: Platform): Event -> string {
    (e: Event) => p.encode(EventToJson(e))
  }

  function ParseEvent(p: Platform): string -> Option<Event> {
    (line: string) => match DecodeMap(p, line) case None => None case Some(f) => EventFromFields(p, f)
  }

  function PrintInvocation(p: Platform): ToolInvocation -> string {
    (inv: ToolInvocation) => p.encode(InvocationToJson(inv))
  }

  function ParseInvocation(p: Platform): string -> Option<ToolInvocation> {
    (line: string) => match DecodeMap(p, line) case None => None case Some(f) => InvocationFromFields(f)
  }

  /** The fields read as this event. */
  ghost predicate ShowsEvent(p: Platform, f: Fields, e: Event) {
    && StringField(f, "id") == Some(e.id) && StringField(f, "job_id") == Some(e.jobID)
    && StringField(f, "type") == Some(e.eventType) && StringField(f, "payload") == Some(e.payload)
    && TimeField(p, f, "created_at") == Some(e.createdAt)
    && StringField(f, "prev_hash") == Some(e.prevHash) && StringField(f, "hash") == Some(e.hash)
  }

  lemma PrintedEventShows(p: Platform, e: Event)
    requires p.IsTimestamp(e.createdAt)
    ensures ShowsEvent(p, EventToJson(e).fields, e)
  {
  }

  lemma ShownEventIsRead(p: Platform, f: Fields, e: Event)
    requires ShowsEvent(p, f, e)
    ensures EventFromFields(p, f) == Some(e)
  {
  }

  /** A line is read as an event exactly when it decodes to an object, or `null`, whose fields read as the
      event: missing and `null` fields are empty, unknown ones are ignored. */
  lemma EventIsReadIff(p: Platform, line: string, e: Event)
    ensures ParseEvent(p)(line) == Some(e) <==>
            DecodeMap(p, line).Some? && ShowsEvent(p, DecodeMap(p, line).value, e)
  {
  }

  lemma EventSurvivesPrinting(p: Platform, e: Event)
    requires p.Lawful() && p.IsTimestamp(e.createdAt)
    ensures CleanLine(PrintEvent(p)(e)) && ParseEvent(p)(PrintEvent(p)(e)) == Some(e)
  {
    var j := EventToJson(e);
    assert p.decode(p.encode(j)) == Some(j) && CleanLine(p.encode(j));
    PrintedEventShows(p, e);
    ShownEventIsRead(p, j.fields, e);
  }

  ghost predicate ShowsInvocation(f: Fields, inv: ToolInvocation) {
    && StringField(f, "id") == Some(inv.id) && StringField(f, "job_id") == Some(inv.jobID)
    && StringField(f, "idempotency_key") == Some(inv.idempotencyKey) && StringField(f, "step_id") == Some(inv.stepID)
    && StringField(f, "tool_name") == Some(inv.toolName) && StringField(f, "args_hash") == Some(inv.argsHash)
    && StringField(f, "status") == Some(inv.status) && StringField(f, "result") == Some(inv.result)
    && BoolField(f, "committed") == Some(inv.committed) && StringField(f, "timestamp") == Some(inv.timestamp)
    && StringField(f, "external_id") == Some(inv.externalID)
  }

  lemma PrintedInvocationShows(inv: ToolInvocation)
    ensures ShowsInvocation(InvocationToJson(inv).fields, inv)
  {
    PrintedInvocationIdentityShows(inv);
    PrintedInvocationOutcomeShows(inv);
  }

  lemma PrintedInvocationIdentityShows(inv: ToolInvocation)
    ensures var f := InvocationToJson(inv).fields;
      && StringField(f, "id") == Some(inv.id) && StringField(f, "job_id") == Some(inv.jobID)
      && StringField(f, "idempotency_key") == Some(inv.idempotencyKey) && StringField(f, "step_id") == Some(inv.stepID)
      && StringField(f, "tool_name") == Some(inv.toolName)
  {
  }

  lemma PrintedInvocationOutcomeShows(inv: ToolInvocation)
    ensures var f := InvocationToJson(inv).fields;
      && StringField(f, "args_hash") == Some(inv.argsHash) && StringField(f, "status") == Some(inv.status)
      && StringField(f, "result") == Some(inv.result) && BoolField(f, "committed") == Some(inv.committed)
      && StringField(f, "timestamp") == Some(inv.timestamp) && StringField(f, "external_id") == Some(inv.externalID)
  {
  }

  lemma ShownInvocationIsRead(f: Fields, inv: ToolInvocation)
    requires ShowsInvocation(f, inv)
    ensures InvocationFromFields(f) == Some(inv)
  {
  }

  lemma InvocationSurvivesPrinting(p: Platform, inv: ToolInvocation)
    requires p.Lawful()
    ensures CleanLine(PrintInvocation(p)(inv)) && ParseInvocation(p)(PrintInvocation(p)(inv)) == Some(inv)
  {
    var j := InvocationToJson(inv);
    assert p.decode(p.encode(j)) == Some(j) && CleanLine(p.encode(j));
    PrintedInvocationShows(inv);
    ShownInvocationIsRead(j.fields, inv);
  }

  // ---------- manifest and proof ----------

  datatype Manifest = Manifest(
    version: string, jobID: string, exportedAt: string, eventCount: int, ledgerCount: int, firstEventHash: string,
    lastEventHash: string, fileHashes: map<string, string>, runtimeVersion: string, schemaVersion: string)

  datatype ProofSummary = ProofSummary(
    jobID: string, rootHash: string, chainValidated: bool, ledgerValidated: bool, generatedBy: string)

  /** The content of the proof file; an unsigned one has no signature, signing time or key identifier. */
  datatype Proof = Proof(summary: ProofSummary, signature: string, signedAt: string, signerKeyID: string)

  function ManifestToJson(m: Manifest): Json {
    Obj(map["version" := Str(m.version), "job_id" := Str(m.jobID), "exported_at" := Str(m.exportedAt),
            "event_count" := Num(m.eventCount), "ledger_count" := Num(m.ledgerCount),
            "first_event_hash" := Str(m.firstEventHash), "last_event_hash" := Str(m.lastEventHash),
            "file_hashes" := Obj(map name | name in m.fileHashes :: Str(m.fileHashes[name])),
            "runtime_version" := Str(m.runtimeVersion), "schema_version" := Str(m.schemaVersion)])
  }

  function IntField(fields: Fields, key: string): Option<int> {
    if key !in fields then Some(0)
    else
      match fields[key]
      case Num(n) => Some(n)
      case Null => Some(0)
      case _ => None
  }

  function StringMapField(fields: Fields, key: string): Option<map<string, string>> {
    if key !in fields then Some(map[])
    else
      match fields[key]
      case Null => Some(map[])
      case Obj(f) =>
        if forall name | name in f :: f[name].Str? || f[name].Null?
        then Some(map name | name in f :: if f[name].Str? then f[name].s else "")
        else None
      case _ => None
  }

  /** What the other readers of record fields yield: an absent or `null` count is zero, an absent or `null` table
      of hashes empty, and an absent or `null` time the zero time. */
  lemma OtherFieldIsReadIff(p: Platform, f: Fields, key: string, n: int, hashes: map<string, string>, time: string)
    ensures var absent := key !in f || f[key] == Null;
      && (IntField(f, key) == Some(n) <==> if absent then n == 0 else f[key] == Num(n))
      && (TimeField(p, f, key) == Some(time) <==>
          if absent then time == ZERO_TIME else f[key].Str? && p.parseTime(f[key].s) == Some(time))
      && (StringMapField(f, key) == Some(hashes) <==>
          if absent then hashes == map[] else f[key].Obj? && ReadsAsHashes(f[key].fields, hashes))
  {
    if key in f && f[key].Obj? {
      HashesAreReadIff(f, key, hashes);
    }
  }

  ghost predicate ReadsAsHashes(f: Fields, hashes: map<string, string>) {
    hashes.Keys == f.Keys && forall name | name in f :: StringField(f, name) == Some(hashes[name])
  }

  lemma HashesAreReadIff(f: Fields, key: string, hashes: map<string, string>)
    requires key in f && f[key].Obj?
    ensures StringMapField(f, key) == Some(hashes) <==> ReadsAsHashes(f[key].fields, hashes)
  {
    var g := f[key].fields;
    if ReadsAsHashes(g, hashes) {
      assert forall name | name in g :: g[name].Str? || g[name].Null?;
      assert StringMapField(f, key).value == hashes;
    }
  }

  function ManifestFromFields(p: Platform, f: Fields): Option<Manifest> {
    match (StringField(f, "version"), StringField(f, "job_id"), TimeField(p, f, "exported_at"),
           IntField(f, "event_count"))
    case (Some(version), Some(jobID), Some(exportedAt), Some(eventCount)) => (
      match (IntField(f, "ledger_count"), StringField(f, "first_event_hash"), StringField(f, "last_event_hash"))
      case (Some(ledgerCount), Some(first), Some(last)) => (
        match (StringMapField(f, "file_hashes"), StringField(f, "runtime_version"), StringField(f, "schema_version"))
        case (Some(hashes), Some(runtime), Some(schema)) =>
          Some(Manifest(version, jobID, exportedAt, eventCount, ledgerCount, first, last, hashes, runtime, schema))
        case _ => None)
      case _ => None)
    case _ => None
  }

  function Optionally(fields: Fields, key: string, value: string): Fields {
    if value == "" then fields else fields[key := Str(value)]
  }

  function SummaryToFields(s: ProofSummary): Fields {
    map["job_id" := Str(s.jobID), "root_hash" := Str(s.rootHash), "chain_validated" := Bool(s.chainValidated),
        "ledger_validated" := Bool(s.ledgerValidated), "generated_by" := Str(s.generatedBy)]
  }

  /** Empty signature fields are left out. */
  function ProofToJson(proof: Proof): Json {
    var signed := Optionally(SummaryToFields(proof.summary), "signature", proof.signature);
    var timed := Optionally(signed, "signed_at", proof.signedAt);
    Obj(Optionally(timed, "signer_key_id", proof.signerKeyID))
  }

  function SummaryFromFields(f: Fields): Option<ProofSummary> {
    match (StringField(f, "job_id"), StringField(f, "root_hash"), BoolField(f, "chain_validated"),
           BoolField(f, "ledger_validated"))
    case (Some(jobID), Some(rootHash), Some(chain), Some(ledger)) => (
      match StringField(f, "generated_by")
      case Some(generatedBy) => Some(ProofSummary(jobID, rootHash, chain, ledger, generatedBy))
      case None => None)
    case _ => None
  }

  /** A proof file, signed or not. */
  function ProofFromFields(f: Fields): Option<Proof> {
    match (SummaryFromFields(f), StringField(f, "signature"), StringField(f, "signed_at"),
           StringField(f, "signer_key_id"))
    case (Some(summary), Some(signature), Some(signedAt), Some(signerKeyID)) =>
      Some(Proof(summary, signature, signedAt, signerKeyID))
    case _ => None
  }

  function ParseManifest(p: Platform, text: string): Option<Manifest> {
    match DecodeMap(p, text) case None => None case Some(f) => ManifestFromFields(p, f)
  }

  function ParseProof(p: Platform, text: string): Option<Proof> {
    match DecodeMap(p, text) case None => None case Some(f) => ProofFromFields(f)
  }

  ghost predicate ShowsManifest(p: Platform, f: Fields, m: Manifest) {
    ShowsNames(f, m) && ShowsCounts(f, m) && ShowsHashes(f, m) && TimeField(p, f, "exported_at") == Some(m.exportedAt)
  }

  ghost predicate ShowsNames(f: Fields, m: Manifest) {
    && StringField(f, "version") == Some(m.version) && StringField(f, "job_id") == Some(m.jobID)
    && StringField(f, "first_event_hash") == Some(m.firstEventHash)
    && StringField(f, "last_event_hash") == Some(m.lastEventHash)
    && StringField(f, "runtime_version") == Some(m.runtimeVersion)
    && StringField(f, "schema_version") == Some(m.schemaVersion)
  }

  ghost predicate ShowsCounts(f: Fields, m: Manifest) {
    IntField(f, "event_count") == Some(m.eventCount) && IntField(f, "ledger_count") == Some(m.ledgerCount)
  }

  ghost predicate ShowsHashes(f: Fields, m: Manifest) {
    StringMapField(f, "file_hashes") == Some(m.fileHashes)
  }

  lemma PrintedManifestShows(p: Platform, m: Manifest)
    requires p.IsTimestamp(m.exportedAt)
    ensures ShowsManifest(p, ManifestToJson(m).fields, m)
  {
    PrintedTimeShows(p, m);
    PrintedHashesShow(m);
    PrintedCountsShow(m);
    PrintedNamesShow(m);
  }

  lemma PrintedTimeShows(p: Platform, m: Manifest)
    requires p.IsTimestamp(m.exportedAt)
    ensures TimeField(p, ManifestToJson(m).fields, "exported_at") == Some(m.exportedAt)
  {
    assert ManifestToJson(m).fields["exported_at"] == Str(m.exportedAt);
  }

  lemma PrintedCountsShow(m: Manifest)
    ensures ShowsCounts(ManifestToJson(m).fields, m)
  {
    var f := ManifestToJson(m).fields;
    assert f["event_count"] == Num(m.eventCount) && f["ledger_count"] == Num(m.ledgerCount);
  }

  lemma PrintedNamesShow(m: Manifest)
    ensures ShowsNames(ManifestToJson(m).fields, m)
  {
  }

  lemma PrintedHashesShow(m: Manifest)
    ensures ShowsHashes(ManifestToJson(m).fields, m)
  {
    var f := ManifestToJson(m).fields;
    assert f["file_hashes"] == Obj(map name | name in m.fileHashes :: Str(m.fileHashes[name]));
    assert StringMapField(f, "file_hashes").value == m.fileHashes;
  }

  lemma ShownManifestIsRead(p: Platform, f: Fields, m: Manifest)
    requires ShowsManifest(p, f, m)
    ensures ManifestFromFields(p, f) == Some(m)
  {
  }

  lemma ManifestSurvivesPrinting(p: Platform, m: Manifest)
    requires p.Lawful() && p.IsTimestamp(m.exportedAt)
    ensures ParseManifest(p, p.pretty(ManifestToJson(m))) == Some(m)
  {
    var j := ManifestToJson(m);
    assert p.decode(p.pretty(j)) == Some(j);
    PrintedManifestShows(p, m);
    ShownManifestIsRead(p, j.fields, m);
  }

  ghost predicate ShowsSummary(f: Fields, s: ProofSummary) {
    && StringField(f, "job_id") == Some(s.jobID) && StringField(f, "root_hash") == Some(s.rootHash)
    && BoolField(f, "chain_validated") == Some(s.chainValidated)
    && BoolField(f, "ledger_validated") == Some(s.ledgerValidated)
    && StringField(f, "generated_by") == Some(s.generatedBy)
  }

  ghost predicate ShowsSignature(f: Fields, proof: Proof) {
    && StringField(f, "signature") == Some(proof.signature) && StringField(f, "signed_at") == Some(proof.signedAt)
    && StringField(f, "signer_key_id") == Some(proof.signerKeyID)
  }

  lemma PrintedSummaryShows(s: ProofSummary)
    ensures ShowsSummary(SummaryToFields(s), s)
    ensures forall key | SignatureKey(key) :: key !in SummaryToFields(s)
  {
  }

  predicate SignatureKey(key: string) {
    key == "signature" || key == "signed_at" || key == "signer_key_id"
  }

  lemma OptionallyShows(f: Fields, key: string, value: string, s: ProofSummary)
    requires SignatureKey(key) && key !in f && ShowsSummary(f, s)
    ensures var g := Optionally(f, key, value);
      && StringField(g, key) == Some(value) && ShowsSummary(g, s)
      && forall other | other != key :: StringField(g, other) == StringField(f, other) && (other in g <==> other in f)
  {
  }

  lemma PrintedProofShows(proof: Proof)
    ensures ShowsSummary(ProofToJson(proof).fields, proof.summary) && ShowsSignature(ProofToJson(proof).fields, proof)
  {
    var s := proof.summary;
    var unsigned := SummaryToFields(s);
    var signed := Optionally(unsigned, "signature", proof.signature);
    var timed := Optionally(signed, "signed_at", proof.signedAt);
    PrintedSummaryShows(s);
    assert SignatureKey("signature") && SignatureKey("signed_at") && SignatureKey("signer_key_id");
    OptionallyShows(unsigned, "signature", proof.signature, s);
    OptionallyShows(signed, "signed_at", proof.signedAt, s);
    OptionallyShows(timed, "signer_key_id", proof.signerKeyID, s);
  }

  lemma ShownProofIsRead(f: Fields, proof: Proof)
    requires ShowsSummary(f, proof.summary) && ShowsSignature(f, proof)
    ensures ProofFromFields(f) == Some(proof)
  {
    assert SummaryFromFields(f) == Some(proof.summary);
  }

  lemma ProofSurvivesPrinting(p: Platform, proof: Proof)
    requires p.Lawful()
    ensures ParseProof(p, p.pretty(ProofToJson(proof))) == Some(proof)
  {
    var j := ProofToJson(proof);
    assert p.decode(p.pretty(j)) == Some(j);
    PrintedProofShows(proof);
    ShownProofIsRead(j.fields, proof);
  }

  // ---------- signatures ----------

  /** The signature scheme: signing with a private key, checking with a public one, and the public key that
      belongs to a private one. */
  datatype Signer = Signer(sign: (string, string) -> string, check: (string, string, string) -> bool,
                           public: string -> string)
  {
    /** Signatures are not empty and are accepted under the matching key. */
    ghost predicate Lawful() {
      forall key, text :: sign(key, text) != "" && check(public(key), text, sign(key, text))
    }
  }

  /** What a signature is over: manifest, events and ledger, printed one after the other. */
  function SignedText(p: Platform, manifest: Manifest, events: seq<Event>, ledger: seq<ToolInvocation>): string {
    p.encode(ManifestToJson(manifest)) + PrintRecords(PrintEvent(p), events) + PrintRecords(PrintInvocation(p), ledger)
  }

  method PrintSignedText(p: Platform, manifest: Manifest, events: seq<Event>, ledger: seq<ToolInvocation>)
    returns (text: string)
    ensures text == SignedText(p, manifest, events, ledger)
  {
    var eventsFile := PrintNdjson(PrintEvent(p), events);
    var ledgerFile := PrintNdjson(PrintInvocation(p), ledger);
    text := p.encode(ManifestToJson(manifest)) + eventsFile;
    text := text + ledgerFile;
  }

  // ---------- export ----------

  type Files = map<string, string>

  /** An empty signing key means no signature. */
  datatype ExportOptions = ExportOptions(
    runtimeVersion: string, schemaVersion: string, redactionEnabled: bool, redactionSalt: string,
    signingKey: string, keyID: string)

  /** What an export takes from outside: the signature scheme, the time as printed in the manifest and in a
      signed proof, and the printed job metadata, which verification never parses. */
  datatype Surroundings = Surroundings(signer: Signer, exportedAt: string, signedAt: string, metadata: string)

  /** The ledger store: none given, its entries, or a failure to list them. */
  datatype LedgerSource = NoLedger | Listed(entries: seq<ToolInvocation>) | LedgerFails

  datatype ExportError =
    | JobIDRequired | EventsUnavailable | NoEvents | InvalidChain(error: ChainError) | SaltRequired | RedactionFailed
    | LedgerUnavailable

  function ManifestOf(p: Platform, jobID: string, events: seq<Event>, ledger: seq<ToolInvocation>,
                      opts: ExportOptions, w: Surroundings): Manifest
    requires events != []
  {
    Manifest(
      "2.0", jobID, w.exportedAt, |events|, |ledger|, events[0].hash, events[|events| - 1].hash,
      map["events.ndjson" := p.hash(PrintRecords(PrintEvent(p), events)),
          "ledger.ndjson" := p.hash(PrintRecords(PrintInvocation(p), ledger)),
          "metadata.json" := p.hash(w.metadata)],
      if opts.runtimeVersion == "" then "2.0.0" else opts.runtimeVersion,
      if opts.schemaVersion == "" then "2.0" else opts.schemaVersion)
  }

  /** What the proof claims, the ledger's validity included, without a check of the ledger. */
  function SummaryOf(jobID: string, events: seq<Event>, opts: ExportOptions): ProofSummary
    requires events != []
  {
    ProofSummary(jobID, events[|events| - 1].hash, true, true, "aetheris " + opts.runtimeVersion)
  }

  function SignatureOf(p: Platform, jobID: string, events: seq<Event>, ledger: seq<ToolInvocation>,
                       opts: ExportOptions, w: Surroundings): string
    requires events != []
  {
    w.signer.sign(opts.signingKey, SignedText(p, ManifestOf(p, jobID, events, ledger, opts, w), events, ledger))
  }

  function ProofOf(p: Platform, jobID: string, events: seq<Event>, ledger: seq<ToolInvocation>,
                   opts: ExportOptions, w: Surroundings): Proof
    requires events != []
  {
    var summary := SummaryOf(jobID, events, opts);
    if opts.signingKey == "" then Proof(summary, "", "", "")
    else
      Proof(summary, SignatureOf(p, jobID, events, ledger, opts, w), w.signedAt,
            if opts.keyID == "" then "default" else opts.keyID)
  }

  /** The manifest declares three files; the proof's own hash is added to the table only after the manifest
      has been printed. */
  function Package(p: Platform, jobID: string, events: seq<Event>, ledger: seq<ToolInvocation>,
                   opts: ExportOptions, w: Surroundings): Files
    requires events != []
  {
    map["manifest.json" := p.pretty(ManifestToJson(ManifestOf(p, jobID, events, ledger, opts, w))),
        "events.ndjson" := PrintRecords(PrintEvent(p), events),
        "ledger.ndjson" := PrintRecords(PrintInvocation(p), ledger),
        "proof.json" := p.pretty(ProofToJson(ProofOf(p, jobID, events, ledger, opts, w))),
        "metadata.json" := w.metadata]
  }

  /** The stream that goes into the package. */
  function ExportedStream(p: Platform, events: seq<Event>, opts: ExportOptions): Result<seq<Event>, RedactError> {
    if opts.redactionEnabled then RedactedForExport(p, opts.redactionSalt, events) else Ok(events)
  }

  ghost predicate Exportable(p: Platform, jobID: string, events: seq<Event>, opts: ExportOptions) {
    && jobID != "" && events != [] && ValidChain(p, events)
    && (opts.redactionEnabled ==> TrimSpace(opts.redactionSalt) != "")
    && ExportedStream(p, events, opts).Ok?
  }

  /** Why an export is refused: the first of these, in this order. */
  ghost predicate Refused(p: Platform, jobID: string, listed: Option<seq<Event>>, ledger: LedgerSource,
                          opts: ExportOptions, error: ExportError)
  {
    if jobID == "" then error == JobIDRequired
    else if listed.None? then error == EventsUnavailable
    else if listed.value == [] then error == NoEvents
    else if !ValidChain(p, listed.value) then error.InvalidChain? && FirstError(p, listed.value, error.error)
    else if opts.redactionEnabled && AllSpace(opts.redactionSalt) then error == SaltRequired
    else if opts.redactionEnabled && RedactedForExport(p, opts.redactionSalt, listed.value).Err?
    then error == RedactionFailed
    else ledger.LedgerFails? && error == LedgerUnavailable
  }

  function Entries(ledger: LedgerSource): seq<ToolInvocation> {
    if ledger.Listed? then ledger.entries else []
  }

  /** `listed` is what the job store answers. */
  method ExportEvidence(p: Platform, jobID: string, listed: Option<seq<Event>>, ledger: LedgerSource,
                        opts: ExportOptions, w: Surroundings)
    returns (r: Result<Files, ExportError>)
    ensures r.Ok? <==> listed.Some? && Exportable(p, jobID, listed.value, opts) && !ledger.LedgerFails?
    ensures r.Ok? ==>
              var stream := ExportedStream(p, listed.value, opts).value;
              && stream != []
              && (ledger.Listed? ==> r.value == Package(p, jobID, stream, ledger.entries, opts, w))
              && (ledger.NoLedger? ==> r.value == Package(p, jobID, stream, [], opts, w))
    ensures r.Err? ==> Refused(p, jobID, listed, ledger, opts, r.error)
  {
    if jobID == "" {
      return Err(JobIDRequired);
    }
    if listed.None? {
      return Err(EventsUnavailable);
    }
    var stream := listed.value;
    if |stream| == 0 {
      return Err(NoEvents);
    }
    var valid := ValidateChain(p, stream);
    if valid.Err? {
      return Err(InvalidChain(valid.error));
    }
    if opts.redactionEnabled {
      BlankIffAllSpace(opts.redactionSalt);
      if TrimSpace(opts.redactionSalt) == "" {
        return Err(SaltRequired);
      }
      var redacted := RedactEventsForExport(p, stream, opts.redactionSalt);
      if redacted.Err? {
        return Err(RedactionFailed);
      }
      RedactedStreamIsAChain(p, ExportPolicy(opts.redactionSalt), stream, NO_RANDOMNESS);
      stream := redacted.value;
    }
    if ledger.LedgerFails? {
      return Err(LedgerUnavailable);
    }
    var files := Assemble(p, jobID, stream, Entries(ledger), opts, w);
    return Ok(files);
  }

  method Assemble(p: Platform, jobID: string, stream: seq<Event>, invocations: seq<ToolInvocation>,
                  opts: ExportOptions, w: Surroundings)
    returns (files: Files)
    requires stream != []
    ensures files == Package(p, jobID, stream, invocations, opts, w)
  {
    var eventsFile := PrintNdjson(PrintEvent(p), stream);
    var ledgerFile := PrintNdjson(PrintInvocation(p), invocations);
    var fileHashes :=
      map["events.ndjson" := p.hash(eventsFile), "ledger.ndjson" := p.hash(ledgerFile),
          "metadata.json" := p.hash(w.metadata)];
    var manifest := Manifest(
      "2.0", jobID, w.exportedAt, |stream|, |invocations|, stream[0].hash, stream[|stream| - 1].hash, fileHashes,
      opts.runtimeVersion, opts.schemaVersion);
    if manifest.runtimeVersion == "" {
      manifest := manifest.(runtimeVersion := "2.0.0");
    }
    if manifest.schemaVersion == "" {
      manifest := manifest.(schemaVersion := "2.0");
    }
    assert manifest == ManifestOf(p, jobID, stream, invocations, opts, w);
    var proof := Prove(p, manifest, jobID, stream, invocations, opts, w);
    files := map["manifest.json" := p.pretty(ManifestToJson(manifest)), "events.ndjson" := eventsFile,
                 "ledger.ndjson" := ledgerFile, "proof.json" := p.pretty(ProofToJson(proof)),
                 "metadata.json" := w.metadata];
  }

  /** The proof, signed when there is a key. */
  method Prove(p: Platform, manifest: Manifest, jobID: string, stream: seq<Event>, invocations: seq<ToolInvocation>,
               opts: ExportOptions, w: Surroundings)
    returns (proof: Proof)
    requires stream != [] && manifest == ManifestOf(p, jobID, stream, invocations, opts, w)
    ensures proof == ProofOf(p, jobID, stream, invocations, opts, w)
  {
    var summary := ProofSummary(jobID, stream[|stream| - 1].hash, true, true, "aetheris " + opts.runtimeVersion);
    if |opts.signingKey| == 0 {
      return Proof(summary, "", "", "");
    }
    var text := PrintSignedText(p, manifest, stream, invocations);
    var keyID := opts.keyID;
    if keyID == "" {
      keyID := "default";
    }
    return Proof(summary, w.signer.sign(opts.signingKey, text), w.signedAt, keyID);
  }

  // ---------- verification ----------

  datatype VerifyError =
    | ManifestMissing | ManifestUnreadable | FileHashMismatch(name: string) | DeclaredFileMissing(name: string)
    | EventsMissing | EventsUnreadable(line: nat) | HashChainInvalid(error: ChainError)
    | LedgerUnreadable(line: nat) | LedgerInconsistent(reason: LedgerError) | ProofUnreadable | RootHashMismatch
    | ProofUnsigned | SignatureInvalid

  datatype VerifyResult = VerifyResult(
    ok: bool, errors: seq<VerifyError>, events: seq<Event>, eventsValid: bool, ledgerValid: bool,
    hashChainValid: bool, manifestValid: bool, signatureValid: bool)

  predicate HashesMatch(p: Platform, files: Files, hashes: map<string, string>) {
    forall name | name in hashes :: name in files && p.hash(files[name]) == hashes[name]
  }

  ghost predicate LedgerAccepted(p: Platform, files: Files, events: seq<Event>) {
    "ledger.ndjson" in files ==>
      var ledger := ReadRecords(ParseInvocation(p), files["ledger.ndjson"]);
      ledger.Some? && LedgerConsistent(p, events, ledger.value)
  }

  function StreamOf(p: Platform, files: Files): Option<seq<Event>> {
    if "events.ndjson" in files then ReadRecords(ParseEvent(p), files["events.ndjson"]) else None
  }

  ghost predicate ManifestAccepted(p: Platform, files: Files) {
    && "manifest.json" in files
    && ParseManifest(p, files["manifest.json"]).Some?
    && HashesMatch(p, files, ParseManifest(p, files["manifest.json"]).value.fileHashes)
  }

  /** The ledger of a package; a missing file counts as an empty one. */
  function LedgerOf(p: Platform, files: Files): Option<seq<ToolInvocation>> {
    if "ledger.ndjson" in files then ReadRecords(ParseInvocation(p), files["ledger.ndjson"]) else Some([])
  }

  /** The signature is good for the manifest, the events and the ledger read from the package. */
  predicate SignatureFits(p: Platform, s: Signer, files: Files, key: string, signature: string) {
    && "manifest.json" in files && ParseManifest(p, files["manifest.json"]).Some?
    && StreamOf(p, files).Some? && LedgerOf(p, files).Some?
    && var manifest := ParseManifest(p, files["manifest.json"]).value;
      s.check(key, SignedText(p, manifest, StreamOf(p, files).value, LedgerOf(p, files).value), signature)
  }

  /** A package with a proof signed so that the given public key accepts it. */
  predicate SignatureAccepted(p: Platform, s: Signer, files: Files, publicKey: Option<string>) {
    && publicKey.Some? && "proof.json" in files && ParseProof(p, files["proof.json"]).Some?
    && var signature := ParseProof(p, files["proof.json"]).value.signature;
      signature != "" && SignatureFits(p, s, files, publicKey.value, signature)
  }

  ghost predicate ProofAccepted(p: Platform, s: Signer, files: Files, publicKey: Option<string>, events: seq<Event>) {
    "proof.json" in files ==>
      && ParseProof(p, files["proof.json"]).Some?
      && (events != [] ==> ParseProof(p, files["proof.json"]).value.summary.rootHash == events[|events| - 1].hash)
      && (publicKey.Some? ==> SignatureAccepted(p, s, files, publicKey))
  }

  /** When a package is accepted: the checks of the files that are there, independently of the order they are
      made in. A ledger or a proof that is missing is not checked, and neither is a signature without a public
      key or without a proof. */
  ghost predicate Accepts(p: Platform, s: Signer, files: Files, publicKey: Option<string>) {
    && ManifestAccepted(p, files)
    && StreamOf(p, files).Some?
    && ValidChain(p, StreamOf(p, files).value)
    && LedgerAccepted(p, files, StreamOf(p, files).value)
    && ProofAccepted(p, s, files, publicKey, StreamOf(p, files).value)
  }

  // ---------- what the reported errors say ----------

  /** A declared file has another hash, or is not there. */
  ghost predicate DeclarationFails(p: Platform, files: Files, hashes: map<string, string>, error: VerifyError) {
    match error
    case FileHashMismatch(name) => name in hashes && name in files && p.hash(files[name]) != hashes[name]
    case DeclaredFileMissing(name) => name in hashes && name !in files
    case _ => false
  }

  lemma HashesMatchUnlessOneFails(p: Platform, files: Files, hashes: map<string, string>)
    ensures HashesMatch(p, files, hashes) <==> forall e :: !DeclarationFails(p, files, hashes, e)
  {
    if forall e :: !DeclarationFails(p, files, hashes, e) {
      forall name | name in hashes ensures name in files && p.hash(files[name]) == hashes[name] {
        assert !DeclarationFails(p, files, hashes, DeclaredFileMissing(name));
        assert !DeclarationFails(p, files, hashes, FileHashMismatch(name));
      }
    }
  }

  ghost predicate LedgerFails(p: Platform, files: Files, events: seq<Event>, error: VerifyError) {
    && "ledger.ndjson" in files
    && var ledger := ReadRecords(ParseInvocation(p), files["ledger.ndjson"]);
      match error
      case LedgerUnreadable(line) => ledger.None? && FirstUnreadable(ParseInvocation(p), files["ledger.ndjson"], line)
      case LedgerInconsistent(reason) =>
        ledger.Some? && Explains(FinishedPayloads(p, events), ByKey(ledger.value), ledger.value, reason)
      case _ => false
  }

  ghost predicate ProofFails(p: Platform, s: Signer, files: Files, publicKey: Option<string>, events: seq<Event>,
                             error: VerifyError)
  {
    && "proof.json" in files
    && match ParseProof(p, files["proof.json"])
      case None => error == ProofUnreadable
      case Some(proof) => ClaimFails(p, s, files, publicKey, events, proof, error)
  }

  /** What the proof claims fails. */
  ghost predicate ClaimFails(p: Platform, s: Signer, files: Files, publicKey: Option<string>, events: seq<Event>,
                             proof: Proof, error: VerifyError)
  {
    match error
    case RootHashMismatch => events != [] && proof.summary.rootHash != events[|events| - 1].hash
    case ProofUnsigned => publicKey.Some? && proof.signature == ""
    case SignatureInvalid =>
      publicKey.Some? && proof.signature != "" && !SignatureFits(p, s, files, publicKey.value, proof.signature)
    case _ => false
  }

  lemma ProofIsAcceptedUnlessItFails(p: Platform, s: Signer, files: Files, publicKey: Option<string>,
                                     events: seq<Event>)
    ensures ProofAccepted(p, s, files, publicKey, events) <==>
            forall e :: !ProofFails(p, s, files, publicKey, events, e)
  {
    if "proof.json" in files {
      match ParseProof(p, files["proof.json"])
      case None => assert ProofFails(p, s, files, publicKey, events, ProofUnreadable);
      case Some(proof) =>
        ClaimsHoldUnlessOneFails(p, s, files, publicKey, events, proof);
        assert forall e ::
          ProofFails(p, s, files, publicKey, events, e) <==> ClaimFails(p, s, files, publicKey, events, proof, e);
    }
  }

  lemma ClaimsHoldUnlessOneFails(p: Platform, s: Signer, files: Files, publicKey: Option<string>, events: seq<Event>,
                                 proof: Proof)
    ensures (forall e :: !ClaimFails(p, s, files, publicKey, events, proof, e)) <==>
            && (events != [] ==> proof.summary.rootHash == events[|events| - 1].hash)
            && (publicKey.Some? ==>
                  proof.signature != "" && SignatureFits(p, s, files, publicKey.value, proof.signature))
  {
    if forall e :: !ClaimFails(p, s, files, publicKey, events, proof, e) {
      assert !ClaimFails(p, s, files, publicKey, events, proof, RootHashMismatch);
      assert !ClaimFails(p, s, files, publicKey, events, proof, ProofUnsigned);
      assert !ClaimFails(p, s, files, publicKey, events, proof, SignatureInvalid);
    }
  }

  /** The failures of the events file, read or not. */
  ghost predicate StreamFails(p: Platform, files: Files, error: VerifyError) {
    match error
    case EventsMissing => "events.ndjson" !in files
    case EventsUnreadable(line) =>
      "events.ndjson" in files && FirstUnreadable(ParseEvent(p), files["events.ndjson"], line)
    case HashChainInvalid(reason) => StreamOf(p, files).Some? && FirstError(p, StreamOf(p, files).value, reason)
    case _ => false
  }

  /** The error is there: nothing but the manifest is looked at unless that can be read, and neither ledger nor
      proof unless the events can be read. */
  ghost predicate Fails(p: Platform, s: Signer, files: Files, publicKey: Option<string>, error: VerifyError) {
    if "manifest.json" !in files then error == ManifestMissing
    else
      match ParseManifest(p, files["manifest.json"])
      case None => error == ManifestUnreadable
      case Some(manifest) =>
        DeclarationFails(p, files, manifest.fileHashes, error) || ContentFails(p, s, files, publicKey, error)
  }

  ghost predicate ContentFails(p: Platform, s: Signer, files: Files, publicKey: Option<string>, error: VerifyError) {
    || StreamFails(p, files, error)
    || (StreamOf(p, files).Some? && RestFails(p, s, files, publicKey, StreamOf(p, files).value, error))
  }

  ghost predicate RestFails(p: Platform, s: Signer, files: Files, publicKey: Option<string>, events: seq<Event>,
                            error: VerifyError)
  {
    LedgerFails(p, files, events, error) || ProofFails(p, s, files, publicKey, events, error)
  }

  method CheckFileHashes(p: Platform, files: Files, hashes: map<string, string>) returns (errors: seq<VerifyError>)
    ensures errors == [] <==> HashesMatch(p, files, hashes)
    ensures forall e :: e in errors <==> DeclarationFails(p, files, hashes, e)
  {
    errors := [];
    var rest := hashes.Keys;
    while rest != {}
      invariant rest <= hashes.Keys
      invariant forall e :: e in errors <==> DeclarationFails(p, files, hashes, e) && e.name !in rest
      decreases |rest|
    {
      var name :| name in rest;
      rest := rest - {name};
      if name in files {
        if p.hash(files[name]) != hashes[name] {
          errors := errors + [FileHashMismatch(name)];
        }
      } else {
        errors := errors + [DeclaredFileMissing(name)];
      }
    }
    HashesMatchUnlessOneFails(p, files, hashes);
    assert errors != [] ==> errors[0] in errors;
  }

  method CheckLedger(p: Platform, files: Files, events: seq<Event>) returns (errors: seq<VerifyError>)
    ensures errors == [] <==> LedgerAccepted(p, files, events)
    ensures forall e | e in errors :: LedgerFails(p, files, events, e)
    ensures forall e | LedgerFails(p, files, events, e) && !e.LedgerInconsistent? :: e in errors
  {
    if "ledger.ndjson" !in files {
      return [];
    }
    var ledger := ParseNdjson(ParseInvocation(p), files["ledger.ndjson"]);
    if ledger.Err? {
      UnreadableLedger(p, files, events, ledger.error);
      return [LedgerUnreadable(ledger.error)];
    }
    var consistent := ValidateLedgerConsistency(p, events, ledger.value);
    if consistent.Err? {
      return [LedgerInconsistent(consistent.error)];
    }
    return [];
  }

  /** The signature check reads manifest, events and ledger from the package again. */
  method CheckSignature(p: Platform, s: Signer, files: Files, key: string, signature: string) returns (valid: bool)
    ensures valid <==> SignatureFits(p, s, files, key, signature)
  {
    if "manifest.json" !in files {
      return false;
    }
    var manifest := ParseManifest(p, files["manifest.json"]);
    if manifest.None? || "events.ndjson" !in files {
      return false;
    }
    var events := ParseNdjson(ParseEvent(p), files["events.ndjson"]);
    if events.Err? {
      return false;
    }
    var ledger: seq<ToolInvocation> := [];
    if "ledger.ndjson" in files {
      var parsed := ParseNdjson(ParseInvocation(p), files["ledger.ndjson"]);
      if parsed.Err? {
        return false;
      }
      ledger := parsed.value;
    }
    var text := PrintSignedText(p, manifest.value, events.value, ledger);
    return s.check(key, text, signature);
  }

  method CheckProof(p: Platform, s: Signer, files: Files, publicKey: Option<string>, events: seq<Event>)
    returns (errors: seq<VerifyError>, signatureValid: bool)
    ensures errors == [] <==> ProofAccepted(p, s, files, publicKey, events)
    ensures signatureValid <==> SignatureAccepted(p, s, files, publicKey)
    ensures forall e :: e in errors <==> ProofFails(p, s, files, publicKey, events, e)
  {
    ProofIsAcceptedUnlessItFails(p, s, files, publicKey, events);
    if "proof.json" !in files {
      return [], false;
    }
    var proof := ParseProof(p, files["proof.json"]);
    if proof.None? {
      return [ProofUnreadable], false;
    }
    errors, signatureValid := CheckClaims(p, s, files, publicKey, events, proof.value);
    assert errors != [] ==> errors[0] in errors;
  }

  method CheckClaims(p: Platform, s: Signer, files: Files, publicKey: Option<string>, events: seq<Event>, proof: Proof)
    returns (errors: seq<VerifyError>, signatureValid: bool)
    ensures forall e :: e in errors <==> ClaimFails(p, s, files, publicKey, events, proof, e)
    ensures signatureValid <==>
            publicKey.Some? && proof.signature != "" && SignatureFits(p, s, files, publicKey.value, proof.signature)
  {
    errors, signatureValid := [], false;
    if |events| > 0 && proof.summary.rootHash != events[|events| - 1].hash {
      errors := errors + [RootHashMismatch];
    }
    if proof.signature == "" && publicKey.Some? {
      errors := errors + [ProofUnsigned];
    }
    if proof.signature != "" && publicKey.Some? {
      signatureValid := CheckSignature(p, s, files, publicKey.value, proof.signature);
      if !signatureValid {
        errors := errors + [SignatureInvalid];
      }
    }
  }

  method VerifyEvidence(p: Platform, s: Signer, files: Files, publicKey: Option<string>) returns (result: VerifyResult)
    ensures result.ok <==> Accepts(p, s, files, publicKey)
    ensures result.ok <==> result.errors == []
    ensures forall e | e in result.errors :: Fails(p, s, files, publicKey, e)
    ensures forall e | Fails(p, s, files, publicKey, e) && !e.LedgerInconsistent? :: e in result.errors
    ensures result.events != [] ==> StreamOf(p, files) == Some(result.events)
    ensures result.ok ==> StreamOf(p, files) == Some(result.events)
    ensures result.manifestValid <==> "manifest.json" in files && ParseManifest(p, files["manifest.json"]).Some?
    ensures result.hashChainValid == result.eventsValid
    ensures result.hashChainValid <==>
              result.manifestValid && StreamOf(p, files).Some? && ValidChain(p, StreamOf(p, files).value)
    ensures result.ledgerValid <==>
              && result.manifestValid && StreamOf(p, files).Some? && "ledger.ndjson" in files
              && LedgerAccepted(p, files, StreamOf(p, files).value)
    ensures result.signatureValid <==>
              result.manifestValid && StreamOf(p, files).Some? && SignatureAccepted(p, s, files, publicKey)
  {
    result := VerifyResult(true, [], [], false, false, false, false, false);
    if "manifest.json" !in files {
      return result.(ok := false, errors := [ManifestMissing]);
    }
    var manifest := ParseManifest(p, files["manifest.json"]);
    if manifest.None? {
      return result.(ok := false, errors := [ManifestUnreadable]);
    }
    result := result.(manifestValid := true);
    var mismatches := CheckFileHashes(p, files, manifest.value.fileHashes);
    if mismatches != [] {
      result := result.(ok := false, errors := mismatches);
    }
    result := CheckContents(p, s, files, publicKey, result);
  }

  /** The events, whether they are a chain, the ledger and the proof. */
  method CheckContents(p: Platform, s: Signer, files: Files, publicKey: Option<string>, before: VerifyResult)
    returns (result: VerifyResult)
    requires before.ok <==> before.errors == []
    requires before.events == [] && !before.hashChainValid && !before.eventsValid && !before.ledgerValid
    requires !before.signatureValid
    ensures result.manifestValid == before.manifestValid && (result.ok <==> result.errors == [])
    ensures var stream := StreamOf(p, files);
      && (result.ok <==>
          && before.ok && stream.Some? && ValidChain(p, stream.value)
          && LedgerAccepted(p, files, stream.value) && ProofAccepted(p, s, files, publicKey, stream.value))
      && (if stream.Some? then result.events == stream.value else result.events == [])
      && result.hashChainValid == result.eventsValid == (stream.Some? && ValidChain(p, stream.value))
      && result.ledgerValid ==
         (stream.Some? && "ledger.ndjson" in files && LedgerAccepted(p, files, stream.value))
      && result.signatureValid == (stream.Some? && SignatureAccepted(p, s, files, publicKey))
    ensures forall e | e in result.errors :: e in before.errors || ContentFails(p, s, files, publicKey, e)
    ensures forall e | e in before.errors || (ContentFails(p, s, files, publicKey, e) && !e.LedgerInconsistent?) ::
              e in result.errors
  {
    var stream, errors := CheckStream(p, files);
    result := before.(ok := before.ok && errors == [], errors := before.errors + errors);
    if stream.None? {
      return;
    }
    result := result.(events := stream.value, hashChainValid := errors == [], eventsValid := errors == []);
    var ledgerValid, signatureValid;
    errors, ledgerValid, signatureValid := CheckLedgerAndProof(p, s, files, publicKey, stream.value);
    result := result.(
      ok := result.ok && errors == [], errors := result.errors + errors, ledgerValid := ledgerValid,
      signatureValid := signatureValid);
  }

  lemma UnreadableLedger(p: Platform, files: Files, events: seq<Event>, line: nat)
    requires "ledger.ndjson" in files && FirstUnreadable(ParseInvocation(p), files["ledger.ndjson"], line)
    requires ReadRecords(ParseInvocation(p), files["ledger.ndjson"]).None?
    ensures forall e :: LedgerFails(p, files, events, e) <==> e == LedgerUnreadable(line)
  {
    forall other: nat | FirstUnreadable(ParseInvocation(p), files["ledger.ndjson"], other) ensures other == line {
      FirstUnreadableIsUnique(ParseInvocation(p), files["ledger.ndjson"], line, other);
    }
  }

  method CheckStream(p: Platform, files: Files) returns (stream: Option<seq<Event>>, errors: seq<VerifyError>)
    ensures stream == StreamOf(p, files)
    ensures errors == [] <==> stream.Some? && ValidChain(p, stream.value)
    ensures forall e :: e in errors <==> StreamFails(p, files, e)
  {
    if "events.ndjson" !in files {
      return None, [EventsMissing];
    }
    var parsed := ParseNdjson(ParseEvent(p), files["events.ndjson"]);
    if parsed.Err? {
      UnreadableEvents(p, files, parsed.error);
      return None, [EventsUnreadable(parsed.error)];
    }
    ReadableEvents(p, files);
    var chain := ValidateChain(p, parsed.value);
    if chain.Err? {
      BrokenEvents(p, files, chain.error);
      return Some(parsed.value), [HashChainInvalid(chain.error)];
    }
    NoFirstError(p, parsed.value);
    return Some(parsed.value), [];
  }

  lemma UnreadableEvents(p: Platform, files: Files, line: nat)
    requires "events.ndjson" in files && FirstUnreadable(ParseEvent(p), files["events.ndjson"], line)
    requires StreamOf(p, files).None?
    ensures forall e :: StreamFails(p, files, e) <==> e == EventsUnreadable(line)
  {
    forall other: nat | FirstUnreadable(ParseEvent(p), files["events.ndjson"], other) ensures other == line {
      FirstUnreadableIsUnique(ParseEvent(p), files["events.ndjson"], line, other);
    }
  }

  lemma ReadableEvents(p: Platform, files: Files)
    requires "events.ndjson" in files && StreamOf(p, files).Some?
    ensures forall line: nat :: !FirstUnreadable(ParseEvent(p), files["events.ndjson"], line)
  {
    forall line: nat ensures !FirstUnreadable(ParseEvent(p), files["events.ndjson"], line) {
      if FirstUnreadable(ParseEvent(p), files["events.ndjson"], line) {
        UnreadableIsNotRead(ParseEvent(p), files["events.ndjson"], line);
      }
    }
  }

  lemma BrokenEvents(p: Platform, files: Files, error: ChainError)
    requires StreamOf(p, files).Some? && FirstError(p, StreamOf(p, files).value, error)
    requires forall line: nat :: !FirstUnreadable(ParseEvent(p), files["events.ndjson"], line)
    ensures forall e :: StreamFails(p, files, e) <==> e == HashChainInvalid(error)
  {
    var stream := StreamOf(p, files).value;
    forall other | FirstError(p, stream, other) ensures other == error {
      FirstErrorIsUnique(p, stream, error, other);
    }
  }

  method CheckLedgerAndProof(p: Platform, s: Signer, files: Files, publicKey: Option<string>, events: seq<Event>)
    returns (errors: seq<VerifyError>, ledgerValid: bool, signatureValid: bool)
    ensures errors == [] <==> LedgerAccepted(p, files, events) && ProofAccepted(p, s, files, publicKey, events)
    ensures ledgerValid <==> "ledger.ndjson" in files && LedgerAccepted(p, files, events)
    ensures signatureValid <==> SignatureAccepted(p, s, files, publicKey)
    ensures forall e | e in errors :: RestFails(p, s, files, publicKey, events, e)
    ensures forall e | RestFails(p, s, files, publicKey, events, e) && !e.LedgerInconsistent? :: e in errors
  {
    errors := CheckLedger(p, files, events);
    ledgerValid := "ledger.ndjson" in files && errors == [];
    var proofErrors;
    proofErrors, signatureValid := CheckProof(p, s, files, publicKey, events);
    errors := errors + proofErrors;
  }

  // ---------- export, then verify ----------

  ghost predicate CanonicalTimes(p: Platform, events: seq<Event>) {
    forall e | e in events :: p.IsTimestamp(e.createdAt)
  }

  /** Reading back a package gives the stream and the ledger it was made from. */
  lemma PackageContentsSurvive(p: Platform, events: seq<Event>, ledger: seq<ToolInvocation>)
    requires p.Lawful() && CanonicalTimes(p, events)
    ensures ReadRecords(ParseEvent(p), PrintRecords(PrintEvent(p), events)) == Some(events)
    ensures ReadRecords(ParseInvocation(p), PrintRecords(PrintInvocation(p), ledger)) == Some(ledger)
  {
    forall e | e in events ensures CleanLine(PrintEvent(p)(e)) && ParseEvent(p)(PrintEvent(p)(e)) == Some(e) {
      EventSurvivesPrinting(p, e);
    }
    ReadInvertsPrintRecords(PrintEvent(p), ParseEvent(p), events);
    forall inv | inv in ledger
      ensures CleanLine(PrintInvocation(p)(inv)) && ParseInvocation(p)(PrintInvocation(p)(inv)) == Some(inv)
    {
      InvocationSurvivesPrinting(p, inv);
    }
    ReadInvertsPrintRecords(PrintInvocation(p), ParseInvocation(p), ledger);
  }

  /** What a public key asks of an export: that it was signed, and so that the key accepts it. */
  ghost predicate KeyContent(p: Platform, jobID: string, events: seq<Event>, ledger: seq<ToolInvocation>,
                             opts: ExportOptions, w: Surroundings, publicKey: Option<string>)
    requires events != []
  {
    publicKey.Some? ==>
      opts.signingKey != "" &&
      w.signer.check(publicKey.value, SignedText(p, ManifestOf(p, jobID, events, ledger, opts, w), events, ledger),
                     SignatureOf(p, jobID, events, ledger, opts, w))
  }

  /** The package of a valid chain is accepted exactly when the ledger is consistent with it and the public
      key, if any, is content: export does not check the ledger, although the proof it writes says so. */
  lemma PackageIsAcceptedIff(p: Platform, jobID: string, events: seq<Event>, ledger: seq<ToolInvocation>,
                             opts: ExportOptions, w: Surroundings, publicKey: Option<string>)
    requires p.Lawful() && w.signer.Lawful() && CanonicalTimes(p, events) && p.IsTimestamp(w.exportedAt)
    requires events != [] && ValidChain(p, events)
    ensures var files := Package(p, jobID, events, ledger, opts, w);
      && StreamOf(p, files) == Some(events)
      && (Accepts(p, w.signer, files, publicKey) <==>
          LedgerConsistent(p, events, ledger) && KeyContent(p, jobID, events, ledger, opts, w, publicKey))
  {
    var files := Package(p, jobID, events, ledger, opts, w);
    PackageReadsBack(p, jobID, events, ledger, opts, w);
    PackageHashesMatch(p, jobID, events, ledger, opts, w);
    assert ManifestAccepted(p, files);
    assert LedgerAccepted(p, files, events) <==> LedgerConsistent(p, events, ledger);
    ProofIsAcceptedIff(p, jobID, events, ledger, opts, w, publicKey);
  }

  lemma PackageFiles(p: Platform, jobID: string, events: seq<Event>, ledger: seq<ToolInvocation>,
                     opts: ExportOptions, w: Surroundings)
    requires events != []
    ensures var files := Package(p, jobID, events, ledger, opts, w);
      && files.Keys == {"manifest.json", "events.ndjson", "ledger.ndjson", "proof.json", "metadata.json"}
      && files["manifest.json"] == p.pretty(ManifestToJson(ManifestOf(p, jobID, events, ledger, opts, w)))
      && files["events.ndjson"] == PrintRecords(PrintEvent(p), events)
      && files["ledger.ndjson"] == PrintRecords(PrintInvocation(p), ledger)
      && files["proof.json"] == p.pretty(ProofToJson(ProofOf(p, jobID, events, ledger, opts, w)))
      && files["metadata.json"] == w.metadata
  {
  }

  lemma PackageManifestReadsBack(p: Platform, jobID: string, events: seq<Event>, ledger: seq<ToolInvocation>,
                                 opts: ExportOptions, w: Surroundings)
    requires p.Lawful() && p.IsTimestamp(w.exportedAt) && events != []
    ensures var files := Package(p, jobID, events, ledger, opts, w);
      && "manifest.json" in files && "proof.json" in files
      && ParseManifest(p, files["manifest.json"]) == Some(ManifestOf(p, jobID, events, ledger, opts, w))
  {
    PackageFiles(p, jobID, events, ledger, opts, w);
    ManifestSurvivesPrinting(p, ManifestOf(p, jobID, events, ledger, opts, w));
  }

  /** Every file but the metadata reads back as what it was printed from. */
  lemma PackageReadsBack(p: Platform, jobID: string, events: seq<Event>, ledger: seq<ToolInvocation>,
                         opts: ExportOptions, w: Surroundings)
    requires p.Lawful() && CanonicalTimes(p, events) && p.IsTimestamp(w.exportedAt) && events != []
    ensures var files := Package(p, jobID, events, ledger, opts, w);
      && "manifest.json" in files
      && ParseManifest(p, files["manifest.json"]) == Some(ManifestOf(p, jobID, events, ledger, opts, w))
      && "events.ndjson" in files && StreamOf(p, files) == Some(events)
      && "ledger.ndjson" in files
      && ReadRecords(ParseInvocation(p), files["ledger.ndjson"]) == LedgerOf(p, files) == Some(ledger)
      && "proof.json" in files && ParseProof(p, files["proof.json"]) == Some(ProofOf(p, jobID, events, ledger, opts, w))
  {
    PackageFiles(p, jobID, events, ledger, opts, w);
    PackageContentsSurvive(p, events, ledger);
    ManifestSurvivesPrinting(p, ManifestOf(p, jobID, events, ledger, opts, w));
    ProofSurvivesPrinting(p, ProofOf(p, jobID, events, ledger, opts, w));
  }

  /** What a reader is told by the manifest of a package. */
  lemma ManifestTells(p: Platform, jobID: string, events: seq<Event>, ledger: seq<ToolInvocation>,
                      opts: ExportOptions, w: Surroundings)
    requires p.Lawful() && p.IsTimestamp(w.exportedAt) && events != []
    ensures var files := Package(p, jobID, events, ledger, opts, w);
      && "manifest.json" in files && ParseManifest(p, files["manifest.json"]).Some?
      && var m := ParseManifest(p, files["manifest.json"]).value;
      && m.version == "2.0" && m.jobID == jobID && m.exportedAt == w.exportedAt
      && m.eventCount == |events| && m.ledgerCount == |ledger|
      && m.firstEventHash == events[0].hash && m.lastEventHash == events[|events| - 1].hash
      && (m.runtimeVersion == if opts.runtimeVersion == "" then "2.0.0" else opts.runtimeVersion)
      && (m.schemaVersion == if opts.schemaVersion == "" then "2.0" else opts.schemaVersion)
      && m.fileHashes.Keys == {"events.ndjson", "ledger.ndjson", "metadata.json"}
      && forall name | name in m.fileHashes :: name in files && m.fileHashes[name] == p.hash(files[name])
  {
    PackageManifestReadsBack(p, jobID, events, ledger, opts, w);
    PackageHashesMatch(p, jobID, events, ledger, opts, w);
    DeclaredFiles(p, jobID, events, ledger, opts, w);
  }

  /** What a reader is told by the proof: a claim about chain and ledger in any case, and with a key a signature
      over the manifest as it is read, followed by the events file and the ledger file. */
  lemma ProofTells(p: Platform, jobID: string, events: seq<Event>, ledger: seq<ToolInvocation>,
                   opts: ExportOptions, w: Surroundings)
    requires p.Lawful() && p.IsTimestamp(w.exportedAt) && events != []
    ensures var files := Package(p, jobID, events, ledger, opts, w);
      && "proof.json" in files && ParseProof(p, files["proof.json"]).Some?
      && "manifest.json" in files && ParseManifest(p, files["manifest.json"]).Some?
      && "events.ndjson" in files && "ledger.ndjson" in files
      && var m, proof := ParseManifest(p, files["manifest.json"]).value, ParseProof(p, files["proof.json"]).value;
      && proof.summary ==
         ProofSummary(jobID, events[|events| - 1].hash, true, true, "aetheris " + opts.runtimeVersion)
      && (opts.signingKey == "" ==> proof.signature == proof.signedAt == proof.signerKeyID == "")
      && (opts.signingKey != "" ==>
            && proof.signature == w.signer.sign(
                 opts.signingKey, p.encode(ManifestToJson(m)) + files["events.ndjson"] + files["ledger.ndjson"])
            && proof.signedAt == w.signedAt
            && (proof.signerKeyID == if opts.keyID == "" then "default" else opts.keyID))
  {
    PackageFiles(p, jobID, events, ledger, opts, w);
    PackageManifestReadsBack(p, jobID, events, ledger, opts, w);
    ProofSurvivesPrinting(p, ProofOf(p, jobID, events, ledger, opts, w));
  }

  lemma PackageHashesMatch(p: Platform, jobID: string, events: seq<Event>, ledger: seq<ToolInvocation>,
                           opts: ExportOptions, w: Surroundings)
    requires events != []
    ensures HashesMatch(p, Package(p, jobID, events, ledger, opts, w),
            ManifestOf(p, jobID, events, ledger, opts, w).fileHashes)
  {
    PackageFiles(p, jobID, events, ledger, opts, w);
  }

  lemma ProofIsAcceptedIff(p: Platform, jobID: string, events: seq<Event>, ledger: seq<ToolInvocation>,
                           opts: ExportOptions, w: Surroundings, publicKey: Option<string>)
    requires p.Lawful() && w.signer.Lawful() && CanonicalTimes(p, events) && p.IsTimestamp(w.exportedAt) && events != []
    ensures ProofAccepted(p, w.signer, Package(p, jobID, events, ledger, opts, w), publicKey, events) <==>
            KeyContent(p, jobID, events, ledger, opts, w, publicKey)
  {
    var files := Package(p, jobID, events, ledger, opts, w);
    PackageReadsBack(p, jobID, events, ledger, opts, w);
    assert SignatureOf(p, jobID, events, ledger, opts, w) != "";
    if publicKey.Some? && opts.signingKey != "" {
      SignatureFitsIff(p, files, ManifestOf(p, jobID, events, ledger, opts, w), events, ledger, w.signer,
                       publicKey.value,
                       SignatureOf(p, jobID, events, ledger, opts, w));
    }
  }

  lemma SignatureFitsIff(p: Platform, files: Files, manifest: Manifest, events: seq<Event>, ledger: seq<ToolInvocation>,
                         s: Signer, key: string, signature: string)
    requires "manifest.json" in files && ParseManifest(p, files["manifest.json"]) == Some(manifest)
    requires StreamOf(p, files) == Some(events) && LedgerOf(p, files) == Some(ledger)
    ensures SignatureFits(p, s, files, key, signature) <==>
            s.check(key, SignedText(p, manifest, events, ledger), signature)
  {
  }

  lemma RedactedTimesAreCanonical(p: Platform, salt: string, events: seq<Event>)
    requires RedactedForExport(p, salt, events).Ok? && CanonicalTimes(p, events)
    ensures CanonicalTimes(p, RedactedForExport(p, salt, events).value)
  {
    var stream := RedactedForExport(p, salt, events).value;
    RedactedStreamIsAChain(p, ExportPolicy(salt), events, NO_RANDOMNESS);
    forall e | e in stream ensures p.IsTimestamp(e.createdAt) {
      var i :| 0 <= i < |stream| && stream[i] == e;
      assert RedactedFrom(p, ExportPolicy(salt), events[i], stream[i], NO_RANDOMNESS(i));
      assert events[i] in events;
    }
  }

  /** Every successful export, redacted or not, signed or not, is accepted exactly when the ledger is
      consistent with the original stream and the public key, if any, is content; unredacted,
      verification returns that very stream. */
  lemma ExportThenVerify(p: Platform, jobID: string, events: seq<Event>, ledger: seq<ToolInvocation>,
                         opts: ExportOptions, w: Surroundings, publicKey: Option<string>)
    requires p.Lawful() && w.signer.Lawful() && CanonicalTimes(p, events) && p.IsTimestamp(w.exportedAt)
    requires Exportable(p, jobID, events, opts)
    ensures var stream := ExportedStream(p, events, opts).value;
      && |stream| == |events|
      && var files := Package(p, jobID, stream, ledger, opts, w);
      && StreamOf(p, files) == Some(stream)
      && (!opts.redactionEnabled ==> stream == events)
      && (Accepts(p, w.signer, files, publicKey) <==>
          LedgerConsistent(p, events, ledger) && KeyContent(p, jobID, stream, ledger, opts, w, publicKey))
  {
    var stream := ExportedStream(p, events, opts).value;
    if opts.redactionEnabled {
      RedactedStreamIsAChain(p, ExportPolicy(opts.redactionSalt), events, NO_RANDOMNESS);
      RedactionKeepsLedgerVerdict(p, opts.redactionSalt, events, ledger);
      RedactedTimesAreCanonical(p, opts.redactionSalt, events);
    }
    PackageIsAcceptedIff(p, jobID, stream, ledger, opts, w, publicKey);
  }

  /** The events read from the package of a redacted export hide, with the salt of the export, what they
      should, one for one, and are a chain of their own. */
  lemma ExportedPackageHides(p: Platform, jobID: string, events: seq<Event>, ledger: seq<ToolInvocation>,
                             opts: ExportOptions, w: Surroundings)
    requires p.Lawful() && w.signer.Lawful() && CanonicalTimes(p, events) && p.IsTimestamp(w.exportedAt)
    requires Exportable(p, jobID, events, opts) && opts.redactionEnabled
    ensures |ExportedStream(p, events, opts).value| == |events|
    ensures var read := StreamOf(p, Package(p, jobID, ExportedStream(p, events, opts).value, ledger, opts, w));
      && read.Some? && |read.value| == |events| && ValidChain(p, read.value)
      && forall i | 0 <= i < |events| :: HiddenIn(p, opts.redactionSalt, events[i], read.value[i])
  {
    ExportThenVerify(p, jobID, events, ledger, opts, w, None);
    RedactedStreamIsAChain(p, ExportPolicy(opts.redactionSalt), events, NO_RANDOMNESS);
    RedactedStreamHides(p, opts.redactionSalt, events);
  }

  /** With the key it was signed with, a signed export is accepted exactly when the ledger is consistent;
      an unsigned one never is, once a key is given. */
  lemma SignedExportIsAcceptedIff(p: Platform, jobID: string, events: seq<Event>, ledger: seq<ToolInvocation>,
                                  opts: ExportOptions, w: Surroundings)
    requires p.Lawful() && w.signer.Lawful() && CanonicalTimes(p, events) && p.IsTimestamp(w.exportedAt)
    requires Exportable(p, jobID, events, opts)
    ensures |ExportedStream(p, events, opts).value| == |events|
    ensures var files := Package(p, jobID, ExportedStream(p, events, opts).value, ledger, opts, w);
      && (opts.signingKey != "" ==>
            (Accepts(p, w.signer, files, Some(w.signer.public(opts.signingKey))) <==>
              LedgerConsistent(p, events, ledger)))
      && (opts.signingKey == "" ==> forall key :: !Accepts(p, w.signer, files, Some(key)))
  {
    ExportThenVerify(p, jobID, events, ledger, opts, w, Some(w.signer.public(opts.signingKey)));
    forall key ensures opts.signingKey == "" ==>
      !Accepts(p, w.signer, Package(p, jobID, ExportedStream(p, events, opts).value, ledger, opts, w), Some(key))
    {
      ExportThenVerify(p, jobID, events, ledger, opts, w, Some(key));
    }
  }

  // ---------- what a package shows ----------

  /** Packages made in the same surroundings are identical exactly when stream and ledger are. */
  lemma PackagesAreIdenticalIff(p: Platform, jobID: string, a: seq<Event>, b: seq<Event>, l: seq<ToolInvocation>,
                                m: seq<ToolInvocation>, opts: ExportOptions, w: Surroundings)
    requires p.Lawful() && CanonicalTimes(p, a) && CanonicalTimes(p, b) && a != [] && b != []
    ensures Package(p, jobID, a, l, opts, w) == Package(p, jobID, b, m, opts, w) <==> a == b && l == m
  {
    if Package(p, jobID, a, l, opts, w) == Package(p, jobID, b, m, opts, w) {
      PackageFiles(p, jobID, a, l, opts, w);
      PackageFiles(p, jobID, b, m, opts, w);
      PackageContentsSurvive(p, a, l);
      PackageContentsSurvive(p, b, m);
    }
  }

  /** Redacted packages of object payloads are identical exactly when the streams agree in what the export
      masks show and the ledgers are the same: the ledger is not redacted. */
  lemma RedactedPackagesAreIdenticalIff(p: Platform, jobID: string, a: seq<Event>, b: seq<Event>,
                                        l: seq<ToolInvocation>, m: seq<ToolInvocation>, opts: ExportOptions,
                                        w: Surroundings)
    requires p.Lawful() && CanonicalTimes(p, a) && CanonicalTimes(p, b) && a != [] && b != []
    requires (forall e | e in a :: IsObject(p, e.payload)) && forall e | e in b :: IsObject(p, e.payload)
    ensures var s, t := RedactedForExport(p, opts.redactionSalt, a), RedactedForExport(p, opts.redactionSalt, b);
      && s.Ok? && t.Ok? && s.value != [] && t.value != []
      && (Package(p, jobID, s.value, l, opts, w) == Package(p, jobID, t.value, m, opts, w) <==>
          && l == m && |a| == |b|
          && forall i | 0 <= i < |a| :: SameExportView(p, opts.redactionSalt, a[i], b[i]))
  {
    var salt := opts.redactionSalt;
    ObjectStreamIsRedacted(p, ExportPolicy(salt), a);
    ObjectStreamIsRedacted(p, ExportPolicy(salt), b);
    RedactedStreamIsAChain(p, ExportPolicy(salt), a, NO_RANDOMNESS);
    RedactedStreamIsAChain(p, ExportPolicy(salt), b, NO_RANDOMNESS);
    RedactedTimesAreCanonical(p, salt, a);
    RedactedTimesAreCanonical(p, salt, b);
    var s, t := RedactedForExport(p, salt, a).value, RedactedForExport(p, salt, b).value;
    PackagesAreIdenticalIff(p, jobID, s, t, l, m, opts, w);
    ExportedStreamsAreIdenticalIff(p, salt, a, b);
  }

  /** What a signature covers: two signed texts are the same only if manifest, events and ledger are. */
  lemma SignedTextIsUnambiguous(p: Platform, manifest: Manifest, events: seq<Event>, ledger: seq<ToolInvocation>,
                                manifest': Manifest, events': seq<Event>, ledger': seq<ToolInvocation>)
    requires p.Lawful() && p.Delimits()
    requires p.IsTimestamp(manifest.exportedAt) && CanonicalTimes(p, events)
    requires p.IsTimestamp(manifest'.exportedAt) && CanonicalTimes(p, events')
    ensures SignedText(p, manifest, events, ledger) == SignedText(p, manifest', events', ledger') <==>
            manifest == manifest' && events == events' && ledger == ledger'
  {
    if SignedText(p, manifest, events, ledger) == SignedText(p, manifest', events', ledger') {
      var m, m' := p.encode(ManifestToJson(manifest)), p.encode(ManifestToJson(manifest'));
      var x, y := PrintRecords(PrintEvent(p), events), PrintRecords(PrintInvocation(p), ledger);
      var x', y' := PrintRecords(PrintEvent(p), events'), PrintRecords(PrintInvocation(p), ledger');
      Regroup(m, x, y);
      Regroup(m', x', y');
      SameManifests(p, manifest, manifest', x + y, x' + y');
      SameRest(m, x + y, x' + y');
      SameRecords(p, events, ledger, events', ledger');
    }
  }

  lemma Regroup(a: string, b: string, c: string)
    ensures a + b + c == a + (b + c)
  {
  }

  lemma SameRest(a: string, x: string, y: string)
    requires a + x == a + y
    ensures x == y
  {
    assert x == (a + x)[|a|..] && y == (a + y)[|a|..];
  }

  lemma SameManifests(p: Platform, a: Manifest, b: Manifest, x: string, y: string)
    requires p.Delimits() && p.IsTimestamp(a.exportedAt) && p.IsTimestamp(b.exportedAt)
    requires p.encode(ManifestToJson(a)) + x == p.encode(ManifestToJson(b)) + y
    ensures a == b
  {
    var f, g := ManifestToJson(a).fields, ManifestToJson(b).fields;
    assert p.encode(Obj(f)) + x == p.encode(Obj(g)) + y;
    assert f == g;
    PrintedManifestShows(p, a);
    PrintedManifestShows(p, b);
    ShownManifestIsRead(p, f, a);
    ShownManifestIsRead(p, g, b);
  }

  function EventLines(p: Platform, events: seq<Event>): seq<string> {
    seq(|events|, i requires 0 <= i < |events| => PrintEvent(p)(events[i]))
  }

  function InvocationLines(p: Platform, ledger: seq<ToolInvocation>): seq<string> {
    seq(|ledger|, i requires 0 <= i < |ledger| => PrintInvocation(p)(ledger[i]))
  }

  lemma {:induction false} PrintLinesConcat(a: seq<string>, b: seq<string>)
    ensures PrintLines(a + b) == PrintLines(a) + PrintLines(b)
  {
    if b == [] {
      assert a + b == a;
      assert PrintLines(a) + "" == PrintLines(a);
    } else {
      var n := |b| - 1;
      PrintLinesConcat(a, b[..n]);
      assert (a + b)[..|a + b| - 1] == a + b[..n];
      Regroup(PrintLines(a), PrintLines(b[..n]), b[n]);
      Regroup(PrintLines(a), PrintLines(b[..n]) + b[n], "\n");
    }
  }

  /** The event file and the ledger file, one after the other, are the lines of both. */
  lemma RecordsAsLines(p: Platform, events: seq<Event>, ledger: seq<ToolInvocation>)
    requires p.Lawful()
    ensures var lines := EventLines(p, events) + InvocationLines(p, ledger);
      && PrintRecords(PrintEvent(p), events) + PrintRecords(PrintInvocation(p), ledger) == PrintLines(lines)
      && ReadLines(PrintLines(lines)) == lines
  {
    var lines := EventLines(p, events) + InvocationLines(p, ledger);
    PrintsLineByLine(PrintEvent(p), events, EventLines(p, events));
    PrintsLineByLine(PrintInvocation(p), ledger, InvocationLines(p, ledger));
    PrintLinesConcat(EventLines(p, events), InvocationLines(p, ledger));
    forall i | 0 <= i < |lines| ensures CleanLine(lines[i]) {
      if i < |events| {
        assert lines[i] == p.encode(EventToJson(events[i]));
      } else {
        assert lines[i] == p.encode(InvocationToJson(ledger[i - |events|]));
      }
    }
    ReadInvertsPrint(lines);
  }

  lemma EventsAreNoInvocations(p: Platform, e: Event, inv: ToolInvocation)
    requires p.Lawful()
    ensures PrintEvent(p)(e) != PrintInvocation(p)(inv)
  {
    var x, y := EventToJson(e), InvocationToJson(inv);
    assert "payload" in x.fields && "payload" !in y.fields;
    assert p.decode(p.encode(x)) == Some(x) && p.decode(p.encode(y)) == Some(y);
  }

  /** The line at which one side goes over to its ledger would be an event on the other. */
  lemma SameNumberOfEvents(p: Platform, events: seq<Event>, ledger: seq<ToolInvocation>, events': seq<Event>,
                           ledger': seq<ToolInvocation>)
    requires p.Lawful()
    requires EventLines(p, events) + InvocationLines(p, ledger) == EventLines(p, events') + InvocationLines(p, ledger')
    ensures |events| >= |events'|
  {
    var x := EventLines(p, events) + InvocationLines(p, ledger);
    var y := EventLines(p, events') + InvocationLines(p, ledger');
    var n := |events|;
    if n < |events'| {
      assert x[n] == PrintInvocation(p)(ledger[0]) && y[n] == PrintEvent(p)(events'[n]);
      EventsAreNoInvocations(p, events'[n], ledger[0]);
    }
  }

  lemma SameRecords(p: Platform, events: seq<Event>, ledger: seq<ToolInvocation>, events': seq<Event>,
                    ledger': seq<ToolInvocation>)
    requires p.Lawful() && CanonicalTimes(p, events) && CanonicalTimes(p, events')
    requires PrintRecords(PrintEvent(p), events) + PrintRecords(PrintInvocation(p), ledger) ==
             PrintRecords(PrintEvent(p), events') + PrintRecords(PrintInvocation(p), ledger')
    ensures events == events' && ledger == ledger'
  {
    RecordsAsLines(p, events, ledger);
    RecordsAsLines(p, events', ledger');
    SameNumberOfEvents(p, events, ledger, events', ledger');
    SameNumberOfEvents(p, events', ledger', events, ledger);
    var x, y := EventLines(p, events), InvocationLines(p, ledger);
    var x', y' := EventLines(p, events'), InvocationLines(p, ledger');
    assert x == (x + y)[..|x|] && x' == (x' + y')[..|x'|] && y == (x + y)[|x|..] && y' == (x' + y')[|x'|..];
    SameLinesSameRecords(p, events, ledger, events', ledger');
  }

  lemma SameLinesSameRecords(p: Platform, events: seq<Event>, ledger: seq<ToolInvocation>, events': seq<Event>,
                             ledger': seq<ToolInvocation>)
    requires p.Lawful() && CanonicalTimes(p, events) && CanonicalTimes(p, events')
    requires EventLines(p, events) == EventLines(p, events')
    requires InvocationLines(p, ledger) == InvocationLines(p, ledger')
    ensures events == events' && ledger == ledger'
  {
    assert |events| == |EventLines(p, events)| == |events'|;
    assert |ledger| == |InvocationLines(p, ledger)| == |ledger'|;
    forall i | 0 <= i < |events| ensures events[i] == events'[i] {
      assert EventLines(p, events)[i] == EventLines(p, events')[i];
      EventSurvivesPrinting(p, events[i]);
      EventSurvivesPrinting(p, events'[i]);
    }
    forall i | 0 <= i < |ledger| ensures ledger[i] == ledger'[i] {
      assert InvocationLines(p, ledger)[i] == InvocationLines(p, ledger')[i];
      InvocationSurvivesPrinting(p, ledger[i]);
      InvocationSurvivesPrinting(p, ledger'[i]);
    }
  }

  /** The files a signature check reads are readable. */
  predicate Readable(p: Platform, files: Files) {
    && "manifest.json" in files && ParseManifest(p, files["manifest.json"]).Some?
    && StreamOf(p, files).Some? && LedgerOf(p, files).Some?
  }

  /** The text a signature check of the package is about. */
  function CheckedText(p: Platform, files: Files): string
    requires Readable(p, files)
  {
    SignedText(p, ParseManifest(p, files["manifest.json"]).value, StreamOf(p, files).value, LedgerOf(p, files).value)
  }

  lemma ParsedManifestTimeIsCanonical(p: Platform, text: string)
    requires p.Lawful() && ParseManifest(p, text).Some?
    ensures p.IsTimestamp(ParseManifest(p, text).value.exportedAt)
  {
  }

  /** For any two packages: the signature check is about the same text exactly when manifest, events and
      ledger read the same, a missing ledger being an empty one. */
  lemma SignatureCoversWhatIsRead(p: Platform, a: Files, b: Files)
    requires p.Lawful() && p.Delimits() && Readable(p, a) && Readable(p, b)
    ensures CheckedText(p, a) == CheckedText(p, b) <==>
            && ParseManifest(p, a["manifest.json"]) == ParseManifest(p, b["manifest.json"])
            && StreamOf(p, a) == StreamOf(p, b) && LedgerOf(p, a) == LedgerOf(p, b)
  {
    ParsedManifestTimeIsCanonical(p, a["manifest.json"]);
    ParsedManifestTimeIsCanonical(p, b["manifest.json"]);
    ParsedTimesAreCanonical(p, ReadLines(a["events.ndjson"]));
    ParsedTimesAreCanonical(p, ReadLines(b["events.ndjson"]));
    SignedTextIsUnambiguous(p, ParseManifest(p, a["manifest.json"]).value, StreamOf(p, a).value, LedgerOf(p, a).value,
                            ParseManifest(p, b["manifest.json"]).value, StreamOf(p, b).value, LedgerOf(p, b).value);
  }

  // ---------- what verification leaves out ----------

  /** Acceptance under a key says something about a signature exactly when the package has a proof file. */
  lemma KeyDecidesOnlyWithAProof(p: Platform, s: Signer, files: Files, key: string)
    requires Accepts(p, s, files, Some(key))
    ensures SignatureAccepted(p, s, files, Some(key)) <==> "proof.json" in files
  {
  }

  /** Without ledger and proof a package is accepted, under every key or none, on its manifest and its chain, and
      a signature over it is one over an empty ledger. */
  lemma MissingFilesAreNotChecked(p: Platform, s: Signer, files: Files, publicKey: Option<string>, key: string,
                                  signature: string)
    requires "ledger.ndjson" !in files && "proof.json" !in files && "manifest.json" in files
    requires ParseManifest(p, files["manifest.json"]).Some? && StreamOf(p, files).Some?
    ensures Accepts(p, s, files, publicKey) <==>
            ManifestAccepted(p, files) && ValidChain(p, StreamOf(p, files).value)
    ensures SignatureFits(p, s, files, key, signature) <==>
            s.check(key,
                    SignedText(p, ParseManifest(p, files["manifest.json"]).value, StreamOf(p, files).value, []),
                    signature)
  {
  }

  /** A proof file no manifest declares can be taken away: what is left is accepted, under every key or none,
      exactly when all other checks succeed. */
  lemma WithoutTheProofFile(p: Platform, s: Signer, files: Files, publicKey: Option<string>)
    requires "manifest.json" in files && ParseManifest(p, files["manifest.json"]).Some?
    requires "proof.json" !in ParseManifest(p, files["manifest.json"]).value.fileHashes
    ensures Accepts(p, s, files - {"proof.json"}, publicKey) <==>
            && ManifestAccepted(p, files) && StreamOf(p, files).Some? && ValidChain(p, StreamOf(p, files).value)
            && LedgerAccepted(p, files, StreamOf(p, files).value)
  {
    var rest := files - {"proof.json"};
    UndeclaredFilesAreNotChecked(p, files, "proof.json", ParseManifest(p, files["manifest.json"]).value.fileHashes);
    assert ManifestAccepted(p, rest) <==> ManifestAccepted(p, files);
    assert StreamOf(p, rest) == StreamOf(p, files);
  }

  lemma UndeclaredFilesAreNotChecked(p: Platform, files: Files, name: string, hashes: map<string, string>)
    requires name !in hashes
    ensures HashesMatch(p, files - {name}, hashes) <==> HashesMatch(p, files, hashes)
  {
    assert forall other | other in hashes :: other in files - {name} <==> other in files;
  }

  /** So an export without its proof file, signed or not, is accepted under every key exactly when the ledger
      is consistent. */
  lemma ExportWithoutItsProof(p: Platform, jobID: string, events: seq<Event>, ledger: seq<ToolInvocation>,
                              opts: ExportOptions, w: Surroundings, publicKey: Option<string>)
    requires p.Lawful() && CanonicalTimes(p, events) && p.IsTimestamp(w.exportedAt)
    requires events != [] && ValidChain(p, events)
    ensures Accepts(p, w.signer, Package(p, jobID, events, ledger, opts, w) - {"proof.json"}, publicKey) <==>
            LedgerConsistent(p, events, ledger)
  {
    var files := Package(p, jobID, events, ledger, opts, w);
    PackageReadsBack(p, jobID, events, ledger, opts, w);
    PackageHashesMatch(p, jobID, events, ledger, opts, w);
    DeclaredFiles(p, jobID, events, ledger, opts, w);
    WithoutTheProofFile(p, w.signer, files, publicKey);
  }

  lemma DeclaredFiles(p: Platform, jobID: string, events: seq<Event>, ledger: seq<ToolInvocation>,
                      opts: ExportOptions, w: Surroundings)
    requires events != []
    ensures ManifestOf(p, jobID, events, ledger, opts, w).fileHashes.Keys ==
            {"events.ndjson", "ledger.ndjson", "metadata.json"}
    ensures "proof.json" !in ManifestOf(p, jobID, events, ledger, opts, w).fileHashes
  {
    assert "proof.json" !in {"events.ndjson", "ledger.ndjson", "metadata.json"};
  }

  /** Read back, the manifest of a package declares three files and not the proof. */
  lemma NoManifestDeclaresTheProof(p: Platform, jobID: string, events: seq<Event>, ledger: seq<ToolInvocation>,
                                   opts: ExportOptions, w: Surroundings)
    requires p.Lawful() && p.IsTimestamp(w.exportedAt) && events != []
    ensures var files := Package(p, jobID, events, ledger, opts, w);
      && "manifest.json" in files && ParseManifest(p, files["manifest.json"]).Some?
      && var declared := ParseManifest(p, files["manifest.json"]).value.fileHashes;
      && "proof.json" in files && "proof.json" !in declared
      && declared.Keys == {"events.ndjson", "ledger.ndjson", "metadata.json"}
  {
    PackageManifestReadsBack(p, jobID, events, ledger, opts, w);
    DeclaredFiles(p, jobID, events, ledger, opts, w);
  }

  /** Whatever the stream, there is a ledger with which it is exported and then refused: a single committed
      entry whose key no event can finish. */
  lemma SomeLedgerIsExportedAndRefused(p: Platform, jobID: string, events: seq<Event>, opts: ExportOptions,
                                       w: Surroundings, entry: ToolInvocation)
    requires p.Lawful() && w.signer.Lawful() && CanonicalTimes(p, events) && p.IsTimestamp(w.exportedAt)
    requires Exportable(p, jobID, events, opts) && entry.committed && entry.idempotencyKey == ""
    ensures |ExportedStream(p, events, opts).value| == |events|
    ensures !Accepts(p, w.signer, Package(p, jobID, ExportedStream(p, events, opts).value, [entry], opts, w), None)
  {
    EmptyKeyIsNeverFinished(p, events);
    assert entry in [entry];
    ExportThenVerify(p, jobID, events, [entry], opts, w, None);
  }

  /** Two accepted packages with events and with the same proof root hold the same stream up to event
      identifiers, unless they exhibit a hash collision. */
  lemma SameRootSameEvidence(p: Platform, s: Signer, a: Files, b: Files, keyA: Option<string>, keyB: Option<string>)
    requires p.Lawful() && Accepts(p, s, a, keyA) && Accepts(p, s, b, keyB)
    requires "proof.json" in a && "proof.json" in b
    requires ParseProof(p, a["proof.json"]).value.summary.rootHash ==
             ParseProof(p, b["proof.json"]).value.summary.rootHash
    requires StreamOf(p, a).value != [] && StreamOf(p, b).value != []
    requires forall e | e in StreamOf(p, a).value + StreamOf(p, b).value :: BarFreeHeader(e)
    ensures SameButIds(StreamOf(p, a).value, StreamOf(p, b).value)
            || Collide(p, StreamOf(p, a).value, StreamOf(p, b).value)
  {
    var s, t := StreamOf(p, a).value, StreamOf(p, b).value;
    ParsedTimesAreCanonical(p, ReadLines(a["events.ndjson"]));
    ParsedTimesAreCanonical(p, ReadLines(b["events.ndjson"]));
    assert forall e | e in s :: e in s + t;
    assert forall e | e in t :: e in s + t;
    RootHashCommits(p, s, t);
  }

  lemma {:induction false} ParsedTimesAreCanonical(p: Platform, lines: seq<string>)
    requires p.Lawful() && ParseLines(ParseEvent(p), lines).Some?
    ensures CanonicalTimes(p, ParseLines(ParseEvent(p), lines).value)
  {
    if lines != [] {
      ParsedTimesAreCanonical(p, lines[..|lines| - 1]);
    }
  }
}
