/** Filling in the hash chain of an existing event file that interleaves many jobs. */
module Backfill {
  import opened Wrappers
  import opened Text
  import opened HashChain
  import Ndjson
  import Evidence

  type Fields = map<string, Json>

  datatype Reason = Unparsable | MissingJobID | MissingType | InvalidCreatedAt

  /** The event a record stands for, still unlinked; an undated record takes the current time. */
  function EventOf(p: Platform, f: Fields, now: string): Result<Event, Reason> {
    var id, jobID, eventType := TextOr(f, "id"), TextOr(f, "job_id"), TextOr(f, "type");
    if jobID == "" then Err(MissingJobID)
    else if eventType == "" then Err(MissingType)
    else
      var createdAt := if TextOr(f, "created_at") == "" then Some(now) else p.parseTime(TextOr(f, "created_at"));
      if createdAt.None? then Err(InvalidCreatedAt)
      else Ok(Event(id, jobID, eventType, PayloadText(p, f), createdAt.value, "", ""))
  }

  function TextOr(f: Fields, key: string): string {
    match AsString(f, key) case Some(s) => s case None => ""
  }

  /** A missing payload counts as `null`, a string is taken as it is, anything else is printed. */
  function PayloadText(p: Platform, f: Fields): string {
    if "payload" !in f || f["payload"].Null? then "null"
    else if f["payload"].Str? then f["payload"].s
    else p.encode(f["payload"])
  }

  function Linked(p: Platform, e: Event, prev: string): Event {
    e.(prevHash := prev, hash := ComputeEventHash(p, e.(prevHash := prev)))
  }

  function Record(f: Fields, e: Event): Fields {
    f["prev_hash" := Str(e.prevHash)]["hash" := Str(e.hash)]
  }

  /** The rewritten records so far and, per job, the hash of its last event. */
  datatype Filled = Filled(records: seq<Fields>, last: map<string, string>)

  function PrevOf(last: map<string, string>, jobID: string): string {
    if jobID in last then last[jobID] else ""
  }

  /** The effect of the listed lines; `clock` gives the current time while a line is handled. */
  function Fill(p: Platform, clock: nat -> string, lines: seq<string>): Result<Filled, Reason> {
    if lines == [] then Ok(Filled([], map[]))
    else
      var n := |lines| - 1;
      match Fill(p, clock, lines[..n])
      case Err(e) => Err(e)
      case Ok(before) => FillLine(p, before, lines[n], clock(n))
  }

  function FillLine(p: Platform, before: Filled, line: string, now: string): Result<Filled, Reason> {
    match DecodeMap(p, line)
    case None => Err(Unparsable)
    case Some(f) => FillOne(p, before, f, now)
  }

  function FillOne(p: Platform, before: Filled, f: Fields, now: string): Result<Filled, Reason> {
    match EventOf(p, f, now)
    case Err(e) => Err(e)
    case Ok(unlinked) =>
      var e := Linked(p, unlinked, PrevOf(before.last, unlinked.jobID));
      Ok(Filled(before.records + [Record(f, e)], before.last[e.jobID := e.hash]))
  }

  function EncodeAll(p: Platform, records: seq<Fields>): seq<string> {
    seq(|records|, i requires 0 <= i < |records| => p.encode(Obj(records[i])))
  }

  function Join(lines: seq<string>): string {
    if lines == [] then ""
    else if |lines| == 1 then lines[0]
    else Join(lines[..|lines| - 1]) + "\n" + lines[|lines| - 1]
  }

  /** The lines before line `at` fill in `count` records, and with it the error arises. */
  ghost predicate FirstBadLine(p: Platform, clock: nat -> string, lines: seq<string>, at: nat, error: Reason,
                               count: nat)
  {
    && 1 <= at <= |lines|
    && Fill(p, clock, NonBlank(lines[..at - 1])).Ok?
    && count == |Fill(p, clock, NonBlank(lines[..at - 1])).value.records|
    && Fill(p, clock, NonBlank(lines[..at])) == Err(error)
  }

  ghost predicate FilledSoFar(p: Platform, clock: nat -> string, lines: seq<string>, i: nat, filled: Filled)
    requires i <= |lines|
  {
    Fill(p, clock, NonBlank(lines[..i])) == Ok(filled) && |filled.records| == |NonBlank(lines[..i])|
  }

  /** Without the file access: the output text, or the number of the offending line. */
  method BackfillHashes(p: Platform, clock: nat -> string, input: string)
    returns (count: nat, r: Result<string, (nat, Reason)>)
    ensures r.Ok? <==> Fill(p, clock, ReadLines(input)).Ok?
    ensures r.Ok? ==> var records := Fill(p, clock, ReadLines(input)).value.records;
              r.value == FileOf(p, records) && count == |records|
    ensures r.Err? ==> FirstBadLine(p, clock, Split(input, '\n'), r.error.0, r.error.1, count)
  {
    var lines := Split(input, '\n');
    var out: seq<string> := [];
    var prevByJob: map<string, string> := map[];
    ghost var records: seq<Fields> := [];
    count := 0;
    for i := 0 to |lines|
      invariant FilledSoFar(p, clock, lines, i, Filled(records, prevByJob))
      invariant out == EncodeAll(p, records) && count == |records|
    {
      var line := TrimSpace(lines[i]);
      if line == "" {
        SkipLine(p, clock, lines, i, Filled(records, prevByJob));
        continue;
      }
      var one := LinkNextLine(p, clock, lines, i, prevByJob, clock(count), records);
      if one.Err? {
        return count, Err((i + 1, one.error));
      }
      EncodeOneMore(p, records, one.value.0);
      prevByJob := one.value.1;
      out := out + [p.encode(Obj(one.value.0))];
      records := records + [one.value.0];
      count := count + 1;
    }
    assert lines[..|lines|] == lines;
    r := Ok(Join(out) + "\n");
  }

  lemma EncodeOneMore(p: Platform, records: seq<Fields>, f: Fields)
    ensures EncodeAll(p, records + [f]) == EncodeAll(p, records) + [p.encode(Obj(f))]
  {
  }

  lemma SkipLine(p: Platform, clock: nat -> string, lines: seq<string>, i: nat, before: Filled)
    requires i < |lines| && TrimSpace(lines[i]) == "" && FilledSoFar(p, clock, lines, i, before)
    ensures FilledSoFar(p, clock, lines, i + 1, before)
  {
    NextLine(p, clock, lines, i, before);
  }

  /** The next line, which is not blank: its record follows the earlier ones, or it is the first bad line. */
  method LinkNextLine(p: Platform, ghost clock: nat -> string, lines: seq<string>, i: nat,
                      prevByJob: map<string, string>, now: string, ghost records: seq<Fields>)
    returns (r: Result<(Fields, map<string, string>), Reason>)
    requires i < |lines| && TrimSpace(lines[i]) != "" && now == clock(|records|)
    requires FilledSoFar(p, clock, lines, i, Filled(records, prevByJob))
    ensures r.Ok? ==> FilledSoFar(p, clock, lines, i + 1, Filled(records + [r.value.0], r.value.1))
    ensures r.Err? ==> FirstBadLine(p, clock, lines, i + 1, r.error, |records|) && Fill(p, clock, NonBlank(lines)).Err?
  {
    ghost var before := Filled(records, prevByJob);
    NextLine(p, clock, lines, i, before);
    r := LinkLine(p, prevByJob, TrimSpace(lines[i]), now, before);
  }

  /** One line decoded, linked behind its job's last event, and that job's last hash moved on. */
  method LinkLine(p: Platform, prevByJob: map<string, string>, line: string, now: string, ghost before: Filled)
    returns (r: Result<(Fields, map<string, string>), Reason>)
    requires before.last == prevByJob
    ensures r.Ok? ==> FillLine(p, before, line, now) == Ok(Filled(before.records + [r.value.0], r.value.1))
    ensures r.Err? ==> FillLine(p, before, line, now) == Err(r.error)
  {
    var m := DecodeMap(p, line);
    if m.None? {
      return Err(Unparsable);
    }
    var event := EventOf(p, m.value, now);
    if event.Err? {
      return Err(event.error);
    }
    var e := event.value.(prevHash := PrevOf(prevByJob, event.value.jobID));
    e := e.(hash := ComputeEventHash(p, e));
    var fields := m.value["prev_hash" := Str(e.prevHash)];
    fields := fields["hash" := Str(e.hash)];
    assert e == Linked(p, event.value, PrevOf(prevByJob, event.value.jobID)) && fields == Record(m.value, e);
    return Ok((fields, prevByJob[e.jobID := e.hash]));
  }

  lemma OneMoreLine(p: Platform, clock: nat -> string, lines: seq<string>, i: nat)
    requires i < |lines|
    ensures var known, line := NonBlank(lines[..i]), TrimSpace(lines[i]);
      && NonBlank(lines[..i + 1]) == known + (if line == "" then [] else [line])
      && (line == "" ==> NonBlank(lines[..i + 1]) == known)
      && (line != "" && Fill(p, clock, known).Ok? ==>
            Fill(p, clock, NonBlank(lines[..i + 1])) == FillLine(p, Fill(p, clock, known).value, line, clock(|known|)))
      && (Fill(p, clock, known).Err? ==> Fill(p, clock, NonBlank(lines[..i + 1])) == Fill(p, clock, known))
  {
    var known, line := NonBlank(lines[..i]), TrimSpace(lines[i]);
    assert lines[..i + 1][..i] == lines[..i];
    assert (known + [line])[..|known|] == known;
    assert known + [] == known;
  }

  /** What handling line `i` leads to. */
  lemma NextLine(p: Platform, clock: nat -> string, lines: seq<string>, i: nat, before: Filled)
    requires i < |lines| && FilledSoFar(p, clock, lines, i, before)
    ensures var line := TrimSpace(lines[i]); var one := FillLine(p, before, line, clock(|before.records|));
      && (line == "" ==> FilledSoFar(p, clock, lines, i + 1, before))
      && (line != "" && one.Err? ==>
            && FirstBadLine(p, clock, lines, i + 1, one.error, |before.records|)
            && Fill(p, clock, NonBlank(lines)).Err?)
      && (line != "" && one.Ok? && |one.value.records| == |before.records| + 1 ==>
            FilledSoFar(p, clock, lines, i + 1, one.value))
  {
    OneMoreLine(p, clock, lines, i);
    if Fill(p, clock, NonBlank(lines[..i + 1])).Err? {
      ErrorInPrefix(p, clock, lines, i + 1);
    }
  }

  lemma {:induction false} ErrorInPrefix(p: Platform, clock: nat -> string, lines: seq<string>, n: nat)
    requires n <= |lines| && Fill(p, clock, NonBlank(lines[..n])).Err?
    ensures Fill(p, clock, NonBlank(lines)).Err?
    decreases |lines| - n
  {
    if n == |lines| {
      assert lines[..n] == lines;
    } else {
      OneMoreLine(p, clock, lines, n);
      ErrorInPrefix(p, clock, lines, n + 1);
    }
  }

  // ---------- what is hashed ----------

  /** A non-empty text under this key. */
  ghost predicate Says(f: Fields, key: string, s: string) {
    s != "" && key in f && f[key] == Str(s)
  }

  /** The payload text of a record: its string as it is, `null` for none, and for any other value a text that
      decodes to it. */
  ghost predicate TellsPayload(p: Platform, f: Fields, payload: string) {
    if "payload" !in f || f["payload"] == Null then payload == "null"
    else if f["payload"].Str? then f["payload"] == Str(payload)
    else p.decode(payload) == Some(f["payload"])
  }

  /** What the event of a record is made of, and what keeps a record from being one, in the order of the
      checks. */
  lemma EventSays(p: Platform, f: Fields, now: string)
    requires p.Lawful()
    ensures match EventOf(p, f, now)
            case Ok(e) =>
              && Says(f, "job_id", e.jobID) && Says(f, "type", e.eventType) && TellsPayload(p, f, e.payload)
              && (if "id" in f && f["id"].Str? then f["id"] == Str(e.id) else e.id == "")
              && (if exists s :: Says(f, "created_at", s) then p.parseTime(f["created_at"].s) == Some(e.createdAt)
                  else e.createdAt == now)
            case Err(MissingJobID) => forall s :: !Says(f, "job_id", s)
            case Err(MissingType) => (exists s :: Says(f, "job_id", s)) && forall s :: !Says(f, "type", s)
            case Err(InvalidCreatedAt) =>
              && (exists s :: Says(f, "job_id", s)) && (exists s :: Says(f, "type", s))
              && exists s :: Says(f, "created_at", s) && p.parseTime(s).None?
            case Err(Unparsable) => false
  {
    SaysIff(f, "job_id");
    SaysIff(f, "type");
    SaysIff(f, "created_at");
    if "payload" in f {
      assert p.decode(p.encode(f["payload"])) == Some(f["payload"]);
    }
  }

  lemma SaysIff(f: Fields, key: string)
    ensures TextOr(f, key) != "" ==> Says(f, key, TextOr(f, key))
    ensures TextOr(f, key) == "" ==> forall s :: !Says(f, key, s)
  {
  }

  // ---------- what the output records say ----------

  ghost predicate Dated(f: Fields) {
    TextOr(f, "created_at") != ""
  }

  /** Linking a record changes nothing an event is made from. */
  lemma RecordKeepsEvent(p: Platform, f: Fields, e: Event, now: string)
    ensures EventOf(p, Record(f, e), now) == EventOf(p, f, now)
    ensures Dated(Record(f, e)) <==> Dated(f)
  {
    var g := Record(f, e);
    RecordKeepsFields(f, e, "id");
    RecordKeepsFields(f, e, "job_id");
    RecordKeepsFields(f, e, "type");
    RecordKeepsFields(f, e, "created_at");
    RecordKeepsFields(f, e, "payload");
  }

  lemma RecordKeepsFields(f: Fields, e: Event, key: string)
    requires key != "prev_hash" && key != "hash"
    ensures TextOr(Record(f, e), key) == TextOr(f, key)
    ensures (key in Record(f, e) <==> key in f) && (key in f ==> Record(f, e)[key] == f[key])
  {
  }

  /** The event a dated output record stores, link and hash included. */
  function Stored(p: Platform, f: Fields): Result<Event, Reason> {
    match EventOf(p, f, "")
    case Err(e) => Err(e)
    case Ok(e) => Ok(e.(prevHash := TextOr(f, "prev_hash"), hash := TextOr(f, "hash")))
  }

  lemma RecordStores(p: Platform, f: Fields, e: Event, now: string, prev: string)
    requires Dated(f) && EventOf(p, f, now) == Ok(e)
    ensures Stored(p, Record(f, Linked(p, e, prev))) == Ok(Linked(p, e, prev))
  {
    RecordKeepsEvent(p, f, Linked(p, e, prev), now);
    RecordKeepsEvent(p, f, Linked(p, e, prev), "");
    var g := Record(f, Linked(p, e, prev));
    assert AsString(g, "hash") == Some(Linked(p, e, prev).hash);
    assert AsString(g, "prev_hash") == Some(prev);
  }

  /** The stored events of one job, in file order. */
  function JobEvents(p: Platform, records: seq<Fields>, jobID: string): seq<Event> {
    if records == [] then []
    else
      var before := JobEvents(p, records[..|records| - 1], jobID);
      match Stored(p, records[|records| - 1])
      case Err(_) => before
      case Ok(e) => if e.jobID == jobID then before + [e] else before
  }

  /** One record per line, in order, each the decoded line with only its link and hash replaced. */
  ghost predicate KeepsContent(p: Platform, lines: seq<string>, records: seq<Fields>) {
    && |records| == |lines|
    && forall i | 0 <= i < |lines| ::
         DecodeMap(p, lines[i]).Some? && SameButLinks(records[i], DecodeMap(p, lines[i]).value)
  }

  lemma {:induction false} OrderAndContentAreKept(p: Platform, clock: nat -> string, lines: seq<string>)
    requires Fill(p, clock, lines).Ok?
    ensures KeepsContent(p, lines, Fill(p, clock, lines).value.records)
  {
    if lines != [] {
      var n := |lines| - 1;
      OrderAndContentAreKept(p, clock, lines[..n]);
      var before := Fill(p, clock, lines[..n]).value;
      FillLineAddsOneRecord(p, before, lines[n], clock(n));
      OneMoreRecord(p, lines, Fill(p, clock, lines).value.records);
    }
  }

  lemma OneMoreRecord(p: Platform, lines: seq<string>, records: seq<Fields>)
    requires lines != [] && |records| == |lines| && KeepsContent(p, lines[..|lines| - 1], records[..|lines| - 1])
    requires var n := |lines| - 1;
      DecodeMap(p, lines[n]).Some? && SameButLinks(records[n], DecodeMap(p, lines[n]).value)
    ensures KeepsContent(p, lines, records)
  {
    var n := |lines| - 1;
    forall i | 0 <= i < n
      ensures DecodeMap(p, lines[i]).Some? && SameButLinks(records[i], DecodeMap(p, lines[i]).value)
    {
      assert lines[..n][i] == lines[i] && records[..n][i] == records[i];
    }
  }

  lemma FillLineAddsOneRecord(p: Platform, before: Filled, line: string, now: string)
    requires FillLine(p, before, line, now).Ok?
    ensures DecodeMap(p, line).Some?
    ensures var records := FillLine(p, before, line, now).value.records;
      && |records| == |before.records| + 1 && records[..|before.records|] == before.records
      && SameButLinks(records[|before.records|], DecodeMap(p, line).value)
  {
    var f := DecodeMap(p, line).value;
    var unlinked := EventOf(p, f, now).value;
    LinksOnly(f, Linked(p, unlinked, PrevOf(before.last, unlinked.jobID)));
  }

  lemma LinksOnly(f: Fields, e: Event)
    ensures SameButLinks(Record(f, e), f)
  {
  }

  ghost predicate SameButLinks(a: Fields, b: Fields) {
    a - {"prev_hash", "hash"} == b - {"prev_hash", "hash"}
  }

  lemma OneMoreJobEvent(p: Platform, records: seq<Fields>, f: Fields, e: Event, jobID: string)
    requires Stored(p, f) == Ok(e)
    ensures JobEvents(p, records + [f], jobID) ==
            JobEvents(p, records, jobID) + if e.jobID == jobID then [e] else []
  {
    assert (records + [f])[..|records|] == records;
  }

  /** The last line was handled on top of what the lines before it gave. */
  lemma LastLine(p: Platform, clock: nat -> string, lines: seq<string>) returns (before: Filled, f: Fields)
    requires lines != [] && Fill(p, clock, lines).Ok?
    ensures var n := |lines| - 1; var after := Fill(p, clock, lines);
      && Fill(p, clock, lines[..n]) == Ok(before) && FillOne(p, before, f, clock(n)) == after
      && |before.records| == n && |after.value.records| == n + 1 && after.value.records[..n] == before.records
  {
    var n := |lines| - 1;
    before := Fill(p, clock, lines[..n]).value;
    f := DecodeMap(p, lines[n]).value;
    OrderAndContentAreKept(p, clock, lines[..n]);
    FillLineAddsOneRecord(p, before, lines[n], clock(n));
  }

  ghost predicate AllDated(records: seq<Fields>) {
    forall i | 0 <= i < |records| :: Dated(records[i])
  }

  /** The records of this job are dated; others need not be. */
  ghost predicate JobDated(records: seq<Fields>, jobID: string) {
    forall i | 0 <= i < |records| && TextOr(records[i], "job_id") == jobID :: Dated(records[i])
  }

  /** Whatever the interleaving and whatever the other jobs' records, the events of a job whose records are
      dated form a valid chain of their own. */
  lemma {:induction false} EveryJobIsAChain(p: Platform, clock: nat -> string, lines: seq<string>, jobID: string)
    requires Fill(p, clock, lines).Ok? && JobDated(Fill(p, clock, lines).value.records, jobID)
    ensures JobOk(p, Fill(p, clock, lines).value, jobID)
  {
    if lines != [] {
      var n := |lines| - 1;
      var before, f := LastLine(p, clock, lines);
      DatedPrefix(Fill(p, clock, lines).value.records, jobID, n);
      EveryJobIsAChain(p, clock, lines[..n], jobID);
      FillOneExtendsItsJob(p, before, f, clock(n), jobID);
    }
  }

  lemma DatedPrefix(records: seq<Fields>, jobID: string, n: nat)
    requires n <= |records| && JobDated(records, jobID)
    ensures JobDated(records[..n], jobID)
  {
  }

  ghost predicate JobOk(p: Platform, filled: Filled, jobID: string) {
    && ValidChain(p, JobEvents(p, filled.records, jobID))
    && PrevOf(filled.last, jobID) == LastHash(JobEvents(p, filled.records, jobID))
  }

  lemma FillOneExtendsItsJob(p: Platform, before: Filled, f: Fields, now: string, jobID: string)
    requires FillOne(p, before, f, now).Ok? && JobOk(p, before, jobID)
    requires var g := FillOne(p, before, f, now).value.records[|before.records|];
      TextOr(g, "job_id") == jobID ==> Dated(g)
    ensures JobOk(p, FillOne(p, before, f, now).value, jobID)
  {
    var unlinked := EventOf(p, f, now).value;
    var prev := PrevOf(before.last, unlinked.jobID);
    var e := Linked(p, unlinked, prev);
    RecordKeepsEvent(p, f, e, "");
    RecordKeepsFields(f, e, "job_id");
    if e.jobID == jobID {
      RecordStores(p, f, unlinked, now, prev);
      OneMoreJobEvent(p, before.records, Record(f, e), e, jobID);
      ExtendChain(p, JobEvents(p, before.records, jobID), e);
    } else {
      OtherJobsAreSkipped(p, before.records, Record(f, e), jobID);
    }
  }

  lemma OtherJobsAreSkipped(p: Platform, records: seq<Fields>, f: Fields, jobID: string)
    requires TextOr(f, "job_id") != jobID
    ensures JobEvents(p, records + [f], jobID) == JobEvents(p, records, jobID)
  {
    assert (records + [f])[..|records|] == records;
  }

  lemma ExtendChain(p: Platform, chain: seq<Event>, e: Event)
    requires ValidChain(p, chain) && e.prevHash == LastHash(chain) && e.hash == ComputeEventHash(p, e)
    ensures ValidChain(p, chain + [e])
  {
    var longer := chain + [e];
    assert longer[..|chain|] == chain;
    assert LinkOk(p, longer, |chain|);
    ChainStep(p, longer, |chain|);
    assert longer[..|chain| + 1] == longer;
  }

  // ---------- running it again ----------

  /** Printing the records and reading them back gives one clean line per record. */
  lemma OutputReadsBack(p: Platform, records: seq<Fields>)
    requires p.Lawful()
    ensures ReadLines(FileOf(p, records)) == EncodeAll(p, records)
  {
    var lines := EncodeAll(p, records);
    forall l | l in lines ensures CleanLine(l) {
      var i :| 0 <= i < |lines| && lines[i] == l;
      assert CleanLine(p.encode(Obj(records[i])));
    }
    if lines == [] {
      BlankFileHasNoLines();
      assert "" + "\n" == "\n";
    } else {
      JoinThenNewline(lines);
      ReadInvertsPrint(lines);
    }
  }

  lemma BlankFileHasNoLines()
    ensures ReadLines("\n") == []
  {
    assert Split("\n"[1..], '\n') == [""];
    assert Split("\n", '\n') == ["", ""];
    assert NonBlank(["", ""][..1]) == [];
  }

  lemma {:induction false} JoinThenNewline(lines: seq<string>)
    requires lines != []
    ensures Join(lines) + "\n" == PrintLines(lines)
  {
    if |lines| == 1 {
      assert PrintLines(lines[..0]) == "";
    } else {
      JoinThenNewline(lines[..|lines| - 1]);
    }
  }

  /** The event of an undated record as it is hashed at time `t`. */
  function HashedAt(p: Platform, f: Fields, t: string): Event
    requires EventOf(p, f, t).Ok?
  {
    EventOf(p, f, t).value.(prevHash := TextOr(f, "prev_hash"))
  }

  ghost predicate Colliding(p: Platform, a: Event, b: Event) {
    Preimage(a) != Preimage(b) && p.hash(Preimage(a)) == p.hash(Preimage(b))
  }

  /** A record hashed at time `s` gets the same hash at time `t`: it is dated, no time has passed, or its own
      two events collide. */
  ghost predicate KeepsItsHash(p: Platform, f: Fields, s: string, t: string) {
    || Dated(f) || s == t
    || (EventOf(p, f, s).Ok? && EventOf(p, f, t).Ok? && Colliding(p, HashedAt(p, f, s), HashedAt(p, f, t)))
  }

  lemma TimesShowInPreimages(e: Event, later: string)
    ensures e.createdAt != later ==> Preimage(e) != Preimage(e.(createdAt := later))
  {
    var head, tail := HeaderAndPayload(e) + "|", "|" + e.prevHash;
    assert Preimage(e) == head + e.createdAt + tail && Preimage(e.(createdAt := later)) == head + later + tail;
    if Preimage(e) == Preimage(e.(createdAt := later)) {
      MiddlesCancel(head, e.createdAt, later, tail);
    }
  }

  lemma MiddlesCancel(head: string, x: string, y: string, tail: string)
    requires head + x + tail == head + y + tail
    ensures x == y
  {
    assert |x| == |y|;
    assert (head + x + tail)[|head|..|head| + |x|] == x && (head + y + tail)[|head|..|head| + |y|] == y;
  }

  lemma EventAtAnotherTime(p: Platform, f: Fields, s: string, t: string)
    requires EventOf(p, f, s).Ok?
    ensures Dated(f) ==> EventOf(p, f, t) == EventOf(p, f, s)
    ensures !Dated(f) ==>
            EventOf(p, f, s).value.createdAt == s && EventOf(p, f, t) == Ok(EventOf(p, f, s).value.(createdAt := t))
  {
  }

  /** A record handled again on top of the same predecessors is reproduced exactly when it keeps its hash. */
  lemma RerunOneIff(p: Platform, before: Filled, f: Fields, now: string, later: string)
    requires FillOne(p, before, f, now).Ok?
    ensures var after := FillOne(p, before, f, now).value; var g := after.records[|before.records|];
      var again := FillOne(p, before, g, later);
      && again.Ok? && |again.value.records| == |before.records| + 1
      && (again.value.records[|before.records|] == g <==> KeepsItsHash(p, g, now, later))
      && (again.value.records[|before.records|] == g ==> again.value == after)
  {
    var unlinked := EventOf(p, f, now).value;
    var prev := PrevOf(before.last, unlinked.jobID);
    var e := Linked(p, unlinked, prev);
    var g := Record(f, e);
    RecordKeepsEvent(p, f, e, now);
    RecordKeepsEvent(p, f, e, later);
    EventAtAnotherTime(p, g, now, later);
    RecordShowsLink(f, e);
    var e' := Linked(p, EventOf(p, g, later).value, prev);
    RecordedAgainIff(f, e, e');
    assert HashedAt(p, g, now) == unlinked.(prevHash := prev)
      && HashedAt(p, g, later) == EventOf(p, g, later).value.(prevHash := prev);
    TimesShowInPreimages(unlinked.(prevHash := prev), later);
  }

  lemma RecordShowsLink(f: Fields, e: Event)
    ensures TextOr(Record(f, e), "prev_hash") == e.prevHash && TextOr(Record(f, e), "hash") == e.hash
  {
    var g := Record(f, e);
    assert AsString(g, "prev_hash") == Some(e.prevHash) && AsString(g, "hash") == Some(e.hash);
  }

  lemma RecordedAgainIff(f: Fields, e: Event, e': Event)
    requires e'.prevHash == e.prevHash
    ensures Record(Record(f, e), e') == Record(f, e) <==> e'.hash == e.hash
  {
    assert Record(f, e)["hash"] == Str(e.hash) && Record(Record(f, e), e')["hash"] == Str(e'.hash);
    if e'.hash == e.hash {
      assert Record(Record(f, e), e') == Record(f, e);
    }
  }

  /** An undated record handled again at a different time: the two preimages differ, and the record is
      reproduced exactly when their digests do not. */
  lemma UndatedRecordIsNotStable(p: Platform, before: Filled, f: Fields, now: string, later: string)
    requires !Dated(f) && FillOne(p, before, f, now).Ok? && now != later
    ensures var g := FillOne(p, before, f, now).value.records[|before.records|];
      && EventOf(p, g, now).Ok? && EventOf(p, g, later).Ok?
      && var a, b, again := HashedAt(p, g, now), HashedAt(p, g, later), FillOne(p, before, g, later);
      && again.Ok? && Preimage(a) != Preimage(b)
      && (again.value.records[|before.records|] == g <==> ComputeEventHash(p, a) == ComputeEventHash(p, b))
  {
    var unlinked := EventOf(p, f, now).value;
    var e := Linked(p, unlinked, PrevOf(before.last, unlinked.jobID));
    var g := Record(f, e);
    RecordKeepsEvent(p, f, e, now);
    EventAtAnotherTime(p, g, now, later);
    TimesShowInPreimages(HashedAt(p, g, now), later);
    RerunOneIff(p, before, f, now, later);
  }

  ghost predicate AllKeepTheirHashes(p: Platform, records: seq<Fields>, clock: nat -> string, later: nat -> string) {
    forall i | 0 <= i < |records| :: KeepsItsHash(p, records[i], clock(i), later(i))
  }

  /** What a rerun made of an output: the same records exactly when each keeps its hash. */
  ghost predicate ReproducesIff(p: Platform, clock: nat -> string, later: nat -> string, filled: Filled,
                                again: Filled)
  {
    && (again.records == filled.records <==> AllKeepTheirHashes(p, filled.records, clock, later))
    && (again.records == filled.records ==> again == filled)
  }

  /** Running the backfill on its own output goes through and reproduces the records exactly when each
      keeps its hash. */
  lemma {:induction false} RerunReproducesIff(p: Platform, clock: nat -> string, later: nat -> string,
                                              lines: seq<string>)
    requires p.Lawful() && Fill(p, clock, lines).Ok?
    ensures var filled := Fill(p, clock, lines).value; var again := Fill(p, later, EncodeAll(p, filled.records));
      again.Ok? && ReproducesIff(p, clock, later, filled, again.value)
  {
    if lines == [] {
      assert EncodeAll(p, []) == [];
    } else {
      var n := |lines| - 1;
      var after := Fill(p, clock, lines).value;
      var before, f := LastLine(p, clock, lines);
      RerunReproducesIff(p, clock, later, lines[..n]);
      var at := Fill(p, later, EncodeAll(p, before.records)).value;
      DecodesBack(p, after.records[n]);
      RerunLastLine(p, later, after.records, at);
      RerunLast(p, clock, later, before, f, after, at);
    }
  }

  lemma RerunLast(p: Platform, clock: nat -> string, later: nat -> string, before: Filled, f: Fields, after: Filled,
                  at: Filled)
    requires FillOne(p, before, f, clock(|before.records|)) == Ok(after) && ReproducesIff(p, clock, later, before, at)
    ensures var n := |before.records|; var again := FillOne(p, at, after.records[n], later(n));
      again.Ok? && ReproducesIff(p, clock, later, after, again.value)
  {
    var n := |before.records|;
    var g := after.records[n];
    assert after.records[..n] == before.records;
    RerunOneIff(p, before, f, clock(n), later(n));
    GoesThroughAnywhere(p, before, at, g, later(n));
    AllButTheLast(p, after.records, clock, later);
    LastDecides(at.records, FillOne(p, at, g, later(n)).value.records, before.records, after.records);
  }

  lemma RerunLastLine(p: Platform, later: nat -> string, records: seq<Fields>, at: Filled)
    requires records != []
    requires var n := |records| - 1;
      && DecodeMap(p, p.encode(Obj(records[n]))) == Some(records[n])
      && Fill(p, later, EncodeAll(p, records[..n])) == Ok(at)
    ensures Fill(p, later, EncodeAll(p, records)) == FillOne(p, at, records[|records| - 1], later(|records| - 1))
  {
    EncodeAllButTheLast(p, records);
    FillLast(p, later, EncodeAll(p, records), at, records[|records| - 1]);
  }

  lemma EncodeAllButTheLast(p: Platform, records: seq<Fields>)
    requires records != []
    ensures var n := |records| - 1;
      && |EncodeAll(p, records)| == n + 1
      && EncodeAll(p, records)[..n] == EncodeAll(p, records[..n])
      && EncodeAll(p, records)[n] == p.encode(Obj(records[n]))
  {
  }

  lemma FillLast(p: Platform, clock: nat -> string, lines: seq<string>, at: Filled, f: Fields)
    requires lines != [] && Fill(p, clock, lines[..|lines| - 1]) == Ok(at)
    requires DecodeMap(p, lines[|lines| - 1]) == Some(f)
    ensures Fill(p, clock, lines) == FillOne(p, at, f, clock(|lines| - 1))
  {
    var n := |lines| - 1;
    assert Fill(p, clock, lines) == FillLine(p, at, lines[n], clock(n));
  }

  lemma LastDecides(x: seq<Fields>, x': seq<Fields>, y: seq<Fields>, y': seq<Fields>)
    requires |x'| == |x| + 1 && x'[..|x|] == x && |y'| == |y| + 1 && y'[..|y|] == y
    ensures x' == y' <==> x == y && x'[|x|] == y'[|y|]
  {
    assert x' == x + [x'[|x|]] && y' == y + [y'[|y|]];
  }

  lemma GoesThroughAnywhere(p: Platform, before: Filled, at: Filled, f: Fields, now: string)
    requires FillOne(p, before, f, now).Ok?
    ensures FillOne(p, at, f, now).Ok?
    ensures var r := FillOne(p, at, f, now).value.records; |r| == |at.records| + 1 && r[..|at.records|] == at.records
  {
  }

  lemma AllButTheLast(p: Platform, records: seq<Fields>, clock: nat -> string, later: nat -> string)
    requires records != []
    ensures var n := |records| - 1;
      AllKeepTheirHashes(p, records, clock, later) <==>
      AllKeepTheirHashes(p, records[..n], clock, later) && KeepsItsHash(p, records[n], clock(n), later(n))
  {
    var n := |records| - 1;
    assert forall i | 0 <= i < n :: records[..n][i] == records[i];
  }

  lemma DecodesBack(p: Platform, f: Fields)
    requires p.Lawful()
    ensures DecodeMap(p, p.encode(Obj(f))) == Some(f)
  {
    assert p.decode(p.encode(Obj(f))) == Some(Obj(f));
  }

  /** In particular a file of dated records is reproduced at any later time. */
  lemma RerunIsStable(p: Platform, clock: nat -> string, later: nat -> string, lines: seq<string>)
    requires p.Lawful() && Fill(p, clock, lines).Ok? && AllDated(Fill(p, clock, lines).value.records)
    ensures Fill(p, later, EncodeAll(p, Fill(p, clock, lines).value.records)) == Fill(p, clock, lines)
  {
    RerunReproducesIff(p, clock, later, lines);
  }

  function FileOf(p: Platform, records: seq<Fields>): string {
    Join(EncodeAll(p, records)) + "\n"
  }

  lemma FilesTellRecordsApart(p: Platform, a: seq<Fields>, b: seq<Fields>)
    requires p.Lawful()
    ensures FileOf(p, a) == FileOf(p, b) <==> a == b
  {
    OutputReadsBack(p, a);
    OutputReadsBack(p, b);
    if FileOf(p, a) == FileOf(p, b) {
      var x, y := EncodeAll(p, a), EncodeAll(p, b);
      assert |a| == |x| == |y| == |b|;
      forall i | 0 <= i < |a| ensures a[i] == b[i] {
        assert x[i] == p.encode(Obj(a[i])) && y[i] == p.encode(Obj(b[i]));
        DecodesBack(p, a[i]);
        DecodesBack(p, b[i]);
      }
    }
  }

  /** As texts: the backfill goes through on its own output file, and writes the same file again exactly
      when every record keeps its hash. */
  lemma OutputIsAFixedPointIff(p: Platform, clock: nat -> string, later: nat -> string, input: string)
    requires p.Lawful() && Fill(p, clock, ReadLines(input)).Ok?
    ensures var records := Fill(p, clock, ReadLines(input)).value.records;
      var again := Fill(p, later, ReadLines(FileOf(p, records)));
      && again.Ok?
      && (FileOf(p, again.value.records) == FileOf(p, records) <==> AllKeepTheirHashes(p, records, clock, later))
  {
    var records := Fill(p, clock, ReadLines(input)).value.records;
    OutputReadsBack(p, records);
    RerunReproducesIff(p, clock, later, ReadLines(input));
    FilesTellRecordsApart(p, Fill(p, later, ReadLines(FileOf(p, records))).value.records, records);
  }

  // ---------- the output as an event file ----------

  /** The events of one job, in order. */
  function OfJob(events: seq<Event>, jobID: string): seq<Event> {
    if events == [] then []
    else
      var last := events[|events| - 1];
      OfJob(events[..|events| - 1], jobID) + if last.jobID == jobID then [last] else []
  }

  /** The record reads as the event that was hashed: its payload is a string and its time the one it was hashed
      with. Otherwise the two must collide: no payload is hashed as `null` and read as the empty text. */
  ghost predicate ReadAsHashed(p: Platform, f: Fields, now: string, e: Event) {
    || ("payload" in f && f["payload"].Str? && (Dated(f) || e.createdAt == now))
    || (EventOf(p, f, now).Ok? && Colliding(p, HashedAt(p, f, now), e))
  }

  lemma ExtendChainIff(p: Platform, chain: seq<Event>, e: Event)
    ensures ValidChain(p, chain + [e]) <==>
            ValidChain(p, chain) && e.prevHash == LastHash(chain) && e.hash == ComputeEventHash(p, e)
  {
    var longer := chain + [e];
    assert longer[..|chain|] == chain;
    if ValidChain(p, longer) {
      assert LinkOk(p, longer, |chain|);
      forall i | 0 <= i < |chain| ensures LinkOk(p, chain, i) {
        assert LinkOk(p, longer, i);
      }
    } else if ValidChain(p, chain) && e.prevHash == LastHash(chain) && e.hash == ComputeEventHash(p, e) {
      ExtendChain(p, chain, e);
    }
  }

  /** The fields of a record and of the event read from it. */
  lemma ReadSays(p: Platform, f: Fields, now: string, e: Event)
    requires Evidence.EventFromFields(p, f) == Some(e) && EventOf(p, f, now).Ok?
    ensures var a := HashedAt(p, f, now);
      && e.jobID == a.jobID == TextOr(f, "job_id") && e.eventType == a.eventType && e.prevHash == a.prevHash
      && e.hash == TextOr(f, "hash")
      && (if "payload" in f && f["payload"].Str? then e.payload == a.payload
          else e.payload == "" && a.payload == "null")
      && if Dated(f) then e.createdAt == a.createdAt else a.createdAt == now
  {
  }

  lemma NullIsHashedDifferently(a: Event, b: Event)
    requires a.jobID == b.jobID && a.eventType == b.eventType && a.payload == "null" && b.payload == ""
    ensures Preimage(a) != Preimage(b)
  {
    var head := a.jobID + "|" + a.eventType + "|";
    assert Preimage(a) == head + "null|" + a.createdAt + "|" + a.prevHash;
    assert Preimage(b) == head + "|" + b.createdAt + "|" + b.prevHash;
    assert Preimage(a)[|head|] == 'n' && Preimage(b)[|head|] == '|';
  }

  lemma SameTextIsHashedAlikeIff(a: Event, b: Event)
    requires a.jobID == b.jobID && a.eventType == b.eventType && a.payload == b.payload && a.prevHash == b.prevHash
    ensures Preimage(a) == Preimage(b) <==> a.createdAt == b.createdAt
  {
    TimesShowInPreimages(a, b.createdAt);
    assert Preimage(a.(createdAt := b.createdAt)) == Preimage(b);
  }

  /** A record with the hash of its event at time `now` reads as an event with a right hash exactly when it
      reads as the event that was hashed. */
  lemma ReadHashIsRightIff(p: Platform, f: Fields, now: string, e: Event)
    requires Evidence.EventFromFields(p, f) == Some(e) && EventOf(p, f, now).Ok?
    requires TextOr(f, "hash") == ComputeEventHash(p, HashedAt(p, f, now))
    ensures e.hash == ComputeEventHash(p, e) <==> ReadAsHashed(p, f, now, e)
  {
    var a := HashedAt(p, f, now);
    ReadSays(p, f, now, e);
    if "payload" in f && f["payload"].Str? {
      SameTextIsHashedAlikeIff(a, e);
    } else {
      NullIsHashedDifferently(a, e);
    }
  }

  /** The record just written and the event read from it. */
  lemma NewRecordReads(p: Platform, before: Filled, f: Fields, now: string, e: Event)
    requires FillOne(p, before, f, now).Ok?
    requires var g := FillOne(p, before, f, now).value.records[|before.records|];
      Evidence.EventFromFields(p, g) == Some(e)
    ensures var after := FillOne(p, before, f, now).value; var g := after.records[|before.records|];
      && after.last == before.last[e.jobID := e.hash] && e.prevHash == PrevOf(before.last, e.jobID)
      && (e.hash == ComputeEventHash(p, e) <==> ReadAsHashed(p, g, now, e))
  {
    var unlinked := EventOf(p, f, now).value;
    var linked := Linked(p, unlinked, PrevOf(before.last, unlinked.jobID));
    RecordKeepsEvent(p, f, linked, now);
    RecordShowsLink(f, linked);
    ReadSays(p, Record(f, linked), now, e);
    ReadHashIsRightIff(p, Record(f, linked), now, e);
  }

  /** The records read as these events. */
  ghost predicate ReadAs(p: Platform, records: seq<Fields>, events: seq<Event>) {
    |events| == |records| && forall i | 0 <= i < |records| :: Evidence.EventFromFields(p, records[i]) == Some(events[i])
  }

  ghost predicate JobReadsAsHashed(p: Platform, records: seq<Fields>, clock: nat -> string, events: seq<Event>,
                                   jobID: string)
    requires |events| == |records|
  {
    forall i | 0 <= i < |records| && events[i].jobID == jobID :: ReadAsHashed(p, records[i], clock(i), events[i])
  }

  lemma {:induction false} ReadJobIsAChainIff(p: Platform, clock: nat -> string, lines: seq<string>,
                                              events: seq<Event>, jobID: string)
    requires Fill(p, clock, lines).Ok? && ReadAs(p, Fill(p, clock, lines).value.records, events)
    ensures var filled := Fill(p, clock, lines).value;
      && PrevOf(filled.last, jobID) == LastHash(OfJob(events, jobID))
      && (ValidChain(p, OfJob(events, jobID)) <==> JobReadsAsHashed(p, filled.records, clock, events, jobID))
  {
    if lines != [] {
      var n := |lines| - 1;
      var before, f := LastLine(p, clock, lines);
      ReadJobIsAChainIff(p, clock, lines[..n], events[..n], jobID);
      NewRecordReads(p, before, f, clock(n), events[n]);
      LastOfJob(p, Fill(p, clock, lines).value.records, clock, events, jobID);
      OneMoreOfJob(p, before.last, events, jobID);
    }
  }

  /** The last event goes on from what its job has so far. */
  lemma OneMoreOfJob(p: Platform, last: map<string, string>, events: seq<Event>, jobID: string)
    requires events != []
    requires var n := |events| - 1;
      PrevOf(last, jobID) == LastHash(OfJob(events[..n], jobID)) && events[n].prevHash == PrevOf(last, events[n].jobID)
    ensures var n := |events| - 1; var e := events[n];
      && PrevOf(last[e.jobID := e.hash], jobID) == LastHash(OfJob(events, jobID))
      && (ValidChain(p, OfJob(events, jobID)) <==>
          ValidChain(p, OfJob(events[..n], jobID)) && (e.jobID == jobID ==> e.hash == ComputeEventHash(p, e)))
  {
    var n := |events| - 1;
    ExtendChainIff(p, OfJob(events[..n], jobID), events[n]);
    assert OfJob(events[..n], jobID) + [] == OfJob(events[..n], jobID);
  }

  lemma LastOfJob(p: Platform, records: seq<Fields>, clock: nat -> string, events: seq<Event>, jobID: string)
    requires |events| == |records| && events != []
    ensures var n := |events| - 1;
      JobReadsAsHashed(p, records, clock, events, jobID) <==>
      && JobReadsAsHashed(p, records[..n], clock, events[..n], jobID)
      && (events[n].jobID == jobID ==> ReadAsHashed(p, records[n], clock(n), events[n]))
  {
    var n := |events| - 1;
    assert forall i | 0 <= i < n :: records[..n][i] == records[i] && events[..n][i] == events[i];
  }

  /** The events in the text of an event file. */
  function EventsIn(p: Platform, text: string): Option<seq<Event>> {
    Ndjson.ReadRecords(Evidence.ParseEvent(p), text)
  }

  /** The file written reads as events exactly when every record does. */
  lemma OutputReadsAs(p: Platform, records: seq<Fields>, events: seq<Event>)
    requires p.Lawful()
    ensures EventsIn(p, FileOf(p, records)) == Some(events) <==> ReadAs(p, records, events)
  {
    OutputReadsBack(p, records);
    var lines := EncodeAll(p, records);
    Ndjson.EachLineIsARecord(Evidence.ParseEvent(p), lines, events);
    forall i | 0 <= i < |records|
      ensures Evidence.ParseEvent(p)(lines[i]) == Evidence.EventFromFields(p, records[i])
    {
      DecodesBack(p, records[i]);
    }
  }

  /** Read as the event file of an evidence package, the output makes of each job's events a valid chain
      exactly when every record of the job reads as the event that was hashed. */
  lemma BackfilledJobVerifiesIff(p: Platform, clock: nat -> string, lines: seq<string>, filled: Filled,
                                 events: seq<Event>, jobID: string)
    requires p.Lawful() && Fill(p, clock, lines) == Ok(filled)
    requires EventsIn(p, FileOf(p, filled.records)) == Some(events)
    ensures |events| == |filled.records|
    ensures ValidChain(p, OfJob(events, jobID)) <==> JobReadsAsHashed(p, filled.records, clock, events, jobID)
  {
    OutputReadsAs(p, filled.records, events);
    ReadJobIsAChainIff(p, clock, lines, events, jobID);
  }

  /** A record with a date, a string as payload and, if anything, a string as identifier. */
  ghost predicate IsPlain(f: Fields) {
    && Dated(f) && "payload" in f && f["payload"].Str?
    && ("id" !in f || f["id"] == Null || f["id"].Str?)
  }

  lemma PlainRecordReads(p: Platform, before: Filled, f: Fields, now: string)
    requires FillOne(p, before, f, now).Ok?
    ensures var g := FillOne(p, before, f, now).value.records[|before.records|];
      IsPlain(g) ==> Evidence.EventFromFields(p, g).Some?
  {
    var unlinked := EventOf(p, f, now).value;
    var linked := Linked(p, unlinked, PrevOf(before.last, unlinked.jobID));
    RecordKeepsEvent(p, f, linked, now);
    RecordShowsLink(f, linked);
  }

  lemma {:induction false} PlainRecordsRead(p: Platform, clock: nat -> string, lines: seq<string>)
    returns (events: seq<Event>)
    requires Fill(p, clock, lines).Ok? && forall f | f in Fill(p, clock, lines).value.records :: IsPlain(f)
    ensures ReadAs(p, Fill(p, clock, lines).value.records, events)
  {
    events := [];
    if lines != [] {
      var n := |lines| - 1;
      var before, f := LastLine(p, clock, lines);
      var records := Fill(p, clock, lines).value.records;
      assert forall g | g in before.records :: g in records;
      var first := PlainRecordsRead(p, clock, lines[..n]);
      PlainRecordReads(p, before, f, clock(n));
      assert records[n] in records;
      events := first + [Evidence.EventFromFields(p, records[n]).value];
    }
  }

  /** So a file of plain records becomes one that reads as events, those of each job being a valid chain. */
  lemma PlainFileVerifies(p: Platform, clock: nat -> string, lines: seq<string>, filled: Filled)
    requires p.Lawful() && Fill(p, clock, lines) == Ok(filled) && forall f | f in filled.records :: IsPlain(f)
    ensures var events := EventsIn(p, FileOf(p, filled.records));
      events.Some? && forall jobID :: ValidChain(p, OfJob(events.value, jobID))
  {
    var events := PlainRecordsRead(p, clock, lines);
    OutputReadsAs(p, filled.records, events);
    forall jobID ensures ValidChain(p, OfJob(events, jobID)) {
      BackfilledJobVerifiesIff(p, clock, lines, filled, events, jobID);
      PlainRecordsReadAsHashed(p, filled.records, clock, events, jobID);
    }
  }

  lemma PlainRecordsReadAsHashed(p: Platform, records: seq<Fields>, clock: nat -> string, events: seq<Event>,
                                 jobID: string)
    requires |events| == |records| && forall f | f in records :: IsPlain(f)
    ensures JobReadsAsHashed(p, records, clock, events, jobID)
  {
    assert forall i | 0 <= i < |records| :: records[i] in records;
  }

  lemma NullRecordCollides(p: Platform, f: Fields, now: string, e: Event)
    requires Dated(f) && ("payload" !in f || f["payload"] == Null)
    requires Evidence.EventFromFields(p, f) == Some(e) && ReadAsHashed(p, f, now, e)
    ensures Colliding(p, e.(payload := "null"), e)
  {
    ReadSays(p, f, now, e);
    assert Preimage(HashedAt(p, f, now)) == Preimage(e.(payload := "null"));
  }

  /** A dated record without a payload, or with the payload `null`, is hashed as `null` and read as the empty
      text: its job's events as read are no chain, unless the two collide. */
  lemma RecordWithoutPayloadIsRefused(p: Platform, clock: nat -> string, lines: seq<string>, filled: Filled,
                                      events: seq<Event>, i: nat)
    requires p.Lawful() && Fill(p, clock, lines) == Ok(filled)
    requires EventsIn(p, FileOf(p, filled.records)) == Some(events)
    requires i < |filled.records| && Dated(filled.records[i])
    requires "payload" !in filled.records[i] || filled.records[i]["payload"] == Null
    ensures |events| == |filled.records|
    ensures ValidChain(p, OfJob(events, events[i].jobID)) ==> Colliding(p, events[i].(payload := "null"), events[i])
  {
    OutputReadsAs(p, filled.records, events);
    BackfilledJobVerifiesIff(p, clock, lines, filled, events, events[i].jobID);
    if ValidChain(p, OfJob(events, events[i].jobID)) {
      NullRecordCollides(p, filled.records[i], clock(i), events[i]);
    }
  }
}
