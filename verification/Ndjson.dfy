/** Newline-delimited JSON files: one printed record per line. */
module Ndjson {
  import opened Wrappers
  import opened Text

  function PrintRecords<T>(print1: T -> string, records: seq<T>): string {
    if records == [] then ""
    else PrintRecords(print1, records[..|records| - 1]) + print1(records[|records| - 1]) + "\n"
  }

  function ParseLines<T>(parse: string -> Option<T>, lines: seq<string>): Option<seq<T>> {
    if lines == [] then Some([])
    else
      match (ParseLines(parse, lines[..|lines| - 1]), parse(lines[|lines| - 1]))
      case (Some(before), Some(last)) => Some(before + [last])
      case _ => None
  }

  /** The records on the non-blank lines, or nothing if one of them does not parse. */
  function ReadRecords<T>(parse: string -> Option<T>, text: string): Option<seq<T>> {
    ParseLines(parse, ReadLines(text))
  }

  method PrintNdjson<T>(print1: T -> string, records: seq<T>) returns (buf: string)
    ensures buf == PrintRecords(print1, records)
  {
    buf := "";
    for i := 0 to |records|
      invariant buf == PrintRecords(print1, records[..i])
    {
      buf := buf + print1(records[i]);
      buf := buf + "\n";
      assert records[..i + 1][..i] == records[..i];
    }
    assert records[..|records|] == records;
  }

  /** The first line, counted from one, that is not blank and does not parse. */
  ghost predicate FirstUnreadable<T>(parse: string -> Option<T>, text: string, line: nat) {
    var lines := Split(text, '\n');
    && 1 <= line <= |lines| && TrimSpace(lines[line - 1]) != "" && parse(TrimSpace(lines[line - 1])).None?
    && ReadableBefore(parse, lines, line - 1)
  }

  ghost predicate ReadableBefore<T>(parse: string -> Option<T>, lines: seq<string>, n: nat)
    requires n <= |lines|
  {
    forall i | 0 <= i < n :: TrimSpace(lines[i]) == "" || parse(TrimSpace(lines[i])).Some?
  }

  lemma UnreadableIsNotRead<T>(parse: string -> Option<T>, text: string, line: nat)
    requires FirstUnreadable(parse, text, line)
    ensures ReadRecords(parse, text) == None
  {
    var lines := Split(text, '\n');
    OneMoreLine(parse, lines, line - 1);
    ErrorInPrefix(parse, lines, line);
  }

  lemma FirstUnreadableIsUnique<T>(parse: string -> Option<T>, text: string, a: nat, b: nat)
    requires FirstUnreadable(parse, text, a) && FirstUnreadable(parse, text, b)
    ensures a == b
  {
    NothingReadsBeyond(parse, text, a);
    NothingReadsBeyond(parse, text, b);
  }

  lemma NothingReadsBeyond<T>(parse: string -> Option<T>, text: string, line: nat)
    requires FirstUnreadable(parse, text, line)
    ensures var lines := Split(text, '\n'); forall n | line <= n <= |lines| :: !ReadableBefore(parse, lines, n)
  {
    assert parse(TrimSpace(Split(text, '\n')[line - 1])).None?;
  }

  method ParseNdjson<T>(parse: string -> Option<T>, text: string) returns (r: Result<seq<T>, nat>)
    ensures r.Ok? ==> ReadRecords(parse, text) == Some(r.value)
    ensures r.Err? ==> ReadRecords(parse, text) == None && FirstUnreadable(parse, text, r.error)
  {
    var lines := Split(text, '\n');
    var records: seq<T> := [];
    for i := 0 to |lines|
      invariant ParseLines(parse, NonBlank(lines[..i])) == Some(records)
      invariant ReadableBefore(parse, lines, i)
    {
      var line := TrimSpace(lines[i]);
      OneMoreLine(parse, lines, i);
      if line == "" {
        continue;
      }
      var parsed := parse(line);
      if parsed.None? {
        ErrorInPrefix(parse, lines, i + 1);
        return Err(i + 1);
      }
      records := records + [parsed.value];
    }
    assert lines[..|lines|] == lines;
    return Ok(records);
  }

  /** Reading one more line skips a blank one, adds a record, or fails. */
  lemma OneMoreLine<T>(parse: string -> Option<T>, lines: seq<string>, i: nat)
    requires i < |lines|
    ensures var before, after := ParseLines(parse, NonBlank(lines[..i])), ParseLines(parse, NonBlank(lines[..i + 1]));
      var line := TrimSpace(lines[i]);
      after ==
        if line == "" then before
        else if before.Some? && parse(line).Some? then Some(before.value + [parse(line).value])
        else None
  {
    var known, line := NonBlank(lines[..i]), TrimSpace(lines[i]);
    assert lines[..i + 1][..i] == lines[..i];
    if line == "" {
      assert known + [] == known;
    } else {
      assert (known + [line])[..|known|] == known;
    }
  }

  lemma {:induction false} ErrorInPrefix<T>(parse: string -> Option<T>, lines: seq<string>, n: nat)
    requires n <= |lines| && ParseLines(parse, NonBlank(lines[..n])) == None
    ensures ParseLines(parse, NonBlank(lines)) == None
    decreases |lines| - n
  {
    if n == |lines| {
      assert lines[..n] == lines;
    } else {
      OneMoreLine(parse, lines, n);
      ErrorInPrefix(parse, lines, n + 1);
    }
  }

  /** Parsing inverts printing when each record prints as a clean line that parses back to it. */
  lemma ReadInvertsPrintRecords<T>(print1: T -> string, parse: string -> Option<T>, records: seq<T>)
    requires forall x | x in records :: CleanLine(print1(x)) && parse(print1(x)) == Some(x)
    ensures ReadRecords(parse, PrintRecords(print1, records)) == Some(records)
  {
    var lines := seq(|records|, i requires 0 <= i < |records| => print1(records[i]));
    PrintsLineByLine(print1, records, lines);
    ReadInvertsPrint(lines);
    ParsesLineByLine(print1, parse, records, lines);
  }

  lemma {:induction false} PrintsLineByLine<T>(print1: T -> string, records: seq<T>, lines: seq<string>)
    requires |lines| == |records| && forall i | 0 <= i < |lines| :: lines[i] == print1(records[i])
    ensures PrintRecords(print1, records) == PrintLines(lines)
  {
    if records != [] {
      PrintsLineByLine(print1, records[..|records| - 1], lines[..|lines| - 1]);
    }
  }

  lemma {:induction false} ParsesLineByLine<T>(print1: T -> string, parse: string -> Option<T>, records: seq<T>,
                                               lines: seq<string>)
    requires |lines| == |records| && forall i | 0 <= i < |lines| :: lines[i] == print1(records[i])
    requires forall x | x in records :: parse(print1(x)) == Some(x)
    ensures ParseLines(parse, lines) == Some(records)
  {
    if records != [] {
      var n := |records| - 1;
      ParsesLineByLine(print1, parse, records[..n], lines[..n]);
      assert records == records[..n] + [records[n]];
      assert records[n] in records;
    }
  }

  /** A file read holds one record for each of its lines, in the order of the lines. */
  lemma {:induction false} EachLineIsARecord<T>(parse: string -> Option<T>, lines: seq<string>, records: seq<T>)
    ensures ParseLines(parse, lines) == Some(records) <==>
            |records| == |lines| && forall i | 0 <= i < |lines| :: parse(lines[i]) == Some(records[i])
  {
    if lines != [] && records != [] {
      var n, m := |lines| - 1, |records| - 1;
      EachLineIsARecord(parse, lines[..n], records[..m]);
      assert records == records[..m] + [records[m]];
      if ParseLines(parse, lines) == Some(records) {
        var before := ParseLines(parse, lines[..n]).value;
        assert (before + [parse(lines[n]).value])[..m] == before;
      }
    }
  }

  /** A file printed has the printed records between its newlines, and nothing after the last. */
  lemma PrintedFileSplits<T>(print1: T -> string, records: seq<T>)
    requires forall x | x in records :: '\n' !in print1(x)
    ensures var parts := Split(PrintRecords(print1, records), '\n');
      && |parts| == |records| + 1 && parts[|records|] == ""
      && forall i | 0 <= i < |records| :: parts[i] == print1(records[i])
  {
    var lines := seq(|records|, i requires 0 <= i < |records| => print1(records[i]));
    PrintsLineByLine(print1, records, lines);
    PrintedLinesSplit(lines);
  }

  lemma {:induction false} PrintedLinesSplit(lines: seq<string>)
    requires forall l | l in lines :: '\n' !in l
    ensures Split(PrintLines(lines), '\n') == lines + [""]
  {
    if lines != [] {
      var line, rest := lines[0], lines[1..];
      PrintedLinesSplit(rest);
      assert lines == [line] + rest;
      PrintLinesCons(line, rest);
      SplitAtFirst(line, '\n', PrintLines(rest));
    }
  }
}
