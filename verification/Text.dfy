/** Strings as character sequences: trimming, splitting, line files, and the JSON values they carry. */
module Text {
  import opened Wrappers

  // ---------- trimming and splitting ----------

  /** White space as defined by Unicode. */
  predicate IsSpace(c: char) {
    || c in {' ', '\t', '\n', '\r', '\U{0B}', '\U{0C}', '\U{85}', '\U{A0}', '\U{1680}'}
    || '\U{2000}' <= c <= '\U{200A}'
    || c in {'\U{2028}', '\U{2029}', '\U{202F}', '\U{205F}', '\U{3000}'}
  }

  /** By code point. */
  lemma SpaceSays(c: char)
    ensures var n := c as int;
      IsSpace(c) <==>
        || 9 <= n <= 13 || n == 32 || n == 0x85 || n == 0xA0 || n == 0x1680 || 0x2000 <= n <= 0x200A
        || n == 0x2028 || n == 0x2029 || n == 0x202F || n == 0x205F || n == 0x3000
  {
    assert '\t' as int == 9 && '\n' as int == 10 && '\r' as int == 13 && ' ' as int == 32;
  }

  function TrimLeft(s: string): string {
    if s != [] && IsSpace(s[0]) then TrimLeft(s[1..]) else s
  }

  function TrimRight(s: string): string {
    if s != [] && IsSpace(s[|s| - 1]) then TrimRight(s[..|s| - 1]) else s
  }

  function TrimSpace(s: string): string {
    TrimRight(TrimLeft(s))
  }

  function Split(s: string, sep: char): (parts: seq<string>)
    ensures |parts| >= 1
  {
    if s == [] then [""]
    else
      var rest := Split(s[1..], sep);
      if s[0] == sep then [""] + rest else [[s[0]] + rest[0]] + rest[1..]
  }

  lemma {:induction false} SplitAtFirst(a: string, sep: char, rest: string)
    requires sep !in a
    ensures Split(a + [sep] + rest, sep) == [a] + Split(rest, sep)
  {
    var s := a + [sep] + rest;
    if a == [] {
      assert s[1..] == rest;
    } else {
      SplitAtFirst(a[1..], sep, rest);
      assert s[1..] == a[1..] + [sep] + rest;
      assert [s[0]] + a[1..] == a;
    }
  }

  lemma {:induction false} SplitWithoutSeparator(s: string, sep: char)
    requires sep !in s
    ensures Split(s, sep) == [s]
  {
    if s != [] {
      SplitWithoutSeparator(s[1..], sep);
      assert [s[0]] + s[1..] == s;
    }
  }

  /** Splitting on both sides of a separator is splitting each side. */
  lemma {:induction false} SplitConcat(a: string, sep: char, b: string)
    ensures Split(a + [sep] + b, sep) == Split(a, sep) + Split(b, sep)
  {
    var s := a + [sep] + b;
    if a == [] {
      assert s[1..] == b;
      assert [""] + Split(b, sep) == Split([], sep) + Split(b, sep);
    } else {
      SplitConcat(a[1..], sep, b);
      assert s[1..] == a[1..] + [sep] + b;
      if a[0] == sep {
        PartsConcat("", Split(a[1..], sep), Split(b, sep));
      } else {
        FirstPartGrows([a[0]], Split(a[1..], sep), Split(b, sep));
      }
    }
  }

  lemma PartsConcat(part: string, a: seq<string>, b: seq<string>)
    ensures [part] + (a + b) == [part] + a + b
  {
  }

  lemma FirstPartGrows(start: string, a: seq<string>, b: seq<string>)
    requires a != []
    ensures [start + (a + b)[0]] + (a + b)[1..] == [start + a[0]] + a[1..] + b
  {
    assert (a + b)[1..] == a[1..] + b;
  }

  function JoinWith(parts: seq<string>, sep: char): string
    requires parts != []
  {
    if |parts| == 1 then parts[0] else parts[0] + [sep] + JoinWith(parts[1..], sep)
  }

  /** The parts contain no separator, and joined with it they are the text. */
  lemma {:induction false} SplitIsExact(s: string, sep: char)
    ensures forall part | part in Split(s, sep) :: sep !in part
    ensures JoinWith(Split(s, sep), sep) == s
  {
    if s != [] {
      SplitIsExact(s[1..], sep);
      var rest := Split(s[1..], sep);
      assert s == [s[0]] + s[1..];
      if s[0] != sep {
        var first := [s[0]] + rest[0];
        assert rest[0] in rest;
        assert ([first] + rest[1..])[1..] == rest[1..];
      }
    }
  }

  ghost predicate AllSpace(s: string) {
    forall c | c in s :: IsSpace(c)
  }

  /** Trimming takes away the white space at both ends and nothing else. */
  lemma TrimIsExact(s: string) returns (a: string, b: string)
    ensures s == a + TrimSpace(s) + b && AllSpace(a) && AllSpace(b)
    ensures var t := TrimSpace(s); t != "" ==> !IsSpace(t[0]) && !IsSpace(t[|t| - 1])
  {
    a := TrimLeftIsExact(s);
    b := TrimRightIsExact(TrimLeft(s));
    var t := TrimSpace(s);
    if t != "" {
      assert TrimLeft(s)[0] == t[0];
    }
  }

  lemma BlankIffAllSpace(s: string)
    ensures TrimSpace(s) == "" <==> AllSpace(s)
  {
    var a, b := TrimIsExact(s);
    assert TrimSpace(s) == "" ==> s == a + b;
    assert forall c | c in TrimSpace(s) :: c in s;
  }

  lemma {:induction false} TrimLeftIsExact(s: string) returns (a: string)
    ensures s == a + TrimLeft(s) && AllSpace(a)
    ensures TrimLeft(s) != "" ==> !IsSpace(TrimLeft(s)[0])
  {
    a := "";
    if s != [] && IsSpace(s[0]) {
      var rest := TrimLeftIsExact(s[1..]);
      a := [s[0]] + rest;
    }
  }

  lemma {:induction false} TrimRightIsExact(s: string) returns (b: string)
    ensures s == TrimRight(s) + b && AllSpace(b)
    ensures TrimRight(s) != "" ==> !IsSpace(TrimRight(s)[|TrimRight(s)| - 1])
  {
    b := "";
    if s != [] && IsSpace(s[|s| - 1]) {
      var rest := TrimRightIsExact(s[..|s| - 1]);
      b := rest + [s[|s| - 1]];
    }
  }

  // ---------- line files ----------

  /** A line that survives splitting on newlines and trimming. */
  predicate CleanLine(s: string) {
    s != "" && '\n' !in s && TrimSpace(s) == s
  }

  /** Each line followed by a newline. */
  function PrintLines(lines: seq<string>): string {
    if lines == [] then "" else PrintLines(lines[..|lines| - 1]) + lines[|lines| - 1] + "\n"
  }

  function NonBlank(lines: seq<string>): seq<string> {
    if lines == [] then []
    else
      var last := TrimSpace(lines[|lines| - 1]);
      NonBlank(lines[..|lines| - 1]) + if last == "" then [] else [last]
  }

  /** The trimmed non-blank lines of a text. */
  function ReadLines(text: string): seq<string> {
    NonBlank(Split(text, '\n'))
  }

  lemma {:induction false} PrintLinesCons(line: string, lines: seq<string>)
    ensures PrintLines([line] + lines) == line + "\n" + PrintLines(lines)
  {
    if lines == [] {
      assert PrintLines([]) == "" && [line][..0] == [];
      assert [line] + lines == [line];
    } else {
      var rest, last := lines[..|lines| - 1], lines[|lines| - 1];
      PrintLinesCons(line, rest);
      assert ([line] + lines)[..|lines|] == [line] + rest;
      assert PrintLines([line] + lines) == PrintLines([line] + rest) + last + "\n";
    }
  }

  lemma {:induction false} NonBlankCons(line: string, lines: seq<string>)
    ensures NonBlank([line] + lines) == NonBlank([line]) + NonBlank(lines)
  {
    var all := [line] + lines;
    if lines == [] {
      assert all == [line];
    } else {
      NonBlankCons(line, lines[..|lines| - 1]);
      assert all[..|all| - 1] == [line] + lines[..|lines| - 1];
    }
  }

  /** Reading inverts printing on clean lines. */
  lemma {:induction false} ReadInvertsPrint(lines: seq<string>)
    requires forall l | l in lines :: CleanLine(l)
    ensures ReadLines(PrintLines(lines)) == lines
  {
    if lines == [] {
      assert NonBlank([""]) == [];
    } else {
      var line, rest := lines[0], lines[1..];
      ReadInvertsPrint(rest);
      assert lines == [line] + rest;
      assert CleanLine(line);
      PrintLinesCons(line, rest);
      SplitAtFirst(line, '\n', PrintLines(rest));
      NonBlankCons(line, Split(PrintLines(rest), '\n'));
      assert NonBlank([line]) == NonBlank([]) + [line];
    }
  }

  // ---------- JSON values and the platform ----------

  /** `Frac` is a number that is not integral, in decimal: `digits` shifted `scale` places to the right. */
  datatype Json =
    | Null
    | Bool(b: bool)
    | Num(n: int)
    | Frac(digits: int, scale: nat)
    | Str(s: string)
    | Arr(items: seq<Json>)
    | Obj(fields: map<string, Json>)

  /** What an absent timestamp decodes to. */
  const ZERO_TIME := "0001-01-01T00:00:00Z"

  /** The library functions the modelled code calls: SHA-256 in hexadecimal, the JSON codec (compact and
      indented printing), timestamp parsing into canonical form, default value formatting, and encryption
      of a text under a nonce. */
  datatype Platform = Platform(
    hash: string -> string,
    encode: Json -> string,
    pretty: Json -> string,
    decode: string -> Option<Json>,
    parseTime: string -> Option<string>,
    show: Json -> string,
    encrypt: (string, string) -> Option<string>)
  {
    /** What is relied on: digests are non-empty hexadecimal, decoding inverts encoding, an encoded
        value is a clean line, and canonical timestamps contain no `|` and parse to themselves. */
    ghost predicate Lawful() {
      && (forall x :: IsHex(hash(x)))
      && (forall j :: decode(encode(j)) == Some(j) && CleanLine(encode(j)))
      && (forall j :: decode(pretty(j)) == Some(j))
      && (forall x :: parseTime(x).Some? ==> IsTimestamp(parseTime(x).value))
      && IsTimestamp(ZERO_TIME)
    }

    /** A further law: a printed object tells where it ends, whatever follows. */
    ghost predicate Delimits() {
      forall a: map<string, Json>, b: map<string, Json>, x, y ::
        encode(Obj(a)) + x == encode(Obj(b)) + y ==> a == b
    }

    ghost predicate IsTimestamp(t: string) {
      '|' !in t && t != "" && parseTime(t) == Some(t)
    }
  }

  predicate IsHex(s: string) {
    s != "" && forall c | c in s :: '0' <= c <= '9' || 'a' <= c <= 'f'
  }

  /** A document decoded into a record or a map: `null` leaves it empty. */
  function FieldsOf(j: Json): Option<map<string, Json>> {
    match j
    case Null => Some(map[])
    case Obj(fields) => Some(fields)
    case _ => None
  }

  /** Decoding text into a `map[string]interface{}`. */
  function DecodeMap(p: Platform, text: string): Option<map<string, Json>> {
    match p.decode(text)
    case None => None
    case Some(j) => FieldsOf(j)
  }

  /** A string-typed record field: absent and `null` leave it empty, any other type is an error. */
  function StringField(fields: map<string, Json>, key: string): Option<string> {
    if key !in fields then Some("")
    else
      match fields[key]
      case Str(s) => Some(s)
      case Null => Some("")
      case _ => None
  }

  function BoolField(fields: map<string, Json>, key: string): Option<bool> {
    if key !in fields then Some(false)
    else
      match fields[key]
      case Bool(b) => Some(b)
      case Null => Some(false)
      case _ => None
  }

  lemma DecodeMapSays(p: Platform, text: string, fields: map<string, Json>)
    ensures DecodeMap(p, text) == Some(fields) <==>
            p.decode(text) == Some(Obj(fields)) || (p.decode(text) == Some(Null) && fields == map[])
  {
  }

  /** What the two readers of record fields yield. */
  lemma FieldIsReadIff(fields: map<string, Json>, key: string, s: string, b: bool)
    ensures var absent := key !in fields || fields[key] == Null;
      && (StringField(fields, key) == Some(s) <==> if absent then s == "" else fields[key] == Str(s))
      && (BoolField(fields, key) == Some(b) <==> if absent then !b else fields[key] == Bool(b))
  {
  }

  /** The string under a key, if it is one (a checked type assertion). */
  function AsString(fields: map<string, Json>, key: string): Option<string> {
    if key in fields && fields[key].Str? then Some(fields[key].s) else None
  }
}
