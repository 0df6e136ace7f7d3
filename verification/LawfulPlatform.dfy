/** The laws of `Platform` can be met: a platform that prints values as self-delimiting words over two
    letters keeps them all, with a digest that has no collisions. */
module LawfulPlatform {
  import opened Wrappers
  import opened Text
  import Evidence

  function Unary(n: nat): string {
    if n == 0 then "a" else "b" + Unary(n - 1)
  }

  function Signed(n: int): string {
    [if n >= 0 then 'a' else 'b'] + Unary(Abs(n))
  }

  function Abs(n: int): nat {
    if n >= 0 then n else -n
  }

  function Word(s: string): string {
    if s == "" then "a" else "b" + (Unary(s[0] as int) + Word(s[1..]))
  }

  /** A tag for the kind of value, then its parts. */
  ghost function Print(j: Json): string
    decreases j, 1, 0
  {
    match j
    case Null => Unary(0)
    case Bool(b) => Unary(1) + if b then "b" else "a"
    case Num(n) => Unary(2) + Signed(n)
    case Frac(digits, scale) => Unary(3) + (Signed(digits) + Unary(scale))
    case Str(s) => Unary(4) + Word(s)
    case Arr(items) => Unary(5) + PrintItems(j, 0)
    case Obj(fields) => Unary(6) + PrintMembers(j, fields.Keys)
  }

  /** The items from index `i` on. */
  ghost function PrintItems(j: Json, i: nat): string
    requires j.Arr? && i <= |j.items|
    decreases j, 0, |j.items| - i
  {
    if i == |j.items| then "a" else "b" + (Print(j.items[i]) + PrintItems(j, i + 1))
  }

  /** The members with these keys, in some order. */
  ghost function PrintMembers(j: Json, keys: set<string>): string
    requires j.Obj? && keys <= j.fields.Keys
    decreases j, 0, |keys|
  {
    if keys == {} then "a"
    else
      var key :| key in keys;
      "b" + (Word(key) + (Print(j.fields[key]) + PrintMembers(j, keys - {key})))
  }

  // ---------- words tell values apart, whatever follows them ----------

  lemma SameHead(c: char, d: char, s: string, t: string, x: string, y: string)
    requires [c] + s + x == [d] + t + y
    ensures c == d && s + x == t + y
  {
    assert ([c] + s + x)[0] == c && ([d] + t + y)[0] == d;
    assert ([c] + s + x)[1..] == s + x && ([d] + t + y)[1..] == t + y;
  }

  lemma Regroup(a: string, b: string, x: string)
    ensures (a + b) + x == a + (b + x)
  {
  }

  /** Two optional words behind a mark whether there is one. */
  lemma SameMark(marked: bool, marked': bool, s: string, t: string, x: string, y: string)
    requires (if marked then "b" + s else "a") + x == (if marked' then "b" + t else "a") + y
    ensures marked == marked' && (if marked then s + x == t + y else x == y)
  {
    var l, r := (if marked then "b" + s else "a") + x, (if marked' then "b" + t else "a") + y;
    assert l[0] == (if marked then 'b' else 'a') && r[0] == if marked' then 'b' else 'a';
    assert l[1..] == (if marked then s + x else x) && r[1..] == if marked' then t + y else y;
  }

  lemma {:induction false} UnaryTellsApart(m: nat, n: nat, x: string, y: string)
    requires Unary(m) + x == Unary(n) + y
    ensures m == n && x == y
  {
    SameMark(m > 0, n > 0, if m > 0 then Unary(m - 1) else "", if n > 0 then Unary(n - 1) else "", x, y);
    if m > 0 {
      UnaryTellsApart(m - 1, n - 1, x, y);
    }
  }

  lemma SignedTellsApart(m: int, n: int, x: string, y: string)
    requires Signed(m) + x == Signed(n) + y
    ensures m == n && x == y
  {
    SameHead(if m >= 0 then 'a' else 'b', if n >= 0 then 'a' else 'b', Unary(Abs(m)), Unary(Abs(n)), x, y);
    UnaryTellsApart(Abs(m), Abs(n), x, y);
  }

  /** What follows the mark of a non-empty word. */
  function Letters(s: string): string {
    if s == "" then "" else Unary(s[0] as int) + Word(s[1..])
  }

  lemma {:induction false} WordTellsApart(a: string, b: string, x: string, y: string)
    requires Word(a) + x == Word(b) + y
    ensures a == b && x == y
  {
    SameMark(a != "", b != "", Letters(a), Letters(b), x, y);
    if a != "" {
      Regroup(Unary(a[0] as int), Word(a[1..]), x);
      Regroup(Unary(b[0] as int), Word(b[1..]), y);
      UnaryTellsApart(a[0] as int, b[0] as int, Word(a[1..]) + x, Word(b[1..]) + y);
      WordTellsApart(a[1..], b[1..], x, y);
      assert a == [a[0]] + a[1..] && b == [b[0]] + b[1..];
    }
  }

  function Tag(j: Json): nat {
    match j
    case Null => 0
    case Bool(_) => 1
    case Num(_) => 2
    case Frac(_, _) => 3
    case Str(_) => 4
    case Arr(_) => 5
    case Obj(_) => 6
  }

  ghost function Body(j: Json): string {
    match j
    case Null => ""
    case Bool(b) => if b then "b" else "a"
    case Num(n) => Signed(n)
    case Frac(digits, scale) => Signed(digits) + Unary(scale)
    case Str(s) => Word(s)
    case Arr(items) => PrintItems(j, 0)
    case Obj(fields) => PrintMembers(j, fields.Keys)
  }

  lemma TagFirst(j: Json, x: string)
    ensures Print(j) + x == Unary(Tag(j)) + (Body(j) + x)
  {
    assert Print(j) == Unary(Tag(j)) + Body(j) by {
      if j.Null? {
        assert Unary(0) + "" == Unary(0);
      }
    }
    Regroup(Unary(Tag(j)), Body(j), x);
  }

  lemma {:induction false} PrintTellsApart(a: Json, b: Json, x: string, y: string)
    requires Print(a) + x == Print(b) + y
    ensures a == b && x == y
    decreases a, 1, 1
  {
    TagFirst(a, x);
    TagFirst(b, y);
    UnaryTellsApart(Tag(a), Tag(b), Body(a) + x, Body(b) + y);
    BodyTellsApart(a, b, x, y);
  }

  lemma {:induction false} BodyTellsApart(a: Json, b: Json, x: string, y: string)
    requires Tag(a) == Tag(b) && Body(a) + x == Body(b) + y
    ensures a == b && x == y
    decreases a, 1, 0
  {
    match a
    case Null =>
      assert "" + x == x && "" + y == y;
    case Bool(_) =>
      assert "b" + "" == "b";
      SameMark(a.b, b.b, "", "", x, y);
      assert "" + x == x && "" + y == y;
    case Num(n) =>
      SignedTellsApart(n, b.n, x, y);
    case Frac(digits, scale) =>
      FractionTellsApart(digits, scale, b.digits, b.scale, x, y);
    case Str(s) =>
      WordTellsApart(s, b.s, x, y);
    case Arr(_) =>
      ItemsTellApart(a, b, 0, x, y);
    case Obj(_) =>
      MembersTellApart(a, b, a.fields.Keys, b.fields.Keys, x, y);
      assert a.fields == b.fields;
  }

  lemma FractionTellsApart(d: int, k: nat, e: int, l: nat, x: string, y: string)
    requires (Signed(d) + Unary(k)) + x == (Signed(e) + Unary(l)) + y
    ensures d == e && k == l && x == y
  {
    Regroup(Signed(d), Unary(k), x);
    Regroup(Signed(e), Unary(l), y);
    SignedTellsApart(d, e, Unary(k) + x, Unary(l) + y);
    UnaryTellsApart(k, l, x, y);
  }

  /** What follows the mark when items are left. */
  ghost function ItemsFrom(j: Json, i: nat): string
    requires j.Arr? && i <= |j.items|
  {
    if i == |j.items| then "" else Print(j.items[i]) + PrintItems(j, i + 1)
  }

  lemma {:induction false} ItemsTellApart(a: Json, b: Json, i: nat, x: string, y: string)
    requires a.Arr? && b.Arr? && i <= |a.items| && i <= |b.items| && a.items[..i] == b.items[..i]
    requires PrintItems(a, i) + x == PrintItems(b, i) + y
    ensures a == b && x == y
    decreases a, 0, |a.items| - i
  {
    SameMark(i < |a.items|, i < |b.items|, ItemsFrom(a, i), ItemsFrom(b, i), x, y);
    if i == |a.items| {
      assert a.items == a.items[..i] && b.items == b.items[..i];
    } else {
      Regroup(Print(a.items[i]), PrintItems(a, i + 1), x);
      Regroup(Print(b.items[i]), PrintItems(b, i + 1), y);
      PrintTellsApart(a.items[i], b.items[i], PrintItems(a, i + 1) + x, PrintItems(b, i + 1) + y);
      assert a.items[..i + 1] == a.items[..i] + [a.items[i]] == b.items[..i + 1];
      ItemsTellApart(a, b, i + 1, x, y);
    }
  }

  ghost function MemberAndRest(j: Json, keys: set<string>, key: string): string
    requires j.Obj? && keys <= j.fields.Keys && key in keys
  {
    Word(key) + (Print(j.fields[key]) + PrintMembers(j, keys - {key}))
  }

  lemma FirstMember(j: Json, keys: set<string>) returns (key: string)
    requires j.Obj? && keys <= j.fields.Keys && keys != {}
    ensures key in keys && PrintMembers(j, keys) == "b" + MemberAndRest(j, keys, key)
  {
    key :| key in keys && PrintMembers(j, keys) == "b" + MemberAndRest(j, keys, key);
  }

  lemma {:induction false} MembersTellApart(a: Json, b: Json, ka: set<string>, kb: set<string>, x: string, y: string)
    requires a.Obj? && b.Obj? && ka <= a.fields.Keys && kb <= b.fields.Keys
    requires PrintMembers(a, ka) + x == PrintMembers(b, kb) + y
    ensures ka == kb && x == y && forall key | key in ka :: a.fields[key] == b.fields[key]
    decreases a, 0, |ka|
  {
    var k, l := "", "";
    if ka != {} {
      k := FirstMember(a, ka);
    }
    if kb != {} {
      l := FirstMember(b, kb);
    }
    SameMark(ka != {}, kb != {}, if ka != {} then MemberAndRest(a, ka, k) else "",
             if kb != {} then MemberAndRest(b, kb, l) else "", x, y);
    if ka != {} {
      FirstMembersTellApart(a, b, ka, kb, k, l, x, y);
      PrintTellsApart(a.fields[k], b.fields[l], PrintMembers(a, ka - {k}) + x, PrintMembers(b, kb - {l}) + y);
      MembersTellApart(a, b, ka - {k}, kb - {l}, x, y);
      assert ka == ka - {k} + {k} && kb == kb - {l} + {l};
    }
  }

  lemma FirstMembersTellApart(
    a: Json, b: Json, ka: set<string>, kb: set<string>, k: string, l: string, x: string, y: string)
    requires a.Obj? && b.Obj? && ka <= a.fields.Keys && kb <= b.fields.Keys && k in ka && l in kb
    requires MemberAndRest(a, ka, k) + x == MemberAndRest(b, kb, l) + y
    ensures k == l
    ensures Print(a.fields[k]) + (PrintMembers(a, ka - {k}) + x) == Print(b.fields[l]) + (PrintMembers(b, kb - {l}) + y)
  {
    var v, w := Print(a.fields[k]), Print(b.fields[l]);
    var r, s := PrintMembers(a, ka - {k}), PrintMembers(b, kb - {l});
    Regroup(Word(k), v + r, x);
    Regroup(Word(l), w + s, y);
    WordTellsApart(k, l, (v + r) + x, (w + s) + y);
    Regroup(v, r, x);
    Regroup(w, s, y);
  }

  // ---------- printed values are clean lines ----------

  predicate TwoLetters(s: string) {
    s != "" && forall c | c in s :: c == 'a' || c == 'b'
  }

  lemma TwoLettersAreClean(s: string)
    requires TwoLetters(s)
    ensures CleanLine(s) && IsHex(s)
  {
    assert s[0] in s && s[|s| - 1] in s;
    assert TrimLeft(s) == s;
  }

  lemma {:induction false} UnaryIsTwoLetters(n: nat)
    ensures TwoLetters(Unary(n))
  {
    if n > 0 {
      UnaryIsTwoLetters(n - 1);
    }
  }

  lemma {:induction false} WordIsTwoLetters(s: string)
    ensures TwoLetters(Word(s))
  {
    if s != "" {
      UnaryIsTwoLetters(s[0] as int);
      WordIsTwoLetters(s[1..]);
    }
  }

  lemma SignedIsTwoLetters(n: int)
    ensures TwoLetters(Signed(n))
  {
    UnaryIsTwoLetters(Abs(n));
  }

  lemma {:induction false} PrintIsTwoLetters(j: Json)
    ensures TwoLetters(Print(j))
    decreases j, 1, 0
  {
    UnaryIsTwoLetters(Tag(j));
    match j
    case Null =>
    case Bool(_) =>
    case Num(n) => SignedIsTwoLetters(n);
    case Frac(digits, scale) =>
      SignedIsTwoLetters(digits);
      UnaryIsTwoLetters(scale);
    case Str(s) => WordIsTwoLetters(s);
    case Arr(_) => ItemsAreTwoLetters(j, 0);
    case Obj(_) => MembersAreTwoLetters(j, j.fields.Keys);
  }

  lemma {:induction false} ItemsAreTwoLetters(j: Json, i: nat)
    requires j.Arr? && i <= |j.items|
    ensures TwoLetters(PrintItems(j, i))
    decreases j, 0, |j.items| - i
  {
    if i < |j.items| {
      PrintIsTwoLetters(j.items[i]);
      ItemsAreTwoLetters(j, i + 1);
    }
  }

  lemma {:induction false} MembersAreTwoLetters(j: Json, keys: set<string>)
    requires j.Obj? && keys <= j.fields.Keys
    ensures TwoLetters(PrintMembers(j, keys))
    decreases j, 0, |keys|
  {
    forall key | key in keys
      ensures TwoLetters(Word(key)) && TwoLetters(Print(j.fields[key])) && TwoLetters(PrintMembers(j, keys - {key}))
    {
      WordIsTwoLetters(key);
      PrintIsTwoLetters(j.fields[key]);
      MembersAreTwoLetters(j, keys - {key});
    }
  }

  // ---------- the platform ----------

  ghost function Read(s: string): Option<Json> {
    if exists j :: Print(j) == s then var j :| Print(j) == s; Some(j) else None
  }

  lemma ReadInvertsPrint(j: Json)
    ensures Read(Print(j)) == Some(j) && CleanLine(Print(j))
  {
    var k := Read(Print(j)).value;
    assert Print(j) + "" == Print(k) + "";
    PrintTellsApart(j, k, "", "");
    PrintIsTwoLetters(j);
    TwoLettersAreClean(Print(j));
  }

  function ParseTime(s: string): Option<string> {
    if s != "" && '|' !in s then Some(s) else None
  }

  ghost function Concrete(): Platform {
    Platform(Word, j => Print(j), j => Print(j), s => Read(s), ParseTime, j => Print(j), (nonce, text) => None)
  }

  lemma ConcreteDigests(x: string, y: string)
    ensures IsHex(Concrete().hash(x))
    ensures Concrete().hash(x) == Concrete().hash(y) ==> x == y
  {
    WordIsTwoLetters(x);
    TwoLettersAreClean(Word(x));
    if Word(x) == Word(y) {
      assert Word(x) + "" == Word(y) + "";
      WordTellsApart(x, y, "", "");
    }
  }

  lemma ConcreteCodec(j: Json)
    ensures var p := Concrete();
      && p.decode(p.encode(j)) == Some(j) && CleanLine(p.encode(j))
      && p.decode(p.pretty(j)) == Some(j)
  {
    ReadInvertsPrint(j);
  }

  lemma ConcreteTimes(x: string)
    ensures Concrete().parseTime(x).Some? ==> Concrete().IsTimestamp(Concrete().parseTime(x).value)
    ensures Concrete().IsTimestamp(ZERO_TIME)
  {
    assert forall i | 0 <= i < |ZERO_TIME| :: ZERO_TIME[i] != '|';
  }

  /** So are those of a signature scheme, even when only the right signature is accepted. */
  lemma SignerLawsCanBeMet() returns (s: Evidence.Signer)
    ensures s.Lawful()
    ensures forall key, text, signature :: s.check(s.public(key), text, signature) ==> signature == s.sign(key, text)
  {
    s := Evidence.Signer((key, text) => Word(key) + Word(text),
                         (key, text, signature) => signature == Word(key) + Word(text), key => key);
    forall key ensures Word(key) != "" {
    }
  }

  /** The laws are consistent, even together with a digest that never collides. */
  lemma LawsCanBeMet() returns (p: Platform)
    ensures p.Lawful() && p.Delimits() && forall x, y | p.hash(x) == p.hash(y) :: x == y
  {
    p := Concrete();
    forall x, y ensures IsHex(p.hash(x)) && (p.hash(x) == p.hash(y) ==> x == y) {
      ConcreteDigests(x, y);
    }
    forall j ensures p.decode(p.encode(j)) == Some(j) && CleanLine(p.encode(j)) && p.decode(p.pretty(j)) == Some(j) {
      ConcreteCodec(j);
    }
    forall x ensures p.parseTime(x).Some? ==> p.IsTimestamp(p.parseTime(x).value) {
      ConcreteTimes(x);
    }
    ConcreteTimes("");
    forall a: map<string, Json>, b: map<string, Json>, x, y | p.encode(Obj(a)) + x == p.encode(Obj(b)) + y
      ensures a == b
    {
      PrintTellsApart(Obj(a), Obj(b), x, y);
    }
  }
}
