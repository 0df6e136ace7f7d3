/** The local routing advisor: choosing among candidates, and the canonical decision hash. */
module Advisor {
  import opened Wrappers

  // ---------- strings in lexicographic order ----------

  predicate Less(a: string, b: string) {
    b != "" && (a == "" || a[0] < b[0] || (a[0] == b[0] && Less(a[1..], b[1..])))
  }

  lemma {:induction false} LessIsTotal(a: string, b: string)
    ensures a == b || Less(a, b) || Less(b, a)
    ensures !(Less(a, b) && Less(b, a)) && !Less(a, a)
  {
    if a != "" {
      LessIsTotal(a[1..], a[1..]);
      if b != "" && a[0] == b[0] {
        LessIsTotal(a[1..], b[1..]);
        assert a[1..] == b[1..] ==> [a[0]] + a[1..] == [b[0]] + b[1..];
        assert a == [a[0]] + a[1..] && b == [b[0]] + b[1..];
      }
    }
  }

  lemma {:induction false} LessIsTransitive(a: string, b: string, c: string)
    requires Less(a, b) && Less(b, c)
    ensures Less(a, c)
  {
    if a != "" && a[0] == b[0] && b[0] == c[0] {
      LessIsTransitive(a[1..], b[1..], c[1..]);
    }
  }

  /** The strings first differ at `k`: there the first one ends or has the smaller character. */
  ghost predicate DifferAt(a: string, b: string, k: nat) {
    k <= |a| && k < |b| && a[..k] == b[..k] && (k == |a| || a[k] < b[k])
  }

  lemma {:induction false} LessIff(a: string, b: string)
    ensures Less(a, b) <==> exists k: nat :: DifferAt(a, b, k)
  {
    if a == "" || b == "" || a[0] != b[0] {
      if Less(a, b) {
        assert DifferAt(a, b, 0);
      }
    } else {
      LessIff(a[1..], b[1..]);
      if Less(a[1..], b[1..]) {
        var k: nat :| DifferAt(a[1..], b[1..], k);
        assert a[..k + 1] == [a[0]] + a[1..][..k] && b[..k + 1] == [b[0]] + b[1..][..k];
        assert DifferAt(a, b, k + 1);
      }
      forall k: nat | DifferAt(a, b, k) ensures k > 0 && DifferAt(a[1..], b[1..], k - 1) {
        assert a[1..][..k - 1] == a[..k][1..] && b[1..][..k - 1] == b[..k][1..];
      }
    }
  }

  // ---------- sorting by a string key ----------

  ghost predicate SortedBy<T>(key: T -> string, s: seq<T>) {
    forall i, j | 0 <= i < j < |s| :: !Less(key(s[j]), key(s[i]))
  }

  function Insert<T>(key: T -> string, x: T, s: seq<T>): seq<T> {
    if s == [] then [x]
    else if Less(key(s[|s| - 1]), key(x)) || key(s[|s| - 1]) == key(x) then s + [x]
    else Insert(key, x, s[..|s| - 1]) + [s[|s| - 1]]
  }

  function Sort<T>(key: T -> string, s: seq<T>): seq<T> {
    if s == [] then [] else Insert(key, s[|s| - 1], Sort(key, s[..|s| - 1]))
  }

  lemma AppendSorted<T>(key: T -> string, s: seq<T>, x: T)
    requires SortedBy(key, s) && forall y | y in s :: !Less(key(x), key(y))
    ensures SortedBy(key, s + [x]) && multiset(s + [x]) == multiset(s) + multiset{x}
  {
  }

  /** Nothing exceeds the last element of a sorted sequence, nor anything at least as great. */
  lemma NothingExceeds<T>(key: T -> string, s: seq<T>, x: T)
    requires s != [] && SortedBy(key, s)
    requires Less(key(s[|s| - 1]), key(x)) || key(s[|s| - 1]) == key(x)
    ensures forall y | y in s :: !Less(key(x), key(y))
  {
    var last := s[|s| - 1];
    forall y | y in s ensures !Less(key(x), key(y)) {
      LessIsTotal(key(last), key(last));
      if Less(key(x), key(y)) && key(last) != key(x) {
        LessIsTransitive(key(last), key(x), key(y));
      }
    }
  }

  lemma {:induction false} InsertSorts<T>(key: T -> string, x: T, s: seq<T>)
    requires SortedBy(key, s)
    ensures SortedBy(key, Insert(key, x, s)) && multiset(Insert(key, x, s)) == multiset(s) + multiset{x}
  {
    if s != [] {
      var rest, last := s[..|s| - 1], s[|s| - 1];
      LessIsTotal(key(last), key(x));
      if Less(key(last), key(x)) || key(last) == key(x) {
        NothingExceeds(key, s, x);
        AppendSorted(key, s, x);
      } else {
        InsertSorts(key, x, rest);
        assert s == rest + [last];
        var longer := Insert(key, x, rest);
        assert multiset(s) == multiset(rest) + multiset{last};
        NothingExceeds(key, s, last);
        forall y | y in longer ensures !Less(key(last), key(y)) {
          assert y in multiset(longer);
          assert y == x || y in rest;
        }
        AppendSorted(key, longer, last);
      }
    }
  }

  lemma {:induction false} SortSorts<T>(key: T -> string, s: seq<T>)
    ensures SortedBy(key, Sort(key, s)) && multiset(Sort(key, s)) == multiset(s)
  {
    if s != [] {
      var n := |s| - 1;
      SortSorts(key, s[..n]);
      InsertSorts(key, s[n], Sort(key, s[..n]));
      WithoutLast(s);
      assert Sort(key, s) == Insert(key, s[n], Sort(key, s[..n]));
    }
  }

  ghost predicate KeyDecides<T>(key: T -> string, s: seq<T>) {
    forall i, j | 0 <= i < |s| && 0 <= j < |s| && key(s[i]) == key(s[j]) :: s[i] == s[j]
  }

  lemma WithoutLast<T>(a: seq<T>)
    requires a != []
    ensures multiset(a[..|a| - 1]) == multiset(a) - multiset{a[|a| - 1]}
  {
    assert a == a[..|a| - 1] + [a[|a| - 1]];
  }

  /** Whatever the sorting algorithm, the result is determined when the key tells elements apart. */
  lemma {:induction false} SortedPermutationIsUnique<T>(key: T -> string, a: seq<T>, b: seq<T>)
    requires multiset(a) == multiset(b) && SortedBy(key, a) && SortedBy(key, b) && KeyDecides(key, a)
    ensures a == b
  {
    assert |multiset(a)| == |a| && |multiset(b)| == |b|;
    if a != [] {
      var n := |a| - 1;
      LastIsGreatest(key, a, b);
      PrefixesArePermutations(a, b);
      PrefixIsSorted(key, a, n);
      PrefixIsSorted(key, b, n);
      SortedPermutationIsUnique(key, a[..n], b[..n]);
      assert a == a[..n] + [a[n]] && b == b[..n] + [b[n]];
    }
  }

  lemma PrefixesArePermutations<T>(a: seq<T>, b: seq<T>)
    requires a != [] && b != [] && multiset(a) == multiset(b) && a[|a| - 1] == b[|b| - 1]
    ensures multiset(a[..|a| - 1]) == multiset(b[..|b| - 1])
  {
    WithoutLast(a);
    WithoutLast(b);
  }

  lemma PrefixIsSorted<T>(key: T -> string, s: seq<T>, n: nat)
    requires SortedBy(key, s) && n <= |s|
    ensures SortedBy(key, s[..n]) && (KeyDecides(key, s) ==> KeyDecides(key, s[..n]))
  {
  }

  lemma LastIsGreatest<T>(key: T -> string, a: seq<T>, b: seq<T>)
    requires a != [] && b != [] && multiset(a) == multiset(b)
    requires SortedBy(key, a) && SortedBy(key, b) && KeyDecides(key, a)
    ensures a[|a| - 1] == b[|b| - 1]
  {
    var x, y := a[|a| - 1], b[|b| - 1];
    assert x in multiset(b) && y in multiset(a);
    var i :| 0 <= i < |b| && b[i] == x;
    var j :| 0 <= j < |a| && a[j] == y;
    LessIsTotal(key(x), key(y));
  }

  /** ... and only then: two different elements with one key can come out in either order. */
  lemma TiesAllowTwoSortings<T>(key: T -> string, s: seq<T>) returns (a: seq<T>, b: seq<T>)
    requires !KeyDecides(key, s)
    ensures multiset(a) == multiset(b) == multiset(s) && SortedBy(key, a) && SortedBy(key, b) && a != b
  {
    a := Sort(key, s);
    SortSorts(key, s);
    var i, j :| 0 <= i < |s| && 0 <= j < |s| && key(s[i]) == key(s[j]) && s[i] != s[j];
    assert s[i] in multiset(a) && s[j] in multiset(a);
    var k :| 0 <= k < |a| && a[k] == s[i];
    var l :| 0 <= l < |a| && a[l] == s[j];
    b := SwapTied(key, a, k, l);
  }

  lemma SwapTied<T>(key: T -> string, a: seq<T>, k: nat, l: nat) returns (b: seq<T>)
    requires k < |a| && l < |a| && key(a[k]) == key(a[l]) && a[k] != a[l] && SortedBy(key, a)
    ensures multiset(b) == multiset(a) && SortedBy(key, b) && b != a
  {
    b := a[k := a[l]][l := a[k]];
    assert b[k] != a[k];
    assert multiset(b) == multiset(a);
    assert forall m | 0 <= m < |a| :: key(b[m]) == key(a[m]);
  }

  // ---------- choosing a candidate ----------

  datatype Candidate = Candidate(
    capabilityID: string, kind: string, provider: string, score: real, rank: int, reasonCodes: seq<string>,
    metadata: map<string, string>)

  /** Ranked before unranked; ranked by rank, unranked by descending score; ties by capability id. */
  predicate IsBetter(a: Candidate, b: Candidate) {
    if a.rank > 0 && b.rank > 0 then
      if a.rank != b.rank then a.rank < b.rank else Less(a.capabilityID, b.capabilityID)
    else if a.rank > 0 then true
    else if b.rank > 0 then false
    else if a.score != b.score then a.score > b.score
    else Less(a.capabilityID, b.capabilityID)
  }

  /** A strict order that decides between any two candidates with different identifiers. */
  lemma BetterIsAStrictOrder(a: Candidate, b: Candidate, c: Candidate)
    ensures !IsBetter(a, a) && !(IsBetter(a, b) && IsBetter(b, a))
    ensures IsBetter(a, b) && IsBetter(b, c) ==> IsBetter(a, c)
    ensures a.capabilityID != b.capabilityID ==> IsBetter(a, b) || IsBetter(b, a)
  {
    LessIsTotal(a.capabilityID, a.capabilityID);
    LessIsTotal(a.capabilityID, b.capabilityID);
    if Less(a.capabilityID, b.capabilityID) && Less(b.capabilityID, c.capabilityID) {
      LessIsTransitive(a.capabilityID, b.capabilityID, c.capabilityID);
    }
  }

  ghost predicate Unbeaten(best: Candidate, candidates: seq<Candidate>) {
    best in candidates && forall c | c in candidates :: !IsBetter(c, best)
  }

  function Best(candidates: seq<Candidate>): Candidate
    requires candidates != []
  {
    var n := |candidates| - 1;
    if n == 0 then candidates[0]
    else
      var best := Best(candidates[..n]);
      if IsBetter(candidates[n], best) then candidates[n] else best
  }

  method SelectBestCandidate(candidates: seq<Candidate>) returns (best: Candidate)
    requires candidates != []
    ensures best == Best(candidates) && Unbeaten(best, candidates)
  {
    best := candidates[0];
    for i := 1 to |candidates|
      invariant best == Best(candidates[..i])
    {
      if IsBetter(candidates[i], best) {
        best := candidates[i];
      }
      assert candidates[..i + 1][..i] == candidates[..i];
    }
    assert candidates[..|candidates|] == candidates;
    BestIsUnbeaten(candidates);
  }

  lemma {:induction false} BestIsUnbeaten(candidates: seq<Candidate>)
    requires candidates != []
    ensures Unbeaten(Best(candidates), candidates)
  {
    var n := |candidates| - 1;
    var last := candidates[n];
    assert candidates == candidates[..n] + [last];
    BetterIsAStrictOrder(last, last, last);
    if n > 0 {
      BestIsUnbeaten(candidates[..n]);
      var best := Best(candidates[..n]);
      forall c | c in candidates[..n] ensures !IsBetter(c, Best(candidates)) {
        BetterIsAStrictOrder(c, last, best);
      }
    }
  }

  /** Which candidate that is: among ranked ones, if there are any, one with the least rank, and otherwise one
      with the highest score; in both cases none that ties with it has a smaller identifier. */
  lemma SelectedSays(candidates: seq<Candidate>)
    requires candidates != []
    ensures var best := Best(candidates);
      && best in candidates
      && if exists c :: c in candidates && c.rank > 0 then
           && best.rank > 0
           && forall c | c in candidates && c.rank > 0 ::
                best.rank <= c.rank && (c.rank == best.rank ==> !Less(c.capabilityID, best.capabilityID))
         else
           forall c | c in candidates ::
             best.score >= c.score && (c.score == best.score ==> !Less(c.capabilityID, best.capabilityID))
  {
    BestIsUnbeaten(candidates);
  }

  lemma {:induction false} FirstUnbeatenIsSelected(candidates: seq<Candidate>)
    requires candidates != [] && Unbeaten(candidates[0], candidates)
    ensures Best(candidates) == candidates[0]
  {
    var n := |candidates| - 1;
    if n > 0 {
      assert candidates[n] in candidates;
      assert forall c | c in candidates[..n] :: c in candidates;
      FirstUnbeatenIsSelected(candidates[..n]);
    }
  }

  /** The selection is the same for every order of the candidates exactly when a single candidate is
      unbeaten. */
  lemma SelectionIsOrderIndependentIff(candidates: seq<Candidate>)
    requires candidates != []
    ensures (forall p: seq<Candidate> ::
               p != [] && multiset(p) == multiset(candidates) ==> Best(p) == Best(candidates)) <==>
            (forall c | Unbeaten(c, candidates) :: c == Best(candidates))
  {
    BestIsUnbeaten(candidates);
    if forall c | Unbeaten(c, candidates) :: c == Best(candidates) {
      forall p: seq<Candidate> | p != [] && multiset(p) == multiset(candidates) ensures Best(p) == Best(candidates) {
        BestIsUnbeaten(p);
        PermutationKeepsUnbeaten(p, candidates, Best(p));
      }
    } else {
      var c :| Unbeaten(c, candidates) && c != Best(candidates);
      var p := BringToFront(candidates, c);
      PermutationKeepsUnbeaten(candidates, p, c);
      FirstUnbeatenIsSelected(p);
    }
  }

  lemma PermutationKeepsUnbeaten(a: seq<Candidate>, b: seq<Candidate>, c: Candidate)
    requires multiset(a) == multiset(b) && Unbeaten(c, a)
    ensures Unbeaten(c, b)
  {
    assert c in multiset(a);
    forall d | d in b ensures !IsBetter(d, c) {
      assert d in multiset(b);
    }
  }

  lemma BringToFront(s: seq<Candidate>, c: Candidate) returns (p: seq<Candidate>)
    requires c in s
    ensures p != [] && p[0] == c && multiset(p) == multiset(s)
  {
    var i :| 0 <= i < |s| && s[i] == c;
    p := [c] + s[..i] + s[i + 1..];
    assert s == s[..i] + [c] + s[i + 1..];
  }

  ghost predicate DistinctIDs(candidates: seq<Candidate>) {
    forall i, j | 0 <= i < j < |candidates| :: candidates[i].capabilityID != candidates[j].capabilityID
  }

  /** With distinct capability identifiers every permutation gives the same candidate. */
  lemma SelectionIgnoresOrder(candidates: seq<Candidate>, p: seq<Candidate>)
    requires candidates != [] && p != [] && multiset(p) == multiset(candidates) && DistinctIDs(candidates)
    ensures Best(p) == Best(candidates)
  {
    forall c | Unbeaten(c, candidates) ensures c == Best(candidates) {
      BestIsUnbeaten(candidates);
      BetterIsAStrictOrder(c, Best(candidates), c);
    }
    SelectionIsOrderIndependentIff(candidates);
  }

  // ---------- the decision hash ----------

  datatype Header = Header(
    schemaVersion: string, decisionID: string, decisionKey: string, jobID: string, runID: string, tenantID: string,
    planID: string, nodeID: string, stepID: string, advisorName: string, advisorVersion: string,
    advisorAdapter: string, adapterVersion: string, fallbackPolicy: string, createdAt: string)

  datatype Decision = Decision(
    header: Header, selected: Candidate, candidates: seq<Candidate>, fallbackReasonCodes: seq<string>,
    decisionHash: string)

  datatype Canonical = Canonical(header: Header, selected: Candidate, candidates: seq<Candidate>)

  function Identity(s: string): string { s }

  function CapabilityID(c: Candidate): string { c.capabilityID }

  /** Reason codes in sorted order. */
  function ToCanonicalCandidate(c: Candidate): Candidate {
    c.(reasonCodes := Sort(Identity, c.reasonCodes))
  }

  function CanonicalCandidates(candidates: seq<Candidate>): seq<Candidate> {
    seq(|candidates|, i requires 0 <= i < |candidates| => ToCanonicalCandidate(candidates[i]))
  }

  /** What is hashed: neither the recorded hash nor the fallback reason codes are part of it. */
  function CanonicalOf(d: Decision): Canonical {
    Canonical(d.header, ToCanonicalCandidate(d.selected), Sort(CapabilityID, CanonicalCandidates(d.candidates)))
  }

  /** The digest function and the JSON printer, which fails on unsupported values. */
  datatype Hasher = Hasher(hash: string -> string, marshal: Canonical -> Option<string>)
  {
    ghost predicate Lawful() {
      forall x :: hash(x) != ""
    }

    /** What is printed can be told apart. */
    ghost predicate PrintsFaithfully() {
      forall x, y :: marshal(x).Some? && marshal(x) == marshal(y) ==> x == y
    }

    /** The two decisions print to different texts with one digest. */
    ghost predicate Collide(a: Decision, b: Decision) {
      var x, y := marshal(CanonicalOf(a)), marshal(CanonicalOf(b));
      x.Some? && y.Some? && x != y && hash(x.value) == hash(y.value)
    }
  }

  datatype HashError = MarshalFailed | MissingHash | HashMismatch

  function HashRouteDecision(h: Hasher, d: Decision): Result<string, HashError> {
    match h.marshal(CanonicalOf(d))
    case None => Err(MarshalFailed)
    case Some(text) => Ok(h.hash(text))
  }

  function VerifyDecisionHash(h: Hasher, d: Decision): Result<(), HashError> {
    if d.decisionHash == "" then Err(MissingHash)
    else
      match HashRouteDecision(h, d)
      case Err(e) => Err(e)
      case Ok(got) => if got == d.decisionHash then Ok(()) else Err(HashMismatch)
  }

  /** When a decision verifies, and how it fails otherwise, in the order of the checks. */
  lemma VerificationSays(h: Hasher, d: Decision)
    ensures match VerifyDecisionHash(h, d)
            case Err(MissingHash) => d.decisionHash == ""
            case Err(MarshalFailed) => d.decisionHash != "" && h.marshal(CanonicalOf(d)).None?
            case Err(HashMismatch) =>
              && d.decisionHash != "" && h.marshal(CanonicalOf(d)).Some?
              && h.hash(h.marshal(CanonicalOf(d)).value) != d.decisionHash
            case Ok(_) =>
              && d.decisionHash != "" && h.marshal(CanonicalOf(d)).Some?
              && h.hash(h.marshal(CanonicalOf(d)).value) == d.decisionHash
  {
  }

  /** Reason codes differ in order only. */
  ghost predicate SameCandidate(a: Candidate, b: Candidate) {
    multiset(a.reasonCodes) == multiset(b.reasonCodes) && a.(reasonCodes := b.reasonCodes) == b
  }

  /** Candidates, and the reason codes of each, differ in order only: `order` says where each went. */
  ghost predicate SameDecision(a: Decision, b: Decision, order: seq<Candidate>) {
    && a.header == b.header && SameCandidate(a.selected, b.selected)
    && multiset(order) == multiset(b.candidates) && |order| == |a.candidates|
    && forall i | 0 <= i < |order| :: SameCandidate(a.candidates[i], order[i])
  }

  lemma SameCandidateSameCanonical(a: Candidate, b: Candidate)
    requires SameCandidate(a, b)
    ensures ToCanonicalCandidate(a) == ToCanonicalCandidate(b)
  {
    SortsAlike(Identity, a.reasonCodes, b.reasonCodes);
  }

  /** How often `x` comes out of canonicalising. */
  ghost function Count(candidates: seq<Candidate>, x: Candidate): nat {
    multiset(CanonicalCandidates(candidates))[x]
  }

  lemma CanonicalConcat(a: seq<Candidate>, b: seq<Candidate>)
    ensures CanonicalCandidates(a + b) == CanonicalCandidates(a) + CanonicalCandidates(b)
  {
  }

  lemma CountConcat(a: seq<Candidate>, b: seq<Candidate>, x: Candidate)
    ensures Count(a + b, x) == Count(a, x) + Count(b, x)
  {
    CanonicalConcat(a, b);
  }

  lemma CountRemove(b: seq<Candidate>, i: nat, x: Candidate)
    requires i < |b|
    ensures Count(b, x) == Count(b[..i] + b[i + 1..], x) + Count([b[i]], x)
  {
    CountConcat(b[..i], b[i + 1..], x);
    CountConcat(b[..i] + [b[i]], b[i + 1..], x);
    CountConcat(b[..i], [b[i]], x);
    assert b == b[..i] + [b[i]] + b[i + 1..];
  }

  lemma RemoveOne<T>(b: seq<T>, i: nat)
    requires i < |b|
    ensures multiset(b[..i] + b[i + 1..]) == multiset(b) - multiset{b[i]}
  {
    assert b == b[..i] + [b[i]] + b[i + 1..];
  }

  /** Canonicalising commutes with permuting. */
  lemma {:induction false} CanonicalCount(a: seq<Candidate>, b: seq<Candidate>, x: Candidate)
    requires multiset(a) == multiset(b)
    ensures Count(a, x) == Count(b, x)
  {
    assert |multiset(a)| == |a| && |multiset(b)| == |b|;
    if a != [] {
      var n := |a| - 1;
      assert a[n] in multiset(b);
      var i :| 0 <= i < |b| && b[i] == a[n];
      CountRemove(a, n, x);
      CountRemove(b, i, x);
      RemoveOne(a, n);
      RemoveOne(b, i);
      assert a[..n] + a[n + 1..] == a[..n];
      CanonicalCount(a[..n], b[..i] + b[i + 1..], x);
    }
  }

  lemma CanonicalMultiset(a: seq<Candidate>, b: seq<Candidate>)
    requires multiset(a) == multiset(b)
    ensures multiset(CanonicalCandidates(a)) == multiset(CanonicalCandidates(b))
  {
    forall x ensures multiset(CanonicalCandidates(a))[x] == multiset(CanonicalCandidates(b))[x] {
      CanonicalCount(a, b, x);
      assert Count(a, x) == Count(b, x);
    }
  }

  /** Candidates with one identifier are the same candidate, up to the order of reason codes. */
  ghost predicate IDsDecide(candidates: seq<Candidate>) {
    KeyDecides(CapabilityID, CanonicalCandidates(candidates))
  }

  lemma DistinctIDsDecide(candidates: seq<Candidate>)
    requires DistinctIDs(candidates)
    ensures IDsDecide(candidates)
  {
  }

  /** The hash ignores the order of candidates and of reason codes when identifiers decide, as distinct
      ones do. */
  lemma HashIgnoresOrder(h: Hasher, a: Decision, b: Decision, order: seq<Candidate>)
    requires SameDecision(a, b, order) && IDsDecide(a.candidates)
    ensures HashRouteDecision(h, a) == HashRouteDecision(h, b)
  {
    SameCandidateSameCanonical(a.selected, b.selected);
    SameCandidatesSameCanonical(a.candidates, order);
    CanonicalMultiset(order, b.candidates);
    SortsAlike(CapabilityID, CanonicalCandidates(a.candidates), CanonicalCandidates(b.candidates));
    assert CanonicalOf(a) == CanonicalOf(b);
  }

  /** In particular when they are distinct. */
  lemma HashIgnoresOrderOfDistinctIDs(h: Hasher, a: Decision, b: Decision, order: seq<Candidate>)
    requires SameDecision(a, b, order) && DistinctIDs(a.candidates)
    ensures HashRouteDecision(h, a) == HashRouteDecision(h, b)
  {
    DistinctIDsDecide(a.candidates);
    HashIgnoresOrder(h, a, b, order);
  }

  lemma SameCandidatesSameCanonical(a: seq<Candidate>, b: seq<Candidate>)
    requires |a| == |b| && forall i | 0 <= i < |a| :: SameCandidate(a[i], b[i])
    ensures CanonicalCandidates(a) == CanonicalCandidates(b)
  {
    forall i | 0 <= i < |a| ensures ToCanonicalCandidate(a[i]) == ToCanonicalCandidate(b[i]) {
      SameCandidateSameCanonical(a[i], b[i]);
    }
  }

  /** Permutations sort alike when the key tells elements apart. */
  lemma SortsAlike<T>(key: T -> string, a: seq<T>, b: seq<T>)
    requires multiset(a) == multiset(b) && KeyDecides(key, a)
    ensures Sort(key, a) == Sort(key, b)
  {
    SortSorts(key, a);
    SortSorts(key, b);
    PermutationKeepsKeys(key, a, Sort(key, a));
    SortedPermutationIsUnique(key, Sort(key, a), Sort(key, b));
  }

  lemma PermutationKeepsKeys<T>(key: T -> string, a: seq<T>, b: seq<T>)
    requires multiset(a) == multiset(b) && KeyDecides(key, a)
    ensures KeyDecides(key, b)
  {
    forall i, j | 0 <= i < |b| && 0 <= j < |b| && key(b[i]) == key(b[j]) ensures b[i] == b[j] {
      assert b[i] in multiset(a) && b[j] in multiset(a);
    }
  }

  /** Equal in header, selection and candidates, up to the order of candidates and of their reason codes. */
  ghost predicate SameContent(a: Decision, b: Decision) {
    && a.header == b.header && SameCandidate(a.selected, b.selected)
    && multiset(CanonicalCandidates(a.candidates)) == multiset(CanonicalCandidates(b.candidates))
  }

  /** The hash binds header, selection and candidates up to these orders: two decisions with one hash agree
      in them, or their two texts collide. */
  lemma HashBindsTheDecision(h: Hasher, a: Decision, b: Decision)
    requires h.PrintsFaithfully()
    requires HashRouteDecision(h, a).Ok? && HashRouteDecision(h, a) == HashRouteDecision(h, b)
    ensures SameContent(a, b) || h.Collide(a, b)
  {
    if !h.Collide(a, b) {
      assert CanonicalOf(a) == CanonicalOf(b);
      SortSorts(CapabilityID, CanonicalCandidates(a.candidates));
      SortSorts(CapabilityID, CanonicalCandidates(b.candidates));
      CanonicalDecidesCandidate(a.selected, b.selected);
    }
  }

  lemma CanonicalDecidesCandidate(a: Candidate, b: Candidate)
    requires ToCanonicalCandidate(a) == ToCanonicalCandidate(b)
    ensures SameCandidate(a, b)
  {
    SortSorts(Identity, a.reasonCodes);
    SortSorts(Identity, b.reasonCodes);
    assert ToCanonicalCandidate(a).reasonCodes == ToCanonicalCandidate(b).reasonCodes;
    var plain := ToCanonicalCandidate(a).(reasonCodes := b.reasonCodes);
    assert a.(reasonCodes := b.reasonCodes) == plain == b;
  }

  /** Verification detects tampering with these: a decision changed in one of them, with its recorded hash
      kept, no longer verifies, unless the two texts collide. */
  lemma TamperingIsDetected(h: Hasher, a: Decision, b: Decision)
    requires h.PrintsFaithfully()
    requires VerifyDecisionHash(h, a).Ok? && b.decisionHash == a.decisionHash
    requires !SameContent(a, b) && !h.Collide(a, b)
    ensures VerifyDecisionHash(h, b).Err?
  {
    if VerifyDecisionHash(h, b).Ok? {
      HashBindsTheDecision(h, a, b);
    }
  }

  /** Tampering with the fallback reason codes is never detected. */
  lemma FallbackReasonsAreNotCovered(h: Hasher, a: Decision, codes: seq<string>)
    requires VerifyDecisionHash(h, a).Ok?
    ensures VerifyDecisionHash(h, a.(fallbackReasonCodes := codes)).Ok?
  {
    assert CanonicalOf(a.(fallbackReasonCodes := codes)) == CanonicalOf(a);
  }

  /** Exactly which changes of a verified decision pass, without collision and when identifiers decide: those
      that keep header, selection and candidates up to order, whatever the fallback reason codes. */
  lemma ChangedDecisionVerifiesIff(h: Hasher, a: Decision, b: Decision)
    requires h.PrintsFaithfully() && IDsDecide(a.candidates) && !h.Collide(a, b)
    requires VerifyDecisionHash(h, a).Ok? && b.decisionHash == a.decisionHash
    ensures VerifyDecisionHash(h, b).Ok? <==> SameContent(a, b)
  {
    if SameContent(a, b) {
      SameCandidateSameCanonical(a.selected, b.selected);
      SortsAlike(CapabilityID, CanonicalCandidates(a.candidates), CanonicalCandidates(b.candidates));
      assert CanonicalOf(a) == CanonicalOf(b);
    } else {
      TamperingIsDetected(h, a, b);
    }
  }

  // ---------- the advisor ----------

  datatype Advisor = Advisor(name: string, version: string, fallbackPolicy: string)

  predicate ValidPolicy(policy: string) {
    policy in {"fail_open", "fail_closed", "cached_decision"}
  }

  datatype Request = Request(
    decisionKey: string, jobID: string, runID: string, tenantID: string, planID: string, nodeID: string,
    stepID: string, candidates: seq<Candidate>)

  datatype DecideError = NoCandidates | HashFailed

  /** The request's fields, the advisor's name and version or their defaults, and what is new. */
  function DecidedHeader(advisor: Advisor, req: Request, policy: string, decisionID: string, now: string): Header {
    Header(
      "routing.advisor.decision.v1alpha1", decisionID, req.decisionKey, req.jobID, req.runID, req.tenantID, req.planID,
      req.nodeID, req.stepID, if advisor.name == "" then "noop" else advisor.name,
      if advisor.version == "" then "v1" else advisor.version, "noop", "", policy, now)
  }

  /** The header names the request it answers and the advisor that answered it. */
  ghost predicate Answers(header: Header, req: Request, advisor: Advisor) {
    && header.schemaVersion == "routing.advisor.decision.v1alpha1"
    && header.decisionKey == req.decisionKey && header.jobID == req.jobID && header.runID == req.runID
    && header.tenantID == req.tenantID && header.planID == req.planID && header.nodeID == req.nodeID
    && header.stepID == req.stepID
    && (header.advisorName == if advisor.name != "" then advisor.name else "noop")
    && (header.advisorVersion == if advisor.version != "" then advisor.version else "v1")
    && header.advisorAdapter == "noop" && header.adapterVersion == ""
    && (header.fallbackPolicy ==
        if advisor.fallbackPolicy in {"fail_open", "fail_closed", "cached_decision"} then advisor.fallbackPolicy
        else "fail_open")
  }

  function DecidedPolicy(advisor: Advisor): string {
    if ValidPolicy(advisor.fallbackPolicy) then advisor.fallbackPolicy else "fail_open"
  }

  /** The decision before its hash is recorded. */
  function Unhashed(advisor: Advisor, req: Request, decisionID: string, now: string): Decision
    requires req.candidates != []
  {
    var header := DecidedHeader(advisor, req, DecidedPolicy(advisor), decisionID, now);
    Decision(header, Best(req.candidates), req.candidates, [], "")
  }

  method Decide(advisor: Advisor, req: Request, h: Hasher, decisionID: string, now: string)
    returns (r: Result<Decision, DecideError>)
    ensures r == Err(NoCandidates) <==> req.candidates == []
    ensures r == Err(HashFailed) <==>
            req.candidates != [] && h.marshal(CanonicalOf(Unhashed(advisor, req, decisionID, now))).None?
    ensures r.Ok? ==>
              && req.candidates != []
              && r.value == Unhashed(advisor, req, decisionID, now).(decisionHash := r.value.decisionHash)
    ensures r.Ok? ==>
              && r.value.candidates == req.candidates && r.value.selected == Best(req.candidates)
              && HashRouteDecision(h, r.value) == Ok(r.value.decisionHash)
              && ValidPolicy(r.value.header.fallbackPolicy)
              && (ValidPolicy(advisor.fallbackPolicy) ==> r.value.header.fallbackPolicy == advisor.fallbackPolicy)
              && r.value.header == DecidedHeader(advisor, req, r.value.header.fallbackPolicy, decisionID, now)
    ensures r.Ok? ==>
              && Answers(r.value.header, req, advisor)
              && r.value.header.decisionID == decisionID && r.value.header.createdAt == now
              && r.value.fallbackReasonCodes == []
    ensures r.Ok? && h.Lawful() ==> VerifyDecisionHash(h, r.value).Ok?
  {
    if |req.candidates| == 0 {
      return Err(NoCandidates);
    }
    var selected := SelectBestCandidate(req.candidates);
    var name := if advisor.name == "" then "noop" else advisor.name;
    var version := if advisor.version == "" then "v1" else advisor.version;
    var policy := if ValidPolicy(advisor.fallbackPolicy) then advisor.fallbackPolicy else "fail_open";
    var header := Header(
      "routing.advisor.decision.v1alpha1", decisionID, req.decisionKey, req.jobID, req.runID, req.tenantID, req.planID,
      req.nodeID, req.stepID, name, version, "noop", "", policy, now);
    var d := Decision(header, selected, req.candidates, [], "");
    assert d == Unhashed(advisor, req, decisionID, now);
    var hash := HashRouteDecision(h, d);
    if hash.Err? {
      return Err(HashFailed);
    }
    RecordedHashVerifies(h, d, hash.value);
    d := d.(decisionHash := hash.value);
    return Ok(d);
  }

  /** The recorded hash is not hashed. */
  lemma RecordedHashVerifies(h: Hasher, d: Decision, hash: string)
    requires HashRouteDecision(h, d) == Ok(hash)
    ensures var recorded := d.(decisionHash := hash);
      && HashRouteDecision(h, recorded) == Ok(hash)
      && (h.Lawful() ==> VerifyDecisionHash(h, recorded).Ok?)
  {
    assert CanonicalOf(d.(decisionHash := hash)) == CanonicalOf(d);
  }

  /** A decided decision still verifies after its candidates and reason codes have been reordered. */
  lemma ReorderedDecisionVerifies(h: Hasher, a: Decision, b: Decision, order: seq<Candidate>)
    requires VerifyDecisionHash(h, a).Ok? && b.decisionHash == a.decisionHash
    requires SameDecision(a, b, order) && IDsDecide(a.candidates)
    ensures VerifyDecisionHash(h, b).Ok?
  {
    HashIgnoresOrder(h, a, b, order);
  }

  // ---------- when nothing is ranked ----------

  lemma FirstIsSelectedIff(candidates: seq<Candidate>)
    requires candidates != []
    ensures Best(candidates) == candidates[0] <==> Unbeaten(candidates[0], candidates)
  {
    BestIsUnbeaten(candidates);
    if Unbeaten(candidates[0], candidates) {
      FirstUnbeatenIsSelected(candidates);
    }
  }

  /** Without ranks the first candidate is selected exactly when no candidate has a higher score, nor the
      same score and a smaller identifier. */
  lemma UnrankedFirstIsSelectedIff(candidates: seq<Candidate>)
    requires candidates != [] && forall c | c in candidates :: c.rank <= 0
    ensures Best(candidates) == candidates[0] <==>
            forall c | c in candidates ::
              c.score <= candidates[0].score &&
              (c.score == candidates[0].score ==> !Less(c.capabilityID, candidates[0].capabilityID))
  {
    FirstIsSelectedIff(candidates);
    var first := candidates[0];
    assert first in candidates;
    forall c | c in candidates
      ensures IsBetter(c, first) <==>
              !(c.score <= first.score && (c.score == first.score ==> !Less(c.capabilityID, first.capabilityID)))
    {
    }
  }

  /** Two unranked candidates of which the second is selected. */
  lemma UnrankedFirstIsNotAlwaysSelected() returns (candidates: seq<Candidate>)
    ensures candidates != [] && (forall c | c in candidates :: c.rank == 0) && Best(candidates) != candidates[0]
  {
    var low := Candidate("a", "model", "p", 0.1, 0, [], map[]);
    var high := Candidate("b", "model", "p", 0.9, 0, [], map[]);
    candidates := [low, high];
    assert candidates[..1] == [low];
    assert Best(candidates) == high;
  }
}
