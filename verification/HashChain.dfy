/** The event hash chain: preimage layout, chain validation, and what the last hash commits to. */
module HashChain {
  import opened Wrappers
  import opened Text

  datatype Event = Event(
    id: string, jobID: string, eventType: string, payload: string, createdAt: string, prevHash: string, hash: string)

  function Preimage(e: Event): string {
    e.jobID + "|" + e.eventType + "|" + e.payload + "|" + e.createdAt + "|" + e.prevHash
  }

  function ComputeEventHash(p: Platform, e: Event): string {
    p.hash(Preimage(e))
  }

  function ExpectedPrev(events: seq<Event>, i: nat): string
    requires i < |events|
  {
    if i == 0 then "" else events[i - 1].hash
  }

  function LastHash(events: seq<Event>): string {
    if events == [] then "" else events[|events| - 1].hash
  }

  predicate LinkOk(p: Platform, events: seq<Event>, i: nat)
    requires i < |events|
  {
    events[i].prevHash == ExpectedPrev(events, i) && events[i].hash == ComputeEventHash(p, events[i])
  }

  ghost predicate ValidChain(p: Platform, events: seq<Event>) {
    forall i | 0 <= i < |events| :: LinkOk(p, events, i)
  }

  datatype ChainError = BrokenLink(at: nat) | HashMismatch(at: nat)

  /** The first bad event and what is wrong there, a broken link before a wrong hash. */
  ghost predicate FirstError(p: Platform, events: seq<Event>, error: ChainError) {
    && error.at < |events| && ValidChain(p, events[..error.at])
    && match error
      case BrokenLink(i) => events[i].prevHash != if i == 0 then "" else events[i - 1].hash
      case HashMismatch(i) =>
        && events[i].prevHash == (if i == 0 then "" else events[i - 1].hash)
        && events[i].hash != p.hash(Preimage(events[i]))
  }

  lemma NoFirstError(p: Platform, events: seq<Event>)
    requires ValidChain(p, events)
    ensures forall error :: !FirstError(p, events, error)
  {
    assert forall error: ChainError | error.at < |events| :: LinkOk(p, events, error.at);
  }

  lemma FirstErrorIsUnique(p: Platform, events: seq<Event>, a: ChainError, b: ChainError)
    requires FirstError(p, events, a) && FirstError(p, events, b)
    ensures a == b
  {
    assert a.at < b.at ==> LinkOk(p, events[..b.at], a.at);
    assert b.at < a.at ==> LinkOk(p, events[..a.at], b.at);
  }

  /** Accepts exactly the valid chains, and otherwise reports the first bad event and what is wrong there. */
  method ValidateChain(p: Platform, events: seq<Event>) returns (r: Result<(), ChainError>)
    ensures r.Ok? <==> ValidChain(p, events)
    ensures r.Err? ==> FirstError(p, events, r.error)
  {
    if |events| == 0 {
      return Ok(());
    }
    if events[0].prevHash != "" {
      assert !LinkOk(p, events, 0);
      return Err(BrokenLink(0));
    }
    if ComputeEventHash(p, events[0]) != events[0].hash {
      assert !LinkOk(p, events, 0);
      return Err(HashMismatch(0));
    }
    for i := 1 to |events|
      invariant ValidChain(p, events[..i])
    {
      if events[i].prevHash != events[i - 1].hash {
        assert !LinkOk(p, events, i);
        return Err(BrokenLink(i));
      }
      if ComputeEventHash(p, events[i]) != events[i].hash {
        assert !LinkOk(p, events, i);
        return Err(HashMismatch(i));
      }
      ChainStep(p, events, i);
    }
    assert events[..|events|] == events;
    return Ok(());
  }

  lemma ChainStep(p: Platform, events: seq<Event>, i: nat)
    requires i < |events| && ValidChain(p, events[..i]) && LinkOk(p, events, i)
    ensures ValidChain(p, events[..i + 1])
  {
    var longer := events[..i + 1];
    forall j | 0 <= j < |longer| ensures LinkOk(p, longer, j) {
      if j < i {
        assert LinkOk(p, events[..i], j);
      }
    }
  }

  // ---------- the preimage is unambiguous ----------

  lemma {:induction false} FirstBarIsUnique(a: string, r: string, b: string, s: string)
    requires '|' !in a && '|' !in b && a + "|" + r == b + "|" + s
    ensures a == b && r == s
  {
    SplitAtFirst(a, '|', r);
    SplitAtFirst(b, '|', s);
    var whole := a + "|" + r;
    assert a == Split(whole, '|')[0] == b;
    assert r == whole[|a| + 1..] == s;
  }

  lemma EarlierBarLiesInTheTail(r: string, a: string, s: string, b: string)
    requires r + "|" + a == s + "|" + b && |a| < |b|
    ensures '|' in b
  {
    assert (r + "|" + a)[|r|] == '|';
    assert (s + "|" + b)[|r|] == b[|r| - |s| - 1];
  }

  lemma LastBarIsUnique(r: string, a: string, s: string, b: string)
    requires '|' !in a && '|' !in b && r + "|" + a == s + "|" + b
    ensures a == b && r == s
  {
    if |a| < |b| {
      EarlierBarLiesInTheTail(r, a, s, b);
    } else if |b| < |a| {
      EarlierBarLiesInTheTail(s, b, r, a);
    } else {
      var whole := r + "|" + a;
      assert a == whole[|r| + 1..] == b;
      assert r == whole[..|r|] == s;
    }
  }

  predicate BarFreeHeader(e: Event) {
    '|' !in e.jobID && '|' !in e.eventType
  }

  predicate BarFreeTail(e: Event) {
    '|' !in e.createdAt && '|' !in e.prevHash
  }

  /** Equal in everything that is hashed, and in the link. */
  predicate SameHashedFields(a: Event, b: Event) {
    && a.jobID == b.jobID && a.eventType == b.eventType && a.payload == b.payload
    && a.createdAt == b.createdAt && a.prevHash == b.prevHash
  }

  /** The payload may contain bars: two header fields are read from the left, two from the right. */
  lemma PreimageIsUnambiguous(a: Event, b: Event)
    requires BarFreeHeader(a) && BarFreeTail(a) && BarFreeHeader(b) && BarFreeTail(b)
    requires Preimage(a) == Preimage(b)
    ensures SameHashedFields(a, b)
  {
    LastBarIsUnique(WithoutPrev(a), a.prevHash, WithoutPrev(b), b.prevHash);
    LastBarIsUnique(HeaderAndPayload(a), a.createdAt, HeaderAndPayload(b), b.createdAt);
    var ta, tb := a.eventType + "|" + a.payload, b.eventType + "|" + b.payload;
    assert HeaderAndPayload(a) == a.jobID + "|" + ta && HeaderAndPayload(b) == b.jobID + "|" + tb;
    FirstBarIsUnique(a.jobID, ta, b.jobID, tb);
    FirstBarIsUnique(a.eventType, a.payload, b.eventType, b.payload);
  }

  /** Which field comes where: cut at the bars, the first two parts are job id and type, the last two time and
      link, and the parts between are those of the payload. */
  lemma PreimageLayout(e: Event)
    requires BarFreeHeader(e) && BarFreeTail(e)
    ensures Split(Preimage(e), '|') == [e.jobID, e.eventType] + Split(e.payload, '|') + [e.createdAt, e.prevHash]
  {
    var tail := e.createdAt + "|" + e.prevHash;
    var rest := e.payload + "|" + tail;
    RegroupFields(e.jobID, e.eventType, e.payload, e.createdAt, e.prevHash);
    SplitAtFirst(e.jobID, '|', e.eventType + "|" + rest);
    SplitAtFirst(e.eventType, '|', rest);
    SplitConcat(e.payload, '|', tail);
    SplitAtFirst(e.createdAt, '|', e.prevHash);
    SplitWithoutSeparator(e.prevHash, '|');
    assert [e.createdAt] + [e.prevHash] == [e.createdAt, e.prevHash];
    var parts := Split(e.payload, '|');
    assert [e.jobID] + ([e.eventType] + (parts + [e.createdAt, e.prevHash])) ==
           [e.jobID, e.eventType] + parts + [e.createdAt, e.prevHash];
  }

  lemma RegroupFields(a: string, b: string, c: string, d: string, e: string)
    ensures a + "|" + b + "|" + c + "|" + d + "|" + e == a + "|" + (b + "|" + (c + "|" + (d + "|" + e)))
  {
    assert a + "|" + b + "|" + c + "|" + d + "|" + e == a + "|" + b + "|" + c + "|" + (d + "|" + e);
    assert a + "|" + b + "|" + c + "|" + (d + "|" + e) == a + "|" + b + "|" + (c + "|" + (d + "|" + e));
  }

  function HeaderAndPayload(e: Event): string {
    e.jobID + "|" + e.eventType + "|" + e.payload
  }

  function WithoutPrev(e: Event): string {
    HeaderAndPayload(e) + "|" + e.createdAt
  }

  function Bars(s: string): nat {
    if s == [] then 0 else Bars(s[1..]) + if s[0] == '|' then 1 else 0
  }

  lemma {:induction false} BarsOfConcat(a: string, b: string)
    ensures Bars(a + b) == Bars(a) + Bars(b)
  {
    if a == [] {
      assert a + b == b;
    } else {
      BarsOfConcat(a[1..], b);
      assert (a + b)[1..] == a[1..] + b;
    }
  }

  lemma {:induction false} BarsZero(s: string)
    ensures Bars(s) == 0 <==> '|' !in s
  {
    if s != [] {
      BarsZero(s[1..]);
      assert s == [s[0]] + s[1..];
    }
  }

  lemma BarsOfPreimage(e: Event)
    ensures Bars(Preimage(e)) ==
            Bars(e.jobID) + Bars(e.eventType) + Bars(e.payload) + Bars(e.createdAt) + Bars(e.prevHash) + 4
  {
    var bar := "|";
    assert Bars(bar) == 1;
    BarsOfConcat(WithoutPrev(e) + bar, e.prevHash);
    BarsOfConcat(WithoutPrev(e), bar);
    BarsOfConcat(HeaderAndPayload(e) + bar, e.createdAt);
    BarsOfConcat(HeaderAndPayload(e), bar);
    BarsOfConcat(e.jobID + bar + e.eventType + bar, e.payload);
    BarsOfConcat(e.jobID + bar + e.eventType, bar);
    BarsOfConcat(e.jobID + bar, e.eventType);
    BarsOfConcat(e.jobID, bar);
  }

  ghost predicate PreimageDetermines(e: Event) {
    forall other: Event :: BarFreeTail(other) && Preimage(other) == Preimage(e) ==> SameHashedFields(e, other)
  }

  /** Against events with arbitrary headers, a preimage determines its event exactly when none of job
      id, type and payload contains a bar; a single bar anywhere lets the fields be shifted. */
  lemma PreimageDeterminesIffBarFree(e: Event)
    requires BarFreeTail(e)
    ensures PreimageDetermines(e) <==> BarFreeHeader(e) && '|' !in e.payload
  {
    if BarFreeHeader(e) && '|' !in e.payload {
      forall other: Event | BarFreeTail(other) && Preimage(other) == Preimage(e) ensures SameHashedFields(e, other) {
        BarsOfPreimage(e);
        BarsOfPreimage(other);
        BarsZero(e.jobID); BarsZero(e.eventType); BarsZero(e.payload); BarsZero(e.createdAt); BarsZero(e.prevHash);
        BarsZero(other.jobID); BarsZero(other.eventType);
        PreimageIsUnambiguous(e, other);
      }
    } else {
      var other := ShiftedEvent(e);
      assert BarFreeTail(other) && Preimage(other) == Preimage(e) && !SameHashedFields(e, other);
    }
  }

  lemma SplitAtBar(s: string) returns (a: string, b: string)
    requires '|' in s
    ensures s == a + "|" + b
  {
    var i :| 0 <= i < |s| && s[i] == '|';
    a, b := s[..i], s[i + 1..];
  }

  /** A different event with the same preimage: a bar inside a field becomes a field separator. */
  lemma ShiftedEvent(e: Event) returns (other: Event)
    requires !BarFreeHeader(e) || '|' in e.payload
    ensures other.createdAt == e.createdAt && other.prevHash == e.prevHash && other.hash == e.hash
    ensures Preimage(other) == Preimage(e) && !SameHashedFields(e, other)
  {
    if '|' in e.jobID {
      var a, b := SplitAtBar(e.jobID);
      other := e.(jobID := a, eventType := b, payload := e.eventType + "|" + e.payload);
      assert HeaderAndPayload(other) == HeaderAndPayload(e);
    } else if '|' in e.eventType {
      var a, b := SplitAtBar(e.eventType);
      other := e.(eventType := a, payload := b + "|" + e.payload);
      assert HeaderAndPayload(other) == HeaderAndPayload(e);
    } else {
      var a, b := SplitAtBar(e.payload);
      other := e.(eventType := e.eventType + "|" + a, payload := b);
      assert HeaderAndPayload(other) == HeaderAndPayload(e);
    }
  }

  // ---------- the last hash commits to the whole chain ----------

  /** Equal event by event in everything except the identifier, which is not hashed. */
  ghost predicate SameButIds(a: seq<Event>, b: seq<Event>) {
    |a| == |b| && forall i | 0 <= i < |a| :: a[i] == b[i].(id := a[i].id)
  }

  /** The two streams exhibit two different preimages with the same digest. */
  ghost predicate Collide(p: Platform, a: seq<Event>, b: seq<Event>) {
    exists x, y :: x in a && y in b && Preimage(x) != Preimage(y) && p.hash(Preimage(x)) == p.hash(Preimage(y))
  }

  ghost predicate Committable(p: Platform, events: seq<Event>) {
    forall e | e in events :: BarFreeHeader(e) && p.IsTimestamp(e.createdAt)
  }

  lemma LinksAreBarFree(p: Platform, events: seq<Event>, i: nat)
    requires p.Lawful() && ValidChain(p, events) && i < |events|
    ensures '|' !in events[i].prevHash && (events[i].prevHash == "" <==> i == 0)
  {
    assert LinkOk(p, events, i);
    if i > 0 {
      assert LinkOk(p, events, i - 1);
      assert IsHex(events[i - 1].hash);
    }
  }

  /** Equal last hashes: the last events agree and so do the hashes before them, or there is a collision. */
  lemma LastEventsAgree(p: Platform, a: seq<Event>, b: seq<Event>)
    requires p.Lawful() && Committable(p, a) && Committable(p, b)
    requires ValidChain(p, a) && ValidChain(p, b) && a != [] && b != []
    requires a[|a| - 1].hash == b[|b| - 1].hash
    ensures var m, n := |a| - 1, |b| - 1;
      || Collide(p, a, b)
      || (a[m] == b[n].(id := a[m].id) && (m == 0 <==> n == 0) && (m > 0 ==> a[m - 1].hash == b[n - 1].hash))
  {
    var x, y := a[|a| - 1], b[|b| - 1];
    assert LinkOk(p, a, |a| - 1) && LinkOk(p, b, |b| - 1);
    assert x in a && y in b;
    if Preimage(x) == Preimage(y) {
      LinksAreBarFree(p, a, |a| - 1);
      LinksAreBarFree(p, b, |b| - 1);
      PreimageIsUnambiguous(x, y);
    }
  }

  /** Two valid non-empty chains with the same last hash agree in length and in every hashed field,
      unless they themselves contain a hash collision. */
  lemma {:induction false} RootHashCommits(p: Platform, a: seq<Event>, b: seq<Event>)
    requires p.Lawful() && Committable(p, a) && Committable(p, b)
    requires ValidChain(p, a) && ValidChain(p, b) && a != [] && b != []
    requires a[|a| - 1].hash == b[|b| - 1].hash
    ensures SameButIds(a, b) || Collide(p, a, b)
    decreases |a|
  {
    var m, n := |a| - 1, |b| - 1;
    LastEventsAgree(p, a, b);
    if !Collide(p, a, b) && m > 0 {
      ChainPrefix(p, a, m);
      ChainPrefix(p, b, n);
      RootHashCommits(p, a[..m], b[..n]);
      CollisionsExtend(p, a, b, m, n);
      LastAgreesExtends(a, b);
    }
  }

  lemma CollisionsExtend(p: Platform, a: seq<Event>, b: seq<Event>, m: nat, n: nat)
    requires m <= |a| && n <= |b|
    ensures Collide(p, a[..m], b[..n]) ==> Collide(p, a, b)
  {
  }

  lemma LastAgreesExtends(a: seq<Event>, b: seq<Event>)
    requires a != [] && b != [] && a[|a| - 1] == b[|b| - 1].(id := a[|a| - 1].id)
    ensures SameButIds(a[..|a| - 1], b[..|b| - 1]) ==> SameButIds(a, b)
  {
    if SameButIds(a[..|a| - 1], b[..|b| - 1]) {
      forall i | 0 <= i < |a| ensures a[i] == b[i].(id := a[i].id) {
        if i < |a| - 1 {
          assert a[..|a| - 1][i] == b[..|b| - 1][i].(id := a[i].id);
        }
      }
    }
  }

  /** Without bar-free job ids, types and payloads the last hash does not commit: one bar anywhere in a valid
      chain gives another valid chain with the same preimages, hashes included, that says something else. */
  lemma BarLetsTheChainBeReread(p: Platform, events: seq<Event>, i: nat) returns (other: seq<Event>)
    requires ValidChain(p, events) && i < |events|
    requires !BarFreeHeader(events[i]) || '|' in events[i].payload
    ensures |other| == |events| && ValidChain(p, other) && LastHash(other) == LastHash(events)
    ensures forall k | 0 <= k < |events| :: Preimage(other[k]) == Preimage(events[k])
    ensures !SameButIds(events, other)
  {
    var shifted := ShiftedEvent(events[i]);
    other := events[i := shifted];
    forall k | 0 <= k < |other| ensures LinkOk(p, other, k) {
      assert LinkOk(p, events, k);
    }
    assert events[i] != other[i].(id := events[i].id);
  }

  lemma ChainPrefix(p: Platform, events: seq<Event>, n: nat)
    requires ValidChain(p, events) && n <= |events|
    ensures ValidChain(p, events[..n])
  {
    forall i | 0 <= i < n ensures LinkOk(p, events[..n], i) {
      assert LinkOk(p, events, i);
    }
  }
}
