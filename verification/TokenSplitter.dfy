/** Splitting a text into overlapping windows of tokens. */
module TokenSplitter {
  import opened Wrappers
  import opened Text
  import opened Stepping

  datatype Chunk = Chunk(content: string, index: nat, tokenCount: nat)

  // ---------- tokens ----------

  predicate IsToken(t: string) {
    t != "" && forall c | c in t :: !IsSpace(c)
  }

  /** The maximal runs of non-space characters. */
  function Tokenize(s: string): (tokens: seq<string>)
    ensures s != "" && !IsSpace(s[0]) ==> tokens != []
  {
    if s == "" then []
    else
      var rest := Tokenize(s[1..]);
      if IsSpace(s[0]) then rest
      else if |s| > 1 && !IsSpace(s[1]) then [[s[0]] + rest[0]] + rest[1..]
      else [[s[0]]] + rest
  }

  function Detokenize(tokens: seq<string>): string {
    if tokens == [] then ""
    else if |tokens| == 1 then tokens[0]
    else tokens[0] + " " + Detokenize(tokens[1..])
  }

  lemma {:induction false} TokenizeGivesTokens(s: string)
    ensures forall t | t in Tokenize(s) :: IsToken(t)
  {
    if s != "" {
      TokenizeGivesTokens(s[1..]);
      var rest := Tokenize(s[1..]);
      if !IsSpace(s[0]) && |s| > 1 && !IsSpace(s[1]) {
        assert IsToken(rest[0]);
        assert forall t | t in rest[1..] :: t in rest;
      }
    }
  }

  lemma {:induction false} TokenizeToken(t: string, rest: string)
    requires IsToken(t) && (rest == "" || IsSpace(rest[0]))
    ensures Tokenize(t + rest) == [t] + Tokenize(rest)
  {
    var s := t + rest;
    if |t| == 1 {
      assert s[1..] == rest;
      assert [s[0]] == t;
    } else {
      TokenizeToken(t[1..], rest);
      assert s[1..] == t[1..] + rest;
      assert [s[0]] + t[1..] == t;
    }
  }

  /** Tokenizing inverts joining with spaces. */
  lemma {:induction false} TokenizeInvertsDetokenize(tokens: seq<string>)
    requires forall t | t in tokens :: IsToken(t)
    ensures Tokenize(Detokenize(tokens)) == tokens
  {
    if tokens != [] {
      assert tokens[0] in tokens && IsToken(tokens[0]);
      if |tokens| == 1 {
        TokenizeToken(tokens[0], "");
        assert tokens[0] + "" == tokens[0];
      } else {
        TokenizeInvertsDetokenize(tokens[1..]);
        var rest := " " + Detokenize(tokens[1..]);
        assert rest[1..] == Detokenize(tokens[1..]);
        TokenizeToken(tokens[0], rest);
        assert tokens[0] + rest == tokens[0] + " " + Detokenize(tokens[1..]);
      }
    }
  }

  /** White space separates: together with the case of a single token this determines the tokens of every
      text. */
  lemma {:induction false} TokenizeSplitsAtSpace(a: string, c: char, b: string)
    requires IsSpace(c)
    ensures Tokenize(a + [c] + b) == Tokenize(a) + Tokenize(b)
  {
    var s := a + [c] + b;
    if a == "" {
      assert s[1..] == b;
    } else {
      TokenizeSplitsAtSpace(a[1..], c, b);
      assert s[1..] == a[1..] + [c] + b;
      var rest := Tokenize(a[1..]);
      if !IsSpace(a[0]) && |a| > 1 && !IsSpace(a[1]) {
        Text.FirstPartGrows([a[0]], rest, Tokenize(b));
      } else if !IsSpace(a[0]) {
        assert s[1] == if |a| > 1 then a[1] else c;
        assert [[a[0]]] + (rest + Tokenize(b)) == [[a[0]]] + rest + Tokenize(b);
      }
    }
  }

  /** A chunk text is its tokens with single spaces between them. */
  lemma {:induction false} DetokenizedTextSplits(tokens: seq<string>)
    requires tokens != [] && forall t | t in tokens :: ' ' !in t
    ensures Text.Split(Detokenize(tokens), ' ') == tokens
  {
    assert tokens[0] in tokens;
    if |tokens| == 1 {
      SplitWithoutSeparator(tokens[0], ' ');
    } else {
      DetokenizedTextSplits(tokens[1..]);
      SplitAtFirst(tokens[0], ' ', Detokenize(tokens[1..]));
      assert [tokens[0]] + tokens[1..] == tokens;
    }
  }

  // ---------- windows ----------

  /** How far one window starts behind the previous one; an overlap of a whole window or more is dropped. */
  function StepOf(max: nat, overlap: nat): nat {
    if overlap < max then max - overlap else max
  }

  /** The tokens carried over from the previous window. */
  function Carry(max: nat, overlap: nat): nat {
    if overlap < max then overlap else 0
  }

  function ChunkCount(n: nat, max: nat, overlap: nat): nat
    requires max > 0
  {
    if n == 0 then 0
    else if n <= max then 1
    else 1 + Ceiling(n - max, StepOf(max, overlap))
  }

  /** Window `k` of `n` tokens is `[Start(k), Stop(k))`. */
  function Start(max: nat, overlap: nat, k: nat): nat {
    Steps(StepOf(max, overlap), k)
  }

  function Stop(n: nat, max: nat, overlap: nat, k: nat): nat {
    Min(Start(max, overlap, k) + max, n)
  }

  /** Window `k` exists exactly when it is the first and there is a token, or the previous one is full and
      does not reach the end. */
  lemma WindowExistsIff(n: nat, max: nat, overlap: nat, k: nat)
    requires max > 0
    ensures k < ChunkCount(n, max, overlap) <==> if k == 0 then n > 0 else Start(max, overlap, k - 1) + max < n
  {
    if k > 0 && n > max {
      StartsInsideIff(n - max, StepOf(max, overlap), k - 1);
    }
  }

  /** The chunk is window `k`: its tokens joined, its number, and how many tokens it has. */
  ghost predicate IsWindow(chunk: Chunk, tokens: seq<string>, max: nat, overlap: nat, k: nat) {
    var from, to := Start(max, overlap, k), Stop(|tokens|, max, overlap, k);
    from < to && chunk == Chunk(Detokenize(tokens[from..to]), k, to - from)
  }

  /** The token count of a chunk is recomputed from its text. */
  method CreateChunk(content: string, index: nat) returns (chunk: Chunk)
    ensures chunk == Chunk(content, index, |Tokenize(content)|)
  {
    chunk := Chunk(content, index, |Tokenize(content)|);
  }

  ghost predicate IsSplit(tokens: seq<string>, max: nat, overlap: nat, chunks: seq<Chunk>)
    requires max > 0
  {
    && |chunks| == ChunkCount(|tokens|, max, overlap)
    && forall k | 0 <= k < |chunks| :: IsWindow(chunks[k], tokens, max, overlap, k)
  }

  /** After `i` tokens: the saved windows all end before, the current one holds the rest. */
  ghost predicate Collecting(tokens: seq<string>, max: nat, overlap: nat, i: nat, chunks: seq<Chunk>,
                             current: seq<string>)
  {
    var from := Start(max, overlap, |chunks|);
    && from <= i <= |tokens| && i <= from + max && current == tokens[from..i]
    && (forall k | 0 <= k < |chunks| :: IsWindow(chunks[k], tokens, max, overlap, k))
  }

  /** The current window is saved under its number. */
  method Save(ghost tokens: seq<string>, ghost max: nat, ghost overlap: nat, ghost i: nat, chunks: seq<Chunk>,
              current: seq<string>)
    returns (longer: seq<Chunk>)
    requires forall t | t in tokens :: IsToken(t)
    requires Collecting(tokens, max, overlap, i, chunks, current) && current != []
    requires i == Stop(|tokens|, max, overlap, |chunks|)
    ensures |longer| == |chunks| + 1
    ensures forall k | 0 <= k < |longer| :: IsWindow(longer[k], tokens, max, overlap, k)
  {
    TokenizeInvertsDetokenize(current);
    var chunk := CreateChunk(Detokenize(current), |chunks|);
    longer := chunks + [chunk];
    assert IsWindow(chunk, tokens, max, overlap, |chunks|);
  }

  /** What is carried over once a window is saved. */
  function Kept(current: seq<string>, overlap: nat): seq<string> {
    if |current| > overlap then current[|current| - overlap..] else []
  }

  /** Behind a saved full window the next one starts with what is carried over. */
  lemma NextWindow(tokens: seq<string>, max: nat, overlap: nat, i: nat, chunks: seq<Chunk>, current: seq<string>,
                   longer: seq<Chunk>)
    requires max > 0 && Collecting(tokens, max, overlap, i, chunks, current) && |current| == max && i < |tokens|
    requires |longer| == |chunks| + 1 && forall k | 0 <= k < |longer| :: IsWindow(longer[k], tokens, max, overlap, k)
    ensures Collecting(tokens, max, overlap, i, longer, Kept(current, overlap)) && |Kept(current, overlap)| < max
    ensures i == Start(max, overlap, |longer| - 1) + max
  {
    KeptIsNextStart(tokens, Start(max, overlap, |chunks|), max, overlap);
  }

  lemma KeptIsNextStart(tokens: seq<string>, from: nat, max: nat, overlap: nat)
    requires max > 0 && from + max <= |tokens|
    ensures var kept := Kept(tokens[from..from + max], overlap);
      kept == tokens[from + StepOf(max, overlap)..from + max] && |kept| < max
  {
  }

  lemma AllWindowsSaved(n: nat, max: nat, overlap: nat, count: nat)
    requires max > 0 && count > 0 && n > 0 && n <= Start(max, overlap, count - 1) + max
    requires count > 1 ==> Start(max, overlap, count - 2) + max < n
    ensures count == ChunkCount(n, max, overlap)
  {
    WindowExistsIff(n, max, overlap, count - 1);
    WindowExistsIff(n, max, overlap, count);
  }

  lemma OneMoreToken(tokens: seq<string>, max: nat, overlap: nat, i: nat, chunks: seq<Chunk>, current: seq<string>)
    requires Collecting(tokens, max, overlap, i, chunks, current) && |current| < max && i < |tokens|
    ensures Collecting(tokens, max, overlap, i + 1, chunks, current + [tokens[i]])
  {
  }

  /** The chunks are exactly the windows, in order: count, texts, indices and token counts. */
  method SplitByTokens(content: string, max: nat, overlap: nat) returns (chunks: seq<Chunk>)
    requires max > 0
    ensures IsSplit(Tokenize(content), max, overlap, chunks)
  {
    var tokens := Tokenize(content);
    TokenizeGivesTokens(content);
    chunks := [];
    var current: seq<string> := [];
    for i := 0 to |tokens|
      invariant Collecting(tokens, max, overlap, i, chunks, current)
      invariant i > 0 ==> current != []
      invariant |chunks| > 0 ==> i > Start(max, overlap, |chunks| - 1) + max
    {
      if |current| + 1 > max {
        var longer := Save(tokens, max, overlap, i, chunks, current);
        NextWindow(tokens, max, overlap, i, chunks, current, longer);
        chunks := longer;
        current := Kept(current, overlap);
      }
      OneMoreToken(tokens, max, overlap, i, chunks, current);
      current := current + [tokens[i]];
    }
    if |current| > 0 {
      chunks := Save(tokens, max, overlap, |tokens|, chunks, current);
      AllWindowsSaved(|tokens|, max, overlap, |chunks|);
    }
  }

  // ---------- what the chunks contain ----------

  /** The tokens of the first `n` chunk texts, each later one without what it carries over. */
  ghost function Reassembled(chunks: seq<Chunk>, carry: nat, n: nat): seq<string>
    requires n <= |chunks|
  {
    if n == 0 then []
    else
      var t := Tokenize(chunks[n - 1].content);
      Reassembled(chunks, carry, n - 1) + if n == 1 || |t| < carry then t else t[carry..]
  }

  /** Each chunk holds between one and `max` tokens, and its recorded token count is right. */
  lemma ChunksAreBounded(tokens: seq<string>, max: nat, overlap: nat, chunks: seq<Chunk>, k: nat)
    requires max > 0 && IsSplit(tokens, max, overlap, chunks) && k < |chunks|
    requires forall t | t in tokens :: IsToken(t)
    ensures 1 <= |Tokenize(chunks[k].content)| <= max
    ensures chunks[k].tokenCount == |Tokenize(chunks[k].content)| && chunks[k].index == k
    ensures Tokenize(chunks[k].content) == tokens[Start(max, overlap, k)..Stop(|tokens|, max, overlap, k)]
  {
    assert IsWindow(chunks[k], tokens, max, overlap, k);
    TokenizeInvertsDetokenize(tokens[Start(max, overlap, k)..Stop(|tokens|, max, overlap, k)]);
  }

  /** A later window starts what it carries over before the end of the previous, full one. */
  lemma WindowsOverlap(n: nat, max: nat, overlap: nat, k: nat)
    requires max > 0 && 0 < k < ChunkCount(n, max, overlap)
    ensures Stop(n, max, overlap, k - 1) == Start(max, overlap, k) + Carry(max, overlap) < n
  {
    WindowExistsIff(n, max, overlap, k);
  }

  /** Neighbouring chunks, in plain numbers: all but the last have `max` tokens, and the next one repeats the last
      `overlap` of them, or none if that would be all, and goes on from there. */
  lemma NeighboursShare(tokens: seq<string>, max: nat, overlap: nat, chunks: seq<Chunk>, k: nat)
    requires max > 0 && IsSplit(tokens, max, overlap, chunks) && k + 1 < |chunks|
    requires forall t | t in tokens :: IsToken(t)
    ensures var shared := if overlap < max then overlap else 0;
      Shares(Tokenize(chunks[k].content), Tokenize(chunks[k + 1].content), max, shared)
  {
    ChunksAreBounded(tokens, max, overlap, chunks, k);
    ChunksAreBounded(tokens, max, overlap, chunks, k + 1);
    WindowExistsIff(|tokens|, max, overlap, k + 1);
    WindowsOverlap(|tokens|, max, overlap, k + 1);
    WindowsShare(tokens, Start(max, overlap, k), max, Carry(max, overlap), Stop(|tokens|, max, overlap, k + 1));
  }

  ghost predicate Shares(a: seq<string>, b: seq<string>, max: nat, shared: nat) {
    |a| == max && shared < max && |b| > shared && b[..shared] == a[max - shared..]
  }

  lemma WindowsShare(tokens: seq<string>, from: nat, max: nat, shared: nat, to: nat)
    requires shared < max && from + max < to <= |tokens|
    ensures Shares(tokens[from..from + max], tokens[from + max - shared..to], max, shared)
  {
  }

  /** Where a chunk starts. */
  lemma StartSays(max: nat, overlap: nat, k: nat, shared: nat)
    requires max > 0 && shared == if overlap < max then overlap else 0
    ensures Start(max, overlap, k) == k * (max - shared)
  {
    StepsIsProduct(max - shared, k);
  }

  lemma {:induction false} PrefixReassembles(tokens: seq<string>, max: nat, overlap: nat, chunks: seq<Chunk>, n: nat)
    requires max > 0 && IsSplit(tokens, max, overlap, chunks) && 0 < n <= |chunks|
    requires forall t | t in tokens :: IsToken(t)
    ensures Reassembled(chunks, Carry(max, overlap), n) == tokens[..Stop(|tokens|, max, overlap, n - 1)]
  {
    ChunksAreBounded(tokens, max, overlap, chunks, n - 1);
    if n > 1 {
      PrefixReassembles(tokens, max, overlap, chunks, n - 1);
      WindowsOverlap(|tokens|, max, overlap, n - 1);
      assert IsWindow(chunks[n - 1], tokens, max, overlap, n - 1);
      var last, end := Stop(|tokens|, max, overlap, n - 2), Stop(|tokens|, max, overlap, n - 1);
      JoinWindows(tokens, last, Carry(max, overlap), end);
    } else {
      assert Reassembled(chunks, Carry(max, overlap), 0) == [];
    }
  }

  /** Dropping the carried-over prefixes and concatenating gives the token list back. */
  lemma ChunksReassemble(tokens: seq<string>, max: nat, overlap: nat, chunks: seq<Chunk>)
    requires max > 0 && IsSplit(tokens, max, overlap, chunks)
    requires forall t | t in tokens :: IsToken(t)
    ensures Reassembled(chunks, Carry(max, overlap), |chunks|) == tokens
  {
    if tokens != [] {
      LastWindowReachesTheEnd(|tokens|, max, overlap);
      PrefixReassembles(tokens, max, overlap, chunks, |chunks|);
      assert tokens[..|tokens|] == tokens;
    }
  }

  lemma LastWindowReachesTheEnd(n: nat, max: nat, overlap: nat)
    requires max > 0 && n > 0
    ensures var count := ChunkCount(n, max, overlap);
      count > 0 && Stop(n, max, overlap, count - 1) == n
  {
    WindowExistsIff(n, max, overlap, ChunkCount(n, max, overlap));
  }

  lemma JoinWindows(tokens: seq<string>, a: nat, carry: nat, b: nat)
    requires carry <= a <= b <= |tokens|
    ensures |tokens[a - carry..b]| >= carry && tokens[..a] + tokens[a - carry..b][carry..] == tokens[..b]
  {
  }

  /** The public entry: only positive options replace the defaults. */
  method Split(content: string, maxOption: Option<int>, overlapOption: Option<int>) returns (chunks: seq<Chunk>)
    ensures var max := if maxOption.Some? && maxOption.value > 0 then maxOption.value else 512;
      var overlap := if overlapOption.Some? && overlapOption.value > 0 then overlapOption.value else 100;
      && IsSplit(Tokenize(content), max, overlap, chunks)
      && Reassembled(chunks, Carry(max, overlap), |chunks|) == Tokenize(content)
  {
    var max := 512;
    var overlap := 100;
    if maxOption.Some? && maxOption.value > 0 {
      max := maxOption.value;
    }
    if overlapOption.Some? && overlapOption.value > 0 {
      overlap := overlapOption.value;
    }
    chunks := SplitByTokens(content, max, overlap);
    TokenizeGivesTokens(content);
    ChunksReassemble(Tokenize(content), max, overlap, chunks);
  }
}
