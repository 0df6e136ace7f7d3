/** Merging short paragraphs into chunks and cutting long ones into overlapping pieces. Lengths count
    bytes, so a text is a sequence of bytes here. */
module StructuralSplitter {
  import opened Stepping

  type Text = seq<bv8>

  const SPACE: bv8 := 32

  datatype Chunk = Chunk(content: Text, index: nat)

  // ---------- long paragraphs ----------

  /** Piece `k` of a long paragraph. */
  function Piece(paragraph: Text, size: nat, overlap: nat, k: nat): Text
    requires overlap < size && Steps(size - overlap, k) < |paragraph|
  {
    var from := Steps(size - overlap, k);
    paragraph[from..Min(from + size, |paragraph|)]
  }

  ghost predicate ArePieces(chunks: seq<Chunk>, paragraph: Text, startIndex: nat, size: nat, overlap: nat)
    requires overlap < size
  {
    && |chunks| == Ceiling(|paragraph|, size - overlap)
    && forall k | 0 <= k < |chunks| :: IsPiece(chunks[k], paragraph, startIndex, size, overlap, k)
  }

  ghost predicate IsPiece(chunk: Chunk, paragraph: Text, startIndex: nat, size: nat, overlap: nat, k: nat)
    requires overlap < size
  {
    && Steps(size - overlap, k) < |paragraph|
    && chunk == Chunk(Piece(paragraph, size, overlap, k), startIndex + k)
  }

  /** The loop advances by `size - overlap`, so it needs an overlap smaller than the size. */
  method SplitLongParagraph(paragraph: Text, startIndex: nat, size: nat, overlap: nat) returns (chunks: seq<Chunk>)
    requires overlap < size
    ensures ArePieces(chunks, paragraph, startIndex, size, overlap)
  {
    chunks := [];
    var i := 0;
    var chunkIndex := startIndex;
    ghost var step := size - overlap;
    while i < |paragraph|
      invariant chunkIndex == startIndex + |chunks| && i == Steps(step, |chunks|)
      invariant |chunks| > 0 ==> Steps(step, |chunks| - 1) < |paragraph|
      invariant forall k | 0 <= k < |chunks| :: IsPiece(chunks[k], paragraph, startIndex, size, overlap, k)
      decreases |paragraph| - i
    {
      var end := i + size;
      if end > |paragraph| {
        end := |paragraph|;
      }
      chunks := chunks + [Chunk(paragraph[i..end], chunkIndex)];
      chunkIndex := chunkIndex + 1;
      i := i + (size - overlap);
    }
    StartsInsideIff(|paragraph|, step, |chunks|);
    if |chunks| > 0 {
      StartsInsideIff(|paragraph|, step, |chunks| - 1);
    }
  }

  /** Where the loop stands after `k` rounds, whatever the options. */
  function PositionAfter(size: int, overlap: int, k: nat): int {
    if k == 0 then 0 else PositionAfter(size, overlap, k - 1) + (size - overlap)
  }

  lemma {:induction false} PositionMoves(size: int, overlap: int, k: nat)
    ensures overlap < size ==> PositionAfter(size, overlap, k) >= k
    ensures overlap >= size ==> PositionAfter(size, overlap, k) <= 0
  {
    if k > 0 {
      PositionMoves(size, overlap, k - 1);
    }
  }

  /** The stepping loop gets past the end of a paragraph exactly when the overlap is smaller than the size. */
  lemma StepLoopEndsIff(length: nat, size: int, overlap: int)
    requires length > 0
    ensures (exists k: nat :: PositionAfter(size, overlap, k) >= length) <==> overlap < size
  {
    PositionMoves(size, overlap, length);
    forall k: nat ensures overlap >= size ==> PositionAfter(size, overlap, k) <= 0 {
      PositionMoves(size, overlap, k);
    }
  }

  /** The leading step-sized parts of the first `n` pieces. */
  ghost function Leading(chunks: seq<Chunk>, step: nat, n: nat): Text
    requires n <= |chunks|
  {
    if n == 0 then []
    else
      var piece := chunks[n - 1].content;
      Leading(chunks, step, n - 1) + if |piece| > step then piece[..step] else piece
  }

  lemma {:induction false} LeadingPiecesReassemble(chunks: seq<Chunk>, paragraph: Text, startIndex: nat, size: nat,
                                                   overlap: nat, n: nat)
    requires overlap < size && n <= |chunks|
    requires forall k | 0 <= k < |chunks| :: IsPiece(chunks[k], paragraph, startIndex, size, overlap, k)
    ensures Leading(chunks, size - overlap, n) == paragraph[..Min(Steps(size - overlap, n), |paragraph|)]
  {
    if n > 0 {
      LeadingPiecesReassemble(chunks, paragraph, startIndex, size, overlap, n - 1);
      assert IsPiece(chunks[n - 1], paragraph, startIndex, size, overlap, n - 1);
      LeadingPart(paragraph, Steps(size - overlap, n - 1), size - overlap, size);
    }
  }

  /** No byte of a long paragraph is lost: the leading parts concatenate to it. */
  lemma PiecesReassemble(chunks: seq<Chunk>, paragraph: Text, startIndex: nat, size: nat, overlap: nat)
    requires overlap < size && ArePieces(chunks, paragraph, startIndex, size, overlap)
    ensures Leading(chunks, size - overlap, |chunks|) == paragraph
  {
    LeadingPiecesReassemble(chunks, paragraph, startIndex, size, overlap, |chunks|);
    StartsInsideIff(|paragraph|, size - overlap, |chunks|);
  }

  lemma LeadingPart(paragraph: Text, from: nat, step: nat, size: nat)
    requires from < |paragraph| && 0 < step <= size
    ensures var piece := paragraph[from..Min(from + size, |paragraph|)];
      paragraph[..from] + (if |piece| > step then piece[..step] else piece) ==
      paragraph[..Min(from + step, |paragraph|)]
  {
    var piece := paragraph[from..Min(from + size, |paragraph|)];
    if |piece| > step {
      assert piece[..step] == paragraph[from..from + step];
    }
  }

  // ---------- merging ----------

  /** The chunks saved so far and the text being collected. */
  datatype Merge = Merge(chunks: seq<Chunk>, current: Text)

  function Saved(m: Merge): Merge {
    m.(chunks := m.chunks + [Chunk(m.current, |m.chunks|)])
  }

  function Append(current: Text, paragraph: Text): Text {
    (if current == [] then [] else current + [SPACE]) + paragraph
  }

  /** The collected text after it was saved: its last `overlap` bytes and a space, or nothing. */
  function CarriedOver(current: Text, overlap: nat): Text {
    if |current| > overlap then current[|current| - overlap..] + [SPACE] else []
  }

  function AddShort(m: Merge, paragraph: Text, size: nat, overlap: nat): Merge {
    if |m.current| + |paragraph| + 1 > size then
      var saved := Saved(m);
      saved.(current := Append(CarriedOver(m.current, overlap), paragraph))
    else m.(current := Append(m.current, paragraph))
  }

  function Flushed(m: Merge): Merge {
    if m.current == [] then m else Saved(m).(current := [])
  }

  /** One paragraph handled; a long one only with an overlap smaller than the size. */
  ghost predicate Handles(m: Merge, paragraph: Text, m': Merge, size: nat, overlap: nat)
    requires overlap < size || |paragraph| <= size
  {
    if |paragraph| > size then
      var flushed := Flushed(m);
      && m'.current == []
      && |m'.chunks| >= |flushed.chunks| && m'.chunks[..|flushed.chunks|] == flushed.chunks
      && ArePieces(m'.chunks[|flushed.chunks|..], paragraph, |flushed.chunks|, size, overlap)
    else m' == AddShort(m, paragraph, size, overlap)
  }

  /** No paragraph needs the stepping loop, or the loop advances. */
  ghost predicate Terminates(paragraphs: seq<Text>, size: nat, overlap: nat) {
    overlap < size || forall i | 0 <= i < |paragraphs| :: |paragraphs[i]| <= size
  }

  /** The merging run, state by state: `states[i]` is the situation before paragraph `i`. */
  ghost predicate IsRun(paragraphs: seq<Text>, states: seq<Merge>, size: nat, overlap: nat)
    requires Terminates(paragraphs, size, overlap)
  {
    && |states| == |paragraphs| + 1
    && states[0] == Merge([], [])
    && forall i | 0 <= i < |paragraphs| :: Handles(states[i], paragraphs[i], states[i + 1], size, overlap)
  }

  /** The chunks are those of a run, the rest of the collected text flushed. */
  ghost predicate IsMerge(paragraphs: seq<Text>, chunks: seq<Chunk>, size: nat, overlap: nat)
    requires Terminates(paragraphs, size, overlap)
  {
    exists states :: IsRun(paragraphs, states, size, overlap) && chunks == Flushed(states[|paragraphs|]).chunks
  }

  method MergeAndSplit(paragraphs: seq<Text>, size: nat, overlap: nat) returns (chunks: seq<Chunk>)
    requires Terminates(paragraphs, size, overlap)
    ensures IsMerge(paragraphs, chunks, size, overlap)
  {
    chunks := [];
    var current: Text := [];
    var chunkIndex := 0;
    ghost var states := [Merge([], [])];
    for i := 0 to |paragraphs|
      invariant chunkIndex == |chunks|
      invariant |states| == i + 1 && states[0] == Merge([], [])
      invariant states[i] == Merge(chunks, current)
      invariant forall j | 0 <= j < i :: Handles(states[j], paragraphs[j], states[j + 1], size, overlap)
    {
      var paragraph := paragraphs[i];
      ghost var before := Merge(chunks, current);
      if |paragraph| > size {
        if |current| > 0 {
          chunks := chunks + [Chunk(current, chunkIndex)];
          chunkIndex := chunkIndex + 1;
          current := [];
        }
        var long := SplitLongParagraph(paragraph, chunkIndex, size, overlap);
        assert (chunks + long)[|chunks|..] == long;
        chunks := chunks + long;
        chunkIndex := chunkIndex + |long|;
      } else {
        if |current| + |paragraph| + 1 > size {
          chunks := chunks + [Chunk(current, chunkIndex)];
          chunkIndex := chunkIndex + 1;
          if |current| > overlap {
            current := current[|current| - overlap..] + [SPACE];
          } else {
            current := [];
          }
        }
        if |current| > 0 {
          current := current + [SPACE];
        }
        current := current + paragraph;
      }
      assert Handles(before, paragraph, Merge(chunks, current), size, overlap);
      states := states + [Merge(chunks, current)];
    }
    if |current| > 0 {
      chunks := chunks + [Chunk(current, chunkIndex)];
    }
    assert IsRun(paragraphs, states, size, overlap);
  }

  // ---------- what the chunks satisfy ----------

  ghost predicate OccursAt(part: Text, whole: Text, from: nat) {
    from + |part| <= |whole| && whole[from..from + |part|] == part
  }

  ghost predicate Occurs(part: Text, whole: Text) {
    exists from :: OccursAt(part, whole, from)
  }

  ghost predicate Bounded(m: Merge, size: nat, overlap: nat) {
    && |m.current| <= size + overlap + 2
    && (forall k | 0 <= k < |m.chunks| :: m.chunks[k].index == k && |m.chunks[k].content| <= size + overlap + 2)
  }

  lemma LongKeepsBounds(m: Merge, paragraph: Text, m': Merge, size: nat, overlap: nat)
    requires (overlap < size || |paragraph| <= size) && Handles(m, paragraph, m', size, overlap)
    requires Bounded(m, size, overlap)
    requires |paragraph| > size
    ensures Bounded(m', size, overlap)
  {
    var f := Flushed(m).chunks;
    forall k | 0 <= k < |m'.chunks| ensures m'.chunks[k].index == k && |m'.chunks[k].content| <= size + overlap + 2 {
      if k < |f| {
        assert m'.chunks[k] == m'.chunks[..|f|][k];
      } else {
        assert m'.chunks[k] == m'.chunks[|f|..][k - |f|];
        assert IsPiece(m'.chunks[|f|..][k - |f|], paragraph, |f|, size, overlap, k - |f|);
      }
    }
  }

  lemma HandlingKeepsBounds(m: Merge, paragraph: Text, m': Merge, size: nat, overlap: nat)
    requires (overlap < size || |paragraph| <= size) && Handles(m, paragraph, m', size, overlap)
    requires Bounded(m, size, overlap)
    ensures Bounded(m', size, overlap)
  {
    if |paragraph| > size {
      LongKeepsBounds(m, paragraph, m', size, overlap);
    }
  }

  /** Indices are consecutive and no chunk is longer than the size plus the overlap plus two spaces. */
  lemma {:induction false} ChunksAreBounded(paragraphs: seq<Text>, states: seq<Merge>, size: nat, overlap: nat, n: nat)
    requires Terminates(paragraphs, size, overlap) && IsRun(paragraphs, states, size, overlap) && n <= |paragraphs|
    ensures Bounded(states[n], size, overlap) && Bounded(Flushed(states[n]), size, overlap)
  {
    if n > 0 {
      ChunksAreBounded(paragraphs, states, size, overlap, n - 1);
      HandlingKeepsBounds(states[n - 1], paragraphs[n - 1], states[n], size, overlap);
    }
  }

  /** The paragraph is whole in some saved chunk or in the text being collected. */
  ghost predicate Found(paragraph: Text, m: Merge) {
    Occurs(paragraph, m.current) || exists k :: 0 <= k < |m.chunks| && Occurs(paragraph, m.chunks[k].content)
  }

  lemma HandlingKeepsFound(m: Merge, paragraph: Text, m': Merge, size: nat, overlap: nat, q: Text)
    requires (overlap < size || |paragraph| <= size) && Handles(m, paragraph, m', size, overlap)
    requires q != [] && Found(q, m)
    ensures Found(q, m')
  {
    if exists k :: 0 <= k < |m.chunks| && Occurs(q, m.chunks[k].content) {
      var k :| 0 <= k < |m.chunks| && Occurs(q, m.chunks[k].content);
      SavedChunksStay(m, paragraph, m', size, overlap);
      assert m'.chunks[k] == m.chunks[k];
    } else if |paragraph| > size || |m.current| + |paragraph| + 1 > size {
      SavedChunksStay(m, paragraph, m', size, overlap);
      assert m.current != [];
      assert m'.chunks[|m.chunks|].content == m.current;
    } else {
      var from :| OccursAt(q, m.current, from);
      assert OccursAt(q, m'.current, from);
    }
  }

  lemma SavedChunksStay(m: Merge, paragraph: Text, m': Merge, size: nat, overlap: nat)
    requires (overlap < size || |paragraph| <= size) && Handles(m, paragraph, m', size, overlap)
    ensures |m.chunks| <= |m'.chunks| && m'.chunks[..|m.chunks|] == m.chunks
    ensures (|paragraph| > size && m.current != []) || (|paragraph| <= size && |m.current| + |paragraph| + 1 > size) ==>
              |m'.chunks| > |m.chunks| && m'.chunks[|m.chunks|].content == m.current
  {
    if |paragraph| > size {
      var f := Flushed(m).chunks;
      assert m'.chunks[..|f|] == f;
      assert forall k | 0 <= k < |f| :: m'.chunks[k] == f[k];
    }
  }

  lemma ShortParagraphIsCollected(m: Merge, paragraph: Text, m': Merge, size: nat, overlap: nat)
    requires (overlap < size || |paragraph| <= size) && Handles(m, paragraph, m', size, overlap) && |paragraph| <= size
    ensures Occurs(paragraph, m'.current)
  {
    assert OccursAt(paragraph, m'.current, |m'.current| - |paragraph|);
  }

  /** Every non-empty paragraph that fits a chunk occurs whole in some chunk. */
  lemma {:induction false} ShortParagraphsStayWhole(paragraphs: seq<Text>, states: seq<Merge>, size: nat,
                                                    overlap: nat, i: nat, n: nat)
    requires Terminates(paragraphs, size, overlap) && IsRun(paragraphs, states, size, overlap)
    requires i < n <= |paragraphs| && 0 < |paragraphs[i]| <= size
    ensures Found(paragraphs[i], states[n])
    ensures exists k ::
              0 <= k < |Flushed(states[n]).chunks| && Occurs(paragraphs[i], Flushed(states[n]).chunks[k].content)
    decreases n - i
  {
    var q := paragraphs[i];
    if n == i + 1 {
      ShortParagraphIsCollected(states[i], q, states[n], size, overlap);
    } else {
      ShortParagraphsStayWhole(paragraphs, states, size, overlap, i, n - 1);
      HandlingKeepsFound(states[n - 1], paragraphs[n - 1], states[n], size, overlap, q);
    }
    var m, f := states[n], Flushed(states[n]);
    if Occurs(q, m.current) {
      assert f.chunks[|m.chunks|].content == m.current;
    } else {
      var k :| 0 <= k < |m.chunks| && Occurs(q, m.chunks[k].content);
      assert f.chunks[k] == m.chunks[k];
    }
  }

  // ---------- empty chunks ----------

  ghost predicate HasEmpty(m: Merge) {
    exists k :: 0 <= k < |m.chunks| && m.chunks[k].content == []
  }

  /** A paragraph of exactly the chunk size that starts the run or follows a long paragraph. */
  ghost predicate ExactFit(paragraphs: seq<Text>, size: nat, i: nat)
    requires i < |paragraphs|
  {
    |paragraphs[i]| == size && (i == 0 || |paragraphs[i - 1]| > size)
  }

  lemma LongAddsNoEmpty(m: Merge, paragraph: Text, m': Merge, size: nat, overlap: nat)
    requires (overlap < size || |paragraph| <= size) && Handles(m, paragraph, m', size, overlap) && |paragraph| > size
    ensures HasEmpty(m') ==> HasEmpty(Flushed(m))
  {
    var f := Flushed(m).chunks;
    var pieces := m'.chunks[|f|..];
    forall k | 0 <= k < |pieces| ensures pieces[k].content != [] {
      assert IsPiece(pieces[k], paragraph, |f|, size, overlap, k);
    }
    forall k | 0 <= k < |m'.chunks| ensures m'.chunks[k] == if k < |f| then f[k] else pieces[k - |f|] {
    }
  }

  lemma ShortAddsEmptyIff(m: Merge, paragraph: Text, size: nat, overlap: nat)
    requires paragraph != [] && |paragraph| <= size
    ensures HasEmpty(AddShort(m, paragraph, size, overlap)) <==> HasEmpty(m) || (m.current == [] && |paragraph| == size)
  {
    var m' := AddShort(m, paragraph, size, overlap);
    assert forall k | 0 <= k < |m.chunks| :: m'.chunks[k] == m.chunks[k];
    if |m'.chunks| > |m.chunks| {
      assert m'.chunks[|m.chunks|].content == m.current;
    }
  }

  lemma HandlingAddsEmptyIff(m: Merge, paragraph: Text, m': Merge, size: nat, overlap: nat)
    requires (overlap < size || |paragraph| <= size) && Handles(m, paragraph, m', size, overlap) && paragraph != []
    ensures HasEmpty(m') <==> HasEmpty(m) || (m.current == [] && |paragraph| == size)
    ensures m'.current == [] <==> |paragraph| > size
  {
    if |paragraph| > size {
      SavedChunksStay(m, paragraph, m', size, overlap);
      FlushingAddsNoEmpty(m);
      LongAddsNoEmpty(m, paragraph, m', size, overlap);
      if HasEmpty(m) {
        var k :| 0 <= k < |m.chunks| && m.chunks[k].content == [];
        assert m'.chunks[k] == m'.chunks[..|m.chunks|][k];
      }
    } else {
      ShortAddsEmptyIff(m, paragraph, size, overlap);
    }
  }

  /** Among non-empty paragraphs an empty chunk is emitted exactly when some paragraph has the chunk size
      and meets an empty collected text, that is, starts the run or follows a long paragraph. */
  lemma {:induction false} EmptyChunkIff(paragraphs: seq<Text>, states: seq<Merge>, size: nat, overlap: nat, n: nat)
    requires Terminates(paragraphs, size, overlap) && IsRun(paragraphs, states, size, overlap) && n <= |paragraphs|
    requires forall p | p in paragraphs :: p != []
    ensures HasEmpty(Flushed(states[n])) <==> HasEmpty(states[n])
    ensures HasEmpty(states[n]) <==> exists i :: 0 <= i < n && ExactFit(paragraphs, size, i)
    ensures states[n].current == [] <==> n == 0 || |paragraphs[n - 1]| > size
  {
    if n > 0 {
      EmptyChunkIff(paragraphs, states, size, overlap, n - 1);
      assert paragraphs[n - 1] in paragraphs;
      HandlingAddsEmptyIff(states[n - 1], paragraphs[n - 1], states[n], size, overlap);
      assert ExactFit(paragraphs, size, n - 1) <==> states[n - 1].current == [] && |paragraphs[n - 1]| == size;
    }
    FlushingAddsNoEmpty(states[n]);
  }

  /** What all this says of the returned chunks: consecutive indices, bounded sizes, no fitting paragraph
      cut, and exactly when an empty chunk is among them. */
  lemma MergedChunks(paragraphs: seq<Text>, chunks: seq<Chunk>, size: nat, overlap: nat)
    requires Terminates(paragraphs, size, overlap) && IsMerge(paragraphs, chunks, size, overlap)
    ensures forall k | 0 <= k < |chunks| :: chunks[k].index == k && |chunks[k].content| <= size + overlap + 2
    ensures forall i | 0 <= i < |paragraphs| && 0 < |paragraphs[i]| <= size ::
              exists k :: 0 <= k < |chunks| && Occurs(paragraphs[i], chunks[k].content)
    ensures (forall p | p in paragraphs :: p != []) ==>
              ((exists k :: 0 <= k < |chunks| && chunks[k].content == []) <==>
               exists i :: 0 <= i < |paragraphs| && ExactFit(paragraphs, size, i))
  {
    var n := |paragraphs|;
    var states :| IsRun(paragraphs, states, size, overlap) && chunks == Flushed(states[n]).chunks;
    ChunksAreBounded(paragraphs, states, size, overlap, n);
    forall i | 0 <= i < n && 0 < |paragraphs[i]| <= size
      ensures exists k :: 0 <= k < |chunks| && Occurs(paragraphs[i], chunks[k].content)
    {
      ShortParagraphsStayWhole(paragraphs, states, size, overlap, i, n);
    }
    if forall p | p in paragraphs :: p != [] {
      EmptyChunkIff(paragraphs, states, size, overlap, n);
      assert HasEmpty(Flushed(states[n])) <==> exists k :: 0 <= k < |chunks| && chunks[k].content == [];
    }
  }

  lemma FlushingAddsNoEmpty(m: Merge)
    ensures HasEmpty(Flushed(m)) <==> HasEmpty(m)
  {
    var f := Flushed(m).chunks;
    assert forall k | 0 <= k < |m.chunks| :: f[k] == m.chunks[k];
  }

  // ---------- the paragraphs can be had back ----------

  /** Consecutive paragraphs that went into one chunk, or a long one that was cut into pieces. */
  datatype Group = Collected(paragraphs: seq<Text>) | Cut(paragraph: Text)

  function Members(group: Group): seq<Text> {
    match group
    case Collected(paragraphs) => paragraphs
    case Cut(paragraph) => [paragraph]
  }

  /** The paragraphs of all groups, in order. */
  function Ungrouped(groups: seq<Group>): seq<Text> {
    if groups == [] then [] else Ungrouped(groups[..|groups| - 1]) + Members(groups[|groups| - 1])
  }

  function Joined(paragraphs: seq<Text>): Text {
    if paragraphs == [] then []
    else if |paragraphs| == 1 then paragraphs[0]
    else Joined(paragraphs[..|paragraphs| - 1]) + [SPACE] + paragraphs[|paragraphs| - 1]
  }

  /** What a chunk starts with when the collected text before it was `before`: its last `overlap` bytes and
      two spaces, or nothing. */
  function Opening(before: Text, overlap: nat): Text {
    if |before| > overlap then before[|before| - overlap..] + [SPACE, SPACE] else []
  }

  /** The text of the last group if it was collected. */
  function LastText(groups: seq<Group>, overlap: nat): Text {
    if groups == [] || groups[|groups| - 1].Cut? then []
    else Opening(LastText(groups[..|groups| - 1], overlap), overlap) + Joined(groups[|groups| - 1].paragraphs)
  }

  /** The chunks are those of the groups: one per collected group, with that text, and the pieces of each
      long paragraph. */
  ghost predicate Renders(chunks: seq<Chunk>, groups: seq<Group>, size: nat, overlap: nat)
    decreases |groups|
  {
    if groups == [] then chunks == []
    else
      var before := groups[..|groups| - 1];
      match groups[|groups| - 1]
      case Collected(_) =>
        && chunks != [] && Renders(chunks[..|chunks| - 1], before, size, overlap)
        && chunks[|chunks| - 1] == Chunk(LastText(groups, overlap), |chunks| - 1)
      case Cut(paragraph) =>
        overlap < size && exists k: nat ::
          && k <= |chunks| && Renders(chunks[..k], before, size, overlap)
          && ArePieces(chunks[k..], paragraph, k, size, overlap)
  }

  /** After some paragraphs: the groups saved, and the paragraphs being collected. */
  ghost predicate Grouped(m: Merge, paragraphs: seq<Text>, done: seq<Group>, open: seq<Text>, size: nat, overlap: nat) {
    && Ungrouped(done) + open == paragraphs
    && Renders(m.chunks, done, size, overlap)
    && m.current == OpenText(done, open, overlap)
    && (open == [] ==> LastText(done, overlap) == [])
    && (forall p | p in open :: p != [])
    && Greedy(done, size, overlap) && Fitted(done, open, size, overlap)
  }

  /** Whether paragraphs are collected together is decided by the size alone: each group is a paragraph too long
      for a chunk, or paragraphs fitted behind the groups before. */
  ghost predicate Greedy(groups: seq<Group>, size: nat, overlap: nat) {
    groups == [] ||
    (Greedy(groups[..|groups| - 1], size, overlap) &&
     GoesBehind(groups[|groups| - 1], groups[..|groups| - 1], size, overlap))
  }

  ghost predicate GoesBehind(group: Group, before: seq<Group>, size: nat, overlap: nat) {
    match group
    case Cut(paragraph) => |paragraph| > size
    case Collected(paragraphs) => Fitted(before, paragraphs, size, overlap)
  }

  /** No paragraph but the first exceeds the size together with what was collected before it, and behind a
      collected group the first one does. */
  ghost predicate Fitted(before: seq<Group>, paragraphs: seq<Text>, size: nat, overlap: nat) {
    && Fill(before, paragraphs, size, overlap)
    && (before != [] && before[|before| - 1].Collected? ==>
          paragraphs != [] && |LastText(before, overlap)| + |paragraphs[0]| + 1 > size)
  }

  ghost predicate Fill(before: seq<Group>, paragraphs: seq<Text>, size: nat, overlap: nat) {
    if paragraphs == [] then true
    else
      var n := |paragraphs| - 1;
      && |paragraphs[n]| <= size && Fill(before, paragraphs[..n], size, overlap)
      && (n > 0 ==> |OpenText(before, paragraphs[..n], overlap)| + |paragraphs[n]| + 1 <= size)
  }

  /** Group `i` in plain terms: a long paragraph; or short ones, each but the first fitting behind the ones
      before it, while the first one of a collected group behind another did not fit into that one. */
  lemma {:induction false} GreedySays(groups: seq<Group>, size: nat, overlap: nat, i: nat)
    requires Greedy(groups, size, overlap) && i < |groups|
    ensures match groups[i]
            case Cut(paragraph) => |paragraph| > size
            case Collected(paragraphs) =>
              && (forall j | 0 <= j < |paragraphs| :: FitsAt(groups[..i], paragraphs, size, overlap, j))
              && (i > 0 && groups[i - 1].Collected? ==>
                    paragraphs != [] && |LastText(groups[..i], overlap)| + |paragraphs[0]| + 1 > size)
  {
    var n := |groups| - 1;
    if i < n {
      GreedySays(groups[..n], size, overlap, i);
      assert groups[..n][..i] == groups[..i];
    } else if groups[n].Collected? {
      forall j | 0 <= j < |groups[i].paragraphs| ensures FitsAt(groups[..i], groups[i].paragraphs, size, overlap, j) {
        FillSays(groups[..i], groups[i].paragraphs, size, overlap, j);
      }
    }
  }

  ghost predicate FitsAt(before: seq<Group>, paragraphs: seq<Text>, size: nat, overlap: nat, j: nat)
    requires j < |paragraphs|
  {
    && |paragraphs[j]| <= size
    && (j > 0 ==> |OpenText(before, paragraphs[..j], overlap)| + |paragraphs[j]| + 1 <= size)
  }

  lemma {:induction false} FillSays(before: seq<Group>, paragraphs: seq<Text>, size: nat, overlap: nat, j: nat)
    requires Fill(before, paragraphs, size, overlap) && j < |paragraphs|
    ensures FitsAt(before, paragraphs, size, overlap, j)
  {
    var n := |paragraphs| - 1;
    if j < n {
      FillSays(before, paragraphs[..n], size, overlap, j);
      assert paragraphs[..n][..j] == paragraphs[..j];
    }
  }

  function OpenText(done: seq<Group>, open: seq<Text>, overlap: nat): Text {
    Opening(LastText(done, overlap), overlap) + Joined(open)
  }

  lemma OneMoreGroup(done: seq<Group>, group: Group)
    ensures (done + [group])[..|done|] == done
    ensures Ungrouped(done + [group]) == Ungrouped(done) + Members(group)
  {
  }

  lemma OneMoreGreedyGroup(done: seq<Group>, group: Group, size: nat, overlap: nat)
    requires Greedy(done, size, overlap) && GoesBehind(group, done, size, overlap)
    ensures Greedy(done + [group], size, overlap)
  {
    assert (done + [group])[..|done|] == done;
  }

  lemma OneFits(done: seq<Group>, paragraph: Text, size: nat, overlap: nat)
    requires |paragraph| <= size < |LastText(done, overlap)| + |paragraph| + 1
    ensures Fitted(done, [paragraph], size, overlap)
  {
    assert Fill(done, [], size, overlap) && [paragraph][..0] == [];
  }

  lemma OneMoreFits(done: seq<Group>, open: seq<Text>, paragraph: Text, size: nat, overlap: nat)
    requires Fitted(done, open, size, overlap) && |OpenText(done, open, overlap)| + |paragraph| + 1 <= size
    ensures Fitted(done, open + [paragraph], size, overlap)
  {
    assert (open + [paragraph])[..|open|] == open;
  }

  lemma {:induction false} JoinedIsEmptyIff(paragraphs: seq<Text>)
    requires forall p | p in paragraphs :: p != []
    ensures Joined(paragraphs) == [] <==> paragraphs == []
  {
    if |paragraphs| == 1 {
      assert paragraphs[0] in paragraphs;
    }
  }

  /** Collecting one more paragraph. */
  lemma CollectOne(done: seq<Group>, open: seq<Text>, paragraph: Text, overlap: nat)
    requires (forall p | p in open :: p != []) && (open == [] ==> LastText(done, overlap) == [])
    ensures OpenText(done, open + [paragraph], overlap) == Append(OpenText(done, open, overlap), paragraph)
  {
    JoinedIsEmptyIff(open);
    assert (open + [paragraph])[..|open|] == open;
    if open == [] {
      assert open + [paragraph] == [paragraph];
    }
  }

  /** Saving the collected text closes its group. */
  lemma SaveGroup(m: Merge, paragraphs: seq<Text>, done: seq<Group>, open: seq<Text>, size: nat, overlap: nat)
    requires Grouped(m, paragraphs, done, open, size, overlap)
    ensures var longer := done + [Collected(open)];
      && Renders(Saved(m).chunks, longer, size, overlap) && Ungrouped(longer) == paragraphs
      && LastText(longer, overlap) == m.current && Greedy(longer, size, overlap)
  {
    var longer := done + [Collected(open)];
    OneMoreGreedyGroup(done, Collected(open), size, overlap);
    OneMoreGroup(done, Collected(open));
    assert Saved(m).chunks[..|m.chunks|] == m.chunks;
  }

  lemma GroupShort(m: Merge, paragraphs: seq<Text>, paragraph: Text, done: seq<Group>, open: seq<Text>, size: nat,
                   overlap: nat)
    returns (done': seq<Group>, open': seq<Text>)
    requires Grouped(m, paragraphs, done, open, size, overlap) && 0 < |paragraph| <= size
    ensures Grouped(AddShort(m, paragraph, size, overlap), paragraphs + [paragraph], done', open', size, overlap)
  {
    if |m.current| + |paragraph| + 1 > size {
      done', open' := done + [Collected(open)], [paragraph];
      StartGroup(m, paragraphs, paragraph, done, open, size, overlap);
    } else {
      done', open' := done, open + [paragraph];
      CollectOne(done, open, paragraph, overlap);
      OneMoreFits(done, open, paragraph, size, overlap);
      assert Ungrouped(done) + (open + [paragraph]) == paragraphs + [paragraph];
    }
  }

  lemma StartGroup(m: Merge, paragraphs: seq<Text>, paragraph: Text, done: seq<Group>, open: seq<Text>, size: nat,
                   overlap: nat)
    requires Grouped(m, paragraphs, done, open, size, overlap)
    requires 0 < |paragraph| <= size < |m.current| + |paragraph| + 1
    ensures Grouped(AddShort(m, paragraph, size, overlap), paragraphs + [paragraph], done + [Collected(open)],
                    [paragraph], size, overlap)
  {
    SaveGroup(m, paragraphs, done, open, size, overlap);
    OneFits(done + [Collected(open)], paragraph, size, overlap);
    CarriedOverOpens(m.current, paragraph, overlap);
  }

  lemma CarriedOverOpens(current: Text, paragraph: Text, overlap: nat)
    ensures Append(CarriedOver(current, overlap), paragraph) == Opening(current, overlap) + Joined([paragraph])
  {
  }

  lemma FlushGroup(m: Merge, paragraphs: seq<Text>, done: seq<Group>, open: seq<Text>, size: nat, overlap: nat)
    returns (groups: seq<Group>)
    requires Grouped(m, paragraphs, done, open, size, overlap)
    ensures Renders(Flushed(m).chunks, groups, size, overlap) && Ungrouped(groups) == paragraphs
    ensures Greedy(groups, size, overlap)
  {
    JoinedIsEmptyIff(open);
    if m.current == [] {
      groups := done;
      assert open == [];
      assert Ungrouped(done) + [] == Ungrouped(done);
    } else {
      SaveGroup(m, paragraphs, done, open, size, overlap);
      groups := done + [Collected(open)];
    }
  }

  lemma GroupLong(m: Merge, paragraphs: seq<Text>, paragraph: Text, m': Merge, done: seq<Group>, open: seq<Text>,
                  size: nat, overlap: nat)
    returns (done': seq<Group>)
    requires Grouped(m, paragraphs, done, open, size, overlap)
    requires overlap < size < |paragraph| && Handles(m, paragraph, m', size, overlap)
    ensures Grouped(m', paragraphs + [paragraph], done', [], size, overlap)
  {
    var flushed := FlushGroup(m, paragraphs, done, open, size, overlap);
    done' := flushed + [Cut(paragraph)];
    OneMoreGroup(flushed, Cut(paragraph));
    OneMoreGreedyGroup(flushed, Cut(paragraph), size, overlap);
    assert Ungrouped(done') + [] == paragraphs + [paragraph];
    var k := |Flushed(m).chunks|;
    assert Renders(m'.chunks[..k], flushed, size, overlap) && ArePieces(m'.chunks[k..], paragraph, k, size, overlap);
  }

  lemma {:induction false} GroupAll(paragraphs: seq<Text>, states: seq<Merge>, size: nat, overlap: nat, n: nat)
    returns (done: seq<Group>, open: seq<Text>)
    requires Terminates(paragraphs, size, overlap) && IsRun(paragraphs, states, size, overlap) && n <= |paragraphs|
    requires forall p | p in paragraphs :: p != []
    ensures Grouped(states[n], paragraphs[..n], done, open, size, overlap)
  {
    if n == 0 {
      done, open := [], [];
      NothingGrouped(size, overlap);
    } else {
      var d, o := GroupAll(paragraphs, states, size, overlap, n - 1);
      NextIsHandled(paragraphs, states, size, overlap, n);
      done, open := GroupOne(states[n - 1], paragraphs[..n - 1], paragraphs[n - 1], states[n], d, o, size, overlap);
    }
  }

  lemma NextIsHandled(paragraphs: seq<Text>, states: seq<Merge>, size: nat, overlap: nat, n: nat)
    requires Terminates(paragraphs, size, overlap) && IsRun(paragraphs, states, size, overlap)
    requires 0 < n <= |paragraphs| && forall p | p in paragraphs :: p != []
    ensures paragraphs[n - 1] != [] && (overlap < size || |paragraphs[n - 1]| <= size)
    ensures Handles(states[n - 1], paragraphs[n - 1], states[n], size, overlap)
    ensures paragraphs[..n - 1] + [paragraphs[n - 1]] == paragraphs[..n]
  {
    assert paragraphs[n - 1] in paragraphs;
  }

  lemma NothingGrouped(size: nat, overlap: nat)
    ensures Grouped(Merge([], []), [], [], [], size, overlap)
  {
  }

  lemma GroupOne(m: Merge, paragraphs: seq<Text>, paragraph: Text, m': Merge, done: seq<Group>, open: seq<Text>,
                 size: nat, overlap: nat)
    returns (done': seq<Group>, open': seq<Text>)
    requires Grouped(m, paragraphs, done, open, size, overlap) && paragraph != []
    requires (overlap < size || |paragraph| <= size) && Handles(m, paragraph, m', size, overlap)
    ensures Grouped(m', paragraphs + [paragraph], done', open', size, overlap)
  {
    if |paragraph| > size {
      done' := GroupLong(m, paragraphs, paragraph, m', done, open, size, overlap);
      open' := [];
    } else {
      done', open' := GroupShort(m, paragraphs, paragraph, done, open, size, overlap);
    }
  }

  // How the texts of the groups are read off the chunks again.

  /** The number of chunks of a group. */
  function Width(group: Group, size: nat, overlap: nat): nat {
    match group
    case Collected(_) => 1
    case Cut(paragraph) => if overlap < size then Ceiling(|paragraph|, size - overlap) else 0
  }

  function Tail(s: Text, n: nat): Text {
    if n <= |s| then s[n..] else []
  }

  /** The content of the last chunk before a group if that belongs to a collected one. */
  function ContentBefore(chunks: seq<Chunk>, groups: seq<Group>): Text {
    if groups != [] && groups[|groups| - 1].Collected? && chunks != [] then chunks[|chunks| - 1].content else []
  }

  /** The text of one group, read off its chunks: of a collected one the chunk without what it carries over
      from the chunk before, of a long paragraph the leading parts of its pieces. */
  ghost function Read(chunks: seq<Chunk>, group: Group, before: Text, size: nat, overlap: nat): Text {
    match group
    case Collected(_) => if chunks == [] then [] else Tail(chunks[0].content, |Opening(before, overlap)|)
    case Cut(_) => if overlap < size then Leading(chunks, size - overlap, |chunks|) else []
  }

  /** One text per group. */
  ghost function Regained(chunks: seq<Chunk>, groups: seq<Group>, size: nat, overlap: nat): seq<Text>
    decreases |groups|
  {
    if groups == [] || |chunks| < Width(groups[|groups| - 1], size, overlap) then []
    else
      var n := |groups| - 1;
      var k := |chunks| - Width(groups[n], size, overlap);
      Regained(chunks[..k], groups[..n], size, overlap)
      + [Read(chunks[k..], groups[n], ContentBefore(chunks[..k], groups[..n]), size, overlap)]
  }

  function TextOf(group: Group): Text {
    match group
    case Collected(paragraphs) => Joined(paragraphs)
    case Cut(paragraph) => paragraph
  }

  /** What was put into the groups. */
  function Texts(groups: seq<Group>): seq<Text> {
    if groups == [] then [] else Texts(groups[..|groups| - 1]) + [TextOf(groups[|groups| - 1])]
  }

  /** Where the chunks of the last group begin, and that its text is read off them. */
  lemma LastGroupIsRead(chunks: seq<Chunk>, groups: seq<Group>, size: nat, overlap: nat)
    requires groups != [] && Renders(chunks, groups, size, overlap)
    ensures var n := |groups| - 1; var width := Width(groups[n], size, overlap);
      && width <= |chunks|
      && var k := |chunks| - width;
      && Renders(chunks[..k], groups[..n], size, overlap)
      && Read(chunks[k..], groups[n], ContentBefore(chunks[..k], groups[..n]), size, overlap) == TextOf(groups[n])
  {
    var n := |groups| - 1;
    match groups[n]
    case Collected(paragraphs) =>
      var k := |chunks| - 1;
      LastChunkIsLastText(chunks[..k], groups[..n], size, overlap);
      TailOfConcat(Opening(LastText(groups[..n], overlap), overlap), Joined(paragraphs));
    case Cut(paragraph) =>
      var k: nat :| && k <= |chunks| && Renders(chunks[..k], groups[..n], size, overlap)
                    && ArePieces(chunks[k..], paragraph, k, size, overlap);
      PiecesReassemble(chunks[k..], paragraph, k, size, overlap);
  }

  lemma TailOfConcat(a: Text, b: Text)
    ensures Tail(a + b, |a|) == b
  {
  }

  lemma LastChunkIsLastText(chunks: seq<Chunk>, groups: seq<Group>, size: nat, overlap: nat)
    requires Renders(chunks, groups, size, overlap)
    ensures ContentBefore(chunks, groups) == LastText(groups, overlap)
  {
  }

  lemma {:induction false} GroupsAreRegained(chunks: seq<Chunk>, groups: seq<Group>, size: nat, overlap: nat)
    requires Renders(chunks, groups, size, overlap)
    ensures Regained(chunks, groups, size, overlap) == Texts(groups)
    decreases |groups|
  {
    if groups != [] {
      var n := |groups| - 1;
      LastGroupIsRead(chunks, groups, size, overlap);
      GroupsAreRegained(chunks[..|chunks| - Width(groups[n], size, overlap)], groups[..n], size, overlap);
    }
  }

  /** Every merge comes from grouping all paragraphs in order, as many as fit at a time: dropping from each
      chunk what it carries over from the chunk before leaves the group's paragraphs joined by spaces, and the
      leading parts of its pieces give back each long paragraph. */
  lemma MergedChunksReassemble(paragraphs: seq<Text>, chunks: seq<Chunk>, size: nat, overlap: nat)
    returns (groups: seq<Group>)
    requires Terminates(paragraphs, size, overlap) && IsMerge(paragraphs, chunks, size, overlap)
    requires forall p | p in paragraphs :: p != []
    ensures Ungrouped(groups) == paragraphs && Renders(chunks, groups, size, overlap)
    ensures Regained(chunks, groups, size, overlap) == Texts(groups) && Greedy(groups, size, overlap)
  {
    var n := |paragraphs|;
    var states :| IsRun(paragraphs, states, size, overlap) && chunks == Flushed(states[n]).chunks;
    var done, open := GroupAll(paragraphs, states, size, overlap, n);
    assert paragraphs[..n] == paragraphs;
    groups := FlushGroup(states[n], paragraphs, done, open, size, overlap);
    GroupsAreRegained(chunks, groups, size, overlap);
  }

  // ---------- the chunks of a group ----------

  /** The number of chunks of all groups. */
  function TotalWidth(groups: seq<Group>, size: nat, overlap: nat): nat {
    if groups == [] then 0
    else TotalWidth(groups[..|groups| - 1], size, overlap) + Width(groups[|groups| - 1], size, overlap)
  }

  lemma LastGroupIsRendered(chunks: seq<Chunk>, groups: seq<Group>, size: nat, overlap: nat)
    requires groups != [] && Renders(chunks, groups, size, overlap)
    ensures var n := |groups| - 1; var width := Width(groups[n], size, overlap);
      width <= |chunks| && Renders(chunks[..|chunks| - width], groups[..n], size, overlap)
  {
    LastGroupIsRead(chunks, groups, size, overlap);
  }

  lemma {:induction false} WidthsAddUp(chunks: seq<Chunk>, groups: seq<Group>, size: nat, overlap: nat)
    requires Renders(chunks, groups, size, overlap)
    ensures TotalWidth(groups, size, overlap) == |chunks|
    decreases |groups|
  {
    if groups != [] {
      var n := |groups| - 1;
      LastGroupIsRendered(chunks, groups, size, overlap);
      WidthsAddUp(chunks[..|chunks| - Width(groups[n], size, overlap)], groups[..n], size, overlap);
    }
  }

  /** Every group has its chunks behind those of the groups before it. */
  lemma {:induction false} ChunksOfGroup(chunks: seq<Chunk>, groups: seq<Group>, size: nat, overlap: nat, i: nat)
    requires Renders(chunks, groups, size, overlap) && i <= |groups|
    ensures var k := TotalWidth(groups[..i], size, overlap);
      k <= |chunks| && Renders(chunks[..k], groups[..i], size, overlap)
    decreases |groups| - i
  {
    if i == |groups| {
      assert groups[..i] == groups && chunks[..|chunks|] == chunks;
      WidthsAddUp(chunks, groups, size, overlap);
    } else {
      ChunksOfGroup(chunks, groups, size, overlap, i + 1);
      OneGroupLess(chunks, groups[..i + 1], size, overlap, TotalWidth(groups[..i + 1], size, overlap));
      assert groups[..i + 1][..i] == groups[..i];
    }
  }

  lemma OneGroupLess(chunks: seq<Chunk>, groups: seq<Group>, size: nat, overlap: nat, k: nat)
    requires groups != [] && k == TotalWidth(groups, size, overlap) <= |chunks|
    requires Renders(chunks[..k], groups, size, overlap)
    ensures var before := groups[..|groups| - 1];
      Renders(chunks[..TotalWidth(before, size, overlap)], before, size, overlap)
  {
    LastGroupIsRendered(chunks[..k], groups, size, overlap);
    PrefixOfPrefix(chunks, TotalWidth(groups[..|groups| - 1], size, overlap), k);
  }

  lemma PrefixOfPrefix(chunks: seq<Chunk>, l: nat, k: nat)
    requires l <= k <= |chunks|
    ensures chunks[..k][..l] == chunks[..l]
  {
  }

  /** What a collected chunk says, byte by byte: its paragraphs joined by single spaces and, directly behind
      another collected chunk with more bytes than the overlap, the last bytes of that one and two spaces
      before them. */
  lemma CollectedChunkSays(chunks: seq<Chunk>, groups: seq<Group>, size: nat, overlap: nat, i: nat)
    requires Renders(chunks, groups, size, overlap) && i < |groups| && groups[i].Collected?
    ensures var k := TotalWidth(groups[..i], size, overlap);
      && k < |chunks| && chunks[k].index == k
      && (if i == 0 || groups[i - 1].Cut? then chunks[k].content == Joined(groups[i].paragraphs)
          else k > 0 && Continues(chunks[k - 1].content, chunks[k].content, Joined(groups[i].paragraphs), overlap))
  {
    if i == 0 || groups[i - 1].Cut? {
      FreshChunkSays(chunks, groups, size, overlap, i);
    } else {
      ContinuedChunkSays(chunks, groups, size, overlap, i);
    }
  }

  lemma ContinuedChunkSays(chunks: seq<Chunk>, groups: seq<Group>, size: nat, overlap: nat, i: nat)
    requires Renders(chunks, groups, size, overlap)
    requires 0 < i < |groups| && groups[i].Collected? && groups[i - 1].Collected?
    ensures var k := TotalWidth(groups[..i], size, overlap);
      && 0 < k < |chunks| && chunks[k].index == k
      && Continues(chunks[k - 1].content, chunks[k].content, Joined(groups[i].paragraphs), overlap)
  {
    PreviousChunkIsLastText(chunks, groups, size, overlap, i);
    CollectedChunkOpens(chunks, groups, size, overlap, i);
    OpeningContinues(LastText(groups[..i], overlap), Joined(groups[i].paragraphs), overlap);
  }

  lemma PreviousChunkIsLastText(chunks: seq<Chunk>, groups: seq<Group>, size: nat, overlap: nat, i: nat)
    requires Renders(chunks, groups, size, overlap) && 0 < i <= |groups| && groups[i - 1].Collected?
    ensures var k := TotalWidth(groups[..i], size, overlap);
      0 < k <= |chunks| && chunks[k - 1] == Chunk(LastText(groups[..i], overlap), k - 1)
  {
    ChunksOfGroup(chunks, groups, size, overlap, i);
    OneMoreWidth(groups, size, overlap, i - 1);
  }

  lemma CollectedChunkOpens(chunks: seq<Chunk>, groups: seq<Group>, size: nat, overlap: nat, i: nat)
    requires Renders(chunks, groups, size, overlap) && i < |groups| && groups[i].Collected?
    ensures var k := TotalWidth(groups[..i], size, overlap);
      && k < |chunks|
      && chunks[k] == Chunk(Opening(LastText(groups[..i], overlap), overlap) + Joined(groups[i].paragraphs), k)
  {
    PreviousChunkIsLastText(chunks, groups, size, overlap, i + 1);
    OneMoreWidth(groups, size, overlap, i);
    LastTextOpens(groups, overlap, i);
  }

  lemma LastTextOpens(groups: seq<Group>, overlap: nat, i: nat)
    requires i < |groups| && groups[i].Collected?
    ensures LastText(groups[..i + 1], overlap) ==
            Opening(LastText(groups[..i], overlap), overlap) + Joined(groups[i].paragraphs)
  {
    assert groups[..i + 1][..i] == groups[..i];
  }

  lemma FreshChunkSays(chunks: seq<Chunk>, groups: seq<Group>, size: nat, overlap: nat, i: nat)
    requires Renders(chunks, groups, size, overlap)
    requires i < |groups| && groups[i].Collected? && (i == 0 || groups[i - 1].Cut?)
    ensures var k := TotalWidth(groups[..i], size, overlap);
      k < |chunks| && chunks[k] == Chunk(Joined(groups[i].paragraphs), k)
  {
    CollectedChunkOpens(chunks, groups, size, overlap, i);
    NothingOpens(groups[..i], Joined(groups[i].paragraphs), overlap);
  }

  lemma NothingOpens(groups: seq<Group>, text: Text, overlap: nat)
    requires groups == [] || groups[|groups| - 1].Cut?
    ensures Opening(LastText(groups, overlap), overlap) + text == text
  {
  }

  lemma OneMoreWidth(groups: seq<Group>, size: nat, overlap: nat, i: nat)
    requires i < |groups|
    ensures TotalWidth(groups[..i + 1], size, overlap) ==
            TotalWidth(groups[..i], size, overlap) + Width(groups[i], size, overlap)
  {
    assert groups[..i + 1][..i] == groups[..i];
  }

  /** The new text, preceded by the last `overlap` bytes of the previous chunk and two spaces if that chunk has
      more bytes than that. */
  ghost predicate Continues(previous: Text, content: Text, text: Text, overlap: nat) {
    content == (if |previous| > overlap then previous[|previous| - overlap..] + [32, 32] else []) + text
  }

  lemma OpeningContinues(previous: Text, text: Text, overlap: nat)
    ensures Continues(previous, Opening(previous, overlap) + text, text, overlap)
  {
  }

  /** Joining puts one space before every paragraph but the first. */
  lemma JoinedIsExact(paragraphs: seq<Text>, paragraph: Text)
    ensures Joined([paragraph]) == paragraph
    ensures paragraphs != [] ==> Joined(paragraphs + [paragraph]) == Joined(paragraphs) + [32] + paragraph
  {
    assert (paragraphs + [paragraph])[..|paragraphs|] == paragraphs;
  }

  /** Piece `k` of a long paragraph, in plain numbers: it begins `k` steps behind the start and ends after
      `size` bytes or with the paragraph, and there is one for each step that begins inside the paragraph. */
  lemma PieceSays(chunks: seq<Chunk>, paragraph: Text, startIndex: nat, size: nat, overlap: nat, k: nat,
                  from: nat)
    requires overlap < size && ArePieces(chunks, paragraph, startIndex, size, overlap)
    requires from == k * (size - overlap)
    ensures k < |chunks| <==> from < |paragraph|
    ensures k < |chunks| ==>
              && chunks[k].index == startIndex + k
              && chunks[k].content ==
                 if from + size <= |paragraph| then paragraph[from..from + size] else paragraph[from..]
  {
    StepsIsProduct(size - overlap, k);
    StartsInsideIff(|paragraph|, size - overlap, k);
    if k < |chunks| {
      assert IsPiece(chunks[k], paragraph, startIndex, size, overlap, k);
    }
  }
}
