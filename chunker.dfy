/** The text chunker of internal/tools/chunker/chunker.go. The regular-expression
    splitters (`[.!?]+\s+` for sentences, `\n\s*\n` for paragraphs) are not
    modelled: their output is an input of the methods here. */
module Chunker {
  import opened GoStrings

  datatype ChunkInfo = ChunkInfo(Text: string, NumCharacters: int, NumWords: int)

  datatype TextChunks = TextChunks(NumChunks: int, ChunkList: seq<ChunkInfo>)

  /** `createChunkInfo`: the text with its length and its word count. */
  function CreateChunkInfo(text: string): ChunkInfo {
    ChunkInfo(text, |text|, |Fields(text)|)
  }

  /** The word count of a chunk is the number of places where a non-space
      character starts the text or follows a space. */
  lemma CreateChunkInfoCounts(text: string)
    ensures CreateChunkInfo(text).Text == text
    ensures CreateChunkInfo(text).NumCharacters == |text|
    ensures CreateChunkInfo(text).NumWords == WordStarts(text, true)
  {
    FieldsCount(text);
  }

  /** A chunk whose counts are those `createChunkInfo` gives its text. */
  predicate Measured(c: ChunkInfo) {
    c == CreateChunkInfo(c.Text)
  }

  predicate AllMeasured(cs: seq<ChunkInfo>) {
    forall k :: 0 <= k < |cs| ==> Measured(cs[k])
  }

  /** What every `TextChunks` the chunker builds satisfies. */
  predicate Consistent(r: TextChunks) {
    r.NumChunks == |r.ChunkList| && AllMeasured(r.ChunkList)
  }

  lemma AllMeasuredSnoc(cs: seq<ChunkInfo>, text: string)
    requires AllMeasured(cs)
    ensures AllMeasured(cs + [CreateChunkInfo(text)])
  {
  }

  function Texts(cs: seq<ChunkInfo>): (ts: seq<string>)
    ensures |ts| == |cs| && forall k :: 0 <= k < |cs| ==> ts[k] == cs[k].Text
  {
    seq(|cs|, k requires 0 <= k < |cs| => cs[k].Text)
  }

  lemma TextsSnoc(cs: seq<ChunkInfo>, text: string)
    ensures Texts(cs + [CreateChunkInfo(text)]) == Texts(cs) + [text]
  {
  }

  /** Concatenation of a sequence of strings. */
  function Concat(ts: seq<string>): string {
    if ts == [] then [] else Concat(ts[..|ts| - 1]) + ts[|ts| - 1]
  }

  function Flatten(gs: seq<seq<string>>): seq<string> {
    if gs == [] then [] else Flatten(gs[..|gs| - 1]) + gs[|gs| - 1]
  }

  /** The accumulator of the sentence-preserving mode after taking the sentences
      of `g`: each sentence followed by one space. */
  function JoinSpaced(g: seq<string>): (r: string)
    ensures g != [] ==> |r| > 0 && r[|r| - 1] == ' '
    ensures g == [] ==> r == []
  {
    if g == [] then [] else JoinSpaced(g[..|g| - 1]) + g[|g| - 1] + " "
  }

  /** The text of the chunk made from the group of sentences `g`: a lone sentence
      longer than the limit is emitted as it is, any other group as its trimmed
      accumulator. */
  function PackedText(g: seq<string>, maxChunkSize: int): string {
    if |g| == 1 && |g[0]| > maxChunkSize then g[0] else TrimSpace(JoinSpaced(g))
  }

  lemma FlattenSnoc(gs: seq<seq<string>>, g: seq<string>)
    ensures Flatten(gs + [g]) == Flatten(gs) + g
  {
    assert (gs + [g])[..|gs|] == gs;
  }

  lemma JoinSpacedSnoc(g: seq<string>, s: string)
    ensures JoinSpaced(g + [s]) == JoinSpaced(g) + s + " "
  {
    assert (g + [s])[..|g|] == g;
  }

  lemma JoinSpacedSingle(s: string)
    ensures JoinSpaced([s]) == s + " "
  {
    assert [s][..0] == [];
  }

  lemma ConcatSnoc(ts: seq<string>, t: string)
    ensures Concat(ts + [t]) == Concat(ts) + t
  {
    assert (ts + [t])[..|ts|] == ts;
  }

  /** `chunks` were made from the groups of sentences `groups`, one chunk per
      group: a chunk is within `maxChunkSize` unless its group is a single
      sentence, emitted as it is. */
  predicate PackedAs(chunks: seq<ChunkInfo>, groups: seq<seq<string>>, maxChunkSize: int) {
    |groups| == |chunks| &&
    forall k :: 0 <= k < |chunks| ==>
      groups[k] != [] && chunks[k] == CreateChunkInfo(PackedText(groups[k], maxChunkSize)) &&
      (|chunks[k].Text| <= maxChunkSize || groups[k] == [chunks[k].Text])
  }

  lemma PackedAsSnoc(chunks: seq<ChunkInfo>, groups: seq<seq<string>>, g: seq<string>, maxChunkSize: int)
    requires PackedAs(chunks, groups, maxChunkSize)
    requires g != []
    requires |PackedText(g, maxChunkSize)| <= maxChunkSize || g == [PackedText(g, maxChunkSize)]
    ensures PackedAs(chunks + [CreateChunkInfo(PackedText(g, maxChunkSize))], groups + [g], maxChunkSize)
  {
  }

  lemma PackedAsMeasured(chunks: seq<ChunkInfo>, groups: seq<seq<string>>, maxChunkSize: int)
    requires PackedAs(chunks, groups, maxChunkSize)
    ensures AllMeasured(chunks)
  {
  }

  /** A group the loop built in its accumulator: every sentence fitted, next to
      the sentences before it, when it was taken. */
  predicate Accumulated(g: seq<string>, maxChunkSize: int) {
    forall j :: 0 <= j < |g| ==> |JoinSpaced(g[..j])| + |g[j]| <= maxChunkSize
  }

  /** A group made of one sentence longer than the limit. */
  predicate LoneLong(g: seq<string>, maxChunkSize: int) {
    |g| == 1 && |g[0]| > maxChunkSize
  }

  /** The greedy rule of the sentence-preserving mode: each group was either
      accumulated or is a lone long sentence, and a group ends only when the
      first sentence of the next one does not fit beside it. */
  predicate Greedy(groups: seq<seq<string>>, maxChunkSize: int) {
    (forall k :: 0 <= k < |groups| ==> Accumulated(groups[k], maxChunkSize) || LoneLong(groups[k], maxChunkSize))
    && forall k :: 0 < k < |groups| ==>
         groups[k] != [] && |JoinSpaced(groups[k - 1])| + |groups[k][0]| > maxChunkSize
  }

  /** The greedy rule part way through the input: `groups` are closed, `pending`
      is the accumulator's group, and an empty accumulator after a closed group
      follows a lone long sentence. */
  predicate GreedySoFar(groups: seq<seq<string>>, pending: seq<string>, maxChunkSize: int) {
    Greedy(groups, maxChunkSize)
    && (pending != [] ==> Accumulated(pending, maxChunkSize))
    && (groups != [] && pending != [] ==> |JoinSpaced(groups[|groups| - 1])| + |pending[0]| > maxChunkSize)
    && (groups != [] && pending == [] ==> LoneLong(groups[|groups| - 1], maxChunkSize))
  }

  /** Closing a group keeps the rule when the group qualifies and the next
      sentence did not fit beside it. */
  lemma GreedyClose(groups: seq<seq<string>>, g: seq<string>, maxChunkSize: int)
    requires Greedy(groups, maxChunkSize)
    requires g != [] && (Accumulated(g, maxChunkSize) || LoneLong(g, maxChunkSize))
    requires groups != [] ==> |JoinSpaced(groups[|groups| - 1])| + |g[0]| > maxChunkSize
    ensures Greedy(groups + [g], maxChunkSize)
  {
    var gs := groups + [g];
    forall k | 0 <= k < |gs|
      ensures Accumulated(gs[k], maxChunkSize) || LoneLong(gs[k], maxChunkSize)
    {
      if k < |groups| {
        assert gs[k] == groups[k];
      }
    }
    forall k | 0 < k < |gs|
      ensures gs[k] != [] && |JoinSpaced(gs[k - 1])| + |gs[k][0]| > maxChunkSize
    {
      if k < |groups| {
        assert gs[k] == groups[k] && gs[k - 1] == groups[k - 1];
      } else {
        assert gs[k] == g && gs[k - 1] == groups[|groups| - 1];
      }
    }
  }

  /** A sentence that fits joins the accumulator. */
  lemma GreedyTake(groups: seq<seq<string>>, pending: seq<string>, s: string, maxChunkSize: int)
    requires GreedySoFar(groups, pending, maxChunkSize)
    requires |JoinSpaced(pending)| + |s| <= maxChunkSize
    ensures GreedySoFar(groups, pending + [s], maxChunkSize)
  {
    var p := pending + [s];
    forall j | 0 <= j < |p|
      ensures |JoinSpaced(p[..j])| + |p[j]| <= maxChunkSize
    {
      if j < |pending| {
        assert p[..j] == pending[..j];
      } else {
        assert p[..j] == pending;
      }
    }
    if groups != [] && pending == [] {
      JoinSpacedSingle(groups[|groups| - 1][0]);
      assert groups[|groups| - 1] == [groups[|groups| - 1][0]];
    }
  }

  /** A sentence that does not fit but is within the limit closes the
      accumulator's group and starts the next one. */
  lemma GreedyCut(groups: seq<seq<string>>, pending: seq<string>, s: string, maxChunkSize: int)
    requires GreedySoFar(groups, pending, maxChunkSize)
    requires pending != [] && |JoinSpaced(pending)| + |s| > maxChunkSize && |s| <= maxChunkSize
    ensures GreedySoFar(groups + [pending], [s], maxChunkSize)
  {
    GreedyClose(groups, pending, maxChunkSize);
    assert [s][..0] == [];
  }

  /** A sentence longer than the limit closes the accumulator's group, if any,
      and becomes a group by itself. */
  lemma GreedyLong(groups: seq<seq<string>>, pending: seq<string>, s: string, maxChunkSize: int)
    requires GreedySoFar(groups, pending, maxChunkSize)
    requires |JoinSpaced(pending)| + |s| > maxChunkSize && |s| > maxChunkSize
    ensures GreedySoFar((if pending == [] then groups else groups + [pending]) + [[s]], [], maxChunkSize)
  {
    var closed := if pending == [] then groups else groups + [pending];
    if pending != [] {
      GreedyClose(groups, pending, maxChunkSize);
    } else if groups != [] {
      JoinSpacedSingle(groups[|groups| - 1][0]);
      assert groups[|groups| - 1] == [groups[|groups| - 1][0]];
    }
    GreedyClose(closed, [s], maxChunkSize);
  }

  /** At the end of the input the accumulator's group, if any, is closed. */
  lemma GreedyFinish(groups: seq<seq<string>>, pending: seq<string>, maxChunkSize: int)
    requires GreedySoFar(groups, pending, maxChunkSize)
    ensures Greedy(if pending == [] then groups else groups + [pending], maxChunkSize)
  {
    if pending != [] {
      GreedyClose(groups, pending, maxChunkSize);
    }
  }

  /** The sentence-preserving mode of `ChunkByMaxChunkSize`: sentences are
      appended, each followed by a space, to an accumulator while it stays
      within `maxChunkSize`; the trimmed accumulator becomes a chunk when the
      next sentence does not fit, and a sentence longer than the limit becomes
      a chunk by itself. The ghost `groups` records which sentences went into
      which chunk: the chunks partition the sentences, in order. */
  method PackSentences(sentences: seq<string>, maxChunkSize: int)
    returns (chunks: seq<ChunkInfo>, ghost groups: seq<seq<string>>)
    ensures PackedAs(chunks, groups, maxChunkSize)
    ensures Flatten(groups) == sentences
    ensures Greedy(groups, maxChunkSize)
  {
    chunks := [];
    groups := [];
    var currentChunk := "";
    ghost var pending: seq<string> := [];
    for i := 0 to |sentences|
      invariant Flatten(groups) + pending == sentences[..i]
      invariant currentChunk == JoinSpaced(pending)
      invariant currentChunk != [] ==> |currentChunk| <= maxChunkSize + 1
      invariant PackedAs(chunks, groups, maxChunkSize)
      invariant GreedySoFar(groups, pending, maxChunkSize)
    {
      var sentence := sentences[i];
      TakeOneMore(groups, pending, sentences, i);
      if |currentChunk| + |sentence| <= maxChunkSize {
        GreedyTake(groups, pending, sentence, maxChunkSize);
        JoinSpacedSnoc(pending, sentence);
        currentChunk := currentChunk + sentence + " ";
        pending := pending + [sentence];
      } else {
        if |sentence| > maxChunkSize {
          GreedyLong(groups, pending, sentence, maxChunkSize);
        } else {
          GreedyCut(groups, pending, sentence, maxChunkSize);
        }
        if currentChunk != "" {
          FlushPending(chunks, groups, pending, currentChunk, maxChunkSize);
          chunks := chunks + [CreateChunkInfo(TrimSpace(currentChunk))];
          groups := groups + [pending];
          pending := [];
        }
        if |sentence| > maxChunkSize {
          PackedAsSnoc(chunks, groups, [sentence], maxChunkSize);
          chunks := chunks + [CreateChunkInfo(sentence)];
          groups := groups + [[sentence]];
          currentChunk := "";
          pending := [];
          assert currentChunk == JoinSpaced(pending);
        } else {
          JoinSpacedSingle(sentence);
          currentChunk := sentence + " ";
          pending := [sentence];
        }
      }
    }
    FinishGroups(groups, pending, sentences);
    GreedyFinish(groups, pending, maxChunkSize);
    if currentChunk != "" {
      FlushPending(chunks, groups, pending, currentChunk, maxChunkSize);
      chunks := chunks + [CreateChunkInfo(TrimSpace(currentChunk))];
      groups := groups + [pending];
    }
  }

  /** The bookkeeping of one more sentence taken from the input, in the forms
      the five paths through the loop body need. */
  lemma TakeOneMore(groups: seq<seq<string>>, pending: seq<string>, sentences: seq<string>, i: nat)
    requires i < |sentences| && Flatten(groups) + pending == sentences[..i]
    ensures Flatten(groups) + (pending + [sentences[i]]) == sentences[..i + 1]
    ensures Flatten(groups + [pending]) + [sentences[i]] == sentences[..i + 1]
    ensures Flatten(groups + [pending] + [[sentences[i]]]) + [] == sentences[..i + 1]
    ensures pending == [] ==> Flatten(groups) + [sentences[i]] == sentences[..i + 1]
    ensures pending == [] ==> Flatten(groups + [[sentences[i]]]) + [] == sentences[..i + 1]
  {
    var s := sentences[i];
    assert sentences[..i + 1] == sentences[..i] + [s];
    FlattenSnoc(groups, pending);
    FlattenSnoc(groups + [pending], [s]);
    FlattenSnoc(groups, [s]);
    assert Flatten(groups) + (pending + [s]) == sentences[..i + 1];
    assert Flatten(groups + [pending]) + [s] == sentences[..i + 1];
  }

  /** At the end of the input the groups hold every sentence. */
  lemma FinishGroups(groups: seq<seq<string>>, pending: seq<string>, sentences: seq<string>)
    requires Flatten(groups) + pending == sentences[..|sentences|]
    ensures pending == [] ==> Flatten(groups) == sentences
    ensures Flatten(groups + [pending]) == sentences
  {
    assert sentences[..|sentences|] == sentences;
    FlattenSnoc(groups, pending);
    if pending == [] {
      assert Flatten(groups) + pending == Flatten(groups);
    }
  }

  /** Emitting the accumulator as a chunk keeps the chunks packed. */
  lemma FlushPending(chunks: seq<ChunkInfo>, groups: seq<seq<string>>, pending: seq<string>,
                     currentChunk: string, maxChunkSize: int)
    requires PackedAs(chunks, groups, maxChunkSize)
    requires currentChunk == JoinSpaced(pending) && currentChunk != []
    requires |currentChunk| <= maxChunkSize + 1
    ensures PackedAs(chunks + [CreateChunkInfo(TrimSpace(currentChunk))], groups + [pending], maxChunkSize)
    ensures Flatten(groups + [pending]) == Flatten(groups) + pending
  {
    TrimSpaceDropsTrailingSpace(currentChunk);
    FlattenSnoc(groups, pending);
    PackedAsSnoc(chunks, groups, pending, maxChunkSize);
  }

  /** `chunks` cut `text` into consecutive pieces of `maxChunkSize` characters,
      the last of which may be shorter. */
  predicate SlicedAs(chunks: seq<ChunkInfo>, text: string, maxChunkSize: int) {
    Concat(Texts(chunks)) == text &&
    (forall k :: 0 <= k < |chunks| ==> 0 < |chunks[k].Text| <= maxChunkSize) &&
    (forall k :: 0 <= k < |chunks| - 1 ==> |chunks[k].Text| == maxChunkSize)
  }

  lemma SlicedAsSnoc(chunks: seq<ChunkInfo>, text: string, i: nat, end: nat, maxChunkSize: int)
    requires i < end <= |text| && end - i <= maxChunkSize
    requires SlicedAs(chunks, text[..i], maxChunkSize)
    requires forall k :: 0 <= k < |chunks| ==> |chunks[k].Text| == maxChunkSize
    ensures SlicedAs(chunks + [CreateChunkInfo(text[i..end])], text[..end], maxChunkSize)
  {
    TextsSnoc(chunks, text[i..end]);
    ConcatSnoc(Texts(chunks), text[i..end]);
    assert text[..i] + text[i..end] == text[..end];
  }

  /** The fixed-size loop of `ChunkByMaxChunkSize` as written, run for at most
      `rounds` iterations from offset `i`: the texts it appends, and whether it
      has left the loop. The step is `maxChunkSize` whatever its value. */
  function FixedLoop(text: string, maxChunkSize: nat, i: nat, rounds: nat): (out: (seq<string>, bool))
    ensures |out.0| <= rounds
    ensures !out.1 ==> |out.0| == rounds
    decreases rounds
  {
    if i >= |text| then ([], true)
    else if rounds == 0 then ([], false)
    else
      var end := if i + maxChunkSize > |text| then |text| else i + maxChunkSize;
      var next := FixedLoop(text, maxChunkSize, i + maxChunkSize, rounds - 1);
      ([text[i..end]] + next.0, next.1)
  }

  /** With a size of zero the offset never moves: on any non-empty text, every
      round appends an empty chunk and the loop never ends. */
  lemma {:induction false} ZeroSizeNeverEnds(text: string, rounds: nat)
    requires text != []
    ensures FixedLoop(text, 0, 0, rounds) == (seq(rounds, _ => ""), false)
  {
    if rounds > 0 {
      ZeroSizeNeverEnds(text, rounds - 1);
      assert [text[0..0]] + seq(rounds - 1, _ => "") == seq(rounds, _ => "");
    } else {
      assert seq(0, _ => "") == [];
    }
  }

  /** With a positive size the loop leaves after at most one round per
      remaining character. */
  lemma {:induction false} PositiveSizeEnds(text: string, maxChunkSize: nat, i: nat, rounds: nat)
    requires maxChunkSize > 0 && i + rounds >= |text|
    ensures FixedLoop(text, maxChunkSize, i, rounds).1
    decreases rounds
  {
    if i < |text| {
      PositiveSizeEnds(text, maxChunkSize, i + maxChunkSize, rounds - 1);
    }
  }

  /** The fixed-size mode of `ChunkByMaxChunkSize`. The loop advances by
      `maxChunkSize`, so it only ends when that is positive or the text is
      empty. */
  method SliceFixed(text: string, maxChunkSize: int) returns (chunks: seq<ChunkInfo>)
    requires maxChunkSize > 0 || text == []
    ensures AllMeasured(chunks)
    ensures SlicedAs(chunks, text, maxChunkSize)
  {
    chunks := [];
    var i := 0;
    while i < |text|
      invariant 0 <= i
      invariant SlicedAs(chunks, text[..if i < |text| then i else |text|], maxChunkSize)
      invariant i <= |text| ==> forall k :: 0 <= k < |chunks| ==> |chunks[k].Text| == maxChunkSize
      invariant AllMeasured(chunks)
      decreases |text| - i
    {
      var end := i + maxChunkSize;
      if end > |text| {
        end := |text|;
      }
      SlicedAsSnoc(chunks, text, i, end, maxChunkSize);
      AllMeasuredSnoc(chunks, text[i..end]);
      chunks := chunks + [CreateChunkInfo(text[i..end])];
      i := i + maxChunkSize;
    }
    assert text[..|text|] == text;
  }

  /** `ChunkByMaxChunkSize`. In sentence-preserving mode `sentences` is the split
      of `text` into sentences, which the source computes with a regular
      expression, and the ghost `groups` says which sentences make up which
      chunk; in fixed-size mode only `text` is used. */
  method ChunkByMaxChunkSize(text: string, sentences: seq<string>, maxChunkSize: int,
                             preserveSentenceStructure: bool)
    returns (r: TextChunks, ghost groups: seq<seq<string>>)
    requires !preserveSentenceStructure ==> maxChunkSize > 0 || text == []
    ensures Consistent(r)
    ensures preserveSentenceStructure ==>
      PackedAs(r.ChunkList, groups, maxChunkSize) && Flatten(groups) == sentences && Greedy(groups, maxChunkSize)
    ensures !preserveSentenceStructure ==> SlicedAs(r.ChunkList, text, maxChunkSize)
  {
    var chunks: seq<ChunkInfo>;
    if preserveSentenceStructure {
      chunks, groups := PackSentences(sentences, maxChunkSize);
      PackedAsMeasured(chunks, groups, maxChunkSize);
    } else {
      chunks := SliceFixed(text, maxChunkSize);
      groups := [];
    }
    r := TextChunks(|chunks|, chunks);
  }

  /** A sentence of a group is a sentence of the input. */
  lemma {:induction false} InFlatten(groups: seq<seq<string>>, k: nat, x: string)
    requires k < |groups| && x in groups[k]
    ensures x in Flatten(groups)
  {
    var n := |groups| - 1;
    FlattenSnoc(groups[..n], groups[n]);
    assert groups[..n] + [groups[n]] == groups;
    if k < n {
      assert groups[..n][k] == groups[k];
      InFlatten(groups[..n], k, x);
    }
  }

  /** Every chunk of the sentence-preserving mode is within the limit, or is a
      single over-long sentence of the input emitted unchanged. */
  lemma PackedChunkBound(chunks: seq<ChunkInfo>, groups: seq<seq<string>>, sentences: seq<string>,
                         maxChunkSize: int, k: nat)
    requires PackedAs(chunks, groups, maxChunkSize) && Flatten(groups) == sentences
    requires k < |chunks|
    ensures |chunks[k].Text| <= maxChunkSize || (chunks[k].Text in sentences && |chunks[k].Text| > maxChunkSize)
  {
    if |chunks[k].Text| > maxChunkSize {
      InFlatten(groups, k, chunks[k].Text);
    }
  }

  // ---------------------------------------------------------------------------
  // ChunkByParagraphs

  /** The trimmed paragraphs that are not blank, in order. */
  function NonBlankTrimmed(paragraphs: seq<string>): (ts: seq<string>)
    ensures |ts| <= |paragraphs|
  {
    if paragraphs == [] then []
    else
      var n := |paragraphs|;
      var t := TrimSpace(paragraphs[n - 1]);
      NonBlankTrimmed(paragraphs[..n - 1]) + (if t != [] then [t] else [])
  }

  /** No text left by `NonBlankTrimmed` is empty or has a space at either end. */
  lemma {:induction false} NonBlankTrimmedAreTrimmed(paragraphs: seq<string>)
    ensures forall k :: 0 <= k < |NonBlankTrimmed(paragraphs)| ==>
      var t := NonBlankTrimmed(paragraphs)[k];
      t != [] && !IsSpace(t[0]) && !IsSpace(t[|t| - 1])
  {
    if paragraphs != [] {
      NonBlankTrimmedAreTrimmed(paragraphs[..|paragraphs| - 1]);
    }
  }

  /** Each text left is a paragraph of the input, trimmed. */
  lemma {:induction false} NonBlankTrimmedFromInput(paragraphs: seq<string>, k: nat) returns (j: nat)
    requires k < |NonBlankTrimmed(paragraphs)|
    ensures j < |paragraphs| && NonBlankTrimmed(paragraphs)[k] == TrimSpace(paragraphs[j])
  {
    var n := |paragraphs| - 1;
    if k < |NonBlankTrimmed(paragraphs[..n])| {
      j := NonBlankTrimmedFromInput(paragraphs[..n], k);
    } else {
      j := n;
    }
  }

  /** Every paragraph that is not blank survives, trimmed. */
  lemma {:induction false} NonBlankTrimmedKeeps(paragraphs: seq<string>, j: nat)
    requires j < |paragraphs| && !AllSpace(paragraphs[j])
    ensures TrimSpace(paragraphs[j]) in NonBlankTrimmed(paragraphs)
  {
    var n := |paragraphs| - 1;
    if j < n {
      assert paragraphs[..n][j] == paragraphs[j];
      NonBlankTrimmedKeeps(paragraphs[..n], j);
    }
  }

  /** `ChunkByParagraphs`, given the paragraphs the source splits off with a
      regular expression: one chunk per paragraph that is not blank, trimmed. */
  method ChunkByParagraphs(paragraphs: seq<string>) returns (r: TextChunks)
    ensures Consistent(r)
    ensures Texts(r.ChunkList) == NonBlankTrimmed(paragraphs)
  {
    var chunks: seq<ChunkInfo> := [];
    for i := 0 to |paragraphs|
      invariant Texts(chunks) == NonBlankTrimmed(paragraphs[..i])
      invariant AllMeasured(chunks)
    {
      var trimmed := TrimSpace(paragraphs[i]);
      assert paragraphs[..i + 1][..i] == paragraphs[..i];
      if trimmed != "" {
        TextsSnoc(chunks, trimmed);
        AllMeasuredSnoc(chunks, trimmed);
        chunks := chunks + [CreateChunkInfo(trimmed)];
      } else {
        assert NonBlankTrimmed(paragraphs[..i + 1]) == NonBlankTrimmed(paragraphs[..i]) + [];
      }
    }
    assert paragraphs[..|paragraphs|] == paragraphs;
    r := TextChunks(|chunks|, chunks);
  }

  // ---------------------------------------------------------------------------
  // combineSentences

  /** `combineSentences` as written: entry `i` starts with sentences `i-1` and
      `i` when `i > 0`, and gets " " and sentence `i+1` appended when `i` is not
      the last. Entry 0 therefore lacks sentence 0. */
  method CombineSentences(sentences: seq<string>) returns (combined: seq<string>)
    ensures |combined| == |sentences|
    ensures forall i :: 0 < i < |sentences| - 1 ==>
      combined[i] == sentences[i - 1] + " " + sentences[i] + " " + sentences[i + 1]
    ensures |sentences| >= 2 ==>
      combined[|sentences| - 1] == sentences[|sentences| - 2] + " " + sentences[|sentences| - 1]
    ensures |sentences| >= 2 ==> combined[0] == " " + sentences[1]
    ensures |sentences| == 1 ==> combined[0] == ""
  {
    var n := |sentences|;
    var a := new string[n](_ => "");
    for i := 0 to n
      invariant forall j :: 0 <= j < i ==> a[j] == AsWrittenEntry(sentences, j)
    {
      var entry := "";
      if i > 0 {
        entry := sentences[i - 1] + " " + sentences[i];
      }
      if i < n - 1 {
        entry := entry + " " + sentences[i + 1];
      }
      a[i] := entry;
    }
    combined := a[..];
    forall i | 0 <= i < n
      ensures AsWrittenForms(sentences, i)
    {
      AsWrittenEntryForms(sentences, i);
    }
  }

  /** Entry `i` of `combineSentences` as the loop body builds it. */
  function AsWrittenEntry(sentences: seq<string>, i: int): string
    requires 0 <= i < |sentences|
  {
    (if i > 0 then sentences[i - 1] + " " + sentences[i] else "")
    + (if i < |sentences| - 1 then " " + sentences[i + 1] else "")
  }

  /** The shape of entry `i` by its position: a full window inside, the two
      last sentences at the end, only the second sentence at the start. */
  predicate AsWrittenForms(sentences: seq<string>, i: int)
    requires 0 <= i < |sentences|
  {
    var n := |sentences|;
    var e := AsWrittenEntry(sentences, i);
    (0 < i < n - 1 ==> e == sentences[i - 1] + " " + sentences[i] + " " + sentences[i + 1])
    && (0 < i == n - 1 ==> e == sentences[n - 2] + " " + sentences[n - 1])
    && (i == 0 < n - 1 ==> e == " " + sentences[1])
    && (i == 0 == n - 1 ==> e == "")
  }

  lemma AsWrittenEntryForms(sentences: seq<string>, i: int)
    requires 0 <= i < |sentences|
    ensures AsWrittenForms(sentences, i)
  {
    var n := |sentences|;
    if 0 < i < n - 1 {
      assert AsWrittenEntry(sentences, i) == (sentences[i - 1] + " " + sentences[i]) + (" " + sentences[i + 1]);
    } else if i == 0 && 0 < n - 1 {
      assert AsWrittenEntry(sentences, i) == "" + (" " + sentences[1]);
    } else if 0 < i {
      assert AsWrittenEntry(sentences, i) == (sentences[n - 2] + " " + sentences[n - 1]) + "";
    }
  }

  /** The two-sentence input on which entry 0 misses its own sentence. */
  method CombineSentencesLosesFirstSentence() {
    var combined := CombineSentences(["A", "B"]);
    assert combined[0] == " B";
    assert 'A' !in combined[0];
  }

  /** Sentences joined with single spaces. */
  function JoinWithSpace(ss: seq<string>): string {
    if ss == [] then [] else if |ss| == 1 then ss[0] else ss[0] + " " + JoinWithSpace(ss[1..])
  }

  /** The evidently intended window: sentence `i` with its neighbours on either
      side, where they exist. */
  function IntendedWindow(sentences: seq<string>, i: nat): string
    requires i < |sentences|
  {
    JoinWithSpace(sentences[if i == 0 then 0 else i - 1 .. if i + 2 <= |sentences| then i + 2 else |sentences|])
  }

  /** Every intended window contains its own sentence, and away from the two ends
      it is what the source computes. */
  lemma IntendedWindowHoldsSentence(sentences: seq<string>, i: nat) returns (a: nat)
    requires i < |sentences|
    ensures a + |sentences[i]| <= |IntendedWindow(sentences, i)|
    ensures IntendedWindow(sentences, i)[a..a + |sentences[i]|] == sentences[i]
    ensures 0 < i < |sentences| - 1 ==>
      IntendedWindow(sentences, i) == sentences[i - 1] + " " + sentences[i] + " " + sentences[i + 1]
  {
    var lo := if i == 0 then 0 else i - 1;
    var hi := if i + 2 <= |sentences| then i + 2 else |sentences|;
    var w := sentences[lo..hi];
    var s := sentences[i];
    if i == 0 {
      a := 0;
      if |w| > 1 {
        assert JoinWithSpace(w) == s + (" " + JoinWithSpace(w[1..]));
      }
    } else {
      a := |sentences[i - 1]| + 1;
      assert w[1..][0] == s;
      if |w[1..]| > 1 {
        assert JoinWithSpace(w[1..]) == s + (" " + JoinWithSpace(w[2..]));
        assert JoinWithSpace(w[2..]) == sentences[i + 1];
      }
      assert JoinWithSpace(w) == (sentences[i - 1] + " ") + JoinWithSpace(w[1..]);
    }
  }

  // ---------------------------------------------------------------------------
  // convertToVector

  /** Entry `d` of a sentence's vector: the lengths of the words at positions
      `j` with `j % 10 == d`, summed. */
  function Bucket(words: seq<string>, d: nat): real {
    if words == [] then 0.0
    else
      var n := |words| - 1;
      Bucket(words[..n], d) + (if n % 10 == d then |words[n]| as real else 0.0)
  }

  /** Entries `0 .. m-1` of the vector, summed. */
  function BucketTotal(words: seq<string>, m: nat): real {
    if m == 0 then 0.0 else BucketTotal(words, m - 1) + Bucket(words, m - 1)
  }

  function Sum(v: seq<real>): real {
    if v == [] then 0.0 else Sum(v[..|v| - 1]) + v[|v| - 1]
  }

  lemma TotalLengthSnoc(ws: seq<string>, w: string)
    ensures TotalLength(ws + [w]) == TotalLength(ws) + |w|
  {
    if ws != [] {
      assert (ws + [w])[1..] == ws[1..] + [w];
      TotalLengthSnoc(ws[1..], w);
    }
  }

  lemma {:induction false} BucketTotalSnoc(ws: seq<string>, w: string, m: nat)
    ensures BucketTotal(ws + [w], m) ==
      BucketTotal(ws, m) + (if |ws| % 10 < m then |w| as real else 0.0)
  {
    assert (ws + [w])[..|ws|] == ws;
    if m > 0 {
      BucketTotalSnoc(ws, w, m - 1);
    }
  }

  lemma {:induction false} BucketTotalEmpty(m: nat)
    ensures BucketTotal([], m) == 0.0
  {
    if m > 0 {
      BucketTotalEmpty(m - 1);
    }
  }

  /** The ten entries together hold every word length exactly once. */
  lemma {:induction false} BucketsAddUp(ws: seq<string>)
    ensures BucketTotal(ws, 10) == TotalLength(ws) as real
  {
    if ws != [] {
      var n := |ws| - 1;
      assert ws == ws[..n] + [ws[n]];
      BucketsAddUp(ws[..n]);
      BucketTotalSnoc(ws[..n], ws[n], 10);
      TotalLengthSnoc(ws[..n], ws[n]);
    } else {
      BucketTotalEmpty(10);
    }
  }

  lemma {:induction false} SumOfBuckets(v: seq<real>, ws: seq<string>, m: nat)
    requires m <= |v|
    requires forall d :: 0 <= d < |v| ==> v[d] == Bucket(ws, d)
    ensures Sum(v[..m]) == BucketTotal(ws, m)
  {
    if m > 0 {
      assert v[..m][..m - 1] == v[..m - 1];
      SumOfBuckets(v, ws, m - 1);
    }
  }

  /** `convertToVector`: one ten-entry vector per sentence, entry `j % 10`
      accumulating the length of word `j`. The entries of a vector add up to the
      number of non-space characters of its sentence. */
  method ConvertToVector(sentences: seq<string>) returns (vectors: seq<seq<real>>)
    ensures |vectors| == |sentences|
    ensures forall i :: 0 <= i < |sentences| ==>
      |vectors[i]| == 10 && forall d :: 0 <= d < 10 ==> vectors[i][d] == Bucket(Fields(sentences[i]), d)
    ensures forall i :: 0 <= i < |sentences| ==> Sum(vectors[i]) == NonSpaceCount(sentences[i]) as real
  {
    vectors := [];
    for i := 0 to |sentences|
      invariant |vectors| == i
      invariant forall i' :: 0 <= i' < i ==>
        |vectors[i']| == 10 && forall d :: 0 <= d < 10 ==> vectors[i'][d] == Bucket(Fields(sentences[i']), d)
      invariant forall i' :: 0 <= i' < i ==> Sum(vectors[i']) == NonSpaceCount(sentences[i']) as real
    {
      var vector := new real[10](_ => 0.0);
      var words := Fields(sentences[i]);
      for j := 0 to |words|
        invariant forall d :: 0 <= d < 10 ==> vector[d] == Bucket(words[..j], d)
      {
        assert words[..j + 1][..j] == words[..j];
        vector[j % 10] := vector[j % 10] + |words[j]| as real;
      }
      assert words[..|words|] == words;
      SumOfBuckets(vector[..], words, 10);
      assert vector[..][..10] == vector[..];
      BucketsAddUp(words);
      FieldsTotalLength(sentences[i]);
      vectors := vectors + [vector[..]];
    }
  }
}
