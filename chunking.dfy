/**
 * How the speak handler of `fixed_script.js` cuts long text for mobile and
 * Safari synthesis engines: the text is split into sentences at each run of
 * `.`, `!` or `?` followed by one whitespace character (the run and the
 * whitespace stay with the sentence before them), blank sentences are dropped,
 * and consecutive sentences are grouped greedily into chunks shorter than 150
 * characters.
 */
module Chunking {
  import opened Text
  import opened Speech

  const MaxChunk: nat := 150

  predicate IsMark(c: char) {
    c == '.' || c == '!' || c == '?'
  }

  /** The length of the run of marks that starts at `i`. */
  function MarkRun(s: string, i: nat): (n: nat)
    requires i <= |s|
    ensures i + n <= |s|
    ensures n > 0 ==> IsMark(s[i + n - 1])
    ensures i + n == |s| || !IsMark(s[i + n])
    decreases |s| - i
  {
    if i < |s| && IsMark(s[i]) then 1 + MarkRun(s, i + 1) else 0
  }

  /** The run holds nothing but marks. */
  lemma {:induction false} MarkRunAllMarks(s: string, i: nat)
    requires i <= |s|
    ensures forall k :: i <= k < i + MarkRun(s, i) ==> IsMark(s[k])
    decreases |s| - i
  {
    if i < |s| && IsMark(s[i]) {
      MarkRunAllMarks(s, i + 1);
    }
  }

  /** Whether `[.!?]+\s` matches at `i`. The greedy run cannot give back a mark
      to make room for the whitespace, so the match is the whole run followed by
      one whitespace character. */
  predicate SeparatorAt(s: string, i: nat)
    requires i <= |s|
  {
    var n := MarkRun(s, i);
    n > 0 && i + n < |s| && IsSpace(s[i + n])
  }

  /** The leftmost separator at or after `p`. */
  function NextSeparator(s: string, p: nat): (r: Option<nat>)
    requires p <= |s|
    ensures r.Some? ==> p <= r.value < |s| && SeparatorAt(s, r.value)
    decreases |s| - p
  {
    if p == |s| then None
    else if SeparatorAt(s, p) then Some(p)
    else NextSeparator(s, p + 1)
  }

  /** The separator found is the leftmost one: none starts between `p` and it. */
  lemma {:induction false} NextSeparatorIsLeftmost(s: string, p: nat, j: nat)
    requires p <= j < |s|
    requires NextSeparator(s, p).None? || j < NextSeparator(s, p).value
    ensures !SeparatorAt(s, j)
    decreases |s| - p
  {
    if j > p {
      NextSeparatorIsLeftmost(s, p + 1, j);
    }
  }

  /** `s.split(/([.!?]+\s)/g)` folded by the `reduce` that appends each captured
      separator to the text before it, for the text from `p` on: each piece ends
      just after a separator, and the last piece is whatever follows the last one. */
  function PiecesFrom(s: string, p: nat): (r: seq<string>)
    requires p <= |s|
    ensures |r| > 0
    decreases |s| - p
  {
    match NextSeparator(s, p)
    case None => [s[p..]]
    case Some(j) =>
      var e := j + MarkRun(s, j) + 1;
      [s[p..e]] + PiecesFrom(s, e)
  }

  /** The pieces of the whole text; there is always at least one. */
  function Pieces(s: string): (r: seq<string>)
    ensures |r| > 0
  {
    PiecesFrom(s, 0)
  }

  /** Splitting loses and reorders nothing: the pieces concatenate back to the text. */
  lemma {:induction false} PiecesFromConcat(s: string, p: nat)
    requires p <= |s|
    ensures Concat(PiecesFrom(s, p)) == s[p..]
    decreases |s| - p
  {
    match NextSeparator(s, p)
    case None =>
    case Some(j) =>
      var e := j + MarkRun(s, j) + 1;
      PiecesFromConcat(s, e);
      assert s[p..e] + s[e..] == s[p..];
  }

  lemma PiecesConcat(s: string)
    ensures Concat(Pieces(s)) == s
  {
    PiecesFromConcat(s, 0);
  }

  /** One step of the split: a piece running to just after the leftmost
      separator, then the pieces of the rest. */
  lemma PiecesFromStep(s: string, p: nat) returns (e: nat)
    requires p <= |s| && NextSeparator(s, p).Some?
    ensures p + 2 <= e <= |s| && IsMark(s[e - 2]) && IsSpace(s[e - 1])
    ensures PiecesFrom(s, p) == [s[p..e]] + PiecesFrom(s, e)
  {
    var j := NextSeparator(s, p).value;
    e := j + MarkRun(s, j) + 1;
  }

  /** Without a separator the text from `p` on is one piece. */
  lemma PiecesFromLast(s: string, p: nat)
    requires p <= |s| && NextSeparator(s, p).None?
    ensures PiecesFrom(s, p) == [s[p..]]
  {
  }

  /** With a separator the first piece runs to just after it. */
  lemma PiecesFromFirst(s: string, p: nat) returns (e: nat)
    requires p <= |s| && NextSeparator(s, p).Some?
    ensures p + 2 <= e <= |s| && IsMark(s[e - 2]) && IsSpace(s[e - 1])
    ensures PiecesFrom(s, p)[0] == s[p..e]
  {
    e := PiecesFromStep(s, p);
  }

  /** With a separator every later piece is a piece of the text after it. */
  lemma PiecesFromRest(s: string, p: nat, k: nat) returns (e: nat)
    requires p <= |s| && NextSeparator(s, p).Some? && 0 < k < |PiecesFrom(s, p)|
    ensures p + 2 <= e <= |s| && IsSpace(s[e - 1])
    ensures |PiecesFrom(s, e)| == |PiecesFrom(s, p)| - 1 && PiecesFrom(s, p)[k] == PiecesFrom(s, e)[k - 1]
  {
    e := PiecesFromStep(s, p);
  }

  /** The text from `p` on is a single piece exactly when no separator follows. */
  lemma PiecesFromCount(s: string, p: nat)
    requires p <= |s|
    ensures NextSeparator(s, p).None? <==> |PiecesFrom(s, p)| == 1
  {
    if NextSeparator(s, p).None? {
      PiecesFromLast(s, p);
    } else {
      var e := PiecesFromStep(s, p);
    }
  }

  /** A piece that closes a sentence: a mark, then one whitespace character. */
  predicate ClosesSentence(piece: string) {
    |piece| >= 2 && IsSpace(piece[|piece| - 1]) && IsMark(piece[|piece| - 2])
  }

  /** Every piece but the last ends with a mark followed by whitespace: the
      punctuation and the space after it stay with the sentence they close. */
  lemma {:induction false} PiecesEndWithSeparator(s: string, p: nat, k: nat)
    requires p <= |s| && k + 1 < |PiecesFrom(s, p)|
    ensures ClosesSentence(PiecesFrom(s, p)[k])
    decreases |s| - p
  {
    PiecesFromCount(s, p);
    if k > 0 {
      var e := PiecesFromRest(s, p, k);
      PiecesEndWithSeparator(s, e, k - 1);
    } else {
      var e := PiecesFromFirst(s, p);
      SeparatorPiece(s, p, e);
    }
  }

  lemma SeparatorPiece(s: string, p: nat, e: nat)
    requires p + 2 <= e <= |s| && IsMark(s[e - 2]) && IsSpace(s[e - 1])
    ensures ClosesSentence(s[p..e])
  {
    var piece := s[p..e];
    assert piece[|piece| - 1] == s[e - 1] && piece[|piece| - 2] == s[e - 2];
  }

  /** `filter(s => s.trim().length > 0)` */
  function KeepNonBlank(parts: seq<string>): (r: seq<string>)
    ensures |r| <= |parts|
    ensures forall k :: 0 <= k < |r| ==> Trim(r[k]) != []
  {
    if parts == [] then []
    else (if Trim(parts[0]) != [] then [parts[0]] else []) + KeepNonBlank(parts[1..])
  }

  /** The filter keeps exactly the non-blank parts. */
  lemma {:induction false} KeepNonBlankMembers(parts: seq<string>)
    ensures forall x :: x in KeepNonBlank(parts) <==> x in parts && Trim(x) != []
  {
    if parts != [] {
      var rest := parts[1..];
      KeepNonBlankMembers(rest);
      assert parts == [parts[0]] + rest;
    }
  }

  /** With no blank part, the filter keeps every part in place. */
  lemma {:induction false} KeepNonBlankKeepsAll(parts: seq<string>)
    requires forall k :: 0 <= k < |parts| ==> Trim(parts[k]) != []
    ensures KeepNonBlank(parts) == parts
  {
    if parts != [] {
      var rest := parts[1..];
      forall k | 0 <= k < |rest|
        ensures Trim(rest[k]) != []
      {
        assert rest[k] == parts[k + 1];
      }
      KeepNonBlankKeepsAll(rest);
      assert Trim(parts[0]) != [];
      assert parts == [parts[0]] + rest;
    }
  }

  /** The sentences the speak handler groups. */
  function Sentences(text: string): (r: seq<string>)
    ensures forall k :: 0 <= k < |r| ==> r[k] != [] && Trim(r[k]) != []
  {
    KeepNonBlank(Pieces(text))
  }

  /** A string holding a non-whitespace character is not blank. */
  lemma NotBlank(x: string, i: int)
    requires 0 <= i < |x| && !IsSpace(x[i])
    ensures Trim(x) != []
  {
    TrimEmptyIffAllSpace(x);
  }

  /** When the text from `p` on is non-empty and the text ends in a non-whitespace
      character, the piece at `k` is not blank. */
  lemma {:induction false} PieceNotBlank(s: string, p: nat, k: nat)
    requires p < |s| && !IsSpace(s[|s| - 1]) && k < |PiecesFrom(s, p)|
    ensures Trim(PiecesFrom(s, p)[k]) != []
    decreases |s| - p
  {
    if NextSeparator(s, p).None? {
      PiecesFromLast(s, p);
      NotBlank(s[p..], |s| - 1 - p);
    } else if k == 0 {
      var e := PiecesFromFirst(s, p);
      SeparatorPieceNotBlank(s, p, e);
    } else {
      var e := PiecesFromRest(s, p, k);
      PieceNotBlank(s, e, k - 1);
    }
  }

  lemma SeparatorPieceNotBlank(s: string, p: nat, e: nat)
    requires p + 2 <= e <= |s| && IsMark(s[e - 2])
    ensures Trim(s[p..e]) != []
  {
    NotBlank(s[p..e], e - 2 - p);
  }

  /** For trimmed text, which is what the handler speaks, the sentences
      concatenate back to exactly the text. */
  lemma SentencesOfTrimmedText(text: string)
    requires text != [] && Trim(text) == text
    ensures Concat(Sentences(text)) == text
  {
    var pieces := Pieces(text);
    assert !IsSpace(text[|text| - 1]);
    forall k | 0 <= k < |pieces| ensures Trim(pieces[k]) != [] {
      PieceNotBlank(text, 0, k);
    }
    KeepNonBlankKeepsAll(pieces);
    PiecesConcat(text);
  }

  function Flatten(groups: seq<seq<string>>): seq<string> {
    if groups == [] then [] else groups[0] + Flatten(groups[1..])
  }

  lemma {:induction false} FlattenAppend(a: seq<seq<string>>, b: seq<seq<string>>)
    ensures Flatten(a + b) == Flatten(a) + Flatten(b)
  {
    if a == [] {
      assert a + b == b;
    } else {
      assert (a + b)[1..] == a[1..] + b;
      FlattenAppend(a[1..], b);
    }
  }

  lemma ConcatSingle(x: string)
    ensures Concat([x]) == x
  {
    assert [x][1..] == [];
  }

  lemma FlattenSingle(g: seq<string>)
    ensures Flatten([g]) == g
  {
    assert [g][1..] == [];
  }

  /** Each chunk is its non-empty group of sentences concatenated, and a group
      of several sentences stays under the limit. */
  ghost predicate ChunksOfGroups(chunks: seq<string>, groups: seq<seq<string>>) {
    && |groups| == |chunks|
    && forall k :: 0 <= k < |chunks| ==>
         && |groups[k]| > 0 && |chunks[k]| > 0 && chunks[k] == Concat(groups[k])
         && (|groups[k]| > 1 ==> |chunks[k]| < MaxChunk)
  }

  /** A chunk was closed only because the next sentence would not fit. */
  ghost predicate ClosedWhenFull(chunks: seq<string>, groups: seq<seq<string>>) {
    && |groups| == |chunks|
    && forall j, k :: 0 <= j && k == j + 1 < |chunks| ==> |groups[k]| > 0 && |chunks[j]| + |groups[k][0]| >= MaxChunk
  }

  /** The chunks closed so far. */
  ghost predicate ClosedChunks(chunks: seq<string>, groups: seq<seq<string>>) {
    ChunksOfGroups(chunks, groups) && ClosedWhenFull(chunks, groups)
  }

  /** The state of the grouping loop after the first `i` sentences: the closed
      chunks and the open chunk `current`, made of the sentences `open`, hold those
      sentences in order and lose no text. */
  ghost predicate Grouping(sentences: seq<string>, i: nat, chunks: seq<string>, groups: seq<seq<string>>,
                           current: string, open: seq<string>)
  {
    && i <= |sentences|
    && ClosedChunks(chunks, groups)
    && Flatten(groups) + open == sentences[..i]
    && current == Concat(open) && (|current| == 0 <==> |open| == 0)
    && (|open| > 1 ==> |current| < MaxChunk)
    && (|chunks| > 0 ==> |open| > 0 && |chunks[|chunks| - 1]| + |open[0]| >= MaxChunk)
    && Concat(chunks) + current == Concat(sentences[..i])
  }

  /** Closing a non-empty open chunk keeps the closed chunks well formed. */
  lemma CloseChunk(chunks: seq<string>, groups: seq<seq<string>>, current: string, open: seq<string>)
    requires ClosedChunks(chunks, groups)
    requires |open| > 0 && |current| > 0 && current == Concat(open)
    requires |open| > 1 ==> |current| < MaxChunk
    requires |chunks| > 0 ==> |chunks[|chunks| - 1]| + |open[0]| >= MaxChunk
    ensures ClosedChunks(chunks + [current], groups + [open])
  {
    ChunksOfGroupsAppend(chunks, groups, current, open);
    ClosedWhenFullAppend(chunks, groups, current, open);
  }

  lemma ChunksOfGroupsAppend(chunks: seq<string>, groups: seq<seq<string>>, current: string, open: seq<string>)
    requires ChunksOfGroups(chunks, groups)
    requires |open| > 0 && |current| > 0 && current == Concat(open)
    requires |open| > 1 ==> |current| < MaxChunk
    ensures ChunksOfGroups(chunks + [current], groups + [open])
  {
    var cs, gs := chunks + [current], groups + [open];
    forall k | 0 <= k < |cs|
      ensures |gs[k]| > 0 && |cs[k]| > 0 && cs[k] == Concat(gs[k]) && (|gs[k]| > 1 ==> |cs[k]| < MaxChunk)
    {
      if k < |chunks| {
        assert cs[k] == chunks[k] && gs[k] == groups[k];
      } else {
        assert cs[k] == current && gs[k] == open;
      }
    }
  }

  lemma ClosedWhenFullAppend(chunks: seq<string>, groups: seq<seq<string>>, current: string, open: seq<string>)
    requires ClosedWhenFull(chunks, groups) && |open| > 0
    requires |chunks| > 0 ==> |chunks[|chunks| - 1]| + |open[0]| >= MaxChunk
    ensures ClosedWhenFull(chunks + [current], groups + [open])
  {
    var cs, gs := chunks + [current], groups + [open];
    forall k | 0 < k < |cs|
      ensures |gs[k]| > 0 && |cs[k - 1]| + |gs[k][0]| >= MaxChunk
    {
      if k < |chunks| {
        assert cs[k - 1] == chunks[k - 1] && gs[k] == groups[k];
      } else {
        assert cs[k - 1] == chunks[|chunks| - 1] && gs[k] == open;
      }
    }
  }

  /** A sentence that fits joins the open chunk. */
  lemma GroupingExtend(sentences: seq<string>, i: nat, chunks: seq<string>, groups: seq<seq<string>>,
                                          current: string, open: seq<string>)
    requires Grouping(sentences, i, chunks, groups, current, open)
    requires i < |sentences| && |sentences[i]| > 0 && |current| + |sentences[i]| < MaxChunk
    ensures Grouping(sentences, i + 1, chunks, groups, current + sentences[i], open + [sentences[i]])
  {
    OpenStep(Flatten(groups), open, sentences, i);
    TextStep(Concat(chunks), current, open, sentences, i);
    if |chunks| > 0 {
      assert (open + [sentences[i]])[0] == open[0];
    }
  }

  /** The sentences placed so far grow by the next one. */
  lemma OpenStep(flat: seq<string>, open: seq<string>, sentences: seq<string>, i: nat)
    requires i < |sentences| && flat + open == sentences[..i]
    ensures flat + (open + [sentences[i]]) == sentences[..i + 1]
  {
    assert sentences[..i + 1] == sentences[..i] + [sentences[i]];
  }

  /** The open chunk and the text so far grow by the next sentence. */
  lemma TextStep(done: string, current: string, open: seq<string>, sentences: seq<string>, i: nat)
    requires i < |sentences| && current == Concat(open) && done + current == Concat(sentences[..i])
    ensures current + sentences[i] == Concat(open + [sentences[i]])
    ensures done + (current + sentences[i]) == Concat(sentences[..i + 1])
  {
    var sentence := sentences[i];
    assert sentences[..i + 1] == sentences[..i] + [sentence];
    ConcatAppend(open, [sentence]);
    ConcatAppend(sentences[..i], [sentence]);
    ConcatSingle(sentence);
    assert done + (current + sentence) == done + current + sentence;
  }

  /** A sentence that does not fit closes the open chunk, if any, and opens the next. */
  lemma GroupingClose(sentences: seq<string>, i: nat, chunks: seq<string>, groups: seq<seq<string>>,
                                         current: string, open: seq<string>)
    requires Grouping(sentences, i, chunks, groups, current, open)
    requires i < |sentences| && |sentences[i]| > 0 && |current| + |sentences[i]| >= MaxChunk
    ensures |current| > 0 ==>
      Grouping(sentences, i + 1, chunks + [current], groups + [open], sentences[i], [sentences[i]])
    ensures |current| == 0 ==>
      Grouping(sentences, i + 1, chunks, groups, sentences[i], [sentences[i]])
  {
    var sentence := sentences[i];
    assert sentences[..i + 1] == sentences[..i] + [sentence];
    ConcatAppend(sentences[..i], [sentence]);
    ConcatSingle(sentence);
    if |current| > 0 {
      CloseChunk(chunks, groups, current, open);
      FlattenAppend(groups, [open]);
      FlattenSingle(open);
      ConcatAppend(chunks, [current]);
      ConcatSingle(current);
    }
  }

  /** After the last sentence, closing the open chunk, if any, ends the loop. */
  lemma GroupingFinish(sentences: seq<string>, chunks: seq<string>, groups: seq<seq<string>>,
                       current: string, open: seq<string>)
    requires Grouping(sentences, |sentences|, chunks, groups, current, open)
    ensures |current| > 0 ==>
      && ClosedChunks(chunks + [current], groups + [open])
      && Flatten(groups + [open]) == sentences && Concat(chunks + [current]) == Concat(sentences)
    ensures |current| == 0 ==>
      ClosedChunks(chunks, groups) && Flatten(groups) == sentences && Concat(chunks) == Concat(sentences)
  {
    assert sentences[..|sentences|] == sentences;
    if |current| > 0 {
      CloseChunk(chunks, groups, current, open);
      FlattenAppend(groups, [open]);
      FlattenSingle(open);
      ConcatAppend(chunks, [current]);
      ConcatSingle(current);
    }
  }

  /** The grouping loop. `groups[k]` are the sentences that make up `chunks[k]`. */
  method GroupChunks(sentences: seq<string>) returns (chunks: seq<string>, ghost groups: seq<seq<string>>)
    requires forall k :: 0 <= k < |sentences| ==> |sentences[k]| > 0
    ensures ClosedChunks(chunks, groups) && Flatten(groups) == sentences
    ensures Concat(chunks) == Concat(sentences)
  {
    chunks, groups := [], [];
    var current: string := [];
    ghost var open: seq<string> := [];
    for i := 0 to |sentences|
      invariant Grouping(sentences, i, chunks, groups, current, open)
    {
      var sentence := sentences[i];
      if |current| + |sentence| < MaxChunk {
        GroupingExtend(sentences, i, chunks, groups, current, open);
        current := current + sentence;
        open := open + [sentence];
      } else {
        GroupingClose(sentences, i, chunks, groups, current, open);
        if |current| > 0 {
          chunks := chunks + [current];
          groups := groups + [open];
        }
        current := sentence;
        open := [sentence];
      }
    }
    GroupingFinish(sentences, chunks, groups, current, open);
    if |current| > 0 {
      chunks := chunks + [current];
      groups := groups + [open];
    }
  }

  /** What the speak handler hands to the synthesis engine: on mobile or Safari,
      text longer than 150 characters goes as its chunks in order; anything else
      goes whole. */
  method Utterances(text: string, mobileOrSafari: bool) returns (parts: seq<string>)
    ensures !(mobileOrSafari && |text| > MaxChunk) ==> parts == [text]
    ensures mobileOrSafari && |text| > MaxChunk ==>
      Concat(parts) == Concat(Sentences(text)) && forall k :: 0 <= k < |parts| ==> parts[k] != []
    ensures text != [] && Trim(text) == text ==> Concat(parts) == text
  {
    if mobileOrSafari && |text| > MaxChunk {
      ghost var groups;
      parts, groups := GroupChunks(Sentences(text));
      if text != [] && Trim(text) == text {
        SentencesOfTrimmedText(text);
      }
    } else {
      parts := [text];
      assert Concat(parts) == text + Concat([]);
    }
  }
}
