/**
 * The text chunker of the upload pipeline: lines are stripped, the text is cut
 * into paragraphs at blank lines, and paragraphs are packed greedily into
 * chunks of at most `target` tokens. A paragraph of more than 1.5 times the
 * target is cut into sentences instead, and while packing sentences each new
 * chunk starts with the last two pending items as overlap.
 *
 * The token counter (a tokenizer library in the source) is the parameter
 * `count`, about which nothing is assumed.
 */
module Chunking {
  import opened Text
  import opened Seqs
  import opened Wrappers

  /** The configured target chunk size, in tokens. */
  const ChunkSize: nat := 400

  /** A token count over 1.5 times the target (`t > 1.5 * target`, in integers). */
  predicate Large(tokens: nat, target: nat) {
    2 * tokens > 3 * target
  }

  // ---------------------------------------------------------------------------
  // Sentences
  // ---------------------------------------------------------------------------

  /** A sentence-ending punctuation mark. */
  predicate IsTerminal(c: char) {
    c == '.' || c == '!' || c == '?'
  }

  /** A sentence break starts at `i`: whitespace right after '.', '!' or '?'. */
  predicate BreakAt(s: string, i: nat) {
    0 < i < |s| && IsSpace(s[i]) && IsTerminal(s[i - 1])
  }

  /** `p` has no sentence-ending mark followed by whitespace. */
  predicate NoInnerBreak(p: string) {
    forall m :: 0 < m < |p| ==> !BreakAt(p, m)
  }

  /**
   * The pieces that splitting at every `(?<=[.!?])\s+` match yields, for the
   * piece that starts at `start` while scanning at `i`. Every piece but the
   * last ends in a sentence-ending mark, and no piece holds a break.
   */
  function SentencePieces(s: string, start: nat, i: nat): (r: seq<string>)
    requires start <= i <= |s|
    requires start == 0 || !IsTerminal(s[start - 1])
    requires forall k :: start < k < i ==> !BreakAt(s, k)
    ensures r != []
    ensures forall k :: 0 <= k < |r| - 1 ==> r[k] != [] && IsTerminal(Last(r[k]))
    ensures forall k :: 0 <= k < |r| ==> NoInnerBreak(r[k])
    decreases |s| - i
  {
    if i == |s| then
      assert forall m :: 0 < m < |s| - start ==> (BreakAt(s[start..], m) <==> BreakAt(s, start + m));
      [s[start..]]
    else if BreakAt(s, i) then
      var j := SkipSpace(s, i);
      var head := s[start..i];
      assert forall m :: 0 < m < |head| ==> (BreakAt(head, m) <==> BreakAt(s, start + m));
      [head] + SentencePieces(s, j, j)
    else
      SentencePieces(s, start, i + 1)
  }

  /**
   * The whitespace runs that the same split removes, in order: the run
   * after each sentence break.
   */
  function SentenceGaps(s: string, start: nat, i: nat): (r: seq<string>)
    requires start <= i <= |s|
    requires start == 0 || !IsTerminal(s[start - 1])
    decreases |s| - i
  {
    if i == |s| then []
    else if BreakAt(s, i) then
      var j := SkipSpace(s, i);
      [s[i..j]] + SentenceGaps(s, j, j)
    else
      SentenceGaps(s, start, i + 1)
  }

  /** The pieces with the runs between them put back. */
  function Weave(pieces: seq<string>, gaps: seq<string>): string
    requires |pieces| == |gaps| + 1
    decreases |gaps|
  {
    if gaps == [] then pieces[0] else pieces[0] + gaps[0] + Weave(pieces[1..], gaps[1..])
  }

  /**
   * Each run is non-empty whitespace after a piece ending in '.', '!' or
   * '?', and the piece after it does not start with whitespace.
   */
  predicate RunsAfterTerminals(p: seq<string>, g: seq<string>)
    requires |p| == |g| + 1
  {
    && (forall k :: 0 <= k < |g| ==> g[k] != [] && Blank(g[k]) && p[k] != [] && IsTerminal(Last(p[k])))
    && (forall k :: 0 < k < |p| ==> p[k] == [] || !IsSpace(p[k][0]))
  }

  /**
   * The split cuts the text only at whitespace runs: the pieces with the
   * runs put back between them are the text.
   */
  lemma {:induction false} SentencePiecesWeave(s: string, start: nat, i: nat)
    requires start <= i <= |s|
    requires start == 0 || !IsTerminal(s[start - 1])
    requires forall k :: start < k < i ==> !BreakAt(s, k)
    ensures |SentencePieces(s, start, i)| == |SentenceGaps(s, start, i)| + 1
    ensures Weave(SentencePieces(s, start, i), SentenceGaps(s, start, i)) == s[start..]
    decreases |s| - i
  {
    if i < |s| && BreakAt(s, i) {
      var j := SkipSpace(s, i);
      var p' := SentencePieces(s, j, j);
      var g' := SentenceGaps(s, j, j);
      SentencePiecesWeave(s, j, j);
      WeaveCons(s[start..i], s[i..j], p', g');
      SlicesJoin(s, start, i, j);
    } else if i < |s| {
      SentencePiecesWeave(s, start, i + 1);
    }
  }

  lemma WeaveCons(head: string, gap: string, p: seq<string>, g: seq<string>)
    requires |p| == |g| + 1
    ensures Weave([head] + p, [gap] + g) == head + gap + Weave(p, g)
  {
    assert ([head] + p)[1..] == p && ([gap] + g)[1..] == g;
  }

  lemma SlicesJoin(s: string, a: nat, b: nat, c: nat)
    requires a <= b <= c <= |s|
    ensures s[a..b] + s[b..c] + s[c..] == s[a..]
  {
    assert s[a..b] + s[b..c] == s[a..c];
  }

  /** The first piece is where the text resumes. */
  lemma {:induction false} SentencePiecesHead(s: string, start: nat, i: nat)
    requires start <= i <= |s|
    requires start == 0 || !IsTerminal(s[start - 1])
    requires forall k :: start < k < i ==> !BreakAt(s, k)
    ensures var p0 := SentencePieces(s, start, i)[0]; start + |p0| <= |s| && p0 == s[start..start + |p0|]
    decreases |s| - i
  {
    if i < |s| && !BreakAt(s, i) {
      SentencePiecesHead(s, start, i + 1);
    }
  }

  /** Each whitespace run the split removes follows a sentence-ending mark and is removed whole. */
  lemma {:induction false} SentenceRuns(s: string, start: nat, i: nat)
    requires start <= i <= |s|
    requires start == 0 || !IsTerminal(s[start - 1])
    requires forall k :: start < k < i ==> !BreakAt(s, k)
    ensures |SentencePieces(s, start, i)| == |SentenceGaps(s, start, i)| + 1
    ensures RunsAfterTerminals(SentencePieces(s, start, i), SentenceGaps(s, start, i))
    decreases |s| - i
  {
    if i < |s| && BreakAt(s, i) {
      var j := SkipSpace(s, i);
      var p' := SentencePieces(s, j, j);
      var g' := SentenceGaps(s, j, j);
      SentenceRuns(s, j, j);
      SentencePiecesHead(s, j, j);
      RunsCons(s, start, i, j, p', g');
    } else if i < |s| {
      SentenceRuns(s, start, i + 1);
    }
  }

  lemma RunsCons(s: string, start: nat, i: nat, j: nat, p: seq<string>, g: seq<string>)
    requires start < i < j <= |s| && IsTerminal(s[i - 1])
    requires forall k :: i <= k < j ==> IsSpace(s[k])
    requires j < |s| ==> !IsSpace(s[j])
    requires |p| == |g| + 1 && RunsAfterTerminals(p, g)
    requires j + |p[0]| <= |s| && p[0] == s[j..j + |p[0]|]
    ensures RunsAfterTerminals([s[start..i]] + p, [s[i..j]] + g)
  {
    var P, G := [s[start..i]] + p, [s[i..j]] + g;
    assert Blank(s[i..j]) by {
      forall m | 0 <= m < j - i ensures IsSpace(s[i..j][m]) {
        assert s[i..j][m] == s[i + m];
      }
    }
    assert Last(s[start..i]) == s[i - 1];
    if p[0] != [] {
      assert p[0][0] == s[j];
    }
    forall k | 0 <= k < |G|
      ensures G[k] != [] && Blank(G[k]) && P[k] != [] && IsTerminal(Last(P[k]))
    {
      if k > 0 {
        assert G[k] == g[k - 1] && P[k] == p[k - 1];
      }
    }
    forall k | 0 < k < |P|
      ensures P[k] == [] || !IsSpace(P[k][0])
    {
      assert P[k] == p[k - 1];
    }
  }

  /** A non-whitespace character at or after `start` ends up in some non-blank piece. */
  lemma {:induction false} SentencePiecesVisible(s: string, start: nat, i: nat, v: nat)
    requires start <= i <= |s|
    requires start == 0 || !IsTerminal(s[start - 1])
    requires forall k :: start < k < i ==> !BreakAt(s, k)
    requires start <= v < |s| && !IsSpace(s[v])
    ensures exists k :: 0 <= k < |SentencePieces(s, start, i)| && !Blank(SentencePieces(s, start, i)[k])
    decreases |s| - i
  {
    var r := SentencePieces(s, start, i);
    if i == |s| {
      assert s[start..][v - start] == s[v];
      assert !Blank(r[0]);
    } else if BreakAt(s, i) {
      var j := SkipSpace(s, i);
      if v < i {
        assert s[start..i][v - start] == s[v];
        assert !Blank(r[0]);
      } else {
        assert v >= j;
        SentencePiecesVisible(s, j, j, v);
        var k :| 0 <= k < |SentencePieces(s, j, j)| && !Blank(SentencePieces(s, j, j)[k]);
        assert r[k + 1] == SentencePieces(s, j, j)[k];
      }
    } else {
      SentencePiecesVisible(s, start, i + 1, v);
    }
  }

  /** A slice of a piece without breaks has none either. */
  lemma StripKeepsNoInnerBreak(p: string)
    requires NoInnerBreak(p)
    ensures NoInnerBreak(Strip(p))
  {
    var a := StripSlice(p);
    var q := Strip(p);
    forall m | 0 < m < |q| ensures !BreakAt(q, m) {
      assert q[m] == p[a + m] && q[m - 1] == p[a + m - 1];
      assert !BreakAt(p, a + m);
    }
  }

  /** A piece that ends in a non-whitespace character keeps that character last once stripped. */
  lemma StripKeepsLast(p: string)
    requires p != [] && !IsSpace(Last(p))
    ensures Strip(p) != [] && Last(Strip(p)) == Last(p)
  {
    var a := StripSlice(p);
    var q := Strip(p);
    assert !Blank(p) by { assert !IsSpace(p[|p| - 1]); }
    assert q[|q| - 1] == p[|p| - 1];
  }

  /** Stripping and dropping blank pieces keeps "no inner break". */
  lemma {:induction false} CleanPiecesNoBreak(pieces: seq<string>)
    requires forall k :: 0 <= k < |pieces| ==> NoInnerBreak(pieces[k])
    ensures forall k :: 0 <= k < |StripNonBlank(pieces)| ==> NoInnerBreak(StripNonBlank(pieces)[k])
    decreases |pieces|
  {
    if pieces != [] {
      var rest := pieces[1..];
      assert forall k :: 0 <= k < |rest| ==> rest[k] == pieces[k + 1];
      CleanPiecesNoBreak(rest);
      StripKeepsNoInnerBreak(pieces[0]);
      var head := Strip(pieces[0]);
      var tail := StripNonBlank(rest);
      assert StripNonBlank(pieces) == if head != [] then [head] + tail else tail;
    }
  }

  /** Stripping and dropping blank pieces keeps "ends a sentence" for all but the last. */
  lemma {:induction false} CleanPiecesTerminal(pieces: seq<string>)
    requires forall k :: 0 <= k < |pieces| - 1 ==> pieces[k] != [] && IsTerminal(Last(pieces[k]))
    ensures forall k :: 0 <= k < |StripNonBlank(pieces)| - 1 ==> IsTerminal(Last(StripNonBlank(pieces)[k]))
    decreases |pieces|
  {
    if pieces != [] {
      var rest := pieces[1..];
      assert forall k :: 0 <= k < |rest| ==> rest[k] == pieces[k + 1];
      CleanPiecesTerminal(rest);
      var head := Strip(pieces[0]);
      var tail := StripNonBlank(rest);
      assert StripNonBlank(pieces) == if head != [] then [head] + tail else tail;
      if |pieces| > 1 {
        StripKeepsLast(pieces[0]);
      } else {
        assert tail == [];
      }
    }
  }

  /**
   * `split_into_sentences`: pieces of `text` between sentence breaks, stripped,
   * blank ones dropped. Each is non-empty and stripped, none contains a
   * sentence-ending mark followed by whitespace, and every one but the last
   * ends in '.', '!' or '?'.
   */
  function SplitIntoSentences(text: string): (r: seq<string>)
    ensures forall k :: 0 <= k < |r| ==> r[k] != [] && Strip(r[k]) == r[k]
    ensures forall k :: 0 <= k < |r| ==> NoInnerBreak(r[k])
    ensures forall k :: 0 <= k < |r| - 1 ==> IsTerminal(Last(r[k]))
  {
    var pieces := SentencePieces(text, 0, 0);
    CleanPiecesNoBreak(pieces);
    CleanPiecesTerminal(pieces);
    StripNonBlank(pieces)
  }

  /** A text with a non-whitespace character has at least one sentence. */
  lemma SentencesOfVisible(text: string)
    requires !Blank(text)
    ensures SplitIntoSentences(text) != []
  {
    var v :| 0 <= v < |text| && !IsSpace(text[v]);
    SentencePiecesVisible(text, 0, 0, v);
    var pieces := SentencePieces(text, 0, 0);
    var k :| 0 <= k < |pieces| && !Blank(pieces[k]);
    StripNonBlankNonEmpty(pieces, k);
  }

  function NotSpace(c: char): bool { !IsSpace(c) }

  /** The text with all its whitespace removed. */
  function NonSpace(t: string): string {
    Filter(t, NotSpace)
  }

  lemma {:induction false} NonSpaceBlank(t: string)
    requires Blank(t)
    ensures NonSpace(t) == []
    decreases |t|
  {
    if t != [] {
      assert Blank(t[1..]) by {
        forall m | 0 <= m < |t| - 1 ensures IsSpace(t[1..][m]) { assert t[1..][m] == t[m + 1]; }
      }
      NonSpaceBlank(t[1..]);
    }
  }

  /** Stripping removes only whitespace. */
  lemma NonSpaceStrip(t: string)
    ensures NonSpace(Strip(t)) == NonSpace(t)
  {
    var a := StripSlice(t);
    var m := Strip(t);
    var b := a + |m|;
    NonSpaceAround(t[..a], m, t[b..]);
    SlicesAround(t, a, b);
  }

  lemma NonSpaceAround(x: string, m: string, y: string)
    requires Blank(x) && Blank(y)
    ensures NonSpace(x + m + y) == NonSpace(m)
  {
    FilterAppend(x + m, y, NotSpace);
    FilterAppend(x, m, NotSpace);
    NonSpaceBlank(x);
    NonSpaceBlank(y);
  }

  lemma SlicesAround(t: string, a: nat, b: nat)
    requires a <= b <= |t|
    ensures t[..a] + t[a..b] + t[b..] == t
  {
  }

  /** Putting whitespace runs back between the pieces adds no other character. */
  lemma {:induction false} NonSpaceWeave(p: seq<string>, g: seq<string>)
    requires |p| == |g| + 1
    requires forall k :: 0 <= k < |g| ==> Blank(g[k])
    ensures NonSpace(Weave(p, g)) == NonSpace(Concat(p))
    decreases |g|
  {
    if g == [] {
      assert p[1..] == [];
      assert Concat(p) == p[0] + "";
      assert p[0] + "" == p[0];
    } else {
      assert forall k :: 0 <= k < |g[1..]| ==> g[1..][k] == g[k + 1];
      NonSpaceWeave(p[1..], g[1..]);
      NonSpaceBlank(g[0]);
      FilterAppend(p[0] + g[0], Weave(p[1..], g[1..]), NotSpace);
      FilterAppend(p[0], g[0], NotSpace);
      FilterAppend(p[0], Concat(p[1..]), NotSpace);
    }
  }

  /** `NonSpace` of joined parts, one part at a time. */
  lemma NonSpaceCons(h: string, rest: seq<string>)
    ensures NonSpace(Concat([h] + rest)) == NonSpace(h) + NonSpace(Concat(rest))
  {
    assert ([h] + rest)[1..] == rest;
    FilterAppend(h, Concat(rest), NotSpace);
  }

  /** `StripNonBlank` keeps or drops the first part and goes on with the others. */
  lemma StripNonBlankCons(parts: seq<string>)
    requires parts != []
    ensures StripNonBlank(parts) == (if Strip(parts[0]) != [] then [Strip(parts[0])] else []) + StripNonBlank(parts[1..])
  {
  }

  /** Stripping the parts and dropping the blank ones removes only whitespace. */
  lemma {:induction false} NonSpaceStripNonBlank(parts: seq<string>)
    ensures NonSpace(Concat(StripNonBlank(parts))) == NonSpace(Concat(parts))
    decreases |parts|
  {
    if parts != [] {
      var head := Strip(parts[0]);
      var rest := StripNonBlank(parts[1..]);
      NonSpaceStripNonBlank(parts[1..]);
      StripNonBlankCons(parts);
      NonSpaceCons(parts[0], parts[1..]);
      NonSpaceStrip(parts[0]);
      if head != [] {
        NonSpaceCons(head, rest);
      } else {
        assert [] + rest == rest;
        NonSpaceBlank(parts[0]);
      }
    }
  }

  /**
   * The sentences lose no text: put together, they hold the text's
   * non-whitespace characters, all of them and in order.
   */
  lemma SentencesKeepText(text: string)
    ensures NonSpace(Concat(SplitIntoSentences(text))) == NonSpace(text)
  {
    SentencePiecesWeave(text, 0, 0);
    SentenceRuns(text, 0, 0);
    var p := SentencePieces(text, 0, 0);
    NonSpaceWeave(p, SentenceGaps(text, 0, 0));
    NonSpaceStripNonBlank(p);
    assert text[0..] == text;
  }

  // ---------------------------------------------------------------------------
  // Paragraphs
  // ---------------------------------------------------------------------------

  /** The text stripped, then every line of it stripped, re-joined with newlines. */
  function NormalizeLines(text: string): string {
    Join("\n", StripEach(Split(Strip(text), "\n")))
  }

  /** Pieces of the normalised text between blank lines, stripped, blank ones dropped. */
  function Paragraphs(text: string): (r: seq<string>)
    ensures forall k :: 0 <= k < |r| ==> r[k] != [] && Strip(r[k]) == r[k]
  {
    StripNonBlank(Split(NormalizeLines(text), "\n\n"))
  }

  /** Splitting the empty text gives one empty piece. */
  lemma SplitEmpty(sep: string)
    requires sep != []
    ensures Split("", sep) == [""]
  {
    assert Find("", sep) == None;
  }

  /** Normalising keeps a text blank exactly when it was blank. */
  lemma NormalizeBlank(text: string)
    ensures Blank(text) ==> NormalizeLines(text) == ""
    ensures !Blank(text) ==> !Blank(NormalizeLines(text))
  {
    var t := Strip(text);
    var lines := Split(t, "\n");
    if Blank(text) {
      SplitEmpty("\n");
      assert StripEach(lines) == [""];
    } else {
      assert !Blank(t) by { assert !IsSpace(t[0]); }
      JoinBlank("\n", lines);
      var k :| 0 <= k < |lines| && !Blank(lines[k]);
      assert !Blank(StripEach(lines)[k]);
      JoinBlank("\n", StripEach(lines));
    }
  }

  /** A text with a non-whitespace character has at least one paragraph, and a blank one none. */
  lemma ParagraphsIff(text: string)
    ensures Paragraphs(text) == [] <==> Blank(text)
  {
    NormalizeBlank(text);
    var norm := NormalizeLines(text);
    var pieces := Split(norm, "\n\n");
    if Blank(text) {
      SplitEmpty("\n\n");
      assert StripNonBlank(pieces) == [];
    } else {
      JoinBlank("\n\n", pieces);
      var m :| 0 <= m < |pieces| && !Blank(pieces[m]);
      StripNonBlankNonEmpty(pieces, m);
    }
  }

  // ---------------------------------------------------------------------------
  // Packing
  // ---------------------------------------------------------------------------

  /** The packing state: finished chunks, pending items and their token total. */
  datatype Packer = Packer(chunks: seq<string>, current: seq<string>, tokens: nat)

  const Start: Packer := Packer([], [], 0)

  /**
   * What packing depends on: the token counter, the target size and the
   * sentence splitter used on large paragraphs.
   */
  datatype Settings = Settings(count: string -> nat, target: nat, split: string -> seq<string>)

  /** The settings `chunk_text` packs with. */
  function Chunker(count: string -> nat, target: nat): Settings {
    Settings(count, target, SplitIntoSentences)
  }

  /** The splitter turns a visible paragraph into one or more visible sentences. */
  ghost predicate SplitsVisibly(cfg: Settings) {
    forall p {:trigger cfg.split(p)} :: Visible(p) ==> cfg.split(p) != [] && forall k :: 0 <= k < |cfg.split(p)| ==> Visible(cfg.split(p)[k])
  }

  lemma ChunkerSplitsVisibly(count: string -> nat, target: nat)
    ensures SplitsVisibly(Chunker(count, target))
  {
    forall p | Visible(p) ensures SplitIntoSentences(p) != [] && forall k :: 0 <= k < |SplitIntoSentences(p)| ==> Visible(SplitIntoSentences(p)[k]) {
      SentencesOfVisible(p);
      StrippedVisible(SplitIntoSentences(p));
    }
  }

  /** The token total of the pending items. */
  function Tokens(cfg: Settings, items: seq<string>): nat
    decreases |items|
  {
    if items == [] then 0 else Tokens(cfg, items[..|items| - 1]) + cfg.count(items[|items| - 1])
  }

  /** The tracked token total is that of the pending items, and every pending item is non-blank. */
  ghost predicate Tracked(cfg: Settings, st: Packer) {
    && st.tokens == Tokens(cfg, st.current)
    && forall k :: 0 <= k < |st.current| ==> Visible(st.current[k])
  }

  /** Pending items, if any, become one chunk joined by a blank line. */
  function Flush(st: Packer): (r: Packer)
    ensures r.current == []
    ensures st.current == [] ==> r == st
    ensures st.current != [] ==> r.chunks == st.chunks + [Join("\n\n", st.current)]
  {
    if st.current != [] then Packer(st.chunks + [Join("\n\n", st.current)], [], 0) else st
  }

  /** The overlap carried into the next chunk: the last two pending items joined by a space. */
  function Overlap(current: seq<string>): string {
    if |current| >= 2 then Join(" ", current[|current| - 2..]) else ""
  }

  /** One sentence of a large paragraph. */
  function AddSentence(cfg: Settings, st: Packer, sentence: string): Packer {
    var t := cfg.count(sentence);
    if st.tokens + t > cfg.target && st.current != [] then
      var overlap := Overlap(st.current);
      var carried := if overlap != "" then [overlap] else [];
      var carriedTokens := if overlap != "" then cfg.count(overlap) else 0;
      Packer(st.chunks + [Join(" ", st.current)], carried + [sentence], carriedTokens + t)
    else
      Packer(st.chunks, st.current + [sentence], st.tokens + t)
  }

  /** The sentences of a large paragraph, in order. */
  function AddSentences(cfg: Settings, st: Packer, sentences: seq<string>): Packer
    decreases |sentences|
  {
    if sentences == [] then st
    else AddSentence(cfg, AddSentences(cfg, st, sentences[..|sentences| - 1]), sentences[|sentences| - 1])
  }

  /** One paragraph: cut into sentences when large, else appended, flushing first when it would not fit. */
  function AddParagraph(cfg: Settings, st: Packer, para: string): Packer {
    var t := cfg.count(para);
    if Large(t, cfg.target) then
      AddSentences(cfg, Flush(st), cfg.split(para))
    else
      var st' := if st.tokens + t > cfg.target && st.current != [] then Flush(st) else st;
      Packer(st'.chunks, st'.current + [para], st'.tokens + t)
  }

  /** The paragraphs, in order. */
  function AddParagraphs(cfg: Settings, st: Packer, paras: seq<string>): Packer
    decreases |paras|
  {
    if paras == [] then st
    else AddParagraph(cfg, AddParagraphs(cfg, st, paras[..|paras| - 1]), paras[|paras| - 1])
  }

  /** The final flush, then every chunk stripped and blank ones dropped. */
  function Finish(st: Packer): seq<string> {
    StripNonBlank(Flush(st).chunks)
  }

  /**
   * `chunk_text`: the chunks of `text` for a target size. Every chunk is
   * non-empty and stripped.
   */
  function Chunked(count: string -> nat, target: nat, text: string): (r: seq<string>)
    ensures forall k :: 0 <= k < |r| ==> r[k] != [] && Strip(r[k]) == r[k]
  {
    Finish(AddParagraphs(Chunker(count, target), Start, Paragraphs(text)))
  }

  // ---------------------------------------------------------------------------
  // Properties of packing
  // ---------------------------------------------------------------------------

  /** Appending one item adds its tokens to the total. */
  lemma TokensSnoc(cfg: Settings, items: seq<string>, x: string)
    ensures Tokens(cfg, items + [x]) == Tokens(cfg, items) + cfg.count(x)
  {
    assert (items + [x])[..|items|] == items;
  }

  /** With two or more non-blank pending items the overlap is non-blank. */
  lemma OverlapVisible(current: seq<string>)
    requires |current| >= 2
    requires forall k :: 0 <= k < |current| ==> Visible(current[k])
    ensures Visible(Overlap(current))
  {
    var last2 := current[|current| - 2..];
    assert last2[0] == current[|current| - 2] && last2[1] == current[|current| - 1];
    JoinEnds(" ", last2);
  }

  /** Adding a non-blank sentence keeps the token total tracked. */
  lemma AddSentenceTracked(cfg: Settings, st: Packer, sentence: string)
    requires Tracked(cfg, st) && Visible(sentence)
    ensures Tracked(cfg, AddSentence(cfg, st, sentence))
  {
    var t := cfg.count(sentence);
    var r := AddSentence(cfg, st, sentence);
    if st.tokens + t > cfg.target && st.current != [] {
      var overlap := Overlap(st.current);
      var closed := st.chunks + [Join(" ", st.current)];
      if |st.current| >= 2 {
        OverlapVisible(st.current);
        assert r == Packer(closed, [overlap] + [sentence], cfg.count(overlap) + t);
        TrackedPair(cfg, closed, overlap, sentence);
      } else {
        assert r == Packer(closed, [] + [sentence], 0 + t);
        TrackedPair(cfg, closed, "", sentence);
      }
    } else {
      assert r == Packer(st.chunks, st.current + [sentence], st.tokens + t);
      TrackedSnoc(cfg, st, sentence);
    }
  }

  /** A fresh pending list: an optional visible overlap, then a visible item. */
  lemma TrackedPair(cfg: Settings, chunks: seq<string>, overlap: string, x: string)
    requires overlap == "" || Visible(overlap)
    requires Visible(x)
    ensures overlap != "" ==> Tracked(cfg, Packer(chunks, [overlap] + [x], cfg.count(overlap) + cfg.count(x)))
    ensures overlap == "" ==> Tracked(cfg, Packer(chunks, [] + [x], 0 + cfg.count(x)))
  {
    TokensSnoc(cfg, [], overlap);
    TokensSnoc(cfg, [overlap], x);
    TokensSnoc(cfg, [], x);
  }

  /** One more visible item at the end of the pending list. */
  lemma TrackedSnoc(cfg: Settings, st: Packer, x: string)
    requires Tracked(cfg, st) && Visible(x)
    ensures Tracked(cfg, Packer(st.chunks, st.current + [x], st.tokens + cfg.count(x)))
  {
    TokensSnoc(cfg, st.current, x);
  }

  /** Adding non-blank sentences keeps the token total tracked. */
  lemma {:induction false} AddSentencesTracked(cfg: Settings, st: Packer, sentences: seq<string>)
    requires Tracked(cfg, st)
    requires forall k :: 0 <= k < |sentences| ==> Visible(sentences[k])
    ensures Tracked(cfg, AddSentences(cfg, st, sentences))
    decreases |sentences|
  {
    if sentences != [] {
      var init := sentences[..|sentences| - 1];
      assert forall k :: 0 <= k < |init| ==> init[k] == sentences[k];
      AddSentencesTracked(cfg, st, init);
      AddSentenceTracked(cfg, AddSentences(cfg, st, init), sentences[|sentences| - 1]);
    }
  }

  /** Adding a non-blank paragraph keeps the token total tracked. */
  lemma AddParagraphTracked(cfg: Settings, st: Packer, para: string)
    requires SplitsVisibly(cfg)
    requires Tracked(cfg, st) && Visible(para)
    ensures Tracked(cfg, AddParagraph(cfg, st, para))
  {
    var t := cfg.count(para);
    if Large(t, cfg.target) {
      LargeParagraphTracked(cfg, st, para);
    } else if st.tokens + t > cfg.target && st.current != [] {
      var f := Packer(st.chunks + [Join("\n\n", st.current)], [], 0);
      assert f == Flush(st);
      TrackedSnoc(cfg, f, para);
    } else {
      TrackedSnoc(cfg, st, para);
    }
  }

  lemma LargeParagraphTracked(cfg: Settings, st: Packer, para: string)
    requires SplitsVisibly(cfg)
    requires Tracked(cfg, st) && Visible(para)
    ensures Tracked(cfg, AddSentences(cfg, Flush(st), cfg.split(para)))
  {
    var sentences := cfg.split(para);
    assert forall k :: 0 <= k < |sentences| ==> Visible(sentences[k]);
    var f := Flush(st);
    assert Tracked(cfg, f) by {
      if st.current != [] {
        assert f == Packer(st.chunks + [Join("\n\n", st.current)], [], 0);
      }
    }
    AddSentencesTracked(cfg, f, sentences);
  }

  /** Adding non-blank paragraphs keeps the token total tracked. */
  lemma {:induction false} AddParagraphsTracked(cfg: Settings, st: Packer, paras: seq<string>)
    requires SplitsVisibly(cfg)
    requires Tracked(cfg, st)
    requires forall k :: 0 <= k < |paras| ==> Visible(paras[k])
    ensures Tracked(cfg, AddParagraphs(cfg, st, paras))
    decreases |paras|
  {
    if paras != [] {
      var init := paras[..|paras| - 1];
      assert forall k :: 0 <= k < |init| ==> init[k] == paras[k];
      AddParagraphsTracked(cfg, st, init);
      AddParagraphTracked(cfg, AddParagraphs(cfg, st, init), paras[|paras| - 1]);
    }
  }

  /** The paragraph fold takes one more paragraph at the end. */
  lemma AddParagraphsSnoc(cfg: Settings, st: Packer, done: seq<string>, p: string)
    ensures AddParagraphs(cfg, st, done + [p]) == AddParagraph(cfg, AddParagraphs(cfg, st, done), p)
  {
    assert (done + [p])[..|done|] == done;
  }

  /** After a non-blank paragraph something is pending. */
  lemma {:induction false} AddParagraphPending(cfg: Settings, st: Packer, para: string)
    requires SplitsVisibly(cfg) && Visible(para)
    ensures AddParagraph(cfg, st, para).current != []
  {
    if Large(cfg.count(para), cfg.target) {
      var sentences := cfg.split(para);
      var init := sentences[..|sentences| - 1];
      assert AddSentences(cfg, Flush(st), sentences)
          == AddSentence(cfg, AddSentences(cfg, Flush(st), init), sentences[|sentences| - 1]);
    }
  }

  /** Pending non-blank items survive the final flush as a chunk. */
  lemma FinishPending(cfg: Settings, st: Packer)
    requires Tracked(cfg, st) && st.current != []
    ensures Finish(st) != []
  {
    JoinEnds("\n\n", st.current);
    var chunks := Flush(st).chunks;
    assert chunks[|chunks| - 1] == Join("\n\n", st.current);
    assert !IsSpace(chunks[|chunks| - 1][0]);
    StripNonBlankNonEmpty(chunks, |chunks| - 1);
  }

  /** Chunking yields no chunk exactly when the text is blank. */
  lemma ChunkedEmptyIff(count: string -> nat, target: nat, text: string)
    ensures Chunked(count, target, text) == [] <==> Blank(text)
  {
    var cfg := Chunker(count, target);
    ChunkerSplitsVisibly(count, target);
    var paras := Paragraphs(text);
    ParagraphsIff(text);
    if !Blank(text) {
      var init := paras[..|paras| - 1];
      var last := paras[|paras| - 1];
      assert !IsSpace(last[0]);
      AddParagraphPending(cfg, AddParagraphs(cfg, Start, init), last);
      StrippedVisible(paras);
      AddParagraphsTracked(cfg, Start, paras);
      FinishPending(cfg, AddParagraphs(cfg, Start, paras));
    } else {
      assert paras == [];
      assert Finish(Start) == [];
    }
  }

  // ---------------------------------------------------------------------------
  // Greedy packing of paragraphs
  // ---------------------------------------------------------------------------

  /** The groups' items, in order. */
  function Flatten(groups: seq<seq<string>>): seq<string>
    decreases |groups|
  {
    if groups == [] then [] else Flatten(groups[..|groups| - 1]) + groups[|groups| - 1]
  }

  lemma FlattenSnoc(groups: seq<seq<string>>, g: seq<string>)
    ensures Flatten(groups + [g]) == Flatten(groups) + g
  {
    assert (groups + [g])[..|groups|] == groups;
  }

  /** A property of every flattened item holds of every item of every group. */
  lemma {:induction false} FlattenAll(groups: seq<seq<string>>, P: string -> bool)
    requires forall i :: 0 <= i < |Flatten(groups)| ==> P(Flatten(groups)[i])
    ensures forall k, j :: 0 <= k < |groups| && 0 <= j < |groups[k]| ==> P(groups[k][j])
    decreases |groups|
  {
    if groups != [] {
      var init := groups[..|groups| - 1];
      var g := groups[|groups| - 1];
      assert forall i :: 0 <= i < |Flatten(init)| ==> Flatten(groups)[i] == Flatten(init)[i];
      assert forall j :: 0 <= j < |g| ==> Flatten(groups)[|Flatten(init)| + j] == g[j];
      FlattenAll(init, P);
      assert forall k :: 0 <= k < |init| ==> groups[k] == init[k];
    }
  }

  /** Every group joined by `sep`. */
  function JoinEach(sep: string, groups: seq<seq<string>>): (r: seq<string>)
    ensures |r| == |groups|
    ensures forall k :: 0 <= k < |groups| ==> r[k] == Join(sep, groups[k])
  {
    seq(|groups|, k requires 0 <= k < |groups| => Join(sep, groups[k]))
  }

  lemma JoinEachSnoc(sep: string, groups: seq<seq<string>>, g: seq<string>)
    ensures JoinEach(sep, groups + [g]) == JoinEach(sep, groups) + [Join(sep, g)]
  {
    var gs := groups + [g];
    assert forall k :: 0 <= k < |groups| ==> gs[k] == groups[k];
    assert gs[|groups|] == g;
  }

  /**
   * The groups are a greedy packing for the target: each group is a single
   * paragraph or fits the target, and no group could have taken the first
   * paragraph of the next one without exceeding it.
   */
  ghost predicate Greedy(cfg: Settings, groups: seq<seq<string>>) {
    && (forall k :: 0 <= k < |groups| ==> groups[k] != [] && (|groups[k]| == 1 || Tokens(cfg, groups[k]) <= cfg.target))
    && (forall k :: 0 <= k < |groups| - 1 ==> Full(cfg, groups, k))
  }

  /** Group `k` has no room for the first paragraph of group `k + 1`. */
  ghost predicate Full(cfg: Settings, groups: seq<seq<string>>, k: nat)
    requires k + 1 < |groups| && groups[k + 1] != []
  {
    Tokens(cfg, groups[k]) + cfg.count(groups[k + 1][0]) > cfg.target
  }

  lemma GreedySnoc(cfg: Settings, groups: seq<seq<string>>, g: seq<string>)
    requires Greedy(cfg, groups)
    requires g != [] && (|g| == 1 || Tokens(cfg, g) <= cfg.target)
    requires groups != [] ==> Tokens(cfg, groups[|groups| - 1]) + cfg.count(g[0]) > cfg.target
    ensures Greedy(cfg, groups + [g])
  {
    var gs := groups + [g];
    forall k | 0 <= k < |gs| ensures gs[k] != [] && (|gs[k]| == 1 || Tokens(cfg, gs[k]) <= cfg.target) {
      if k < |groups| { assert gs[k] == groups[k]; } else { assert gs[k] == g; }
    }
    forall k | 0 <= k < |gs| - 1 ensures Full(cfg, gs, k) {
      assert gs[k] == groups[k];
      if k + 1 < |groups| {
        assert gs[k + 1] == groups[k + 1];
        assert Full(cfg, groups, k);
      } else {
        assert gs[k + 1] == g;
      }
    }
  }

  lemma GreedyGrowLast(cfg: Settings, groups: seq<seq<string>>, g: seq<string>, g': seq<string>)
    requires Greedy(cfg, groups + [g])
    requires g != [] && g' != [] && g'[0] == g[0] && Tokens(cfg, g') <= cfg.target
    ensures Greedy(cfg, groups + [g'])
  {
    var gs := groups + [g];
    var gs' := groups + [g'];
    assert forall k :: 0 <= k < |groups| ==> gs'[k] == gs[k];
    assert gs'[|groups|] == g';
    forall k | 0 <= k < |gs'| - 1 ensures Full(cfg, gs', k) {
      assert Full(cfg, gs, k);
      assert gs'[k + 1][0] == gs[k + 1][0];
    }
  }

  /** Packing so far, for the paragraphs `done`, is a greedy grouping in progress. */
  ghost predicate InProgress(cfg: Settings, done: seq<string>, st: Packer, groups: seq<seq<string>>) {
    && st.chunks == JoinEach("\n\n", groups)
    && st.tokens == Tokens(cfg, st.current)
    && (done == [] ==> groups == [] && st.current == [])
    && (done != [] ==> Flatten(groups + [st.current]) == done && Greedy(cfg, groups + [st.current]))
  }

  /** A paragraph that does not fit closes the pending group and starts a new one. */
  lemma GreedyClose(cfg: Settings, done: seq<string>, st: Packer, groups: seq<seq<string>>, p: string)
    requires InProgress(cfg, done, st, groups)
    requires st.tokens + cfg.count(p) > cfg.target && st.current != []
    ensures InProgress(cfg, done + [p],
      Packer(st.chunks + [Join("\n\n", st.current)], [p], cfg.count(p)), groups + [st.current])
  {
    var groups' := groups + [st.current];
    JoinEachSnoc("\n\n", groups, st.current);
    TokensSnoc(cfg, [], p);
    FlattenSnoc(groups', [p]);
    GreedySnoc(cfg, groups', [p]);
  }

  /** A paragraph that fits joins the pending group. */
  lemma GreedyGrow(cfg: Settings, done: seq<string>, st: Packer, groups: seq<seq<string>>, p: string)
    requires InProgress(cfg, done, st, groups)
    requires st.tokens + cfg.count(p) <= cfg.target || st.current == []
    ensures InProgress(cfg, done + [p],
      Packer(st.chunks, st.current + [p], st.tokens + cfg.count(p)), groups)
  {
    TokensSnoc(cfg, st.current, p);
    FlattenSnoc(groups, st.current + [p]);
    if st.current == [] {
      assert st.current + [p] == [p];
    } else {
      FlattenSnoc(groups, st.current);
      GreedyGrowLast(cfg, groups, st.current, st.current + [p]);
    }
  }

  /** One paragraph that is not large keeps the grouping greedy. */
  lemma GreedyStep(cfg: Settings, done: seq<string>, st: Packer, groups: seq<seq<string>>, p: string)
      returns (groups': seq<seq<string>>)
    requires InProgress(cfg, done, st, groups)
    requires !Large(cfg.count(p), cfg.target)
    ensures InProgress(cfg, done + [p], AddParagraph(cfg, st, p), groups')
  {
    var st' := AddParagraph(cfg, st, p);
    if st.tokens + cfg.count(p) > cfg.target && st.current != [] {
      groups' := groups + [st.current];
      assert st' == Packer(st.chunks + [Join("\n\n", st.current)], [p], cfg.count(p));
      GreedyClose(cfg, done, st, groups, p);
    } else {
      groups' := groups;
      assert st' == Packer(st.chunks, st.current + [p], st.tokens + cfg.count(p));
      GreedyGrow(cfg, done, st, groups, p);
    }
  }

  /** Packing paragraphs, none of them large, is a greedy grouping in progress. */
  lemma {:induction false} GreedyPrefix(cfg: Settings, paras: seq<string>) returns (groups: seq<seq<string>>)
    requires forall k :: 0 <= k < |paras| ==> !Large(cfg.count(paras[k]), cfg.target)
    ensures InProgress(cfg, paras, AddParagraphs(cfg, Start, paras), groups)
    decreases |paras|
  {
    if paras == [] {
      groups := [];
    } else {
      var done := paras[..|paras| - 1];
      var p := paras[|paras| - 1];
      assert paras == done + [p];
      assert forall k :: 0 <= k < |done| ==> done[k] == paras[k];
      AddParagraphsSnoc(cfg, Start, done, p);
      var prev := GreedyPrefix(cfg, done);
      groups := GreedyStep(cfg, done, AddParagraphs(cfg, Start, done), prev, p);
    }
  }

  /** Groups of stripped, non-empty items join into chunks the final clean-up keeps as they are. */
  lemma JoinedGroupsKept(groups: seq<seq<string>>)
    requires forall k :: 0 <= k < |groups| ==> groups[k] != []
    requires forall k, j :: 0 <= k < |groups| && 0 <= j < |groups[k]| ==> groups[k][j] != [] && Strip(groups[k][j]) == groups[k][j]
    ensures StripNonBlank(JoinEach("\n\n", groups)) == JoinEach("\n\n", groups)
  {
    var chunks := JoinEach("\n\n", groups);
    forall k | 0 <= k < |groups| ensures chunks[k] != [] && Strip(chunks[k]) == chunks[k] {
      JoinStripped("\n\n", groups[k]);
    }
    StripNonBlankKeeps(chunks);
  }

  /** Packing stripped, non-empty paragraphs, none of them large, makes greedy groups. */
  lemma GreedyChunks(cfg: Settings, paras: seq<string>) returns (groups: seq<seq<string>>)
    requires forall k :: 0 <= k < |paras| ==> paras[k] != [] && Strip(paras[k]) == paras[k]
    requires forall k :: 0 <= k < |paras| ==> !Large(cfg.count(paras[k]), cfg.target)
    ensures Flatten(groups) == paras
    ensures Greedy(cfg, groups)
    ensures Finish(AddParagraphs(cfg, Start, paras)) == JoinEach("\n\n", groups)
  {
    var prev := GreedyPrefix(cfg, paras);
    var st := AddParagraphs(cfg, Start, paras);
    if paras == [] {
      groups := [];
      assert Finish(st) == StripNonBlank([]);
    } else {
      groups := prev + [st.current];
      JoinEachSnoc("\n\n", prev, st.current);
      assert Flush(st).chunks == JoinEach("\n\n", groups);
      FlattenAll(groups, s => s != [] && Strip(s) == s);
      JoinedGroupsKept(groups);
    }
  }

  /**
   * When no paragraph is large, the chunks are the paragraphs, in order,
   * packed greedily into groups joined by a blank line.
   */
  lemma NoLargeParagraphs(count: string -> nat, target: nat, text: string) returns (groups: seq<seq<string>>)
    requires forall k :: 0 <= k < |Paragraphs(text)| ==> !Large(count(Paragraphs(text)[k]), target)
    ensures Flatten(groups) == Paragraphs(text)
    ensures Greedy(Chunker(count, target), groups)
    ensures Chunked(count, target, text) == JoinEach("\n\n", groups)
  {
    groups := GreedyChunks(Chunker(count, target), Paragraphs(text));
  }

  // ---------------------------------------------------------------------------
  // Large paragraphs and overlap
  // ---------------------------------------------------------------------------

  /** `a` is a prefix of `b`. */
  predicate IsPrefix(a: seq<string>, b: seq<string>) {
    |a| <= |b| && b[..|a|] == a
  }

  /** Adding sentences only appends chunks. */
  lemma {:induction false} AddSentencesExtends(cfg: Settings, st: Packer, sentences: seq<string>)
    ensures IsPrefix(st.chunks, AddSentences(cfg, st, sentences).chunks)
    decreases |sentences|
  {
    if sentences != [] {
      var init := sentences[..|sentences| - 1];
      AddSentencesExtends(cfg, st, init);
      var mid := AddSentences(cfg, st, init);
      var r := AddSentence(cfg, mid, sentences[|sentences| - 1]);
      assert IsPrefix(mid.chunks, r.chunks);
      assert r.chunks[..|st.chunks|] == mid.chunks[..|st.chunks|];
    }
  }

  /** The sentence fold takes one more sentence at the end. */
  lemma AddSentencesSnoc(cfg: Settings, st: Packer, done: seq<string>, x: string)
    ensures AddSentences(cfg, st, done + [x]) == AddSentence(cfg, AddSentences(cfg, st, done), x)
  {
    assert (done + [x])[..|done|] == done;
  }

  /** The last sentence added is the last pending item. */
  lemma AddSentencesLast(cfg: Settings, st: Packer, sentences: seq<string>)
    requires sentences != []
    ensures var r := AddSentences(cfg, st, sentences);
      r.current != [] && r.current[|r.current| - 1] == sentences[|sentences| - 1]
  {
  }

  /** Sentences added after a flush keep the earlier chunks and the flushed one. */
  lemma SentencesAfterFlush(cfg: Settings, st: Packer, sentences: seq<string>)
    requires sentences != []
    ensures var r := AddSentences(cfg, Flush(st), sentences);
      && IsPrefix(st.chunks, r.chunks)
      && (st.current != [] ==> |r.chunks| > |st.chunks| && r.chunks[|st.chunks|] == Join("\n\n", st.current))
      && r.current != [] && r.current[|r.current| - 1] == sentences[|sentences| - 1]
  {
    var f := Flush(st);
    AddSentencesExtends(cfg, f, sentences);
    AddSentencesLast(cfg, f, sentences);
    var r := AddSentences(cfg, f, sentences);
    assert r.chunks[..|f.chunks|] == f.chunks;
    assert r.chunks[..|st.chunks|] == f.chunks[..|st.chunks|];
    if st.current != [] {
      assert f.chunks[|st.chunks|] == Join("\n\n", st.current);
      assert r.chunks[|st.chunks|] == f.chunks[|st.chunks|];
    }
  }

  /**
   * A large paragraph never shares a chunk with what precedes it: the pending
   * items are emitted first, as their own chunk joined by a blank line, the
   * earlier chunks are kept, and the paragraph's last sentence ends up pending.
   */
  lemma LargeParagraphFlushesFirst(cfg: Settings, st: Packer, para: string)
    requires SplitsVisibly(cfg)
    requires Large(cfg.count(para), cfg.target) && Visible(para)
    ensures var r := AddParagraph(cfg, st, para);
      var sentences := cfg.split(para);
      && sentences != []
      && IsPrefix(st.chunks, r.chunks)
      && (st.current != [] ==> |r.chunks| > |st.chunks| && r.chunks[|st.chunks|] == Join("\n\n", st.current))
      && r.current != [] && r.current[|r.current| - 1] == sentences[|sentences| - 1]
  {
    var sentences := cfg.split(para);
    assert AddParagraph(cfg, st, para) == AddSentences(cfg, Flush(st), sentences);
    SentencesAfterFlush(cfg, st, sentences);
  }

  /** Two parts joined by a space. */
  lemma JoinTwo(a: string, b: string)
    ensures Join(" ", [a, b]) == a + " " + b
  {
    assert [a, b][1..] == [b];
  }

  /**
   * A sentence that does not fit closes the pending items as a chunk joined by
   * spaces; the next chunk starts with the last two of them joined by a space
   * (when there are two) and then the sentence.
   */
  lemma SentenceOverlap(cfg: Settings, st: Packer, sentence: string)
    requires Tracked(cfg, st)
    requires st.tokens + cfg.count(sentence) > cfg.target && st.current != []
    ensures var r := AddSentence(cfg, st, sentence);
      var n := |st.current|;
      && r.chunks == st.chunks + [Join(" ", st.current)]
      && (n == 1 ==> r.current == [sentence] && r.tokens == cfg.count(sentence))
      && (n >= 2 ==> r.current == [st.current[n - 2] + " " + st.current[n - 1], sentence])
  {
    var n := |st.current|;
    var overlap := Overlap(st.current);
    var carried := if overlap != "" then [overlap] else [];
    var carriedTokens := if overlap != "" then cfg.count(overlap) else 0;
    assert AddSentence(cfg, st, sentence)
        == Packer(st.chunks + [Join(" ", st.current)], carried + [sentence], carriedTokens + cfg.count(sentence));
    if n >= 2 {
      OverlapVisible(st.current);
      assert st.current[n - 2..] == [st.current[n - 2], st.current[n - 1]];
      JoinTwo(st.current[n - 2], st.current[n - 1]);
      assert overlap != "";
    } else {
      assert overlap == "";
    }
  }

  // ---------------------------------------------------------------------------
  // The chunker
  // ---------------------------------------------------------------------------

  /** The sentence loop of a large paragraph, on the chunker's running state. */
  method PackSentences(cfg: Settings, chunks0: seq<string>, current0: seq<string>, tokens0: nat,
                       sentences: seq<string>)
      returns (emitted: seq<string>, current: seq<string>, currentTokens: nat)
    ensures Packer(emitted, current, currentTokens) == AddSentences(cfg, Packer(chunks0, current0, tokens0), sentences)
  {
    emitted, current, currentTokens := chunks0, current0, tokens0;
    for j := 0 to |sentences|
      invariant Packer(emitted, current, currentTokens) == AddSentences(cfg, Packer(chunks0, current0, tokens0), sentences[..j])
    {
      var sentence := sentences[j];
      var sentTokens := cfg.count(sentence);
      ghost var before := Packer(emitted, current, currentTokens);
      AddSentencesSnoc(cfg, Packer(chunks0, current0, tokens0), sentences[..j], sentence);
      assert sentences[..j + 1] == sentences[..j] + [sentence];
      if currentTokens + sentTokens > cfg.target && current != [] {
        emitted := emitted + [Join(" ", current)];
        var overlap := if |current| >= 2 then Join(" ", current[|current| - 2..]) else "";
        current := if overlap != "" then [overlap] else [];
        currentTokens := if overlap != "" then cfg.count(overlap) else 0;
      }
      current := current + [sentence];
      currentTokens := currentTokens + sentTokens;
      assert Packer(emitted, current, currentTokens) == AddSentence(cfg, before, sentence);
    }
    assert sentences[..|sentences|] == sentences;
  }

  /** One paragraph, on the chunker's running state. */
  method PackParagraph(cfg: Settings, chunks0: seq<string>, current0: seq<string>, tokens0: nat,
                       para: string)
      returns (emitted: seq<string>, current: seq<string>, currentTokens: nat)
    ensures Packer(emitted, current, currentTokens) == AddParagraph(cfg, Packer(chunks0, current0, tokens0), para)
  {
    emitted, current, currentTokens := chunks0, current0, tokens0;
    var paraTokens := cfg.count(para);
    if Large(paraTokens, cfg.target) {
      if current != [] {
        emitted := emitted + [Join("\n\n", current)];
        current := [];
        currentTokens := 0;
      }
      var sentences := cfg.split(para);
      emitted, current, currentTokens := PackSentences(cfg, emitted, current, currentTokens, sentences);
    } else {
      if currentTokens + paraTokens > cfg.target && current != [] {
        emitted := emitted + [Join("\n\n", current)];
        current := [];
        currentTokens := 0;
      }
      current := current + [para];
      currentTokens := currentTokens + paraTokens;
    }
  }

  /** The paragraph loop, from the empty state. */
  method PackParagraphs(cfg: Settings, paragraphs: seq<string>)
      returns (emitted: seq<string>, current: seq<string>, currentTokens: nat)
    ensures Packer(emitted, current, currentTokens) == AddParagraphs(cfg, Start, paragraphs)
  {
    emitted, current, currentTokens := [], [], 0;
    for i := 0 to |paragraphs|
      invariant Packer(emitted, current, currentTokens) == AddParagraphs(cfg, Start, paragraphs[..i])
    {
      ghost var done := paragraphs[..i];
      var para := paragraphs[i];
      emitted, current, currentTokens := PackParagraph(cfg, emitted, current, currentTokens, para);
      AddParagraphsSnoc(cfg, Start, done, para);
      assert paragraphs[..i + 1] == done + [para];
    }
    assert paragraphs[..|paragraphs|] == paragraphs;
  }

  /**
   * `chunk_text`, step by step: paragraphs are packed into chunks in one pass,
   * large ones sentence by sentence. The result is the chunking of the text;
   * every chunk is non-empty and stripped, and there is none exactly when the
   * text is blank.
   */
  method ChunkText(count: string -> nat, target: nat, text: string) returns (chunks: seq<string>)
    ensures chunks == Chunked(count, target, text)
    ensures forall k :: 0 <= k < |chunks| ==> chunks[k] != [] && Strip(chunks[k]) == chunks[k]
    ensures chunks == [] <==> Blank(text)
  {
    var paragraphs := Paragraphs(text);
    var emitted, current, currentTokens := PackParagraphs(Chunker(count, target), paragraphs);
    ghost var packed := Packer(emitted, current, currentTokens);
    if current != [] {
      emitted := emitted + [Join("\n\n", current)];
    }
    assert emitted == Flush(packed).chunks;
    chunks := StripNonBlank(emitted);
    ChunkedEmptyIff(count, target, text);
  }
}
