/**
 * How the client shows one chat message: the content is split into pieces
 * around `**bold**` and `` `code` `` spans and each piece is rendered by its
 * ends; the hint level and the sources are shown for assistant messages
 * only; and a message is flagged as a refusal by a fixed phrase.
 */
module Bubble {
  import opened Wrappers
  import opened Seqs
  import opened Text
  import opened Models
  import Chat
  import Llm

  // ---------------------------------------------------------------------------
  // Refusals
  // ---------------------------------------------------------------------------

  /** The phrase that marks a refusal. */
  const RefusalPhrase: string := "I don't have enough information"

  /** A refusal is a message whose content contains the phrase. */
  predicate IsRefusal(content: string) {
    Contains(content, RefusalPhrase)
  }

  /** A text that starts with `a` still does once something is appended. */
  lemma PrefixExtends(a: string, x: string, y: string)
    requires OccursAt(x, a, 0)
    ensures OccursAt(x + y, a, 0)
  {
    assert (x + y)[..|a|] == x[..|a|];
  }

  /** The backend's refusal message is shown as a refusal. */
  lemma RefusalMessageIsRefusal()
    ensures IsRefusal(Chat.RefusalMessage)
  {
    var a := RefusalPhrase;
    var x1 := a + " in the course materials to answer that question. \n\n";
    PrefixExtends(a, a, " in the course materials to answer that question. \n\n");
    var x2 := x1 + "Here's what you can do:\n";
    PrefixExtends(a, x1, "Here's what you can do:\n");
    var x3 := x2 + "- Try rephrasing your question\n";
    PrefixExtends(a, x2, "- Try rephrasing your question\n");
    var x4 := x3 + "- Ask about a specific topic from your lectures or readings\n";
    PrefixExtends(a, x3, "- Ask about a specific topic from your lectures or readings\n");
    var x5 := x4 + "- Check if this topic is covered in your syllabus\n\n";
    PrefixExtends(a, x4, "- Check if this topic is covered in your syllabus\n\n");
    PrefixExtends(a, x5, "I can only help with questions that relate to the uploaded course materials.");
  }

  // ---------------------------------------------------------------------------
  // The tokenizer: `content.split(/(\*\*[^*]+\*\*|`[^`]+`)/g)`
  // ---------------------------------------------------------------------------

  /** The first position at or after `i` holding `c`, or `|s|`. */
  function NextIndex(s: string, c: char, i: nat): (k: nat)
    requires i <= |s|
    ensures i <= k <= |s|
    ensures k < |s| ==> s[k] == c
    decreases |s| - i
  {
    if i == |s| || s[i] == c then i else NextIndex(s, c, i + 1)
  }

  /** No position before the one found holds `c`. */
  lemma {:induction false} NextIndexSkips(s: string, c: char, i: nat)
    requires i <= |s|
    ensures forall j :: i <= j < NextIndex(s, c, i) ==> s[j] != c
    decreases |s| - i
  {
    if i < |s| && s[i] != c {
      NextIndexSkips(s, c, i + 1);
    }
  }

  /**
   * The length of the `\*\*[^*]+\*\*` match starting at `i`, if there is
   * one. The run of non-stars is greedy and cannot be shortened (the next
   * character would then not be a star), so it ends at the first star.
   */
  function BoldAt(s: string, i: nat): (r: Option<nat>)
    requires i <= |s|
    ensures r.Some? ==> i + r.value <= |s| && r.value >= 5
  {
    if i + 2 <= |s| && s[i] == '*' && s[i + 1] == '*' then
      var k := NextIndex(s, '*', i + 2);
      if i + 2 < k && k + 1 < |s| && s[k + 1] == '*' then Some(k + 2 - i) else None
    else None
  }

  /** The length of the `` `[^`]+` `` match starting at `i`, if there is one. */
  function CodeAt(s: string, i: nat): (r: Option<nat>)
    requires i <= |s|
    ensures r.Some? ==> i + r.value <= |s| && r.value >= 3
  {
    if i < |s| && s[i] == '`' then
      var k := NextIndex(s, '`', i + 1);
      if i + 1 < k < |s| then Some(k + 1 - i) else None
    else None
  }

  /** The match at `i`: the bold alternative is tried first. */
  function MatchAt(s: string, i: nat): (r: Option<nat>)
    requires i <= |s|
    ensures r.Some? ==> i + r.value <= |s| && r.value > 0
  {
    if BoldAt(s, i).Some? then BoldAt(s, i) else CodeAt(s, i)
  }

  /**
   * The split of `s` from the piece starting at `p`, scanning for a match
   * at `q`: the text before a match and the match itself are pieces, and
   * the text after the last match is the final piece.
   */
  function SplitFrom(s: string, p: nat, q: nat): (r: seq<string>)
    requires p <= q <= |s|
    decreases |s| - q
  {
    if q == |s| then [s[p..]]
    else match MatchAt(s, q)
      case Some(n) => [s[p..q], s[q..q + n]] + SplitFrom(s, q + n, q + n)
      case None => SplitFrom(s, p, q + 1)
  }

  /** The pieces of a message's content. */
  function Pieces(content: string): seq<string> {
    SplitFrom(content, 0, 0)
  }

  /** One step of the split at a match. */
  lemma SplitAtMatch(s: string, p: nat, q: nat, n: nat)
    requires p <= q < |s| && MatchAt(s, q) == Some(n)
    ensures q + n <= |s|
    ensures SplitFrom(s, p, q) == [s[p..q], s[q..q + n]] + SplitFrom(s, q + n, q + n)
  {
  }

  /** One step of the split past a position with no match. */
  lemma SplitPastNoMatch(s: string, p: nat, q: nat)
    requires p <= q < |s| && MatchAt(s, q).None?
    ensures SplitFrom(s, p, q) == SplitFrom(s, p, q + 1)
  {
  }

  lemma {:induction false} SplitFromConcat(s: string, p: nat, q: nat)
    requires p <= q <= |s|
    ensures Concat(SplitFrom(s, p, q)) == s[p..]
    decreases |s| - q
  {
    if q == |s| {
      assert SplitFrom(s, p, q) == [s[p..]];
      assert [s[p..]][1..] == [];
    } else if MatchAt(s, q).Some? {
      var n := MatchAt(s, q).value;
      SplitAtMatch(s, p, q, n);
      var rest := SplitFrom(s, q + n, q + n);
      SplitFromConcat(s, q + n, q + n);
      ConcatTwo(s[p..q], s[q..q + n], rest);
      SlicesGlue(s, p, q, q + n, Concat(rest));
    } else {
      SplitPastNoMatch(s, p, q);
      SplitFromConcat(s, p, q + 1);
    }
  }

  lemma ConcatTwo(a: string, b: string, rest: seq<string>)
    ensures Concat([a, b] + rest) == a + (b + Concat(rest))
  {
    var r := [a, b] + rest;
    assert r[1..] == [b] + rest;
    assert r[1..][1..] == rest;
  }

  /** The text before a match, the match and the rest of the text after it make the text from the piece's start. */
  lemma SlicesGlue(s: string, p: nat, q: nat, m: nat, tail: string)
    requires p <= q <= m <= |s| && tail == s[m..]
    ensures s[p..q] + (s[q..m] + tail) == s[p..]
  {
    assert s[q..m] + s[m..] == s[q..];
    assert s[p..q] + s[q..] == s[p..];
  }

  /** Splitting loses and adds nothing: the pieces put together are the content. */
  lemma PiecesConcat(content: string)
    ensures Concat(Pieces(content)) == content
  {
    SplitFromConcat(content, 0, 0);
  }

  /** A bold span: two stars, at least one other character, two stars. */
  predicate IsBold(piece: string) {
    && |piece| >= 5 && piece[..2] == "**" && piece[|piece| - 2..] == "**"
    && forall j :: 2 <= j < |piece| - 2 ==> piece[j] != '*'
  }

  /** A code span: a backtick, at least one other character, a backtick. */
  predicate IsCode(piece: string) {
    && |piece| >= 3 && piece[0] == '`' && piece[|piece| - 1] == '`'
    && forall j :: 1 <= j < |piece| - 1 ==> piece[j] != '`'
  }

  lemma MatchIsSpan(s: string, q: nat)
    requires q <= |s| && MatchAt(s, q).Some?
    ensures IsSpan(s[q..q + MatchAt(s, q).value])
  {
    NextIndexSkips(s, '`', q + 1);
    var piece := s[q..q + MatchAt(s, q).value];
    if BoldAt(s, q).Some? {
      var k := NextIndex(s, '*', q + 2);
      NextIndexSkips(s, '*', q + 2);
      assert piece[..2] == s[q..q + 2];
      assert piece[|piece| - 2..] == s[k..k + 2];
    }
  }

  /** A captured match: a bold or a code span. */
  predicate IsSpan(piece: string) {
    IsBold(piece) || IsCode(piece)
  }

  /** Plain pieces and spans alternate, starting and ending with a plain piece. */
  predicate Alternates(r: seq<string>)
    decreases |r|
  {
    |r| == 1 || (|r| >= 3 && IsSpan(r[1]) && Alternates(r[2..]))
  }

  lemma {:induction false} SplitFromAlternates(s: string, p: nat, q: nat)
    requires p <= q <= |s|
    ensures Alternates(SplitFrom(s, p, q))
    decreases |s| - q
  {
    if q < |s| {
      if MatchAt(s, q).Some? {
        var n := MatchAt(s, q).value;
        SplitAtMatch(s, p, q, n);
        SplitFromAlternates(s, q + n, q + n);
        MatchIsSpan(s, q);
        var r := [s[p..q], s[q..q + n]] + SplitFrom(s, q + n, q + n);
        assert r[2..] == SplitFrom(s, q + n, q + n);
      } else {
        SplitPastNoMatch(s, p, q);
        SplitFromAlternates(s, p, q + 1);
      }
    }
  }

  lemma {:induction false} AlternatesIndex(r: seq<string>)
    requires Alternates(r)
    ensures |r| % 2 == 1
    ensures forall k :: 0 <= k < |r| && k % 2 == 1 ==> IsSpan(r[k])
    decreases |r|
  {
    if |r| > 1 {
      AlternatesIndex(r[2..]);
      forall k | 0 <= k < |r| && k % 2 == 1
        ensures IsSpan(r[k])
      {
        if k > 1 {
          assert r[k] == r[2..][k - 2];
        }
      }
    }
  }

  /**
   * The pieces alternate: plain text first and last, and between every two
   * plain pieces one bold or code span (the split's captured match).
   */
  lemma PiecesAlternate(content: string)
    ensures |Pieces(content)| % 2 == 1
    ensures forall k :: 0 <= k < |Pieces(content)| && k % 2 == 1 ==> IsSpan(Pieces(content)[k])
  {
    SplitFromAlternates(content, 0, 0);
    AlternatesIndex(Pieces(content));
  }

  /** A piece with no bold or code span anywhere inside it. */
  predicate SpanFree(piece: string) {
    forall i, j :: 0 <= i < j <= |piece| ==> !IsSpan(piece[i..j])
  }

  /** The scan finds the first `c` at or after `i`. */
  lemma {:induction false} NextIndexAt(s: string, c: char, i: nat, k: nat)
    requires i <= k < |s| && s[k] == c
    requires forall j :: i <= j < k ==> s[j] != c
    ensures NextIndex(s, c, i) == k
    decreases k - i
  {
    if i < k {
      NextIndexAt(s, c, i + 1, k);
    }
  }

  /** A bold or code span in the text is a match where it starts. */
  lemma SpanMatches(s: string, a: nat, b: nat)
    requires a < b <= |s| && IsSpan(s[a..b])
    ensures MatchAt(s, a).Some?
  {
    var piece := s[a..b];
    if IsBold(piece) {
      assert piece[..2][0] == piece[0] && piece[..2][1] == piece[1];
      assert piece[|piece| - 2..][0] == piece[|piece| - 2] && piece[|piece| - 2..][1] == piece[|piece| - 1];
      assert s[a] == '*' && s[a + 1] == '*' && s[b - 2] == '*' && s[b - 1] == '*' by {
        assert s[a] == piece[0] && s[a + 1] == piece[1];
        assert s[b - 2] == piece[|piece| - 2] && s[b - 1] == piece[|piece| - 1];
      }
      forall j | a + 2 <= j < b - 2 ensures s[j] != '*' {
        assert s[j] == piece[j - a];
      }
      NextIndexAt(s, '*', a + 2, b - 2);
      assert BoldAt(s, a) == Some(b - a);
    } else {
      assert s[a] == '`' && s[b - 1] == '`' by {
        assert s[a] == piece[0] && s[b - 1] == piece[|piece| - 1];
      }
      forall j | a + 1 <= j < b - 1 ensures s[j] != '`' {
        assert s[j] == piece[j - a];
      }
      NextIndexAt(s, '`', a + 1, b - 1);
      assert CodeAt(s, a) == Some(b - a);
    }
  }

  lemma SliceOfSlice(s: string, p: nat, m: nat, i: nat, j: nat)
    requires p <= m <= |s| && i <= j <= m - p
    ensures s[p..m][i..j] == s[p + i..p + j]
  {
    var x := s[p..m][i..j];
    assert |x| == j - i;
    forall t | 0 <= t < j - i ensures x[t] == s[p + i + t] {
      assert x[t] == s[p..m][i + t];
    }
  }

  /** A stretch the scan stepped past without a match holds no span. */
  lemma NoMatchSpanFree(s: string, p: nat, m: nat)
    requires p <= m <= |s|
    requires forall j :: p <= j < m ==> MatchAt(s, j).None?
    ensures SpanFree(s[p..m])
  {
    var x := s[p..m];
    forall i, j | 0 <= i < j <= |x| ensures !IsSpan(x[i..j]) {
      SliceOfSlice(s, p, m, i, j);
      if IsSpan(x[i..j]) {
        SpanMatches(s, p + i, p + j);
      }
    }
  }

  /** A span-free piece and a match in front keep the even pieces span-free. */
  lemma SpanFreeCons(a: string, b: string, rest: seq<string>)
    requires SpanFree(a)
    requires forall k :: 0 <= k < |rest| && k % 2 == 0 ==> SpanFree(rest[k])
    ensures forall k :: 0 <= k < |[a, b] + rest| && k % 2 == 0 ==> SpanFree(([a, b] + rest)[k])
  {
    var r := [a, b] + rest;
    forall k | 0 <= k < |r| && k % 2 == 0
      ensures SpanFree(r[k])
    {
      if k >= 2 {
        assert r[k] == rest[k - 2];
      }
    }
  }

  lemma {:induction false} SplitFromSpanFree(s: string, p: nat, q: nat)
    requires p <= q <= |s|
    requires forall j :: p <= j < q ==> MatchAt(s, j).None?
    ensures forall k :: 0 <= k < |SplitFrom(s, p, q)| && k % 2 == 0 ==> SpanFree(SplitFrom(s, p, q)[k])
    decreases |s| - q
  {
    if q == |s| {
      NoMatchSpanFree(s, p, q);
      SplitAtEnd(s, p);
    } else if MatchAt(s, q).Some? {
      var n := MatchAt(s, q).value;
      SplitAtMatch(s, p, q, n);
      SplitFromSpanFree(s, q + n, q + n);
      NoMatchSpanFree(s, p, q);
      SpanFreeCons(s[p..q], s[q..q + n], SplitFrom(s, q + n, q + n));
    } else {
      SplitPastNoMatch(s, p, q);
      NoMatchExtends(s, p, q);
      SplitFromSpanFree(s, p, q + 1);
    }
  }

  lemma SplitAtEnd(s: string, p: nat)
    requires p <= |s|
    ensures SplitFrom(s, p, |s|) == [s[p..|s|]]
  {
    assert s[p..|s|] == s[p..];
  }

  lemma NoMatchExtends(s: string, p: nat, q: nat)
    requires p <= q < |s|
    requires forall j :: p <= j < q ==> MatchAt(s, j).None?
    requires MatchAt(s, q).None?
    ensures forall j :: p <= j < q + 1 ==> MatchAt(s, j).None?
  {
  }

  /**
   * The split finds every span: no piece between two captured matches
   * (nor before the first or after the last) holds a bold or code span.
   */
  lemma PiecesSpanFree(content: string)
    ensures forall k :: 0 <= k < |Pieces(content)| && k % 2 == 0 ==> SpanFree(Pieces(content)[k])
  {
    SplitFromSpanFree(content, 0, 0);
  }

  // ---------------------------------------------------------------------------
  // Rendering a piece
  // ---------------------------------------------------------------------------

  /** A rendered piece. */
  datatype Rendered = Strong(text: string) | CodeSpan(text: string) | Plain(text: string)

  /** JavaScript's `slice(k, -k)`: `k` characters off each end, or "" when they overlap. */
  function Trim(piece: string, k: nat): (r: string)
    ensures 2 * k <= |piece| ==> piece == piece[..k] + r + piece[|piece| - k..]
    ensures 2 * k > |piece| ==> r == ""
  {
    if 2 * k <= |piece| then piece[k..|piece| - k] else ""
  }

  /**
   * A piece starting and ending with "**" is bold without two characters at
   * each end; else one starting and ending with a backtick is code without
   * one at each end; anything else is plain text. Only the ends are inspected.
   */
  function Render(piece: string): Rendered {
    if StartsWith(piece, "**") && EndsWith(piece, "**") then Strong(Trim(piece, 2))
    else if StartsWith(piece, "`") && EndsWith(piece, "`") then CodeSpan(Trim(piece, 1))
    else Plain(piece)
  }

  /** `formatMessageContent`: every piece rendered, in order. */
  function FormatMessageContent(content: string): (r: seq<Rendered>)
    ensures |r| == |Pieces(content)|
    ensures forall k :: 0 <= k < |r| ==> r[k] == Render(Pieces(content)[k])
  {
    Map(Pieces(content), Render)
  }

  /** A bold span renders as its text between the stars, and putting the stars back gives the span. */
  lemma RenderBold(piece: string)
    requires IsBold(piece)
    ensures Render(piece).Strong? && "**" + Render(piece).text + "**" == piece
    ensures forall j :: 0 <= j < |Render(piece).text| ==> Render(piece).text[j] != '*'
  {
    assert piece[..2] == "**";
  }

  /** A code span renders as its text between the backticks, and putting them back gives the span. */
  lemma RenderCode(piece: string)
    requires IsCode(piece)
    ensures Render(piece).CodeSpan? && "`" + Render(piece).text + "`" == piece
    ensures forall j :: 0 <= j < |Render(piece).text| ==> Render(piece).text[j] != '`'
  {
    assert piece[..1] == "`";
  }

  /**
   * Every captured span is shown as strong text or as code, with its
   * delimiters removed, and every other piece holds no span.
   */
  lemma FormattedSpans(content: string)
    ensures var r := FormatMessageContent(content);
      forall k :: 0 <= k < |r| && k % 2 == 1 ==>
        (r[k].Strong? && "**" + r[k].text + "**" == Pieces(content)[k])
        || (r[k].CodeSpan? && "`" + r[k].text + "`" == Pieces(content)[k])
  {
    var r := FormatMessageContent(content);
    PiecesAlternate(content);
    forall k | 0 <= k < |r| && k % 2 == 1
      ensures (r[k].Strong? && "**" + r[k].text + "**" == Pieces(content)[k])
        || (r[k].CodeSpan? && "`" + r[k].text + "`" == Pieces(content)[k])
    {
      var piece := Pieces(content)[k];
      if IsBold(piece) {
        RenderBold(piece);
      } else {
        RenderCode(piece);
      }
    }
  }

  /** Plain text is judged by its ends too: a lone backtick is empty code, three stars are empty bold. */
  lemma RenderByEnds()
    ensures Render("`") == CodeSpan("")
    ensures Render("***") == Strong("")
    ensures Render("**") == Strong("")
    ensures Render("a*b") == Plain("a*b")
  {
    assert "***"[..2] == "**" && "***"[1..] == "**";
    assert "a*b"[..2][0] == 'a';
    assert "a*b"[..1][0] == 'a';
  }

  // ---------------------------------------------------------------------------
  // Hint level and sources
  // ---------------------------------------------------------------------------

  /** The hint level is shown for a message not from the user that has one. */
  predicate ShowsHintLevel(m: ChatMessage) {
    m.role != Speaker.User && m.hintLevel.Some?
  }

  /** Sources are listed for a message not from the user that has at least one. */
  predicate ShowsSources(m: ChatMessage) {
    m.role != Speaker.User && m.sources.Some? && |m.sources.value| > 0
  }

  /** The line of a source: its filename and its chunk number. */
  function SourceLine(s: Source): string {
    s.filename + " (chunk " + IntToString(s.chunkIndex) + ")"
  }

  /** The source lines shown under a message, in order. */
  function SourceLines(m: ChatMessage): (r: seq<string>)
    ensures ShowsSources(m) ==> |r| == |m.sources.value| && forall k :: 0 <= k < |r| ==> r[k] == SourceLine(m.sources.value[k])
    ensures !ShowsSources(m) ==> r == []
  {
    if ShowsSources(m) then Map(m.sources.value, SourceLine) else []
  }

  /**
   * A refusal from the backend is flagged as one, shows hint level 0 and
   * lists no sources.
   */
  lemma RefusalShown(id: Id, request: ChatRequest, guardrails: Guardrails, excerpts: seq<Excerpt>,
                     out: HintControllerOutput, reply: Llm.AssistantInput -> string)
    requires out.action == RefuseOutOfScope
    ensures var m := Chat.ResponseFor(Chat.AnswerFor(id, request, guardrails, excerpts, out, reply), excerpts, out).message;
      IsRefusal(m.content) && ShowsHintLevel(m) && m.hintLevel == Some(0) && !ShowsSources(m) && SourceLines(m) == []
  {
    Chat.RefusalResponse(id, request, guardrails, excerpts, out, reply);
    RefusalMessageIsRefusal();
  }
}
