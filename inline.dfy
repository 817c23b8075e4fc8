// The inline scanner of org/inline.go: a left-to-right scan of a piece of text that dispatches on
// the current character, recognises emphasis, links, footnote references, statistics cookies,
// macros, LaTeX fragments, inline source and export blocks, auto-links and line breaks, and flushes
// everything in between as Text nodes.
//
// The Go code indexes bytes; here a string is a sequence of code points. The scanner reads three
// things from the document: the position of the token the text comes from, the AutoLink and
// MaxEmphasisNewLines settings, and the timestamp recogniser of the date code. They make up Ctx.
// It changes two things in the document: the list of pending keywords (inline blocks take it over)
// and the timestamp of the last headline. They make up State, which every parser takes and returns.
module Inline {
  import opened Wrappers
  import opened Strs
  import opened Lexer
  import opened Keywords

  /** The value the date code parses out of a timestamp; its fields are not modelled. */
  datatype OrgDate = OrgDate(text: string)

  datatype Ctx = Ctx(
    pos: Pos,                                // d.tokens[ni].Pos()
    endPos: Pos,                             // d.tokens[ni].EndPos()
    autoLink: bool,
    maxEmphasisNewLines: int,
    parseTimestamp: string -> Option<OrgDate>)

  datatype State = State(lastKeywords: seq<Keyword>, timestamp: Option<Node>)

  datatype Node =
    | Text(pos: Pos, endPos: Pos, content: string, isRaw: bool)
    | LineBreak(pos: Pos, count: int, betweenMultibyteCharacters: bool)
    | ExplicitLineBreak(pos: Pos)
    | StatisticToken(pos: Pos, endPos: Pos, content: string)
    | Timestamp(pos: Pos, endPos: Pos, time: OrgDate)
    | Emphasis(pos: Pos, endPos: Pos, kind: string, nodes: seq<Node>)
    | InlineBlock(pos: Pos, endPos: Pos, name: string, parameters: seq<string>, children: seq<Node>, keywords: seq<Keyword>)
    | LatexFragment(pos: Pos, openingPair: string, closingPair: string, nodes: seq<Node>)
    | FootnoteLink(pos: Pos, name: string, definition: Option<FootnoteDef>)
    | RegularLink(pos: Pos, endPos: Pos, protocol: string, description: seq<Node>, url: string, autoLink: bool)
    | Macro(pos: Pos, name: string, parameters: seq<string>)

  /**
   * The inline FootnoteDefinition built for `[fn:name:definition]`: it always holds exactly one
   * Paragraph (at paragraphPos, ending at paragraphEnd) whose children are the parsed definition.
   */
  datatype FootnoteDef = FootnoteDef(pos: Pos, name: string, paragraphPos: Pos, paragraphEnd: Pos, children: seq<Node>)

  /** What a sub-parser reports: how far to step back, how much it consumed, and the node. */
  datatype Step = Step(rewind: nat, consumed: nat, node: Option<Node>)

  const NoStep := Step(0, 0, None)

  /** One slice of the scanned text: a stretch flushed as Text, or the text a construct consumed. */
  datatype Piece = Piece(text: string, isText: bool)

  function Flatten(pieces: seq<Piece>): string
  {
    if |pieces| == 0 then "" else Flatten(pieces[..|pieces| - 1]) + pieces[|pieces| - 1].text
  }

  // ---------------------------------------------------------------------------
  // countRune and computeTextEnd

  /** countRune: the number of occurrences of c in s. */
  function CountRune(s: string, c: char): (n: nat)
    ensures n <= |s|
    ensures n == 0 <==> forall i :: 0 <= i < |s| ==> s[i] != c
  {
    if |s| == 0 then 0 else CountRune(s[..|s| - 1], c) + (if s[|s| - 1] == c then 1 else 0)
  }

  lemma CountRuneSlice(s: string, a: nat, b: nat, c: char)
    requires a <= b < |s|
    ensures CountRune(s[a..b + 1], c) == CountRune(s[a..b], c) + (if s[b] == c then 1 else 0)
  {
    assert s[a..b + 1][..b - a] == s[a..b];
  }

  lemma {:induction false} CountRuneMonotone(s: string, a: nat, b: nat, k: nat, c: char)
    requires a <= b <= k <= |s|
    ensures CountRune(s[a..b], c) <= CountRune(s[a..k], c)
    decreases k - b
  {
    if b < k {
      CountRuneMonotone(s, a, b, k - 1, c);
      CountRuneSlice(s, a, k - 1, c);
    }
  }

  lemma {:induction false} CountRuneAppend(s: string, t: string, c: char)
    ensures CountRune(s + t, c) == CountRune(s, c) + CountRune(t, c)
    decreases |t|
  {
    if |t| == 0 {
      assert s + t == s;
    } else {
      CountRuneAppend(s, t[..|t| - 1], c);
      assert (s + t)[..|s + t| - 1] == s + t[..|t| - 1];
    }
  }

  lemma NoSeparatorBefore(s: string, c: char, k: int)
    requires 0 <= k <= |s| && forall j :: 0 <= j < k ==> !OccursAt(s, [c], j)
    ensures CountRune(s[..k], c) == 0
  {
    forall i | 0 <= i < k ensures s[..k][i] != c {
      assert s[i..i + 1] == [s[i]];
      assert !OccursAt(s, [c], i);
    }
  }

  /** Splitting at a one-character separator gives one piece more than there are separators. */
  lemma {:induction false} SplitCount(s: string, c: char)
    ensures |Split(s, [c])| == CountRune(s, c) + 1
    decreases |s|
  {
    var k := Index(s, [c]);
    if k < 0 {
      NoSeparatorBefore(s, c, |s|);
      assert s[..|s|] == s;
    } else {
      var before, rest := s[..k], s[k + 1..];
      SplitCount(rest, c);
      NoSeparatorBefore(s, c, k);
      AroundOccurrence(s, [c], k);
      CountRuneAppend(before + [c], rest, c);
      CountRuneAppend(before, [c], c);
      assert CountRune([c], c) == 1;
      SplitTail(s, [c], k);
    }
  }

  /** l is the last line of s when lines end at c: a suffix without c, preceded by c if shorter. */
  predicate IsLastLine(s: string, l: string, c: char)
  {
    |l| <= |s| && (forall i :: 0 <= i < |l| ==> s[|s| - |l| + i] == l[i] && l[i] != c)
    && (|l| < |s| ==> s[|s| - |l| - 1] == c)
  }

  lemma LastLineSuffix(s: string, l: string, c: char)
    requires IsLastLine(s, l, c)
    ensures s[|s| - |l|..] == l
  {
  }

  lemma LastLineWhole(s: string, c: char)
    requires Index(s, [c]) < 0
    ensures IsLastLine(s, s, c)
  {
    forall i | 0 <= i < |s| ensures s[i] != c {
      assert s[i..i + 1] == [s[i]];
      assert !OccursAt(s, [c], i);
    }
  }

  lemma LastLineStep(s: string, k: nat, l: string, c: char)
    requires k < |s| && s[k] == c && IsLastLine(s[k + 1..], l, c)
    ensures IsLastLine(s, l, c)
  {
    var rest := s[k + 1..];
    assert forall i :: 0 <= i < |rest| ==> rest[i] == s[k + 1 + i];
  }

  /** The last piece of Split(s, [c]) is the last line of s. */
  lemma {:induction false} SplitLast(s: string, c: char)
    ensures var p := Split(s, [c]); IsLastLine(s, p[|p| - 1], c)
    decreases |s|
  {
    var k := Index(s, [c]);
    if k < 0 {
      LastLineWhole(s, c);
    } else {
      var rest := s[k + 1..];
      SplitLast(rest, c);
      var p := Split(rest, [c]);
      SplitTail(s, [c], k);
      assert s[k] == c by { assert s[k..k + 1] == [c]; }
      LastLineStep(s, k, p[|p| - 1], c);
    }
  }

  /**
   * computeTextEnd: the row is moved down by the number of line breaks of the content once its
   * trailing line breaks are dropped, and the column is the length of its last line.
   */
  function ComputeTextEnd(pos: Pos, content: string): (r: Pos)
    ensures var t := TrimTrailingNewlines(content);
            r.row == pos.row + CountRune(t, '\n') && 0 <= r.col <= |t| && IsLastLine(t, t[|t| - r.col..], '\n')
  {
    var temp := Split(TrimTrailingNewlines(content), "\n");
    SplitCount(TrimTrailingNewlines(content), '\n');
    SplitLast(TrimTrailingNewlines(content), '\n');
    LastLineSuffix(TrimTrailingNewlines(content), temp[|temp| - 1], '\n');
    Pos(pos.row + (|temp| - 1), |temp[|temp| - 1]|)
  }

  // ---------------------------------------------------------------------------
  // GetEnd

  /** Whether GetEnd can be evaluated: LatexFragment.GetEnd reads its last child unguarded. */
  predicate HasEnd(n: Node)
  {
    n.LatexFragment? ==> |n.nodes| > 0 && HasEnd(n.nodes[|n.nodes| - 1])
  }

  /** GetEnd as the source writes it, defined only where it does not index an empty child list. */
  function GetEndAsWritten(n: Node): (r: Pos)
    requires HasEnd(n)
    ensures !n.LatexFragment? ==> r == GetEnd(n)
  {
    match n
    case LatexFragment(_, _, _, c) => GetEndAsWritten(c[|c| - 1])
    case _ => GetEnd(n)
  }

  /** GetEnd of each inline node; a LatexFragment without content ends at its position. */
  function GetEnd(n: Node): (r: Pos)
    ensures n.Text? || n.StatisticToken? || n.Timestamp? || n.Emphasis? || n.InlineBlock? || n.RegularLink? ==> r == n.endPos
    ensures n.ExplicitLineBreak? || n.FootnoteLink? || n.Macro? ==> r == n.pos
    ensures n.LineBreak? ==> r == Pos(n.pos.row + n.count - 1, 0)
  {
    match n
    case Text(_, e, _, _) => e
    case LineBreak(p, c, _) => Pos(p.row + c - 1, 0)
    case ExplicitLineBreak(p) => p
    case StatisticToken(_, e, _) => e
    case Timestamp(_, e, _) => e
    case Emphasis(_, e, _, _) => e
    case InlineBlock(_, e, _, _, _, _) => e
    case LatexFragment(p, _, _, c) => if |c| == 0 then p else GetEnd(c[|c| - 1])
    case FootnoteLink(p, _, _) => p
    case RegularLink(_, e, _, _, _, _) => e
    case Macro(p, _, _) => p
  }

  /** Where GetEnd as written is defined, the corrected GetEnd agrees with it. */
  lemma {:induction false} GetEndAgrees(n: Node)
    requires HasEnd(n)
    ensures GetEnd(n) == GetEndAsWritten(n)
  {
    if n.LatexFragment? {
      GetEndAgrees(n.nodes[|n.nodes| - 1]);
    }
  }

  // ---------------------------------------------------------------------------
  // The emphasis border rules (org-emphasis-regexp-components)

  predicate IsValidPreChar(c: char) { IsSpace(c) || c in "-({'\"" }

  predicate IsValidPostChar(c: char) { IsSpace(c) || c in "-.,:!?;'\")}[" }

  predicate IsValidBorderChar(c: char) { !IsSpace(c) }

  /**
   * An opening marker at i: a non-space after it (or the end), and a pre character or the start
   * before it. The code reads single bytes, so the first byte of the character after and the
   * last byte of the character before are what is classified.
   */
  predicate HasValidPreAndBorderChars(input: string, i: nat)
    requires i < |input|
  {
    (i + 1 >= |input| || IsValidBorderChar(FirstByteRune(input[i + 1])))
    && (i == 0 || IsValidPreChar(LastByteRune(input[i - 1])))
  }

  /** A closing marker at i: a non-space before it, and a post character or the end after it. */
  predicate HasValidPostAndBorderChars(input: string, i: nat)
    requires i < |input|
  {
    (i == 0 || IsValidBorderChar(LastByteRune(input[i - 1])))
    && (i + 1 >= |input| || IsValidPostChar(FirstByteRune(input[i + 1])))
  }

  /**
   * j closes the emphasis opened at start: the same marker, not directly after the opener, valid
   * border characters, and no more than max line breaks between the opener and j.
   */
  predicate IsCloser(input: string, start: nat, j: nat, max: int)
  {
    start + 2 <= j < |input| && input[j] == input[start]
    && HasValidPostAndBorderChars(input, j) && CountRune(input[start + 1..j], '\n') <= max
  }

  // ---------------------------------------------------------------------------
  // Recognisers for the regular expressions of the inline parsers

  predicate NotBrace(c: char) { c != '{' && c != '}' }

  /** `^([_^]){([^{}]+?)}`: the text between the braces, which is non-empty and holds no brace. */
  function MatchSubSup(s: string): (m: Option<string>)
    ensures m.Some? ==> |m.value| > 0 && |m.value| + 3 <= |s| && (s[0] == '_' || s[0] == '^') && s[1] == '{'
                        && s[2..|m.value| + 2] == m.value && s[|m.value| + 2] == '}'
    ensures m.Some? ==> forall k :: 0 <= k < |m.value| ==> NotBrace(m.value[k])
  {
    if |s| < 4 || !(s[0] == '_' || s[0] == '^') || s[1] != '{' then None
    else
      var n := PrefixRun(s[2..], NotBrace);
      PrefixRunFacts(s[2..], NotBrace);
      if n > 0 && 2 + n < |s| && s[2 + n] == '}' then Some(s[2..2 + n]) else None
  }

  /** `^\[fn:([\w-]*?)(:(.*?))?\]`: the name, the definition and the length of the match. */
  function MatchFootnoteReference(s: string): (m: Option<(string, string, nat)>)
    ensures m.Some? ==> 5 <= m.value.2 <= |s| && s[..4] == "[fn:" && s[m.value.2 - 1] == ']'
    ensures m.Some? ==> HasPrefix(s[4..], m.value.0) && forall k :: 0 <= k < |m.value.0| ==> IsLabelChar(m.value.0[k])
    ensures m.Some? && m.value.1 != "" ==> m.value.2 == 4 + |m.value.0| + 1 + |m.value.1| + 1
    ensures m.Some? ==> NoNewline(m.value.1) && ']' !in m.value.1
  {
    if |s| < 5 || s[..4] != "[fn:" then None
    else
      var n := PrefixRun(s[4..], IsLabelChar);
      PrefixRunFacts(s[4..], IsLabelChar);
      var p := 4 + n;
      if p < |s| && s[p] == ':' then
        var rest := s[p + 1..];
        var k := IndexChar(rest, ']');
        var nl := IndexChar(rest, '\n');
        if k >= 0 && (nl < 0 || k < nl) then
          assert s[4..][..n] == s[4..p];
          assert NoNewline(rest[..k]) by {
            forall i | 0 <= i < k ensures rest[..k][i] != '\n' { assert rest[i] != '\n'; }
          }
          Some((s[4..p], rest[..k], p + 1 + k + 1))
        else None
      else if p < |s| && s[p] == ']' then
        assert s[4..][..n] == s[4..p];
        Some((s[4..p], "", p + 1))
      else None
  }

  /** `^\[(\d+/\d+|\d+%)\]`: the cookie text between the brackets. */
  function MatchStatistic(s: string): (m: Option<string>)
    ensures m.Some? ==> |m.value| + 2 <= |s| && s[0] == '[' && s[1..|m.value| + 1] == m.value && s[|m.value| + 1] == ']'
    ensures m.Some? ==> |m.value| >= 2 && IsDigit(m.value[0])
  {
    if |s| < 4 || s[0] != '[' then None
    else
      var d := PrefixRun(s[1..], IsDigit);
      var p := 1 + d;
      if d == 0 || p >= |s| then None
      else if s[p] == '/' then
        var e := PrefixRun(s[p + 1..], IsDigit);
        if e > 0 && p + 1 + e < |s| && s[p + 1 + e] == ']' then Some(s[1..p + 1 + e]) else None
      else if s[p] == '%' && p + 1 < |s| && s[p + 1] == ']' then Some(s[1..p + 1])
      else None
  }

  const LatexFragmentPairs: map<string, string> := map["\\(" := "\\)", "\\[" := "\\]", "$$" := "$$", "$" := "$"]

  /** The first occurrence of pat at or after from, as an index into input. */
  function FindFrom(input: string, from: nat, pat: string): (i: Option<nat>)
    requires from <= |input|
    ensures i.Some? ==> from <= i.value && OccursAt(input, pat, i.value)
                        && forall k :: from <= k < i.value ==> !OccursAt(input, pat, k)
    ensures i.None? ==> forall k :: from <= k ==> !OccursAt(input, pat, k)
  {
    var r := Index(input[from..], pat);
    IndexFrom(input, from, pat);
    if r < 0 then None else Some(from + r)
  }


  /** The opening pair of parseLatexFragment: `$` becomes `$$` when it is doubled. */
  function LatexOpening(input: string, start: nat, pairLength: nat): (o: string)
    requires start + 2 < |input|
    requires pairLength == 1 ==> input[start] == '$'
    requires pairLength == 2 ==> input[start] == '\\' && (input[start + 1] == '(' || input[start + 1] == '[')
    requires pairLength == 1 || pairLength == 2
    ensures o in LatexFragmentPairs && |o| == |LatexFragmentPairs[o]| && 1 <= |o| <= 2
    ensures o == input[start..start + |o|]
  {
    var pl := if pairLength == 1 && input[start..start + 2] == "$$" then 2 else pairLength;
    var o := input[start..start + pl];
    assert pl == 1 ==> o == "$";
    assert pl == 2 && input[start] == '$' ==> o == "$$";
    assert pl == 2 && input[start + 1] == '(' && input[start] == '\\' ==> o == "\\(";
    assert pl == 2 && input[start + 1] == '[' && input[start] == '\\' ==> o == "\\[";
    o
  }

  /** `\end{name}` followed by a closing brace, where name is a maximal run of word characters. */
  predicate EndTagAt(s: string, q: int)
  {
    OccursAt(s, "\\end{", q) && var w := PrefixRun(s[q + 5..], IsWord); w > 0 && q + 5 + w < |s| && s[q + 5 + w] == '}'
  }

  /** The name of the `\end{name}` tag at q. */
  function EndTagName(s: string, q: int): (w: string)
    requires EndTagAt(s, q)
    ensures |w| > 0 && OccursAt(s, "\\end{" + w + "}", q)
  {
    var n := PrefixRun(s[q + 5..], IsWord);
    assert s[q + 5..][..n] == s[q + 5..q + 5 + n];
    assert s[q..q + 5 + n + 1] == s[q..q + 5] + s[q + 5..q + 5 + n] + "}";
    s[q + 5..q + 5 + n]
  }

  /** The last position below n where an `\end{name}` tag starts, or -1. */
  function LastEndTagBelow(s: string, n: nat): (q: int)
    requires n <= |s| + 1
    ensures -1 <= q < n
    ensures q >= 0 ==> EndTagAt(s, q)
    ensures forall k :: q < k < n ==> !EndTagAt(s, k)
    decreases n
  {
    if n == 0 then -1 else if EndTagAt(s, n - 1) then n - 1 else LastEndTagBelow(s, n - 1)
  }

  /** The name of `\begin{name}` at the start of s, when s starts with one. */
  function BeginTagName(s: string): (w: Option<string>)
    ensures w.Some? ==> |w.value| > 0 && HasPrefix(s, "\\begin{" + w.value + "}")
  {
    if |s| < 8 || s[..7] != "\\begin{" then None
    else
      var n := PrefixRun(s[7..], IsWord);
      if n == 0 || 7 + n >= |s| || s[7 + n] != '}' then None
      else
        assert s[7..][..n] == s[7..7 + n];
        assert s[..8 + n] == s[..7] + s[7..7 + n] + "}";
        Some(s[7..7 + n])
  }

  /**
   * `(?s)^\\begin{(\w+)}(.*)\\end{(\w+)}`: because `.*` is greedy, the content runs up to the LAST
   * `\end{name}` tag. Gives (opening name, content, closing name).
   */
  function MatchLatexEnvironment(s: string): (m: Option<(string, string, string)>)
    ensures m.Some? ==> HasPrefix(s, "\\begin{" + m.value.0 + "}") && |m.value.0| > 0
    ensures m.Some? ==> var q := 8 + |m.value.0| + |m.value.1|;
                        q <= |s| && s[8 + |m.value.0|..q] == m.value.1 && EndTagAt(s, q)
                        && m.value.2 == EndTagName(s, q)
                        && forall k :: q < k <= |s| ==> !EndTagAt(s, k)
  {
    match BeginTagName(s)
    case None => None
    case Some(w) =>
      var b := 8 + |w|;
      var q := LastEndTagBelow(s, |s| + 1);
      if q < b then None else Some((w, s[b..q], EndTagName(s, q)))
  }

  /** The length of the text up to the first line break (all of it when there is none). */
  function LineLength(s: string): (n: nat)
    ensures n <= |s| && NoNewline(s[..n]) && (n < |s| ==> s[n] == '\n')
  {
    var k := IndexChar(s, '\n');
    if k < 0 then |s| else k
  }

  /** The last position below n holding c, or -1. */
  function LastCharBelow(s: string, c: char, n: nat): (q: int)
    requires n <= |s|
    ensures -1 <= q < n && (q >= 0 ==> s[q] == c)
    ensures forall k :: q < k < n ==> s[k] != c
    decreases n
  {
    if n <= 0 then -1 else if s[n - 1] == c then n - 1 else LastCharBelow(s, c, n - 1)
  }

  /** The last b below n with `]{` at b and b >= 1, or -1. */
  function LastParamsEnd(s: string, n: int): (b: int)
    requires n <= |s|
    ensures b == -1 || (1 <= b && b + 1 < n && s[b] == ']' && s[b + 1] == '{')
    ensures forall k :: b < k && 1 <= k && k + 1 < n ==> !(s[k] == ']' && s[k + 1] == '{')
    decreases n
  {
    if n <= 2 then -1 else if s[n - 2] == ']' && s[n - 1] == '{' && n - 2 >= 1 then n - 2 else LastParamsEnd(s, n - 1)
  }

  datatype SrcMatch = SrcMatch(length: nat, lang: string, params: string, body: string)

  /**
   * `src_(\w+)(\[(.*)\])?{(.*)}` anchored at the start of s. Nothing in it can cross a line
   * break; the greedy groups take the last `]{` and the last `}` of the line.
   */
  function MatchSrcAt(s: string): (m: Option<SrcMatch>)
    ensures m.Some? ==> 7 <= m.value.length <= |s| && HasPrefix(s, "src_") && |m.value.lang| > 0
    ensures m.Some? ==> s[m.value.length - 1] == '}'
  {
    if |s| < 5 || s[..4] != "src_" then None
    else
      var w := PrefixRun(s[4..], IsWord);
      if w == 0 then None
      else
        var r := s[4 + w..];
        var line := r[..LineLength(r)];
        var e := LastCharBelow(line, '}', |line|);
        assert s[4..][..w] == s[4..4 + w];
        if |line| > 0 && line[0] == '[' then
          var b := LastParamsEnd(line, e);
          if b < 0 then None
          else Some(SrcMatch(4 + w + e + 1, s[4..4 + w], line[1..b], line[b + 2..e]))
        else if |line| > 0 && line[0] == '{' && e > 0 then
          Some(SrcMatch(4 + w + e + 1, s[4..4 + w], "", line[1..e]))
        else None
  }

  /** `@@(\w+):(.*?)@@` anchored at the start of s: (length, backend, content). */
  function MatchExportAt(s: string): (m: Option<(nat, string, string)>)
    ensures m.Some? ==> 6 <= m.value.0 <= |s| && HasPrefix(s, "@@") && |m.value.1| > 0
    ensures m.Some? ==> OccursAt(s, "@@", m.value.0 - 2) && NoNewline(m.value.2)
  {
    if |s| < 6 || s[..2] != "@@" then None
    else
      var w := PrefixRun(s[2..], IsWord);
      if w == 0 || 2 + w >= |s| || s[2 + w] != ':' then None
      else
        var rest := s[3 + w..];
        var k := Index(rest, "@@");
        if k < 0 || !NoNewline(rest[..k]) then None
        else
          assert rest[k..k + 2] == s[3 + w + k..3 + w + k + 2];
          assert s[2..][..w] == s[2..2 + w];
          Some((3 + w + k + 2, s[2..2 + w], rest[..k]))
  }

  /**
   * `{{{(.*)\((.*)\)}}}` anchored at the start of s: the greedy name runs to the last `(` before
   * the last `)}}}` of the line. Gives (length, name, arguments).
   */
  function MatchMacroAt(s: string): (m: Option<(nat, string, string)>)
    ensures m.Some? ==> 8 <= m.value.0 <= |s| && HasPrefix(s, "{{{") && OccursAt(s, ")}}}", m.value.0 - 4)
    ensures m.Some? ==> NoNewline(m.value.1) && NoNewline(m.value.2)
  {
    if |s| < 8 || s[..3] != "{{{" then None
    else
      var r := s[3..];
      var line := r[..LineLength(r)];
      var c := LastIndex(line, ")}}}");
      if c < 0 then None
      else
        var a := LastCharBelow(line, '(', c);
        if a < 0 then None
        else
          SliceOfSlice(r, 0, LineLength(r), c, c + 4);
          SliceOfSlice(s, 3, |s|, c, c + 4);
          NoNewlineSlice(line, 0, a);
          NoNewlineSlice(line, a + 1, c);
          Some((3 + c + 4, line[..a], line[a + 1..c]))
  }

  /** The first position k' >= k of s where MatchSrcAt succeeds (unanchored search). */
  function SearchSrc(s: string, k: nat): (m: Option<SrcMatch>)
    requires k <= |s|
    ensures m.Some? ==> 7 <= m.value.length <= |s| - k
    decreases |s| - k
  {
    match MatchSrcAt(s[k..])
    case Some(r) => Some(r)
    case None => if k == |s| then None else SearchSrc(s, k + 1)
  }

  function SearchExport(s: string, k: nat): (m: Option<(nat, string, string)>)
    requires k <= |s|
    ensures m.Some? ==> 6 <= m.value.0 <= |s| - k
    decreases |s| - k
  {
    match MatchExportAt(s[k..])
    case Some(r) => Some(r)
    case None => if k == |s| then None else SearchExport(s, k + 1)
  }

  function SearchMacro(s: string, k: nat): (m: Option<(nat, string, string)>)
    requires k <= |s|
    ensures m.Some? ==> 8 <= m.value.0 <= |s| - k
    decreases |s| - k
  {
    match MatchMacroAt(s[k..])
    case Some(r) => Some(r)
    case None => if k == |s| then None else SearchMacro(s, k + 1)
  }

  // ---------------------------------------------------------------------------
  // Auto-links

  /** validURLCharacters: the ASCII letters and digits and `-._~:/?#[]@!$&'()*+,;=`. */
  predicate IsURLChar(c: char)
  {
    IsAsciiLetter(c) || IsDigit(c)
    || c in {'-', '.', '_', '~', ':', '/', '?', '#', '[', ']', '@', '!', '$', '&', '\'', '(', ')', '*', '+', ',', ';', '='}
  }

  /** `^(https?|ftp|file)$` */
  predicate IsAutolinkProtocol(p: string) { p == "http" || p == "https" || p == "ftp" || p == "file" }

  /**
   * The protocol scan reads single bytes as runes: a character continues the scan when its last
   * UTF-8 byte is a letter. A non-ASCII character that does so makes the protocol invalid.
   */
  predicate ProtocolLetter(c: char) { IsLatin1Letter(LastByteRune(c)) }

  /** The protocol scan as written: it walks left over letters but never looks at index 0. */
  function ProtocolStartAsWritten(input: string, start: nat): (p: nat)
    requires 0 < start <= |input|
    ensures p <= start
  {
    var n := SuffixRun(input[..start], ProtocolLetter);
    if n >= start - 1 then 0 else start - n
  }

  /** The start of the run of letters that ends just before start. */
  function ProtocolStart(input: string, start: nat): (p: nat)
    requires start <= |input|
    ensures p <= start
    ensures forall k :: p <= k < start ==> ProtocolLetter(input[k])
    ensures p > 0 ==> !ProtocolLetter(input[p - 1])
  {
    var n := SuffixRun(input[..start], ProtocolLetter);
    SuffixRunFacts(input[..start], ProtocolLetter);
    start - n
  }

  /** The two scans differ only when index 0 is not a letter and everything after it is. */
  lemma ProtocolStartDiffers(input: string, start: nat)
    requires 0 < start <= |input|
    ensures ProtocolStartAsWritten(input, start) != ProtocolStart(input, start)
            <==> (!ProtocolLetter(input[0]) && forall k :: 1 <= k < start ==> ProtocolLetter(input[k]))
  {
    var t := input[..start];
    var n := SuffixRun(t, ProtocolLetter);
    SuffixRunFacts(t, ProtocolLetter);
    if !ProtocolLetter(input[0]) && forall k :: 1 <= k < start ==> ProtocolLetter(input[k]) {
      assert !ProtocolLetter(t[0]);
    } else if n == start - 1 {
      assert !ProtocolLetter(t[0]);
      assert forall k :: 1 <= k < start ==> ProtocolLetter(t[k]);
    }
  }

  /** "(http://x" is not recognised as written, although "http" directly precedes "://". */
  lemma AutolinkAtIndexOneMissed()
    ensures var s := "(http://x";
            var w := ProtocolStartAsWritten(s, 5);
            !IsAutolinkProtocol(s[w..5]) && IsAutolinkProtocol(s[ProtocolStart(s, 5)..5])
  {
    var s := "(http://x";
    ProtocolStartDiffers(s, 5);
    assert ProtocolStartAsWritten(s, 5) == 0;
    assert SuffixRun(s[..5], ProtocolLetter) == 4 by {
      assert s[..5][..4] == "(htt";
      assert SuffixRun(s[..5][..4], ProtocolLetter) == 3 by {
        assert s[..5][..4][..3] == "(ht";
        assert SuffixRun(s[..5][..4][..3], ProtocolLetter) == 2 by {
          assert s[..5][..4][..3][..2] == "(h";
          assert SuffixRun(s[..5][..4][..3][..2], ProtocolLetter) == 1 by {
            assert s[..5][..4][..3][..2][..1] == "(";
          }
        }
      }
    }
    assert s[1..5] == "http";
  }

  // ---------------------------------------------------------------------------
  // RegularLink.Kind and isImageOrVideoLink

  /** path.Ext: the suffix from the last dot of the last slash-separated element, or "". */
  function Ext(p: string): (r: string)
    ensures r == "" || (r[0] == '.' && HasSuffix(p, r) && '/' !in r)
    decreases |p|
  {
    if |p| == 0 || p[|p| - 1] == '/' then ""
    else if p[|p| - 1] == '.' then "."
    else
      var r := Ext(p[..|p| - 1]);
      if r == "" then "" else r + [p[|p| - 1]]
  }

  predicate IsImageExtension(e: string) { e in {".png", ".gif", ".jpg", ".jpeg", ".svg", ".tif", ".tiff"} }

  predicate IsVideoExtension(e: string) { e in {".webm", ".mp4"} }

  /**
   * RegularLink.Kind: "image" or "video" by the extension of the description (when it is itself
   * a file or web link) or of the URL, "regular" otherwise. String(l.Description) renders the
   * description with the Org writer, which is passed in as render.
   */
  function Kind(l: Node, render: seq<Node> -> string): (k: string)
    requires l.RegularLink?
    ensures k in {"image", "video", "regular"}
    ensures var d := render(l.description);
            var descOk := SplitN2(d, ":")[0] in {"file", "http", "https"};
            (descOk && IsImageExtension(Ext(d)) ==> k == "image")
            && (k == "video" ==> (descOk && IsVideoExtension(Ext(d))) || IsVideoExtension(Ext(l.url)))
            && ((!(descOk && (IsImageExtension(Ext(d)) || IsVideoExtension(Ext(d))))
                 && (|l.description| > 0 || (l.protocol != "" && l.protocol !in {"file", "http", "https"}))) ==> k == "regular")
  {
    var description := render(l.description);
    var descProtocol, descExt := SplitN2(description, ":")[0], Ext(description);
    var ok := descProtocol == "file" || descProtocol == "http" || descProtocol == "https";
    if ok && IsImageExtension(descExt) then "image"
    else if ok && IsVideoExtension(descExt) then "video"
    else if |l.description| > 0 || (l.protocol != "" && l.protocol != "file" && l.protocol != "http" && l.protocol != "https") then "regular"
    else if IsImageExtension(Ext(l.url)) then "image"
    else if IsVideoExtension(Ext(l.url)) then "video"
    else "regular"
  }

  const ZeroLink := RegularLink(ZeroPos, ZeroPos, "", [], "", false)

  /**
   * isImageOrVideoLink, with Go's precedence: (ok && Kind() == "video") || Kind() == "image", where
   * Kind is taken of the zero RegularLink when n is not a link.
   */
  function IsImageOrVideoLink(n: Node, render: seq<Node> -> string): (b: bool)
  {
    var l := if n.RegularLink? then n else ZeroLink;
    (n.RegularLink? && Kind(l, render) == "video") || Kind(l, render) == "image"
  }

  /** When the empty description renders as "", only links that are images or videos qualify. */
  lemma ImageOrVideoOnlyLinks(n: Node, render: seq<Node> -> string)
    requires render([]) == ""
    ensures IsImageOrVideoLink(n, render) <==> n.RegularLink? && Kind(n, render) in {"image", "video"}
  {
    if !n.RegularLink? {
      assert SplitN2("", ":")[0] == "";
      assert Ext("") == "";
    }
  }

  // ---------------------------------------------------------------------------
  // The scanner state and what the scanner promises about the text it covers

  /**
   * The document state only changes in two ways during an inline scan: an inline block takes
   * over the pending keywords, and a recognised timestamp becomes the headline's timestamp.
   */
  predicate Evolves(st: State, st2: State)
  {
    (st2.lastKeywords == st.lastKeywords || st2.lastKeywords == [])
    && (st2.timestamp == st.timestamp || (st2.timestamp.Some? && st2.timestamp.value.Timestamp?))
  }

  lemma EvolvesTrans(st1: State, st2: State, st3: State)
    requires Evolves(st1, st2) && Evolves(st2, st3)
    ensures Evolves(st1, st3)
  {
  }

  lemma FlattenAppend(pieces: seq<Piece>, p: Piece)
    ensures Flatten(pieces + [p]) == Flatten(pieces) + p.text
  {
    assert (pieces + [p])[..|pieces|] == pieces;
  }

  /** A line break node carries the row of the token and a positive count. */
  predicate IsRawNode(n: Node, ctx: Ctx)
  {
    (n.Text? && n.isRaw && n.pos == ctx.pos && |n.content| > 0 && NoNewline(n.content)
     && n.endPos == Pos(ctx.pos.row, |n.content|))
    || (n.LineBreak? && n.count > 0 && n.pos.row == ctx.pos.row)
  }

  /** The text a raw node stands for. */
  function RawPiece(n: Node): string
  {
    if n.Text? then n.content else if n.LineBreak? && n.count >= 0 then Repeat('\n', n.count) else ""
  }

  function RawSource(nodes: seq<Node>): string
  {
    if |nodes| == 0 then "" else RawSource(nodes[..|nodes| - 1]) + RawPiece(nodes[|nodes| - 1])
  }

  lemma RawSourceAppend(nodes: seq<Node>, n: Node)
    ensures RawSource(nodes + [n]) == RawSource(nodes) + RawPiece(n)
  {
    assert (nodes + [n])[..|nodes|] == nodes;
  }

  /** A text without line breaks ends on its own row, at its length. */
  lemma TextEndOnOneLine(pos: Pos, content: string)
    requires NoNewline(content)
    ensures ComputeTextEnd(pos, content) == Pos(pos.row, |content|)
  {
    if |content| > 0 {
      assert content[|content| - 1] != '\n';
    }
    TrimTrailingNewlinesNone(content);
    SplitWithoutNewline(content);
  }

  lemma SplitWithoutNewline(content: string)
    requires NoNewline(content)
    ensures Split(content, "\n") == [content]
  {
    forall k | 0 <= k < |content| ensures !OccursAt(content, "\n", k) {
      assert content[k..k + 1] == [content[k]];
    }
    assert Index(content, "\n") < 0;
  }

  // ---------------------------------------------------------------------------
  // parseRawInline and parseLineBreak

  /** A character that takes more than one byte in UTF-8. */
  predicate IsMultibyte(c: char) { c >= '\U{80}' }

  /** parseLineBreak: the maximal run of line breaks starting at start. */
  method ParseLineBreak(input: string, start: nat, ctx: Ctx) returns (consumed: nat, node: Node)
    requires start < |input| && input[start] == '\n'
    ensures 0 < consumed && start + consumed <= |input|
    ensures forall k :: start <= k < start + consumed ==> input[k] == '\n'
    ensures start + consumed == |input| || input[start + consumed] != '\n'
    ensures node == LineBreak(Pos(ctx.pos.row, start), consumed,
                              start > 0 && IsMultibyte(input[start - 1]) && start + consumed < |input| && IsMultibyte(input[start + consumed]))
  {
    var i := start;
    while i < |input| && input[i] == '\n'
      invariant start <= i <= |input|
      invariant forall k :: start <= k < i ==> input[k] == '\n'
    {
      i := i + 1;
    }
    consumed := i - start;
    node := LineBreak(Pos(ctx.pos.row, start), consumed,
                      start > 0 && IsMultibyte(input[start - 1]) && i < |input| && IsMultibyte(input[i]));
  }

  /** Raw nodes only, text and line breaks alternating. */
  predicate RawNodes(nodes: seq<Node>, ctx: Ctx)
  {
    (forall k :: 0 <= k < |nodes| ==> IsRawNode(nodes[k], ctx))
    && (forall k :: 0 <= k < |nodes| - 1 ==> nodes[k].Text? != nodes[k + 1].Text?)
  }

  lemma RawNodesAppend(nodes: seq<Node>, n: Node, ctx: Ctx)
    requires RawNodes(nodes, ctx) && IsRawNode(n, ctx)
    requires |nodes| > 0 ==> nodes[|nodes| - 1].Text? != n.Text?
    ensures RawNodes(nodes + [n], ctx)
  {
  }

  /** The raw Text node for a stretch without line breaks. */
  function RawText(ctx: Ctx, content: string): (n: Node)
    requires |content| > 0 && NoNewline(content)
    ensures IsRawNode(n, ctx) && n.Text? && n.content == content
  {
    TextEndOnOneLine(ctx.pos, content);
    Text(ctx.pos, ComputeTextEnd(ctx.pos, content), content, true)
  }

  lemma RawTextStep(input: string, nodes: seq<Node>, previous: nat, current: nat, t: Node)
    requires previous <= current <= |input| && RawSource(nodes) == input[..previous]
    requires t.Text? && t.content == input[previous..current]
    ensures RawSource(nodes + [t]) == input[..current]
  {
    RawSourceAppend(nodes, t);
    assert input[..current] == input[..previous] + input[previous..current];
  }

  lemma RawBreakStep(input: string, nodes: seq<Node>, current: nat, consumed: nat, node: Node)
    requires current + consumed <= |input| && RawSource(nodes) == input[..current]
    requires forall k :: current <= k < current + consumed ==> input[k] == '\n'
    requires node.LineBreak? && node.count == consumed
    ensures RawSource(nodes + [node]) == input[..current + consumed]
  {
    RawSourceAppend(nodes, node);
    assert Repeat('\n', consumed) == input[current..current + consumed];
    assert input[..current + consumed] == input[..current] + input[current..current + consumed];
  }

  /** The loop invariant of parseRawInline: nodes spell input[..previous], and no line break is pending. */
  predicate RawScan(input: string, ctx: Ctx, nodes: seq<Node>, previous: nat, current: nat)
  {
    previous <= current <= |input|
    && RawSource(nodes) == input[..previous]
    && NoNewline(input[previous..current])
    && RawNodes(nodes, ctx)
    && (|nodes| == 0 <==> previous == 0)
    && (|nodes| > 0 ==> nodes[|nodes| - 1].LineBreak?)
    && (0 < previous < |input| ==> input[previous] != '\n')
  }

  /** The nodes spell input[..current] and end with a text node, if any: a line break may follow. */
  predicate RawFlushed(input: string, ctx: Ctx, nodes: seq<Node>, current: nat)
  {
    current <= |input|
    && RawSource(nodes) == input[..current]
    && RawNodes(nodes, ctx)
    && (|nodes| > 0 ==> nodes[|nodes| - 1].Text?)
  }

  /** The pending text before a line break becomes a raw text node. */
  method RawFlushText(input: string, ctx: Ctx, nodes: seq<Node>, previous: nat, current: nat)
    returns (nodes': seq<Node>)
    requires RawScan(input, ctx, nodes, previous, current) && current < |input| && input[current] == '\n'
    ensures RawFlushed(input, ctx, nodes', current)
  {
    nodes' := nodes;
    if current > previous {
      var t := RawText(ctx, input[previous..current]);
      RawTextStep(input, nodes, previous, current, t);
      RawNodesAppend(nodes, t, ctx);
      nodes' := nodes + [t];
    }
  }

  /** A run of line breaks after flushed text restores the loop invariant. */
  lemma RawBreakAppend(input: string, ctx: Ctx, nodes: seq<Node>, current: nat, consumed: nat, node: Node)
    requires RawFlushed(input, ctx, nodes, current) && 0 < consumed && current + consumed <= |input|
    requires forall k :: current <= k < current + consumed ==> input[k] == '\n'
    requires current + consumed == |input| || input[current + consumed] != '\n'
    requires node.LineBreak? && node.count == consumed && node.pos.row == ctx.pos.row
    ensures RawScan(input, ctx, nodes + [node], current + consumed, current + consumed)
  {
    RawBreakStep(input, nodes, current, consumed, node);
    RawNodesAppend(nodes, node, ctx);
  }

  /** One turn of the parseRawInline loop at a line break. */
  method RawLineBreakStep(input: string, ctx: Ctx, nodes: seq<Node>, previous: nat, current: nat)
    returns (nodes': seq<Node>, current': nat)
    requires RawScan(input, ctx, nodes, previous, current) && current < |input| && input[current] == '\n'
    ensures current < current' && RawScan(input, ctx, nodes', current', current')
  {
    var consumed, node := ParseLineBreak(input, current, ctx);
    var flushed := RawFlushText(input, ctx, nodes, previous, current);
    RawBreakAppend(input, ctx, flushed, current, consumed, node);
    nodes' := flushed + [node];
    current' := current + consumed;
  }

  /** One turn of the parseRawInline loop at any other character. */
  lemma RawCharStep(input: string, ctx: Ctx, nodes: seq<Node>, previous: nat, current: nat)
    requires RawScan(input, ctx, nodes, previous, current) && current < |input| && input[current] != '\n'
    ensures RawScan(input, ctx, nodes, previous, current + 1)
  {
    assert input[previous..current + 1] == input[previous..current] + [input[current]];
  }

  /** After the loop, the text still pending becomes the last node. */
  method RawFinish(input: string, ctx: Ctx, nodes: seq<Node>, previous: nat)
    returns (nodes': seq<Node>)
    requires RawScan(input, ctx, nodes, previous, |input|)
    ensures RawSource(nodes') == input
    ensures RawNodes(nodes', ctx)
    ensures |nodes'| == 0 <==> |input| == 0
  {
    nodes' := nodes;
    if previous < |input| {
      var t := RawText(ctx, input[previous..]);
      RawTextStep(input, nodes, previous, |input|, t);
      RawNodesAppend(nodes, t, ctx);
      nodes' := nodes + [t];
    }
    assert input[..|input|] == input;
  }

  /**
   * parseRawInline: the text is cut at its runs of line breaks only. The nodes spell the input,
   * text and line breaks alternate, and nothing else is recognised.
   */
  method ParseRawInline(input: string, ctx: Ctx) returns (nodes: seq<Node>)
    ensures RawSource(nodes) == input
    ensures RawNodes(nodes, ctx)
    ensures |nodes| == 0 <==> |input| == 0
  {
    var previous, current := 0, 0;
    nodes := [];
    while current < |input|
      invariant RawScan(input, ctx, nodes, previous, current)
      decreases |input| - current
    {
      if input[current] == '\n' {
        nodes, current := RawLineBreakStep(input, ctx, nodes, previous, current);
        previous := current;
      } else {
        RawCharStep(input, ctx, nodes, previous, current);
        current := current + 1;
      }
    }
    nodes := RawFinish(input, ctx, nodes, previous);
  }

  // ---------------------------------------------------------------------------
  // parseInline

  /** What every sub-parser reports: a rewind only with a consumption, which covers a non-text node. */
  predicate ValidStep(input: string, current: nat, step: Step)
  {
    step.rewind <= current
    && (step.consumed == 0 ==> step.rewind == 0)
    && (step.consumed > 0 ==> step.rewind < step.consumed && current - step.rewind + step.consumed <= |input|
                              && step.node.Some? && !step.node.value.Text?)
  }

  /** p is the slice of the input that n stands for. */
  predicate PieceOf(n: Node, p: Piece)
  {
    |p.text| > 0 && (p.isText <==> n.Text?) && (n.Text? ==> n.content == p.text && !n.isRaw)
  }

  /** Every node has its slice, and no two Text nodes are adjacent. */
  predicate Covers(nodes: seq<Node>, pieces: seq<Piece>)
  {
    |pieces| == |nodes|
    && (forall k :: 0 <= k < |nodes| ==> PieceOf(nodes[k], pieces[k]))
    && (forall k :: 0 <= k < |nodes| - 1 ==> !(nodes[k].Text? && nodes[k + 1].Text?))
  }

  /** The nodes spell the text: parseInline's pieces of it, in order, are the nodes. */
  ghost predicate Spells(nodes: seq<Node>, text: string) {
    exists pieces :: Flatten(pieces) == text && Covers(nodes, pieces)
  }

  lemma CoversAppend(nodes: seq<Node>, pieces: seq<Piece>, n: Node, p: Piece)
    requires Covers(nodes, pieces) && PieceOf(n, p)
    requires |nodes| > 0 && nodes[|nodes| - 1].Text? ==> !n.Text?
    ensures Covers(nodes + [n], pieces + [p])
  {
  }

  /** The loop invariant of parseInline. */
  predicate InlineScan(input: string, nodes: seq<Node>, pieces: seq<Piece>, previous: nat, current: nat)
  {
    previous <= current <= |input|
    && Flatten(pieces) == input[..previous]
    && Covers(nodes, pieces)
    && (|nodes| == 0 <==> previous == 0)
    && (|nodes| > 0 ==> !nodes[|nodes| - 1].Text?)
  }

  lemma FlattenStep(input: string, pieces: seq<Piece>, lo: nat, hi: nat, isText: bool)
    requires lo <= hi <= |input| && Flatten(pieces) == input[..lo]
    ensures Flatten(pieces + [Piece(input[lo..hi], isText)]) == input[..hi]
  {
    FlattenAppend(pieces, Piece(input[lo..hi], isText));
    assert input[..hi] == input[..lo] + input[lo..hi];
  }

  /**
   * One turn of the parseInline loop after a sub-parser consumed something: the pending text
   * is flushed as a Text node (on the row shifted by the line breaks seen so far), then the node.
   */
  method InlineStep(input: string, ctx: Ctx, nodes: seq<Node>, ghost pieces: seq<Piece>, previous: nat, current: nat,
                    step: Step, newlineOffset: int)
    returns (nodes': seq<Node>, ghost pieces': seq<Piece>)
    requires InlineScan(input, nodes, pieces, previous, current) && current < |input|
    requires ValidStep(input, current, step) && step.consumed > 0
    requires TextFree(input, ctx, pieces) && PieceFree(input, ctx, previous, current)
    ensures var next := current - step.rewind + step.consumed;
            current < next && InlineScan(input, nodes', pieces', next, next)
    ensures |nodes'| > 0 && nodes'[|nodes'| - 1] == step.node.value
    ensures TextFree(input, ctx, pieces')
  {
    var c := current - step.rewind;
    var hi := c + step.consumed;
    nodes', pieces' := nodes, pieces;
    if c > previous {
      var content := input[previous..c];
      var pos := if newlineOffset > 0 then Pos(ctx.pos.row + newlineOffset, previous) else ctx.pos;
      var t := Text(pos, ComputeTextEnd(pos, content), content, false);
      FlushText(input, ctx, nodes', pieces', previous, c, current, t);
      nodes', pieces' := nodes' + [t], pieces' + [Piece(content, true)];
    }
    var lo := if c > previous then c else previous;
    AppendConstruct(input, ctx, nodes', pieces', lo, hi, step.node.value);
    nodes', pieces' := nodes' + [step.node.value], pieces' + [Piece(input[lo..hi], false)];
  }

  /** Flushing the pending text [previous, c) as a Text node keeps the pieces a partition of the scanned text. */
  lemma FlushText(input: string, ctx: Ctx, nodes: seq<Node>, pieces: seq<Piece>, previous: nat, c: nat, current: nat, t: Node)
    requires previous < c <= current <= |input|
    requires Flatten(pieces) == input[..previous] && Covers(nodes, pieces)
    requires |nodes| > 0 ==> !nodes[|nodes| - 1].Text?
    requires TextFree(input, ctx, pieces) && PieceFree(input, ctx, previous, current)
    requires t.Text? && t.content == input[previous..c] && !t.isRaw
    ensures var p := Piece(input[previous..c], true);
            Flatten(pieces + [p]) == input[..c] && Covers(nodes + [t], pieces + [p]) && TextFree(input, ctx, pieces + [p])
  {
    var p := Piece(input[previous..c], true);
    FlattenStep(input, pieces, previous, c, true);
    CoversAppend(nodes, pieces, t, p);
    assert |Flatten(pieces)| == previous;
    TextFreeAppend(input, ctx, pieces, p);
  }

  /** Appending a construct's node for [lo, hi) ends the scan at hi with a non-text node. */
  lemma AppendConstruct(input: string, ctx: Ctx, nodes: seq<Node>, pieces: seq<Piece>, lo: nat, hi: nat, n: Node)
    requires lo < hi <= |input|
    requires Flatten(pieces) == input[..lo] && Covers(nodes, pieces) && TextFree(input, ctx, pieces)
    requires !n.Text?
    ensures var p := Piece(input[lo..hi], false);
            InlineScan(input, nodes + [n], pieces + [p], hi, hi) && TextFree(input, ctx, pieces + [p])
  {
    var p := Piece(input[lo..hi], false);
    FlattenStep(input, pieces, lo, hi, false);
    CoversAppend(nodes, pieces, n, p);
    TextFreeAppend(input, ctx, pieces, p);
  }

  /**
   * parseInline. The ghost pieces cut the input into consecutive slices, one per node: a Text
   * node holds exactly its slice, every other node stands for the text its sub-parser consumed.
   * (When an auto-link steps back over text already covered, its slice starts where the previous
   * one ended.) Two Text nodes are never adjacent, so all text between two constructs is one node.
   */
  method ParseInline(input: string, ctx: Ctx, st: State) returns (nodes: seq<Node>, st': State, ghost pieces: seq<Piece>)
    ensures Flatten(pieces) == input && Covers(nodes, pieces)
    ensures TextFree(input, ctx, pieces)
    ensures |input| > 0 ==> |nodes| > 0
    ensures Evolves(st, st')
    decreases |input|, 4
  {
    var previous: nat, current: nat, newlineOffset := 0, 0, 0;
    nodes, pieces, st' := [], [], st;
    while current < |input|
      invariant InlineScan(input, nodes, pieces, previous, current)
      invariant TextFree(input, ctx, pieces) && PieceFree(input, ctx, previous, current)
      invariant Evolves(st, st')
      decreases |input| - current
    {
      if input[current] == '\n' {
        newlineOffset := newlineOffset + 1;
      }
      var step, st2 := Dispatch(input, current, ctx, st');
      EvolvesTrans(st, st', st2);
      st' := st2;
      if step.consumed != 0 {
        nodes, pieces := InlineStep(input, ctx, nodes, pieces, previous, current, step, newlineOffset);
        current := current - step.rewind + step.consumed;
        previous := current;
      } else {
        PieceFreeExtend(input, ctx, previous, current);
        current := current + 1;
      }
    }
    if previous < |input| {
      var content := input[previous..];
      var t := Text(ctx.pos, ComputeTextEnd(ctx.pos, content), content, false);
      FlattenStep(input, pieces, previous, |input|, true);
      CoversAppend(nodes, pieces, t, Piece(content, true));
      TextFreeAppend(input, ctx, pieces, Piece(content, true));
      nodes, pieces := nodes + [t], pieces + [Piece(content, true)];
    }
    assert input[..|input|] == input;
  }

  // ---------------------------------------------------------------------------
  // What the switch of parseInline recognises

  /** `src_` at the `_` of start: `src` after white space or the start, then an inline source block. */
  ghost predicate InlineBlockAt(input: string, start: nat)
    requires start < |input|
  {
    HasSuffix(input[..start], "src") && (start < 4 || IsSpace(LastByteRune(input[start - 4])))
    && SearchSrc(input[start - 3..], 0).Some?
  }

  /** The marker at start opens emphasis and a closer for it follows within the line-break budget. */
  ghost predicate EmphasisAt(input: string, start: nat, max: int)
    requires start < |input|
  {
    HasValidPreAndBorderChars(input, start) && exists j :: IsCloser(input, start, j, max)
  }

  /** At `_`: an inline source block, a subscript or emphasis. */
  ghost predicate UnderscoreAt(input: string, start: nat, ctx: Ctx)
    requires start < |input|
  {
    InlineBlockAt(input, start) || MatchSubSup(input[start..]).Some? || EmphasisAt(input, start, ctx.maxEmphasisNewLines)
  }

  /** `[[`, not `[[[`, up to a later `]]`, with a link part on one line. */
  ghost predicate RegularLinkAt(s: string)
  {
    |s| >= 3 && s[..2] == "[[" && s[2] != '[' && 2 <= Index(s, "]]")
    && NoNewline(Split(s[2..Index(s, "]]")], "][")[0])
  }

  /**
   * At `[`: after `[[` only a regular link; otherwise a footnote reference with a name or a
   * definition, and only when no footnote reference matches, a statistics cookie.
   */
  ghost predicate BracketAt(s: string)
  {
    if |s| >= 2 && s[0] == '[' && s[1] == '[' then RegularLinkAt(s)
    else if MatchFootnoteReference(s).Some? then MatchFootnoteReference(s).value.0 != "" || MatchFootnoteReference(s).value.1 != ""
    else MatchStatistic(s).Some?
  }

  /** A closing pair follows the opening pair of the LaTeX fragment at start. */
  ghost predicate LatexFragmentAt(input: string, start: nat, pairLength: nat)
    requires start < |input|
    requires pairLength == 1 ==> input[start] == '$'
    requires pairLength == 2 ==> start + 1 < |input| && input[start] == '\\' && (input[start + 1] == '(' || input[start + 1] == '[')
    requires pairLength == 1 || pairLength == 2
  {
    start + 2 < |input|
    && var o := LatexOpening(input, start, pairLength);
       exists k :: start + |o| <= k && OccursAt(input, LatexFragmentPairs[o], k)
  }

  /** `\begin{name}...\end{name}` at start, with the same name in both tags. */
  ghost predicate LatexEnvironmentMatches(input: string, start: nat)
    requires start <= |input|
  {
    var m := MatchLatexEnvironment(input[start..]); m.Some? && m.value.0 == m.value.2
  }

  /**
   * At a backslash, in parseExplicitLineBreakOrLatexFragment's order: an explicit line break
   * when `\\` is not at the start of a line, else a `\(`/`\[` fragment, else an environment.
   */
  ghost predicate BackslashAt(input: string, start: nat)
    requires start < |input| && input[start] == '\\'
  {
    start + 2 < |input|
    && if input[start + 1] == '\\' && start != 0 && input[start - 1] != '\n' then exists n :: ExplicitLineBreakAt(input, start, n)
       else if input[start + 1] == '(' || input[start + 1] == '[' then LatexFragmentAt(input, start, 2)
       else Index(input[start..], "\\begin{") == 0 && LatexEnvironmentMatches(input, start)
  }

  /** At the `:` of `://`: auto-links on, an auto-link protocol before it and a URL character after it. */
  ghost predicate AutoLinkAt(input: string, start: nat, ctx: Ctx)
    requires start < |input|
  {
    ctx.autoLink && 0 < start && OccursAt(input, "://", start)
    && IsAutolinkProtocol(input[ProtocolStart(input, start)..start])
    && start + 3 < |input| && IsURLChar(input[start + 3])
  }

  /**
   * parseInline's switch consumes at current exactly when this holds: per character, the
   * condition under which its sub-parser recognises a construct. A timestamp never consumes.
   */
  ghost predicate ConstructAt(input: string, current: nat, ctx: Ctx)
    requires current < |input|
  {
    match input[current]
    case '^' => MatchSubSup(input[current..]).Some?
    case '_' => UnderscoreAt(input, current, ctx)
    case '@' => SearchExport(input[current..], 0).Some?
    case '*' => EmphasisAt(input, current, ctx.maxEmphasisNewLines)
    case '/' => EmphasisAt(input, current, ctx.maxEmphasisNewLines)
    case '+' => EmphasisAt(input, current, ctx.maxEmphasisNewLines)
    case '=' => EmphasisAt(input, current, ctx.maxEmphasisNewLines)
    case '~' => EmphasisAt(input, current, ctx.maxEmphasisNewLines)
    case '[' => BracketAt(input[current..])
    case '{' => SearchMacro(input[current..], 0).Some?
    case '\\' => BackslashAt(input, current)
    case '$' => LatexFragmentAt(input, current, 1)
    case '\n' => true
    case ':' => AutoLinkAt(input, current, ctx)
    case _ => false
  }

  /** The kind of node the sub-parser for character c builds. */
  predicate BuildsFor(c: char, n: Node)
  {
    match c
    case '^' => n.Emphasis?
    case '_' => n.InlineBlock? || n.Emphasis?
    case '@' => n.InlineBlock?
    case '*' => n.Emphasis?
    case '/' => n.Emphasis?
    case '+' => n.Emphasis?
    case '=' => n.Emphasis?
    case '~' => n.Emphasis?
    case '[' => n.RegularLink? || n.FootnoteLink? || n.StatisticToken?
    case '{' => n.Macro?
    case '\\' => n.ExplicitLineBreak? || n.LatexFragment?
    case '$' => n.LatexFragment?
    case '\n' => n.LineBreak?
    case ':' => n.RegularLink?
    case _ => false
  }

  /** No position in [lo, hi) starts a construct. */
  ghost predicate PieceFree(input: string, ctx: Ctx, lo: nat, hi: nat)
  {
    forall k :: lo <= k < hi && k < |input| ==> !ConstructAt(input, k, ctx)
  }

  /** Where piece j starts in the text. */
  function Offset(pieces: seq<Piece>, j: nat): nat
    requires j <= |pieces|
  {
    |Flatten(pieces[..j])|
  }

  /** No position inside a Text piece starts a construct: all text was scanned and left alone. */
  ghost predicate TextFree(input: string, ctx: Ctx, pieces: seq<Piece>)
  {
    forall j :: 0 <= j < |pieces| && pieces[j].isText ==>
      PieceFree(input, ctx, Offset(pieces, j), Offset(pieces, j) + |pieces[j].text|)
  }

  lemma PieceFreeExtend(input: string, ctx: Ctx, lo: nat, hi: nat)
    requires hi < |input| && PieceFree(input, ctx, lo, hi) && !ConstructAt(input, hi, ctx)
    ensures PieceFree(input, ctx, lo, hi + 1)
  {
  }

  lemma TextFreeAppend(input: string, ctx: Ctx, pieces: seq<Piece>, p: Piece)
    requires TextFree(input, ctx, pieces)
    requires p.isText ==> PieceFree(input, ctx, |Flatten(pieces)|, |Flatten(pieces)| + |p.text|)
    ensures TextFree(input, ctx, pieces + [p])
  {
    var ps := pieces + [p];
    forall j | 0 <= j < |ps| && ps[j].isText
      ensures PieceFree(input, ctx, Offset(ps, j), Offset(ps, j) + |ps[j].text|)
    {
      if j < |pieces| {
        assert ps[..j] == pieces[..j];
      } else {
        assert ps[..j] == pieces;
      }
    }
  }

  /** The switch of parseInline on the character at current. */
  method Dispatch(input: string, current: nat, ctx: Ctx, st: State) returns (step: Step, st': State)
    requires current < |input|
    ensures ValidStep(input, current, step) && Evolves(st, st')
    ensures step.consumed > 0 <==> ConstructAt(input, current, ctx)
    ensures step.consumed > 0 ==> BuildsFor(input[current], step.node.value)
    decreases |input|, 3
  {
    st', step := st, NoStep;
    var c := input[current];
    var consumed: nat, node: Option<Node>, rewind: nat;
    if c == '^' {
      var r := ParseSubOrSuperScript(input, current, ctx);
      step := Step(0, r.0, r.1);
    } else if c == '_' {
      rewind, consumed, node, st' := ParseSubScriptOrEmphasisOrInlineBlock(input, current, ctx, st);
      step := Step(rewind, consumed, node);
    } else if c == '@' {
      consumed, node, st' := ParseInlineExportBlock(input, current, ctx, st);
      step := Step(0, consumed, node);
    } else if c == '*' || c == '/' || c == '+' {
      consumed, node, st' := ParseEmphasis(input, current, false, ctx, st);
      step := Step(0, consumed, node);
    } else if c == '=' || c == '~' {
      consumed, node, st' := ParseEmphasis(input, current, true, ctx, st);
      step := Step(0, consumed, node);
    } else if c == '[' {
      consumed, node, st' := ParseOpeningBracket(input, current, ctx, st);
      step := Step(0, consumed, node);
    } else {
      step, st' := DispatchMore(input, current, ctx, st);
    }
  }

  /** The rest of the switch of parseInline: macros, timestamps, line breaks and auto links, with backslashes and `$` handed on. */
  method DispatchMore(input: string, current: nat, ctx: Ctx, st: State) returns (step: Step, st': State)
    requires current < |input|
    requires input[current] !in "^_@*/+=~["
    ensures ValidStep(input, current, step) && Evolves(st, st')
    ensures step.consumed > 0 <==> ConstructAt(input, current, ctx)
    ensures step.consumed > 0 ==> BuildsFor(input[current], step.node.value)
  {
    st', step := st, NoStep;
    var c := input[current];
    var consumed: nat, node: Option<Node>, rewind: nat;
    if c == '{' {
      var r := ParseMacro(input, current, ctx);
      step := Step(0, r.0, r.1);
    } else if c == '<' {
      var r := ParseTimestamp(input, current, ctx, st);
      st' := r.2;
      step := Step(0, r.0, r.1);
    } else if c == '\\' || c == '$' {
      step := DispatchLatex(input, current, ctx);
    } else if c == '\n' {
      var n: Node;
      consumed, n := ParseLineBreak(input, current, ctx);
      step := Step(0, consumed, Some(n));
    } else if c == ':' {
      rewind, consumed, node := ParseAutoLink(input, current, ctx);
      step := Step(rewind, consumed, node);
    }
  }

  /** The backslash and `$` cases of the switch of parseInline: line breaks, fragments and environments. */
  method DispatchLatex(input: string, current: nat, ctx: Ctx) returns (step: Step)
    requires current < |input| && input[current] in "\\$"
    ensures ValidStep(input, current, step)
    ensures step.consumed > 0 <==> ConstructAt(input, current, ctx)
    ensures step.consumed > 0 ==> BuildsFor(input[current], step.node.value)
  {
    var consumed: nat, node: Option<Node>;
    if input[current] == '\\' {
      consumed, node := ParseExplicitLineBreakOrLatexFragment(input, current, ctx);
    } else {
      consumed, node := ParseLatexFragment(input, current, 1, ctx);
      LatexFragmentConsumes(input, current, 1, consumed);
    }
    step := Step(0, consumed, node);
  }

  // ---------------------------------------------------------------------------
  // The sub-parsers

  /** parseSubOrSuperScript: `_{...}` or `^{...}` becomes an Emphasis `_{}` / `^{}` holding the text. */
  function ParseSubOrSuperScript(input: string, start: nat, ctx: Ctx): (r: (nat, Option<Node>))
    requires start < |input|
    ensures ValidStep(input, start, Step(0, r.0, r.1))
    ensures r.0 > 0 <==> MatchSubSup(input[start..]).Some?
    ensures r.0 > 0 ==> var m := MatchSubSup(input[start..]).value;
                        r.0 == |m| + 3 && r.1.value.Emphasis? && r.1.value.kind == [input[start]] + "{}" && |r.1.value.nodes| == 1
                        && r.1.value.nodes[0].Text? && r.1.value.nodes[0].content == m && !r.1.value.nodes[0].isRaw
                        && r.1.value.pos == Pos(ctx.pos.row, start) && r.1.value.endPos == Pos(ctx.pos.row, start + r.0)
  {
    match MatchSubSup(input[start..])
    case None => (0, None)
    case Some(m) =>
      var fullLen := |m| + 3;
      var row := ctx.pos.row;
      var text := Text(Pos(row, start), ComputeTextEnd(Pos(row, start), m), m, false);
      (fullLen, Some(Emphasis(Pos(row, start), Pos(row, start + fullLen), [input[start]] + "{}", [text])))
  }

  /**
   * parseSubScriptOrEmphasisOrInlineBlock: at `_`, an inline source block is tried first, then a
   * subscript, then emphasis.
   */
  method ParseSubScriptOrEmphasisOrInlineBlock(input: string, start: nat, ctx: Ctx, st: State)
    returns (rewind: nat, consumed: nat, node: Option<Node>, st': State)
    requires start < |input| && input[start] == '_'
    ensures ValidStep(input, start, Step(rewind, consumed, node)) && Evolves(st, st')
    ensures consumed > 0 <==> UnderscoreAt(input, start, ctx)
    ensures rewind > 0 <==> InlineBlockAt(input, start)
    ensures rewind > 0 ==> node.value.InlineBlock? && node.value.name == "src"
    ensures !InlineBlockAt(input, start) && MatchSubSup(input[start..]).Some? ==>
              consumed == ParseSubOrSuperScript(input, start, ctx).0 && node == ParseSubOrSuperScript(input, start, ctx).1
    ensures consumed > 0 && !InlineBlockAt(input, start) && MatchSubSup(input[start..]).None? ==>
              node.value.Emphasis? && node.value.kind == "_"
    decreases |input|, 2
  {
    rewind, consumed, node, st' := ParseInlineBlock(input, start, ctx, st);
    if consumed != 0 {
      return;
    }
    var r := ParseSubOrSuperScript(input, start, ctx);
    if r.0 != 0 {
      return 0, r.0, r.1, st;
    }
    consumed, node, st' := ParseEmphasis(input, start, false, ctx, st);
    rewind := 0;
  }

  /**
   * parseInlineBlock: at the `_` of `src_`, when `src` is preceded by white space or the start,
   * the first match of `src_lang[params]{body}` in the text from `src` on becomes an InlineBlock
   * that takes over the pending keywords. The parser steps back over `src`.
   */
  method ParseInlineBlock(input: string, start: nat, ctx: Ctx, st: State)
    returns (rewind: nat, consumed: nat, node: Option<Node>, st': State)
    requires start < |input|
    ensures ValidStep(input, start, Step(rewind, consumed, node))
    ensures consumed > 0 <==> InlineBlockAt(input, start)
    ensures consumed == 0 ==> st' == st
    ensures consumed > 0 ==> rewind == 3 && HasSuffix(input[..start], "src") && (start < 4 || IsSpace(LastByteRune(input[start - 4])))
                             && SearchSrc(input[start - 3..], 0).Some?
    ensures consumed > 0 ==> node.value.InlineBlock? && node.value.name == "src" && node.value.keywords == st.lastKeywords
                             && st' == st.(lastKeywords := [])
    ensures consumed == 0 ==> !(HasSuffix(input[..start], "src") && (start < 4 || IsSpace(LastByteRune(input[start - 4]))))
                              || SearchSrc(input[start - 3..], 0).None?
  {
    st' := st;
    if !(HasSuffix(input[..start], "src") && (start - 4 < 0 || IsSpace(LastByteRune(input[start - 4])))) {
      return 0, 0, None, st;
    }
    match SearchSrc(input[start - 3..], 0)
    case None =>
      return 0, 0, None, st;
    case Some(m) =>
      var temp := st.lastKeywords;
      st' := st.(lastKeywords := []);
      var children := ParseRawInline(m.body, ctx);
      var row := ctx.pos.row;
      rewind, consumed := 3, m.length;
      node := Some(InlineBlock(Pos(row, start), Pos(row, start + m.length), "src", Fields(m.lang + " " + m.params), children, temp));
  }

  /**
   * parseInlineExportBlock: the first `@@backend:content@@` in the text from start on becomes an
   * export InlineBlock that takes over the pending keywords.
   */
  method ParseInlineExportBlock(input: string, start: nat, ctx: Ctx, st: State)
    returns (consumed: nat, node: Option<Node>, st': State)
    requires start < |input|
    ensures ValidStep(input, start, Step(0, consumed, node))
    ensures consumed > 0 <==> SearchExport(input[start..], 0).Some?
    ensures consumed == 0 ==> st' == st
    ensures consumed > 0 ==> var m := SearchExport(input[start..], 0).value;
                             consumed == m.0 && node.value.InlineBlock? && node.value == InlineBlock(Pos(ctx.pos.row, start), Pos(ctx.pos.row, start + consumed), "export",
                                                                          [m.1], node.value.children, st.lastKeywords)
                             && RawSource(node.value.children) == m.2 && st' == st.(lastKeywords := [])
  {
    match SearchExport(input[start..], 0)
    case None =>
      return 0, None, st;
    case Some(m) =>
      var temp := st.lastKeywords;
      st' := st.(lastKeywords := []);
      var children := ParseRawInline(m.2, ctx);
      var row := ctx.pos.row;
      consumed := m.0;
      node := Some(InlineBlock(Pos(row, start), Pos(row, start + consumed), "export", [m.1], children, temp));
  }

  /**
   * parseExplicitLineBreakOrLatexFragment, at a backslash: `\\` followed by white space up to a
   * line break (not at the start of a line), a `\(`/`\[` fragment, or a `\begin{env}...\end{env}`
   * environment whose two names agree.
   */
  method ParseExplicitLineBreakOrLatexFragment(input: string, start: nat, ctx: Ctx) returns (consumed: nat, node: Option<Node>)
    requires start < |input| && input[start] == '\\'
    ensures ValidStep(input, start, Step(0, consumed, node))
    ensures consumed > 0 <==> BackslashAt(input, start)
    ensures consumed > 0 ==> start + 2 < |input| && (node.value.ExplicitLineBreak? || node.value.LatexFragment?)
    ensures consumed > 0 && node.value.ExplicitLineBreak? ==> input[start + 1] == '\\' && ExplicitLineBreakAt(input, start, consumed)
    ensures consumed > 0 && node.value.LatexFragment? && input[start + 1] != '(' && input[start + 1] != '[' ==>
              LatexEnvironmentAt(input, start, node.value)
  {
    if start + 2 >= |input| {
      return 0, None;
    }
    if input[start + 1] == '\\' && start != 0 && input[start - 1] != '\n' {
      consumed, node := ParseExplicitLineBreak(input, start, ctx);
      return;
    }
    if input[start + 1] == '(' || input[start + 1] == '[' {
      consumed, node := ParseLatexFragment(input, start, 2, ctx);
      LatexFragmentConsumes(input, start, 2, consumed);
      return;
    }
    if Index(input[start..], "\\begin{") == 0 {
      consumed, node := ParseLatexEnvironment(input, start, ctx);
      return;
    }
    return 0, None;
  }

  /**
   * An explicit line break of length n at start: not at the start of a line, `\\`, then white
   * space other than line breaks (classified by its first byte), then a line break.
   */
  predicate ExplicitLineBreakAt(input: string, start: nat, n: nat)
  {
    start > 0 && start + 2 < start + n <= |input| && input[start - 1] != '\n'
    && input[start + n - 1] == '\n'
    && forall k :: start + 2 <= k < start + n - 1 ==> IsSpace(FirstByteRune(input[k])) && input[k] != '\n'
  }

  method ParseExplicitLineBreak(input: string, start: nat, ctx: Ctx) returns (consumed: nat, node: Option<Node>)
    requires 0 < start && start + 2 < |input| && input[start - 1] != '\n'
    ensures ValidStep(input, start, Step(0, consumed, node))
    ensures consumed > 0 ==> node == Some(ExplicitLineBreak(Pos(ctx.pos.row, start))) && ExplicitLineBreakAt(input, start, consumed)
    ensures consumed == 0 ==> forall n :: !ExplicitLineBreakAt(input, start, n)
    ensures consumed > 0 <==> exists n :: ExplicitLineBreakAt(input, start, n)
  {
    var i := start + 2;
    while i <= |input| - 1 && IsSpace(FirstByteRune(input[i]))
      invariant start + 2 <= i <= |input|
      invariant forall k :: start + 2 <= k < i ==> IsSpace(FirstByteRune(input[k])) && input[k] != '\n'
    {
      if input[i] == '\n' {
        return i + 1 - start, Some(ExplicitLineBreak(Pos(ctx.pos.row, start)));
      }
      i := i + 1;
    }
    forall n | ExplicitLineBreakAt(input, start, n) ensures false {
    }
    return 0, None;
  }

  /** node is the environment at start: the names of `\begin{...}` and of the last `\end{...}` agree. */
  predicate LatexEnvironmentAt(input: string, start: nat, node: Node)
    requires start <= |input|
  {
    var m := MatchLatexEnvironment(input[start..]);
    m.Some? && m.value.0 == m.value.2 && node.LatexFragment? && node.pos.col == start
    && node.openingPair == "\\begin{" + m.value.0 + "}" && node.closingPair == "\\end{" + m.value.0 + "}"
    && RawSource(node.nodes) == m.value.1
  }

  /**
   * The `\begin{env}` case: the match runs to the last `\end{...}`, but what is consumed runs to
   * the FIRST `\end{env}`.
   */
  method ParseLatexEnvironment(input: string, start: nat, ctx: Ctx) returns (consumed: nat, node: Option<Node>)
    requires start < |input|
    ensures ValidStep(input, start, Step(0, consumed, node))
    ensures consumed > 0 ==> LatexEnvironmentAt(input, start, node.value)
                             && var c := node.value.closingPair;
                                consumed == Index(input[start..], c) + |c|
    ensures consumed == 0 ==> var m := MatchLatexEnvironment(input[start..]); m.None? || m.value.0 != m.value.2
    ensures consumed > 0 <==> LatexEnvironmentMatches(input, start)
  {
    var s := input[start..];
    match MatchLatexEnvironment(s)
    case Some(m) =>
      var open, content, close := m.0, m.1, m.2;
      if open == close {
        var openingPair, closingPair := "\\begin{" + open + "}", "\\end{" + close + "}";
        var q := 8 + |open| + |content|;
        assert OccursAt(s, closingPair, q);
        var i := Index(s, closingPair);
        var children := ParseRawInline(content, ctx);
        return i + |closingPair|, Some(LatexFragment(Pos(ctx.pos.row, start), openingPair, closingPair, children));
      }
      return 0, None;
    case None =>
      return 0, None;
  }

  /**
   * A LaTeX fragment node for the opening pair at start that consumes through the first closing
   * pair after it, holding the text between parsed raw.
   */
  ghost predicate LatexFragmentFoundAt(input: string, start: nat, pairLength: nat, ctx: Ctx, consumed: nat, n: Node)
    requires start + 2 < |input|
    requires pairLength == 1 ==> input[start] == '$'
    requires pairLength == 2 ==> input[start] == '\\' && (input[start + 1] == '(' || input[start + 1] == '[')
    requires pairLength == 1 || pairLength == 2
  {
    var o := LatexOpening(input, start, pairLength); var c := LatexFragmentPairs[o]; var e := start + consumed - |c|;
    n.LatexFragment?
    && n == LatexFragment(Pos(ctx.pos.row, start), o, c, n.nodes)
    && start + |o| <= e <= |input| && OccursAt(input, c, e)
    && (forall k :: start + |o| <= k < e ==> !OccursAt(input, c, k))
    && RawSource(n.nodes) == input[start + |o|..e]
    && (|n.nodes| == 0 <==> e == start + |o|)
  }

  /**
   * parseLatexFragment: from the opening pair at start to the first closing pair after it; the
   * text between is parsed raw.
   */
  method ParseLatexFragment(input: string, start: nat, pairLength: nat, ctx: Ctx) returns (consumed: nat, node: Option<Node>)
    requires start < |input|
    requires pairLength == 1 ==> input[start] == '$'
    requires pairLength == 2 ==> start + 1 < |input| && input[start] == '\\' && (input[start + 1] == '(' || input[start + 1] == '[')
    requires pairLength == 1 || pairLength == 2
    ensures ValidStep(input, start, Step(0, consumed, node))
    ensures consumed > 0 ==> start + 2 < |input| && node.value.LatexFragment?
    ensures consumed > 0 ==> LatexFragmentFoundAt(input, start, pairLength, ctx, consumed, node.value)
    ensures consumed == 0 ==> start + 2 >= |input|
                              || (var o := LatexOpening(input, start, pairLength);
                                  forall k :: start + |o| <= k ==> !OccursAt(input, LatexFragmentPairs[o], k))
  {
    if start + 2 >= |input| {
      return 0, None;
    }
    var openingPair := LatexOpening(input, start, pairLength);
    var pl := |openingPair|;
    var closingPair := LatexFragmentPairs[openingPair];
    match FindFrom(input, start + pl, closingPair)
    case None =>
      return 0, None;
    case Some(e) =>
      var content := ParseRawInline(input[start + pl..e], ctx);
      LatexFragmentResult(input, start, pairLength, ctx, e, content);
      consumed, node := e - start + pl, Some(LatexFragment(Pos(ctx.pos.row, start), openingPair, closingPair, content));
  }

  /** The step parseLatexFragment returns once the closing pair is found at e and the text before it is parsed raw. */
  lemma LatexFragmentResult(input: string, start: nat, pairLength: nat, ctx: Ctx, e: nat, content: seq<Node>)
    requires start + 2 < |input|
    requires pairLength == 1 ==> input[start] == '$'
    requires pairLength == 2 ==> input[start] == '\\' && (input[start + 1] == '(' || input[start + 1] == '[')
    requires pairLength == 1 || pairLength == 2
    requires var o := LatexOpening(input, start, pairLength);
             FindFrom(input, start + |o|, LatexFragmentPairs[o]) == Some(e)
             && RawSource(content) == input[start + |o|..e] && (|content| == 0 <==> |input[start + |o|..e]| == 0)
    ensures var o := LatexOpening(input, start, pairLength); var c := LatexFragmentPairs[o];
            var consumed := e - start + |o|; var node := Some(LatexFragment(Pos(ctx.pos.row, start), o, c, content));
            ValidStep(input, start, Step(0, consumed, node)) && consumed > 0
            && LatexFragmentFoundAt(input, start, pairLength, ctx, consumed, node.value)
  {
    var o := LatexOpening(input, start, pairLength);
    LatexFragmentFound(input, start, pairLength, e, e - start + |o|);
  }

  /**
   * What parseLatexFragment promises amounts to: it consumes exactly when a closing pair
   * follows the opening pair.
   */
  lemma LatexFragmentConsumes(input: string, start: nat, pairLength: nat, consumed: nat)
    requires start < |input|
    requires pairLength == 1 ==> input[start] == '$'
    requires pairLength == 2 ==> start + 1 < |input| && input[start] == '\\' && (input[start + 1] == '(' || input[start + 1] == '[')
    requires pairLength == 1 || pairLength == 2
    requires consumed > 0 ==> start + 2 < |input|
                              && var o := LatexOpening(input, start, pairLength); var c := LatexFragmentPairs[o];
                                 start + |o| <= start + consumed - |c| && OccursAt(input, c, start + consumed - |c|)
    requires consumed == 0 ==> start + 2 >= |input|
                               || (var o := LatexOpening(input, start, pairLength);
                                   forall k :: start + |o| <= k ==> !OccursAt(input, LatexFragmentPairs[o], k))
    ensures consumed > 0 <==> LatexFragmentAt(input, start, pairLength)
  {
    if consumed > 0 {
      var o := LatexOpening(input, start, pairLength);
      assert OccursAt(input, LatexFragmentPairs[o], start + consumed - |LatexFragmentPairs[o]|);
    }
  }

  /** Where the closing pair found by parseLatexFragment lies, read back from what it consumes. */
  lemma LatexFragmentFound(input: string, start: nat, pairLength: nat, e: nat, consumed: nat)
    requires start + 2 < |input|
    requires pairLength == 1 ==> input[start] == '$'
    requires pairLength == 2 ==> input[start] == '\\' && (input[start + 1] == '(' || input[start + 1] == '[')
    requires pairLength == 1 || pairLength == 2
    requires var o := LatexOpening(input, start, pairLength);
             FindFrom(input, start + |o|, LatexFragmentPairs[o]) == Some(e) && consumed == e - start + |o|
    ensures var o := LatexOpening(input, start, pairLength); var c := LatexFragmentPairs[o];
            0 < consumed && start + consumed <= |input| && start + consumed - |c| == e && start + |o| <= e
            && OccursAt(input, c, e) && (forall k :: start + |o| <= k < e ==> !OccursAt(input, c, k))
  {
  }

  /** parseOpeningBracket: at `[`, a regular link, a footnote reference or a statistics cookie. */
  method ParseOpeningBracket(input: string, start: nat, ctx: Ctx, st: State) returns (consumed: nat, node: Option<Node>, st': State)
    requires start < |input|
    ensures ValidStep(input, start, Step(0, consumed, node)) && Evolves(st, st')
    ensures consumed > 0 <==> BracketAt(input[start..])
    ensures consumed > 0 && start + 1 < |input| && input[start..start + 2] == "[[" ==> node.value.RegularLink?
    ensures consumed > 0 && !(start + 1 < |input| && input[start + 1] == '[') && MatchFootnoteReference(input[start..]).Some? ==>
              var m := MatchFootnoteReference(input[start..]).value;
              node.value.FootnoteLink? && node.value.name == m.0 && consumed == m.2
              && (node.value.definition.Some? <==> m.1 != "")
    ensures consumed > 0 && !(start + 1 < |input| && input[start + 1] == '[') && MatchFootnoteReference(input[start..]).None? ==>
              node.value.StatisticToken? && consumed >= 2 && node.value.content == input[start + 1..start + consumed - 1]
    decreases |input|, 1
  {
    if |input[start..]| >= 2 && input[start] == '[' && input[start + 1] == '[' {
      consumed, node, st' := ParseRegularLink(input, start, ctx, st);
    } else if MatchFootnoteReference(input[start..]).Some? {
      consumed, node, st' := ParseFootnoteReference(input, start, ctx, st);
    } else if MatchStatistic(input[start..]).Some? {
      var r := ParseStatisticToken(input, start, ctx);
      consumed, node, st' := r.0, r.1, st;
    } else {
      consumed, node, st' := 0, None, st;
    }
  }

  /** parseMacro: the first `{{{name(arguments)}}}` from start on; the arguments are split at commas. */
  function ParseMacro(input: string, start: nat, ctx: Ctx): (r: (nat, Option<Node>))
    requires start < |input|
    ensures ValidStep(input, start, Step(0, r.0, r.1))
    ensures r.0 > 0 <==> SearchMacro(input[start..], 0).Some?
    ensures r.0 > 0 ==> var m := SearchMacro(input[start..], 0).value;
                        r.0 == m.0 && r.1.value.Macro? && r.1.value == Macro(Pos(ctx.pos.row, start), m.1, r.1.value.parameters)
                        && Join(r.1.value.parameters, ",") == m.2
                        && forall k :: 0 <= k < |r.1.value.parameters| ==> !Contains(r.1.value.parameters[k], ",")
  {
    match SearchMacro(input[start..], 0)
    case None => (0, None)
    case Some(m) =>
      JoinSplit(m.2, ",");
      var ps := Split(m.2, ",");
      assert forall k :: 0 <= k < |ps| ==> !Contains(ps[k], ",") by {
        forall k | 0 <= k < |ps| ensures !Contains(ps[k], ",") { SplitPiecesFree(m.2, ",", k); }
      }
      (m.0, Some(Macro(Pos(ctx.pos.row, start), m.1, ps)))
  }

  /**
   * parseFootnoteReference: `[fn:name]` or `[fn:name:definition]`, not both empty. A definition
   * is parsed inline into one paragraph that ends where its last node ends.
   */
  method ParseFootnoteReference(input: string, start: nat, ctx: Ctx, st: State) returns (consumed: nat, node: Option<Node>, st': State)
    requires start < |input|
    ensures ValidStep(input, start, Step(0, consumed, node)) && Evolves(st, st')
    ensures var m := MatchFootnoteReference(input[start..]);
            consumed > 0 <==> m.Some? && (m.value.0 != "" || m.value.1 != "")
    ensures consumed > 0 ==> var m := MatchFootnoteReference(input[start..]).value;
                             consumed == m.2 && node.value.FootnoteLink? && node.value.name == m.0
                             && node.value.pos == Pos(ctx.pos.row, start)
                             && (node.value.definition.Some? <==> m.1 != "")
                             && (node.value.definition.Some? ==> node.value.definition.value.name == m.0)
    ensures consumed > 0 && node.value.definition.Some? ==>
              var m := MatchFootnoteReference(input[start..]).value;
              var d := node.value.definition.value;
              && Spells(d.children, m.1) && |d.children| > 0
              && d.pos == Pos(ctx.pos.row, start) && d.paragraphPos == d.pos
              && d.paragraphEnd == GetEnd(d.children[|d.children| - 1])
    decreases |input|, 0
  {
    st' := st;
    match MatchFootnoteReference(input[start..])
    case None =>
      return 0, None, st';
    case Some(m) =>
      var name, definition := m.0, m.1;
      if name == "" && definition == "" {
        return 0, None, st';
      }
      var row := ctx.pos.row;
      var link := FootnoteLink(Pos(row, start), name, None);
      if definition != "" {
        var nodes;
        ghost var pieces;
        nodes, st', pieces := ParseInline(definition, ctx, st);
        var end := ctx.endPos;
        if |nodes| > 0 {
          end := GetEnd(nodes[|nodes| - 1]);
        }
        link := FootnoteLink(Pos(row, start), name, Some(FootnoteDef(Pos(row, start), name, Pos(row, start), end, nodes)));
      }
      return m.2, Some(link), st';
  }

  /** parseStatisticToken: `[n/m]` or `[n%]`. */
  function ParseStatisticToken(input: string, start: nat, ctx: Ctx): (r: (nat, Option<Node>))
    requires start < |input|
    ensures ValidStep(input, start, Step(0, r.0, r.1))
    ensures r.0 > 0 <==> MatchStatistic(input[start..]).Some?
    ensures r.0 > 0 ==> r.1.value.StatisticToken? && input[start] == '[' && input[start + r.0 - 1] == ']'
                        && r.1.value.content == input[start + 1..start + r.0 - 1]
                        && r.1.value.pos == Pos(ctx.pos.row, start) && r.1.value.endPos == Pos(ctx.pos.row, start + r.0)
  {
    match MatchStatistic(input[start..])
    case None => (0, None)
    case Some(m) =>
      var fullLen := |m| + 2;
      assert input[start..][1..|m| + 1] == input[start + 1..start + fullLen - 1];
      (fullLen, Some(StatisticToken(Pos(ctx.pos.row, start), Pos(ctx.pos.row, start + fullLen), m)))
  }

  /** The protocol scan with index 0 included: the start of the run of protocol letters before start. */
  method ScanProtocolStart(input: string, start: nat) returns (protocolStart: nat)
    requires start <= |input|
    ensures protocolStart == ProtocolStart(input, start)
  {
    protocolStart := start;
    while protocolStart > 0 && ProtocolLetter(input[protocolStart - 1])
      invariant 0 <= protocolStart <= start
      invariant forall k :: protocolStart <= k < start ==> ProtocolLetter(input[k])
    {
      protocolStart := protocolStart - 1;
    }
  }

  /** The end of the run of URL characters from start. */
  method ScanURLEnd(input: string, start: nat) returns (end: nat)
    requires start <= |input|
    ensures start <= end <= |input| && (forall k :: start <= k < end ==> IsURLChar(input[k]))
    ensures end == |input| || !IsURLChar(input[end])
  {
    end := start;
    while end < |input| && IsURLChar(input[end])
      invariant start <= end <= |input|
      invariant forall k :: start <= k < end ==> IsURLChar(input[k])
    {
      end := end + 1;
    }
  }

  /** The three characters of `://` run on as URL characters. */
  lemma ColonSlashesAreURLChars(input: string, start: nat)
    requires start + 3 <= |input| && input[start..start + 3] == "://"
    ensures IsURLChar(input[start]) && IsURLChar(input[start + 1]) && IsURLChar(input[start + 2])
  {
    assert input[start] == input[start..start + 3][0];
    assert input[start + 1] == input[start..start + 3][1];
    assert input[start + 2] == input[start..start + 3][2];
  }

  /** A URL that is more than its `://` runs past it. */
  lemma PathPastColonSlashes(input: string, start: nat, end: nat)
    requires start + 3 <= |input| && input[start..start + 3] == "://"
    requires start <= end <= |input| && (end == |input| || !IsURLChar(input[end]))
    requires input[start..end] != "://"
    ensures end > start + 3
  {
    ColonSlashesAreURLChars(input, start);
    assert input[start..end] != input[start..start + 3];
  }

  /**
   * parseAutoLink, at the `:` of `://`: the letters before it must spell http, https, ftp or
   * file, and the URL runs over the valid URL characters. The parser steps back over the protocol.
   */
  method ParseAutoLink(input: string, start: nat, ctx: Ctx) returns (rewind: nat, consumed: nat, node: Option<Node>)
    requires start < |input|
    ensures ValidStep(input, start, Step(rewind, consumed, node))
    ensures consumed > 0 ==> ctx.autoLink && start > 0 && OccursAt(input, "://", start)
    ensures consumed > 0 ==> var protocol := input[start - rewind..start];
                             var end := start + consumed - rewind;
                             rewind == start - ProtocolStart(input, start) && IsAutolinkProtocol(protocol)
                             && end > start + 3 && (forall k :: start <= k < end ==> IsURLChar(input[k]))
                             && (end == |input| || !IsURLChar(input[end]))
                             && node.value == RegularLink(Pos(ctx.pos.row, start), Pos(ctx.pos.row, end), protocol, [],
                                                          protocol + input[start..end], true)
    ensures consumed > 0 <==> AutoLinkAt(input, start, ctx)
    ensures (consumed == 0 && ctx.autoLink && 0 < start && OccursAt(input, "://", start)
            && IsAutolinkProtocol(input[ProtocolStart(input, start)..start])) ==> start + 3 == |input| || !IsURLChar(input[start + 3])
  {
    if !ctx.autoLink || start == 0 || |input[start..]| < 3 || input[start..start + 3] != "://" {
      return 0, 0, None;
    }
    var protocolStart := ScanProtocolStart(input, start);
    var protocol := input[protocolStart..start];
    if !IsAutolinkProtocol(protocol) {
      return 0, 0, None;
    }
    ColonSlashesAreURLChars(input, start);
    var end := ScanURLEnd(input, start);
    var path := input[start..end];
    if path == "://" {
      return 0, 0, None;
    }
    PathPastColonSlashes(input, start, end);
    rewind, consumed := |protocol|, |path + protocol|;
    assert start - rewind == protocolStart && start + consumed - rewind == end;
    node := Some(RegularLink(Pos(ctx.pos.row, start), Pos(ctx.pos.row, end), protocol, [], protocol + path, true));
  }

  /** The link of `[[link][description]]` is a prefix of the text after `[[`. */
  lemma LinkPrefix(s: string, end: nat)
    requires 2 <= end <= |s|
    ensures HasPrefix(s[2..], Split(s[2..end], "][")[0]) && !Contains(Split(s[2..end], "][")[0], "][")
  {
    SplitFirstPrefix(s[2..end], "][");
    SplitPiecesFree(s[2..end], "][", 0);
    assert s[2..end] == s[2..][..end - 2];
  }

  /** The protocol of a regular link: the text before its first `:`, or "" when it has none. */
  function LinkProtocol(link: string): (p: string)
    ensures Contains(link, ":") ==> HasPrefix(link, p + ":") && !Contains(p, ":")
    ensures !Contains(link, ":") ==> p == ""
  {
    var linkParts := SplitN2(link, ":");
    if |linkParts| == 2 then
      assert link[..|linkParts[0]| + 1] == linkParts[0] + ":" by {
        assert link == (linkParts[0] + ":") + linkParts[1];
      }
      linkParts[0]
    else ""
  }

  /**
   * parseRegularLink: `[[link]]` or `[[link][description]]` up to the first `]]`; the link may
   * not span lines. The description is parsed inline before the link is checked.
   */
  method ParseRegularLink(input: string, start: nat, ctx: Ctx, st: State) returns (consumed: nat, node: Option<Node>, st': State)
    requires start < |input|
    ensures ValidStep(input, start, Step(0, consumed, node)) && Evolves(st, st')
    ensures consumed > 0 ==> node.Some? && RegularLinkFoundAt(input[start..], start, ctx, consumed, node.value)
    ensures consumed > 0 <==> RegularLinkAt(input[start..])
    ensures consumed == 0 ==> var s := input[start..];
                              |s| < 3 || s[..2] != "[[" || s[2] == '[' || !Contains(s, "]]")
                              || (LinkCloseAfterOpen(s); '\n' in Split(s[2..Index(s, "]]")], "][")[0])
    decreases |input|, 0
  {
    st' := st;
    var s := input[start..];
    if |s| < 3 || s[..2] != "[[" || s[2] == '[' {
      return 0, None, st';
    }
    var end := Index(s, "]]");
    if end == -1 {
      return 0, None, st';
    }
    LinkCloseAfterOpen(s);
    var rawLinkParts := Split(s[2..end], "][");
    var description, link := [], rawLinkParts[0];
    if |rawLinkParts| == 2 {
      SplitPieceShorter(s[2..end], "][", 1);
      description, st' := ParseDescription(rawLinkParts[1], ctx, st);
    }
    if '\n' in link {
      return 0, None, st';
    }
    RegularLinkResult(s, start, ctx, end, description);
    consumed := end + 2;
    var protocol := LinkProtocol(link);
    node := Some(RegularLink(Pos(ctx.pos.row, start), Pos(ctx.pos.row, end + 2), protocol, description, link, false));
  }

  /** The description of a link, parsed inline: the nodes spell the description, and a non-empty one gives nodes. */
  method ParseDescription(text: string, ctx: Ctx, st: State) returns (nodes: seq<Node>, st': State)
    ensures Spells(nodes, text)
    ensures |text| > 0 ==> |nodes| > 0
    ensures Evolves(st, st')
    decreases |text|, 5
  {
    ghost var pieces;
    nodes, st', pieces := ParseInline(text, ctx, st);
  }

  /**
   * The link parseRegularLink builds from s, the text at start: `[[` and no third `[`, up to
   * the first `]]`; the link is the text before the first `][` and holds no line break, and
   * a description, spelling the text after the `][`, is kept only when exactly one `][`
   * splits the text.
   */
  ghost predicate RegularLinkFoundAt(s: string, start: nat, ctx: Ctx, consumed: nat, n: Node)
  {
    |s| >= 3 && s[..2] == "[[" && s[2] != '[' && consumed == Index(s, "]]") + 2 && consumed >= 4
    && n.RegularLink?
    && n == RegularLink(Pos(ctx.pos.row, start), Pos(ctx.pos.row, consumed), LinkProtocol(n.url), n.description, n.url, false)
    && n.url == Split(s[2..consumed - 2], "][")[0] && NoNewline(n.url)
    && (|Split(s[2..consumed - 2], "][")| != 2 ==> n.description == [])
    && (|Split(s[2..consumed - 2], "][")| == 2 ==> Spells(n.description, Split(s[2..consumed - 2], "][")[1]))
  }

  /** The node parseRegularLink builds once the closing `]]` is found and the link is on one line. */
  lemma RegularLinkResult(s: string, start: nat, ctx: Ctx, end: int, description: seq<Node>)
    requires |s| >= 3 && s[..2] == "[[" && s[2] != '[' && end == Index(s, "]]") && 2 <= end
    requires '\n' !in Split(s[2..end], "][")[0]
    requires |Split(s[2..end], "][")| != 2 ==> description == []
    requires |Split(s[2..end], "][")| == 2 ==> Spells(description, Split(s[2..end], "][")[1])
    ensures var link := Split(s[2..end], "][")[0];
            RegularLinkFoundAt(s, start, ctx, end + 2,
                               RegularLink(Pos(ctx.pos.row, start), Pos(ctx.pos.row, end + 2), LinkProtocol(link), description, link, false))
  {
    assert end + 2 - 2 == end;
  }

  /** The first `]]` of a text that opens with `[[` lies after the opening. */
  lemma LinkCloseAfterOpen(s: string)
    requires |s| >= 3 && s[..2] == "[[" && Contains(s, "]]")
    ensures 2 <= Index(s, "]]") && s[Index(s, "]]")] == ']'
  {
    var e := Index(s, "]]");
    assert s[e..e + 2] == "]]";
    assert s[e] == s[e..e + 2][0] && s[e + 1] == s[e..e + 2][1];
    assert s[0] == s[..2][0] && s[1] == s[..2][1];
  }

  /**
   * parseTimestamp: a timestamp recognised at start becomes the timestamp of the current
   * headline. The date code reports no `_fullmatch` group, so the length is 0 and the node is
   * dropped by parseInline.
   */
  function ParseTimestamp(input: string, start: nat, ctx: Ctx, st: State): (r: (nat, Option<Node>, State))
    requires start < |input|
    ensures r.0 == 0 && Evolves(st, r.2)
    ensures ctx.parseTimestamp(input[start..]).Some? <==> r.1.Some?
    ensures r.1.Some? ==> var n := r.1.value;
                          n == Timestamp(Pos(ctx.pos.row, start), Pos(ctx.pos.row, start), ctx.parseTimestamp(input[start..]).value)
                          && r.2 == st.(timestamp := r.1)
    ensures r.1.None? ==> r.2 == st
  {
    match ctx.parseTimestamp(input[start..])
    case None => (0, None, st)
    case Some(d) =>
      var fullLen := 0;
      var t := Timestamp(Pos(ctx.pos.row, start), Pos(ctx.pos.row, start + fullLen), d);
      (fullLen, Some(t), st.(timestamp := Some(t)))
  }

  /** The loop invariant of parseEmphasis: the line breaks counted so far, and no closer yet. */
  predicate EmphasisScan(input: string, start: nat, i: nat, nl: int, max: int)
  {
    start + 1 <= i <= |input| && nl == CountRune(input[start + 1..i], '\n')
    && forall j :: start + 2 <= j < i ==> !IsCloser(input, start, j, max)
  }

  lemma EmphasisScanStep(input: string, start: nat, i: nat, nl: int, max: int)
    requires EmphasisScan(input, start, i, nl, max) && i < |input|
    requires !(input[i] == input[start] && i != start + 1 && HasValidPostAndBorderChars(input, i))
    ensures EmphasisScan(input, start, i + 1, nl + (if input[i] == '\n' then 1 else 0), max)
  {
    CountRuneSlice(input, start + 1, i, '\n');
  }

  lemma EmphasisScanFound(input: string, start: nat, i: nat, nl: int, max: int)
    requires EmphasisScan(input, start, i, nl, max) && i < |input| && nl <= max
    requires input[i] == input[start] && i != start + 1 && HasValidPostAndBorderChars(input, i)
    ensures IsCloser(input, start, i, max)
  {
  }

  lemma EmphasisScanDone(input: string, start: nat, i: nat, nl: int, max: int)
    requires EmphasisScan(input, start, i, nl, max) && (i == |input| || nl > max)
    ensures forall j :: !IsCloser(input, start, j, max)
  {
    forall j | IsCloser(input, start, j, max) ensures false {
      CountRuneMonotone(input, start + 1, i, j, '\n');
    }
  }

  /** The Emphasis node for the opener at start and the closer at i; `=` and `~` parse raw. */
  method EmphasisNode(input: string, start: nat, i: nat, isRaw: bool, ctx: Ctx, st: State)
    returns (consumed: nat, node: Option<Node>, st': State)
    requires start + 2 <= i < |input|
    ensures consumed == i + 1 - start && Evolves(st, st')
    ensures node.Some? && node.value.Emphasis?
            && node.value == Emphasis(Pos(ctx.pos.row, start), Pos(ctx.pos.row, i), [input[start]], node.value.nodes)
    ensures isRaw ==> RawSource(node.value.nodes) == input[start + 1..i]
    decreases |input|, 0
  {
    var content;
    st' := st;
    if isRaw {
      content := ParseRawInline(input[start + 1..i], ctx);
    } else {
      ghost var pieces;
      content, st', pieces := ParseInline(input[start + 1..i], ctx, st);
    }
    return i + 1 - start, Some(Emphasis(Pos(ctx.pos.row, start), Pos(ctx.pos.row, i), input[start..start + 1], content)), st';
  }

  /**
   * parseEmphasis: an opening marker with a non-space after it and a pre character before it,
   * closed by the first closing marker within the line-break budget.
   */
  method ParseEmphasis(input: string, start: nat, isRaw: bool, ctx: Ctx, st: State) returns (consumed: nat, node: Option<Node>, st': State)
    requires start < |input| && input[start] in "*/+=~_"
    ensures ValidStep(input, start, Step(0, consumed, node)) && Evolves(st, st')
    ensures consumed > 0 <==> EmphasisAt(input, start, ctx.maxEmphasisNewLines)
    ensures consumed > 0 ==> var i := start + consumed - 1;
                             IsCloser(input, start, i, ctx.maxEmphasisNewLines)
                             && (forall j :: start + 2 <= j < i ==> !IsCloser(input, start, j, ctx.maxEmphasisNewLines))
                             && node.value.Emphasis? && node.value == Emphasis(Pos(ctx.pos.row, start), Pos(ctx.pos.row, i), [input[start]], node.value.nodes)
                             && (isRaw ==> RawSource(node.value.nodes) == input[start + 1..i])
    decreases |input|, 1
  {
    var marker := input[start];
    var max := ctx.maxEmphasisNewLines;
    if !HasValidPreAndBorderChars(input, start) {
      return 0, None, st;
    }
    var i: nat, consumedNewLines := start + 1, 0;
    while i < |input| && consumedNewLines <= max
      invariant EmphasisScan(input, start, i, consumedNewLines, max)
      decreases |input| - i
    {
      var nl := consumedNewLines;
      if input[i] == '\n' {
        consumedNewLines := consumedNewLines + 1;
      }
      if input[i] == marker && i != start + 1 && HasValidPostAndBorderChars(input, i) {
        EmphasisScanFound(input, start, i, nl, max);
        consumed, node, st' := EmphasisNode(input, start, i, isRaw, ctx, st);
        return;
      }
      EmphasisScanStep(input, start, i, nl, max);
      i := i + 1;
    }
    EmphasisScanDone(input, start, i, consumedNewLines, max);
    return 0, None, st;
  }

  // ---------------------------------------------------------------------------
  // An empty LaTeX fragment ends a footnote definition

  /** `[fn:x:$$$$]` is a footnote reference whose definition is `$$$$`. */
  lemma FootnoteDefinitionOfDollars()
    ensures MatchFootnoteReference("[fn:x:$$$$]") == Some(("x", "$$$$", 11))
  {
    var s := "[fn:x:$$$$]";
    assert s[..4] == "[fn:";
    assert PrefixRun(s[4..], IsLabelChar) == 1 by {
      assert s[4..][1..] == ":$$$$]";
    }
    var rest := s[6..];
    assert rest == "$$$$]";
    assert rest[0] == '$' && rest[1] == '$' && rest[2] == '$' && rest[3] == '$' && rest[4] == ']';
    assert IndexChar(rest, ']') == 4;
    assert IndexChar(rest, '\n') == -1;
    assert s[4..5] == "x" && rest[..4] == "$$$$";
  }

  /**
   * parseLatexFragment on the definition `$$$$` consumes all of it and returns a fragment without
   * content, the last node of the definition: GetEnd as written reads its last child, which does
   * not exist, while the corrected GetEnd gives the fragment's position.
   */
  method EmptyFragmentEndsDefinition(ctx: Ctx) returns (consumed: nat, fragment: Node)
    ensures consumed == 4 && fragment.LatexFragment? && fragment.nodes == []
    ensures !HasEnd(fragment) && GetEnd(fragment) == fragment.pos
  {
    var s := "$$$$";
    assert s[0..2] == "$$";
    assert LatexOpening(s, 0, 1) == "$$";
    assert OccursAt(s, "$$", 2) by {
      assert s[2..4] == "$$";
    }
    var node;
    consumed, node := ParseLatexFragment(s, 0, 1, ctx);
    assert !OccursAt(s, "$$", 3);
    fragment := node.value;
  }
}
