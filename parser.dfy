// The functions and lemmas the block parser of document.dfy is specified with (org/document.go
// and the parse* methods of org/headline.go, org/list.go, org/block.go, org/drawer.go,
// org/keyword.go, org/paragraph.go, org/footnote.go and org/table.go). The Go stop closures
// form a chain, each asking its parent first: here they are the values of Stop, evaluated by
// Holds, and the one that writes (a drawer recording where it ends) writes through DrawerEnds.
// Scans over the tokens (ScanEnd) say where each parse method stops, and Snapshot/Follows say
// what a parse method may change of the document.
module Parser {
  import opened Wrappers
  import opened Strs
  import opened Lexer
  import Inline
  import opened Keywords
  import opened OrgTable
  import opened Drawers
  import opened Nodes
  import opened Headlines
  import opened Lists
  import opened Blocks
  import opened Util
  import Settings

  /**
   * What the parser takes from its configuration. The date recognisers, the numeric test of the
   * table code and reading a setup file are left abstract: setupFile gives the buffer settings
   * of the parsed file, or None when it cannot be read or parsed.
   */
  datatype Config = Config(
    settings: Settings.Configuration,
    deadlineRe: LineMatcher,
    parseTimestamp: string -> Option<Inline.OrgDate>,
    parseSDC: string -> (Option<Inline.OrgDate>, int),
    isNumeric: string -> bool,
    setupFile: string -> Option<map<string, string>>)

  // ---------------------------------------------------------------------------
  // Termination: every rewrite of a token makes it lighter

  /** The weight of a token: twice its line length, plus one unless it is already text. */
  function W(t: Token): nat {
    2 * |Group(t, 0)| + (if t.kind == text then 0 else 1)
  }

  /** The total weight of the tokens from i on. */
  function Wt(ts: seq<Token>, i: nat): nat
    decreases |ts| - i
  {
    if i >= |ts| then 0 else W(ts[i]) + Wt(ts, i + 1)
  }

  /** Token k of b is token k of a or, from token `from` on, a lighter one. */
  predicate ShrinksAt(a: seq<Token>, b: seq<Token>, from: nat, k: nat)
    requires k < |a| && k < |b|
  {
    b[k] == a[k] || (from <= k && W(b[k]) < W(a[k]))
  }

  /** The first n tokens of b are those of a, or lighter from token `from` on. */
  predicate ShrinksTo(a: seq<Token>, b: seq<Token>, from: nat, n: nat)
    requires n <= |a| && n <= |b|
  {
    n == 0 || (ShrinksTo(a, b, from, n - 1) && ShrinksAt(a, b, from, n - 1))
  }

  /** b is a as rewritten from token `from` on: the same length, each token unchanged or, from there, lighter. */
  predicate Shrinks(a: seq<Token>, b: seq<Token>, from: nat) {
    a == b || (|a| == |b| && ShrinksTo(a, b, from, |a|))
  }

  lemma {:induction false} ShrinksToAt(a: seq<Token>, b: seq<Token>, from: nat, n: nat, k: nat)
    requires n <= |a| && n <= |b| && ShrinksTo(a, b, from, n) && k < n
    ensures ShrinksAt(a, b, from, k)
    decreases n
  {
    if k < n - 1 {
      ShrinksToAt(a, b, from, n - 1, k);
    }
  }

  lemma TokenShrinks(a: seq<Token>, b: seq<Token>, from: nat, k: nat)
    requires Shrinks(a, b, from) && k < |a|
    ensures |b| == |a| && ShrinksAt(a, b, from, k)
  {
    if a != b {
      ShrinksToAt(a, b, from, |a|, k);
    }
  }

  lemma {:induction false} ShrinksToBy(a: seq<Token>, b: seq<Token>, from: nat, n: nat)
    requires n <= |a| && n <= |b| && forall k :: 0 <= k < n ==> ShrinksAt(a, b, from, k)
    ensures ShrinksTo(a, b, from, n)
    decreases n
  {
    if n > 0 {
      ShrinksToBy(a, b, from, n - 1);
    }
  }

  lemma ShrinksBy(a: seq<Token>, b: seq<Token>, from: nat)
    requires |a| == |b| && forall k :: 0 <= k < |a| ==> ShrinksAt(a, b, from, k)
    ensures Shrinks(a, b, from)
  {
    ShrinksToBy(a, b, from, |a|);
  }

  lemma ShrinksTrans(a: seq<Token>, b: seq<Token>, c: seq<Token>, i: nat, j: nat)
    requires Shrinks(a, b, i) && Shrinks(b, c, j) && i <= j
    ensures Shrinks(a, c, i)
  {
    forall k | 0 <= k < |a|
      ensures ShrinksAt(a, c, i, k)
    {
      TokenShrinks(a, b, i, k);
      TokenShrinks(b, c, j, k);
    }
    ShrinksBy(a, c, i);
  }

  /** A rewrite from j on is one from any earlier i. */
  lemma ShrinksFrom(a: seq<Token>, b: seq<Token>, i: nat, j: nat)
    requires Shrinks(a, b, j) && i <= j
    ensures Shrinks(a, b, i)
  {
    forall k | 0 <= k < |a|
      ensures ShrinksAt(a, b, i, k)
    {
      TokenShrinks(a, b, j, k);
    }
    ShrinksBy(a, b, i);
  }

  /** Rewrites never add weight from any point on, and a lighter first token makes the total lighter. */
  lemma {:induction false} WtShrinks(a: seq<Token>, b: seq<Token>, from: nat, i: nat)
    requires Shrinks(a, b, from)
    ensures Wt(b, i) <= Wt(a, i)
    ensures i < |a| && W(b[i]) < W(a[i]) ==> Wt(b, i) < Wt(a, i)
    decreases |a| - i
  {
    if i < |a| {
      TokenShrinks(a, b, from, i);
      WtShrinks(a, b, from, i + 1);
    }
  }

  /**
   * The tokens of ts below n are well formed. The check itself sits one call down, in
   * WellFormedBelow, so that the shape of a token is unfolded only where a lemma asks for it.
   */
  predicate WellFormedTo(ts: seq<Token>, n: nat)
    requires n <= |ts|
    decreases n, 1
  {
    WellFormedBelow(ts, n)
  }

  predicate WellFormedBelow(ts: seq<Token>, n: nat)
    requires n <= |ts|
    decreases n, 0
  {
    n == 0 || (WellFormedTo(ts, n - 1) && WellFormed(ts[n - 1]))
  }

  predicate AllWellFormed(ts: seq<Token>) {
    WellFormedTo(ts, |ts|)
  }

  lemma {:induction false} WellFormedAt(ts: seq<Token>, n: nat, k: nat)
    requires n <= |ts| && WellFormedTo(ts, n) && k < n
    ensures WellFormed(ts[k])
    decreases n
  {
    if k < n - 1 {
      WellFormedAt(ts, n - 1, k);
    }
  }

  lemma {:induction false} WellFormedUpdate(ts: seq<Token>, n: nat, k: nat, t: Token)
    requires n <= |ts| && WellFormedTo(ts, n) && k < |ts| && WellFormed(t)
    ensures WellFormedTo(ts[k := t], n)
    decreases n
  {
    if n > 0 {
      WellFormedUpdate(ts, n - 1, k, t);
    }
  }

  lemma {:induction false} WellFormedAppend(ts: seq<Token>, n: nat, t: Token)
    requires n <= |ts| && WellFormedTo(ts, n)
    ensures WellFormedTo(ts + [t], n)
    decreases n
  {
    if n > 0 {
      WellFormedAppend(ts, n - 1, t);
    }
  }

  /** Appending a well-formed token keeps every token well formed. */
  lemma WellFormedPush(ts: seq<Token>, t: Token)
    requires AllWellFormed(ts) && WellFormed(t)
    ensures AllWellFormed(ts + [t])
  {
    WellFormedAppend(ts, |ts|, t);
    assert (ts + [t])[|ts|] == t;
  }

  /** Replacing token i by a lighter one rewrites the tokens from i on. */
  lemma RewriteShrinks(a: seq<Token>, i: nat, t: Token)
    requires i < |a| && W(t) < W(a[i])
    ensures Shrinks(a, a[i := t], i) && Wt(a[i := t], i) < Wt(a, i)
  {
    ShrinksBy(a, a[i := t], i);
    WtShrinks(a, a[i := t], i, i);
  }

  /** A lighter token i on top of earlier rewrites from i on is still a rewrite from i on. */
  lemma RewriteAfter(a: seq<Token>, b: seq<Token>, i: nat, t: Token)
    requires Shrinks(a, b, i) && i < |b| && W(t) < W(a[i])
    ensures Shrinks(a, b[i := t], i) && Wt(b[i := t], i) < Wt(a, i)
  {
    var c := b[i := t];
    forall k | 0 <= k < |a|
      ensures ShrinksAt(a, c, i, k)
    {
      TokenShrinks(a, b, i, k);
    }
    ShrinksBy(a, c, i);
    WtShrinks(a, c, i, i);
  }

  /**
   * The fallback of parseOne: the token rebuilt as text from its group-0 match, which for END
   * and RESULTS lines is the line only up to the name or the colon. It is lighter than
   * the token parseOne started with, whether the sub-parsers left that token alone (then it was
   * not text, since parseParagraph always consumes) or rewrote it to a lighter one.
   */
  function AsText(t: Token): (r: Token)
    requires CleanToken(t)
    ensures r.kind == text && WellFormed(r) && Group(r, 0) == Group(t, 0) && r.pos == t.pos
    ensures W(r) == 2 * |Group(t, 0)|
  {
    GroupsClean(t, 0);
    var m := MatchText(Group(t, 0));
    Token(text, |m[1]|, m[2], m, t.pos, OneLineEnd(t.pos, m[2]))
  }

  /** The kinds whose sub-parser consumes at least the token itself, wherever the stop holds. */
  const AlwaysParsed: set<Kind> := {text, headline, horizontalRule, comment, scheduled, deadline, closed}

  /**
   * The node parseOne's switch builds for a token of each kind when its sub-parser consumes the
   * token: the sub-parser's node kind, with the name and position it takes from the token. END
   * lines have no case of their own, so no node is theirs.
   */
  predicate ParsedAs(t: Token, n: Node) {
    match t.kind
    case headline => n.HeadlineNode?
    case text => n.Paragraph? && n.pos == t.pos
    case horizontalRule => n == HorizontalRule(t.pos)
    case comment => n == Comment(t.pos, Pos(t.pos.row, t.pos.col + |t.content|), t.content)
    case example => n.Example? && n.pos == t.pos
    case scheduled => n.SDCNode? && n.sdc.pos == t.pos
    case deadline => n.SDCNode? && n.sdc.pos == t.pos
    case closed => n.SDCNode? && n.sdc.pos == t.pos
    case unorderedList => n.List? && n.pos == t.pos && (WellFormed(t) ==> n.kind == ListKind(t).1)
    case orderedList => n.List? && n.pos == t.pos && (WellFormed(t) ==> n.kind == ListKind(t).1)
    case tableRow => n.TableNode?
    case tableSeparator => n.TableNode?
    case beginBlock => n.Block? && n.name == t.content && n.pos == t.pos
    case result => n.Result? && n.pos == t.pos
    case beginDrawer =>
      if ToUpper(t.content) == "PROPERTIES" then n.PropertyDrawerNode?
      else n.Drawer? && n.name == ToUpper(t.content) && n.pos == t.pos
    case footnoteDefinition => n.FootnoteDefinition? && n.name == t.content && !n.isInline
    case keyword => n.NodeWithName? || n.NodeWithMeta? || n.KeywordNode? || n.IncludeNode?
    case _ => false
  }

  /**
   * What parseOne leaves for token t0 at index i, which the tokens ts0 held before the call: the
   * node the switch builds for t0's kind, or, after the fallback, a paragraph at the rewritten
   * text token. Kinds in AlwaysParsed never fall back; an END line is rewritten as AsText of
   * itself and nothing else changes.
   */
  ghost predicate ParseOneDone(t0: Token, ts0: seq<Token>, ts: seq<Token>, i: nat, n: Node) {
    && i < |ts|
    && (ParsedAs(t0, n) || (ts[i].kind == text && n.Paragraph? && n.pos == ts[i].pos))
    && (t0.kind in AlwaysParsed ==> ParsedAs(t0, n))
    && (t0.kind == text ==> ts == ts0)
    && (t0.kind in {endBlock, endDrawer} ==>
          CleanToken(t0) && i < |ts0| && ts == ts0[i := AsText(t0)] && n.Paragraph? && n.pos == t0.pos)
  }

  /** After the fallback, what the retried parseOne leaves for the text token is what parseOne leaves for t0. */
  lemma FallbackDone(t0: Token, ts0: seq<Token>, ts1: seq<Token>, ts: seq<Token>, i: nat, n: Node)
    requires i < |ts1| && CleanToken(ts1[i]) && t0.kind !in AlwaysParsed
    requires t0.kind in {endBlock, endDrawer} ==> ts1 == ts0 && ts0[i] == t0
    requires ParseOneDone(AsText(ts1[i]), ts1[i := AsText(ts1[i])], ts, i, n)
    ensures ParseOneDone(t0, ts0, ts, i, n)
  {
    var nt := AsText(ts1[i]);
    assert ParsedAs(nt, n) && ts == ts1[i := nt];
    assert ts[i] == nt;
  }

  lemma GroupsClean(t: Token, k: nat)
    requires CleanToken(t)
    ensures NoNewline(Group(t, k))
  {
  }

  lemma FallbackLighter(t0: Token, t: Token)
    requires CleanToken(t) && (t == t0 || W(t) < W(t0)) && (t == t0 ==> t0.kind != text)
    ensures W(AsText(t)) < W(t0)
  {
  }

  // ---------------------------------------------------------------------------
  // Stop functions

  /**
   * The stop closures. Every one but BlockEnd asks its parent first; BlockEnd and Root only look
   * for the end of the tokens and, for BlockEnd, the END line of the block.
   */
  datatype Stop =
    | Root                                  // Document.Parse: the end of the tokens
    | BlockEnd(name: string)                // parseBlock: the END line of the same name
    | HeadlineEnd(parent: Stop, lvl: int)   // parseHeadline: a headline of the same or a higher level
    | ItemEnd(parent: Stop, minIndent: int) // parseListItem: a line indented less than the item, unless blank
    | DrawerEnd(parent: Stop, drawer: nat)  // parseDrawer: END, another drawer or a headline; records the end
    | FootnoteEnd(parent: Stop, start: nat) // parseFootnoteDefinition: a second blank line, a headline or a definition

  /** Whether the stop holds at token i. Past the last token every stop holds. */
  predicate Holds(s: Stop, ts: seq<Token>, i: nat) {
    i >= |ts| ||
    match s
    case Root => false
    case BlockEnd(name) => ts[i].kind == endBlock && ts[i].content == name
    case HeadlineEnd(p, lvl) => Holds(p, ts, i) || (ts[i].kind == headline && |Group(ts[i], 1)| <= lvl)
    case ItemEnd(p, minIndent) => Holds(p, ts, i) || (ts[i].lvl < minIndent && !(ts[i].kind == text && ts[i].content == ""))
    case DrawerEnd(p, _) => Holds(p, ts, i) || ts[i].kind == endDrawer || ts[i].kind == beginDrawer || ts[i].kind == headline
    case FootnoteEnd(p, start) =>
      Holds(p, ts, i) || (IsSecondBlankLine(ts, i) && i > start + 1) || ts[i].kind == headline || ts[i].kind == footnoteDefinition
  }

  /** Every drawer a stop writes to exists. */
  predicate StopOk(s: Stop, n: nat) {
    match s
    case Root => true
    case BlockEnd(_) => true
    case HeadlineEnd(p, _) => StopOk(p, n)
    case ItemEnd(p, _) => StopOk(p, n)
    case DrawerEnd(p, d) => d < n && StopOk(p, n)
    case FootnoteEnd(p, _) => StopOk(p, n)
  }

  lemma StopOkGrows(s: Stop, n: nat, m: nat)
    requires StopOk(s, n) && n <= m
    ensures StopOk(s, m)
  {
  }

  /**
   * The drawer ends after evaluating the stop at token i: the parents write first; a drawer
   * whose parent does not hold records the end of an END line, or the start of a drawer or a
   * headline line.
   */
  function Written(s: Stop, ts: seq<Token>, i: nat, ends: seq<Pos>): (r: seq<Pos>)
    requires StopOk(s, |ends|)
    ensures |r| == |ends|
  {
    if i >= |ts| then ends
    else
      match s
      case Root => ends
      case BlockEnd(_) => ends
      case HeadlineEnd(p, _) => Written(p, ts, i, ends)
      case ItemEnd(p, _) => Written(p, ts, i, ends)
      case FootnoteEnd(p, _) => Written(p, ts, i, ends)
      case DrawerEnd(p, d) =>
        var e := Written(p, ts, i, ends);
        if Holds(p, ts, i) then e
        else if ts[i].kind == endDrawer then e[d := ts[i].endPos]
        else if ts[i].kind == beginDrawer || ts[i].kind == headline then e[d := ts[i].pos]
        else e
  }

  /** A stop records a drawer end only when it holds. */
  lemma {:induction false} WrittenOnlyWhenHolds(s: Stop, ts: seq<Token>, i: nat, ends: seq<Pos>)
    requires StopOk(s, |ends|)
    ensures !Holds(s, ts, i) ==> Written(s, ts, i, ends) == ends
  {
    match s
    case Root =>
    case BlockEnd(_) =>
    case HeadlineEnd(p, _) => WrittenOnlyWhenHolds(p, ts, i, ends);
    case ItemEnd(p, _) => WrittenOnlyWhenHolds(p, ts, i, ends);
    case FootnoteEnd(p, _) => WrittenOnlyWhenHolds(p, ts, i, ends);
    case DrawerEnd(p, _) => WrittenOnlyWhenHolds(p, ts, i, ends);
  }

  /** The end positions of the drawers being parsed, which their stop functions write. */
  class DrawerEnds {
    var endPos: seq<Pos>

    constructor ()
      ensures endPos == []
    {
      endPos := [];
    }
  }

  /** Evaluates the stop at token i, the parents first, recording drawer ends as it goes. */
  method StopAt(ends: DrawerEnds, s: Stop, tokens: seq<Token>, i: nat) returns (b: bool)
    requires StopOk(s, |ends.endPos|)
    modifies ends
    ensures b == Holds(s, tokens, i)
    ensures ends.endPos == Written(s, tokens, i, old(ends.endPos))
    decreases s
  {
    if i >= |tokens| {
      return true;
    }
    match s {
      case Root =>
        b := false;
      case BlockEnd(name) =>
        b := tokens[i].kind == endBlock && tokens[i].content == name;
      case HeadlineEnd(p, lvl) =>
        b := StopAt(ends, p, tokens, i);
        if !b {
          b := tokens[i].kind == headline && |Group(tokens[i], 1)| <= lvl;
        }
      case ItemEnd(p, minIndent) =>
        b := StopAt(ends, p, tokens, i);
        if !b {
          b := tokens[i].lvl < minIndent && !(tokens[i].kind == text && tokens[i].content == "");
        }
      case DrawerEnd(p, d) =>
        b := StopAt(ends, p, tokens, i);
        if !b {
          if tokens[i].kind == endDrawer {
            ends.endPos := ends.endPos[d := tokens[i].endPos];
            b := true;
          } else if tokens[i].kind == beginDrawer || tokens[i].kind == headline {
            ends.endPos := ends.endPos[d := tokens[i].pos];
            b := true;
          }
        }
      case FootnoteEnd(p, start) =>
        b := StopAt(ends, p, tokens, i);
        if !b {
          b := (IsSecondBlankLine(tokens, i) && i > start + 1) || tokens[i].kind == headline
               || tokens[i].kind == footnoteDefinition;
        }
    }
  }

  /** The stop at token i as the loops of the parsers use it: they only need the drawers to stay. */
  method Stopped(ends: DrawerEnds, s: Stop, tokens: seq<Token>, i: nat) returns (b: bool)
    requires StopOk(s, |ends.endPos|)
    modifies ends
    ensures b == Holds(s, tokens, i) && |ends.endPos| == |old(ends.endPos)|
  {
    b := StopAt(ends, s, tokens, i);
  }

  // ---------------------------------------------------------------------------
  // Runs of tokens that the loops of the parsers consume

  /** The kinds of token a loop goes on over. */
  datatype Run = AnyRun | ParagraphRun | ExampleRun | BlankRun | PropertyRun | TableRun | KeywordRun

  predicate Continues(r: Run, t: Token) {
    match r
    case AnyRun => true
    case ParagraphRun => t.kind == text && t.content != ""
    case ExampleRun => t.kind == example
    case BlankRun => t.kind == text && t.content == ""
    case PropertyRun => t.kind == text || t.kind == beginDrawer
    case TableRun => t.kind == tableRow || t.kind == tableSeparator
    case KeywordRun => t.kind == keyword
  }

  /** The first token at or after j where the stop holds or the run breaks. */
  function ScanEnd(r: Run, s: Stop, ts: seq<Token>, j: nat): (e: nat)
    requires j <= |ts|
    ensures j <= e <= |ts|
    decreases |ts| - j
  {
    if Holds(s, ts, j) || !Continues(r, ts[j]) then j else ScanEnd(r, s, ts, j + 1)
  }

  lemma ScanEndStep(r: Run, s: Stop, ts: seq<Token>, j: nat)
    requires j < |ts| && !Holds(s, ts, j) && Continues(r, ts[j])
    ensures ScanEnd(r, s, ts, j) == ScanEnd(r, s, ts, j + 1)
  {
  }

  /** A scan ends at once where the stop holds or the run breaks. */
  lemma ScanEndHere(r: Run, s: Stop, ts: seq<Token>, j: nat)
    requires j <= |ts| && (Holds(s, ts, j) || (j < |ts| && !Continues(r, ts[j])))
    ensures ScanEnd(r, s, ts, j) == j
  {
  }

  /** The scan end is where the stop first holds or the run first breaks. */
  lemma {:induction false} ScanEndIsFirst(r: Run, s: Stop, ts: seq<Token>, j: nat)
    requires j <= |ts|
    ensures var e := ScanEnd(r, s, ts, j);
            (forall k :: j <= k < e ==> !Holds(s, ts, k) && Continues(r, ts[k]))
            && (e < |ts| ==> Holds(s, ts, e) || !Continues(r, ts[e]))
    decreases |ts| - j
  {
    if !(Holds(s, ts, j) || !Continues(r, ts[j])) {
      ScanEndStep(r, s, ts, j);
      ScanEndIsFirst(r, s, ts, j + 1);
    }
  }

  // ---------------------------------------------------------------------------
  // What the parsers build from a run

  /** parseParagraph's indent of a continuation line: its level above the base level, or none. */
  function Indent(d: int): nat { if d > 0 then d else 0 }

  /** The lines parseParagraph joins: the first token's content, then each continuation line indented. */
  function ParagraphLines(ts: seq<Token>, start: nat, e: nat, baseLvl: int): (lines: seq<string>)
    requires start < e <= |ts|
    ensures |lines| == e - start
    decreases e - start
  {
    if e == start + 1 then [ts[start].content]
    else ParagraphLines(ts, start, e - 1, baseLvl) + [Spaces(Indent(ts[e - 1].lvl - baseLvl)) + ts[e - 1].content]
  }

  /** Line k of a paragraph: the first is the content; every later one its indent and its content. */
  lemma {:induction false} ParagraphLineAt(ts: seq<Token>, start: nat, e: nat, baseLvl: int, k: nat)
    requires start < e <= |ts| && k < e - start
    ensures var lines := ParagraphLines(ts, start, e, baseLvl);
            lines[k] == if k == 0 then ts[start].content
                        else Spaces(Indent(ts[start + k].lvl - baseLvl)) + ts[start + k].content
    decreases e - start
  {
    if e > start + 1 && k < e - start - 1 {
      ParagraphLineAt(ts, start, e - 1, baseLvl, k);
    }
  }

  /**
   * Where computeTextEnd puts the end of a text without line breaks: on its row, at its length
   * (OneLineEndComputed). The parser only computes ends of single lines.
   */
  function OneLineEnd(p: Pos, s: string): Pos {
    Pos(p.row, |s|)
  }

  lemma OneLineEndComputed(p: Pos, s: string)
    requires NoNewline(s)
    ensures OneLineEnd(p, s) == Inline.ComputeTextEnd(p, s)
  {
    Inline.TextEndOnOneLine(p, s);
  }

  /** The raw text node parseExample makes of one example line. */
  function ExampleText(t: Token): Inline.Node {
    Inline.Text(t.pos, OneLineEnd(t.pos, t.content), t.content, true)
  }

  function ExampleTexts(ts: seq<Token>, a: nat, b: nat): (r: seq<Inline.Node>)
    requires a <= b <= |ts|
    ensures |r| == b - a
    decreases b - a
  {
    if b == a then [] else ExampleTexts(ts, a, b - 1) + [ExampleText(ts[b - 1])]
  }

  /** Node k of an example is the raw text of its line k. */
  lemma {:induction false} ExampleTextAt(ts: seq<Token>, a: nat, b: nat, k: nat)
    requires a <= b <= |ts| && k < b - a
    ensures ExampleTexts(ts, a, b)[k] == ExampleText(ts[a + k])
    decreases b - a
  {
    if k < b - a - 1 {
      ExampleTextAt(ts, a, b - 1, k);
    }
  }

  /** One line of a raw block body: the whole line less at most lvl leading indent characters. */
  function BodyLine(t: Token, lvl: int): string {
    Group(t, 0)[IndentRun(Group(t, 0), lvl)..]
  }

  function BodyLines(ts: seq<Token>, lvl: int, a: nat, b: nat): (lines: seq<string>)
    requires a <= b <= |ts|
    ensures |lines| == b - a
    decreases b - a
  {
    if b == a then [] else BodyLines(ts, lvl, a, b - 1) + [BodyLine(ts[b - 1], lvl)]
  }

  /** The text parseRawInline reads for the body of a raw block: its lines, unescaped or not. */
  function RawBlockText(ts: seq<Token>, lvl: int, a: nat, b: nat, unescape: bool): string
    requires a <= b <= |ts|
  {
    var lines := BodyLines(ts, lvl, a, b);
    if unescape then Escaped(lines) else RawText(lines)
  }

  /** Whether the comma escapes come out of a block body: EXAMPLE, and SRC in the language org. */
  predicate Unescapes(name: string, parameters: seq<string>) {
    name == "EXAMPLE" || (name == "SRC" && |parameters| >= 1 && parameters[0] == "org")
  }

  /**
   * What parseSrcBlockResult makes of the tokens ts from i, ts2 being the tokens afterwards: j
   * ends the blank lines there. Without a result line at j it consumes nothing and changes
   * nothing; a result line that is the last line is not parsed, only the blank lines before it
   * are consumed; otherwise it takes at least the result line and the node after it.
   */
  ghost predicate ResultParsed(stop: Stop, ts: seq<Token>, ts2: seq<Token>, i: nat, consumed: nat, node: Option<Node>)
    requires i <= |ts|
  {
    var j := ScanEnd(BlankRun, stop, ts, i);
    var found := j < |ts| && !Holds(stop, ts, j) && ts[j].kind == result;
    && (!found ==> consumed == 0 && node.None? && ts2 == ts)
    && (found ==> (node.Some? <==> j + 1 < |ts|))
    && (found && node.None? ==> consumed == j - i)
    && (found && node.Some? ==> consumed >= j + 2 - i && node.value.Result? && node.value.pos == ts[j].pos)
  }

  /** The inline nodes of a raw block as block children. */
  function InlineNodes(ns: seq<Inline.Node>): (r: seq<Node>)
    ensures |r| == |ns| && forall k :: 0 <= k < |ns| ==> r[k] == InlineNode(ns[k])
  {
    seq(|ns|, k requires 0 <= k < |ns| => InlineNode(ns[k]))
  }

  /** parsePropertyDrawer's pair of a `:KEY: value` line: the key upper-cased, the value trimmed. */
  function PropertyOf(t: Token): (string, string) {
    match MatchProperty(Group(t, 0))
    case Some(m) => (ToUpper(m.key), TrimSpace(m.value))
    case None => ("", "")  // only read for property lines
  }

  function PropertiesOf(ts: seq<Token>, a: nat, b: nat): (r: seq<(string, string)>)
    requires a <= b <= |ts|
    ensures |r| == b - a
    decreases b - a
  {
    if b == a then [] else PropertiesOf(ts, a, b - 1) + [PropertyOf(ts[b - 1])]
  }

  /** Property k of a drawer is the pair of its line k. */
  lemma {:induction false} PropertyAt(ts: seq<Token>, a: nat, b: nat, k: nat)
    requires a <= b <= |ts| && k < b - a
    ensures PropertiesOf(ts, a, b)[k] == PropertyOf(ts[a + k])
    decreases b - a
  {
    if k < b - a - 1 {
      PropertyAt(ts, a, b - 1, k);
    }
  }

  predicate IsPropertyToken(t: Token) {
    MatchProperty(Group(t, 0)).Some?
  }

  /** Every line from a to b is a property line. */
  predicate AllProperties(ts: seq<Token>, a: nat, b: nat)
    requires a <= b <= |ts|
    decreases b - a
  {
    b == a || (AllProperties(ts, a, b - 1) && IsPropertyToken(ts[b - 1]))
  }

  /** The tables a section's headline holds; the root holds none. */
  function TablesOf(s: Section): seq<Table> {
    if s.headline.Some? then s.headline.value.tables else []
  }

  /**
   * The sections with the timestamp of section k's headline replaced (the root has none): what
   * a timestamp found by parseInline changes, and all it changes.
   */
  function WithTimestamp(sections: seq<Section>, k: nat, ts: Option<Inline.Node>): (r: seq<Section>)
    requires k < |sections|
    ensures |r| == |sections| && forall j :: 0 <= j < |r| && j != k ==> r[j] == sections[j]
    ensures r[k].parent == sections[k].parent && r[k].children == sections[k].children
    ensures r[k].headline.Some? == sections[k].headline.Some? && Core(r[k]) == Core(sections[k])
    ensures r[k].headline.Some? ==> r[k].headline.value.timestamp == ts
    ensures forall j :: 0 <= j < |r| ==> TablesOf(r[j]) == TablesOf(sections[j])
  {
    if sections[k].headline.None? then sections
    else sections[k := sections[k].(headline := Some(sections[k].headline.value.(timestamp := ts)))]
  }

  /** Replacing a timestamp keeps the headlines and their tables. */
  lemma WithTimestampKeeps(sections: seq<Section>, k: nat, ts: Option<Inline.Node>, known: set<Table>)
    requires k < |sections| && TablesKnown(sections, known)
    ensures HeadsKept(sections, WithTimestamp(sections, k, ts)) && TablesKnown(WithTimestamp(sections, k, ts), known)
  {
    var r := WithTimestamp(sections, k, ts);
    HeadsKeptBy(sections, r);
    forall j, t | 0 <= j < |r| && r[j].headline.Some? && t in r[j].headline.value.tables
      ensures t in known
    {
      assert TablesOf(r[j]) == TablesOf(sections[j]);
    }
  }

  /** b is a with at most the timestamp of section k's headline replaced. */
  ghost predicate Restamped(a: seq<Section>, b: seq<Section>, k: nat) {
    k < |a| && exists stamp :: b == WithTimestamp(a, k, stamp)
  }

  /** Setting the timestamp a headline already has changes nothing. */
  lemma RestampedRefl(a: seq<Section>, k: nat)
    requires k < |a|
    ensures Restamped(a, a, k)
  {
    var stamp := if a[k].headline.Some? then a[k].headline.value.timestamp else None;
    assert a == WithTimestamp(a, k, stamp);
  }

  /** Two timestamps set one after the other are the second one set. */
  lemma RestampedTrans(a: seq<Section>, b: seq<Section>, c: seq<Section>, k: nat)
    requires Restamped(a, b, k) && Restamped(b, c, k)
    ensures Restamped(a, c, k)
  {
    var s1 :| b == WithTimestamp(a, k, s1);
    var s2 :| c == WithTimestamp(b, k, s2);
    assert c == WithTimestamp(a, k, s2);
  }

  /** Every table that a headline of the outline holds is one of the known tables. */
  ghost predicate TablesKnown(sections: seq<Section>, known: set<Table>) {
    forall k, t :: 0 <= k < |sections| && sections[k].headline.Some? && t in sections[k].headline.value.tables ==> t in known
  }


  /** Replacing a headline by one with the same tables keeps every table known. */
  lemma TablesKeptOnUpdate(sections: seq<Section>, k: nat, h: Headline, known: set<Table>)
    requires TablesKnown(sections, known) && k < |sections| && sections[k].headline.Some?
    requires h.tables == sections[k].headline.value.tables
    ensures TablesKnown(sections[k := sections[k].(headline := Some(h))], known)
  {
    var s := sections[k := sections[k].(headline := Some(h))];
    forall j, t | 0 <= j < |s| && s[j].headline.Some? && t in s[j].headline.value.tables
      ensures t in known
    {
      assert j != k ==> s[j] == sections[j];
    }
  }

  /** A new section whose headline has no tables keeps every table known, when the older headlines stay. */
  lemma TablesKnownOnAdd(a: seq<Section>, b: seq<Section>, known: set<Table>)
    requires TablesKnown(a, known) && |b| == |a| + 1 && TablesOf(b[|a|]) == []
    requires forall j :: 0 <= j < |a| ==> b[j].headline == a[j].headline
    ensures TablesKnown(b, known)
  {
    forall j, t | 0 <= j < |b| && b[j].headline.Some? && t in b[j].headline.value.tables
      ensures t in known
    {
      if j < |a| {
        assert a[j].headline == b[j].headline;
      }
    }
  }

  /** A table appended to the tables of section k's headline is known once it is added to the known ones. */
  lemma TableAddedKnown(sections: seq<Section>, k: nat, h: Headline, known: set<Table>, t: Table)
    requires TablesKnown(sections, known) && k < |sections| && sections[k].headline.Some?
    requires h.tables == sections[k].headline.value.tables + [t]
    ensures TablesKnown(sections[k := sections[k].(headline := Some(h))], known + {t})
  {
    var s := sections[k := sections[k].(headline := Some(h))];
    forall j, u | 0 <= j < |s| && s[j].headline.Some? && u in s[j].headline.value.tables
      ensures u in known + {t}
    {
      assert j != k ==> s[j] == sections[j];
    }
  }

  /** parseScheduled, parseDeadline and parseClosed: the entry of the kind (0, 1 or 2) set on a headline. */
  function SetSDC(h: Headline, kind: nat, sdc: SDC): (r: Headline)
    ensures r.tables == h.tables && r.title == h.title && r.children == h.children && r.timestamp == h.timestamp
    ensures kind == 0 ==> r.scheduled == Some(sdc) && r.deadline == h.deadline && r.closed == h.closed
    ensures kind == 1 ==> r.deadline == Some(sdc) && r.scheduled == h.scheduled && r.closed == h.closed
    ensures kind >= 2 ==> r.closed == Some(sdc) && r.scheduled == h.scheduled && r.deadline == h.deadline
  {
    if kind == 0 then h.(scheduled := Some(sdc))
    else if kind == 1 then h.(deadline := Some(sdc))
    else h.(closed := Some(sdc))
  }

  /** Token t is what lexing the line gives on the row. */
  predicate LexedFrom(t: Token, line: string, row: int, deadlineRe: LineMatcher) {
    NoNewline(line) && FirstMatch(LexFns, deadlineRe, line, row) == Some(t)
  }

  /** The children of a raw block: the raw inline nodes of its text, read at position ctx. */
  ghost predicate RawBody(children: seq<Node>, text: string, ctx: Inline.Ctx) {
    exists ns :: children == InlineNodes(ns) && Inline.RawSource(ns) == text && Inline.RawNodes(ns, ctx)
  }

  /** Where parsePropertyDrawer succeeds: property lines only, up to an END line. */
  ghost predicate PropertyDrawerAt(stop: Stop, ts: seq<Token>, i: nat)
    requires i < |ts|
  {
    var e := ScanEnd(PropertyRun, stop, ts, i + 1);
    AllProperties(ts, i + 1, e) && e < |ts| && ts[e].kind == endDrawer
  }

  /** Where a drawer's stop holds on a line that neither ends nor starts a drawer: its parent's stop, or a headline. */
  lemma DrawerStopAt(stop: Stop, d: nat, ts: seq<Token>, j: nat)
    requires j < |ts| && Holds(DrawerEnd(stop, d), ts, j) && ts[j].kind != endDrawer && ts[j].kind != beginDrawer
    ensures Holds(stop, ts, j) || ts[j].kind == headline
  {
  }

  /** A rewrite from j on is one from any earlier i. */
  lemma FollowsFrom(a: Snapshot, b: Snapshot, i: nat, j: nat)
    requires Follows(a, b, j) && i <= j
    ensures Follows(a, b, i)
  {
    ShrinksFrom(a.tokens, b.tokens, i, j);
  }

  function Sum(s: seq<nat>): nat {
    if |s| == 0 then 0 else Sum(s[..|s| - 1]) + s[|s| - 1]
  }

  lemma SumAppend(s: seq<nat>, n: nat)
    ensures Sum(s + [n]) == Sum(s) + n
  {
    assert (s + [n])[..|s|] == s;
  }

  // ---------------------------------------------------------------------------
  // What a parse may change

  /**
   * The part of a headline that only parseHeadline writes, on its own section: everything but
   * the SCHEDULED/DEADLINE/CLOSED entries, the timestamp and the tables, which later lines set
   * on the last or the current headline.
   */
  function Core(s: Section): Option<Headline> {
    match s.headline
    case None => None
    case Some(h) => Some(h.(scheduled := None, closed := None, deadline := None, timestamp := None, tables := []))
  }

  /** Two sections with one core hold headlines that agree on all that parseHeadline writes. */
  lemma CoreFields(a: Section, b: Section)
    requires Core(a) == Core(b) && a.headline.Some?
    ensures b.headline.Some?
    ensures var g, h := a.headline.value, b.headline.value;
            && g.pos == h.pos && g.index == h.index && g.lvl == h.lvl && g.status == h.status
            && g.priority == h.priority && g.properties == h.properties && g.title == h.title
            && g.tags == h.tags && g.children == h.children
  {
  }

  /** The first n sections of b have the cores of those of a. */
  predicate CoresKept(a: seq<Section>, b: seq<Section>, n: nat)
    requires n <= |a| && n <= |b|
  {
    n == 0 || (CoresKept(a, b, n - 1) && Core(b[n - 1]) == Core(a[n - 1]))
  }

  /** The sections of a are kept in b, their headlines changed at most outside the core. */
  predicate HeadsKept(a: seq<Section>, b: seq<Section>) {
    a == b || (|a| <= |b| && CoresKept(a, b, |a|))
  }

  lemma {:induction false} CoreKeptAt(a: seq<Section>, b: seq<Section>, n: nat, k: nat)
    requires n <= |a| && n <= |b| && CoresKept(a, b, n) && k < n
    ensures Core(b[k]) == Core(a[k])
    decreases n
  {
    if k < n - 1 {
      CoreKeptAt(a, b, n - 1, k);
    }
  }

  lemma {:induction false} CoresKeptBy(a: seq<Section>, b: seq<Section>, n: nat)
    requires n <= |a| && n <= |b| && forall k :: 0 <= k < n ==> Core(b[k]) == Core(a[k])
    ensures CoresKept(a, b, n)
    decreases n
  {
    if n > 0 {
      CoresKeptBy(a, b, n - 1);
    }
  }

  lemma {:induction false} CoresKeptTrans(a: seq<Section>, b: seq<Section>, c: seq<Section>, n: nat, m: nat)
    requires n <= m && n <= |a| && m <= |b| && m <= |c| && CoresKept(a, b, n) && CoresKept(b, c, m)
    ensures CoresKept(a, c, n)
    decreases m
  {
    if n < m {
      CoresKeptTrans(a, b, c, n, m - 1);
    } else if n > 0 {
      CoresKeptTrans(a, b, c, n - 1, m - 1);
    }
  }

  lemma HeadsKeptTrans(a: seq<Section>, b: seq<Section>, c: seq<Section>)
    requires HeadsKept(a, b) && HeadsKept(b, c)
    ensures HeadsKept(a, c)
  {
    if a != b && b != c {
      CoresKeptTrans(a, b, c, |a|, |b|);
    }
  }

  /** Sections whose cores are unchanged, and sections added after them, keep the heads. */
  lemma HeadsKeptBy(a: seq<Section>, b: seq<Section>)
    requires |a| <= |b| && forall k :: 0 <= k < |a| ==> Core(b[k]) == Core(a[k])
    ensures HeadsKept(a, b)
  {
    CoresKeptBy(a, b, |a|);
  }

  /** Changing only a section that a did not have yet keeps a's heads. */
  lemma HeadsKeptPast(a: seq<Section>, b: seq<Section>, c: seq<Section>, k: nat)
    requires HeadsKept(a, b) && |a| <= k < |b| && |c| == |b|
    requires forall j :: 0 <= j < |b| && j != k ==> c[j] == b[j]
    ensures HeadsKept(a, c)
  {
    forall j | 0 <= j < |a|
      ensures Core(c[j]) == Core(a[j])
    {
      if a != b {
        CoreKeptAt(a, b, |a|, j);
      }
    }
    HeadsKeptBy(a, c);
  }

  /** The state of a document that a parse changes by rewriting, growing or keeping it. */
  datatype Snapshot = Snapshot(tokens: seq<Token>, baseLvl: int, drawers: nat, sections: seq<Section>, tables: set<Table>)

  /**
   * b follows a in a parse that started at token from: tokens before it are untouched and the
   * others unchanged or lighter; the base level is back; drawers, sections and tables only grow.
   */
  predicate Follows(a: Snapshot, b: Snapshot, from: nat) {
    && Shrinks(a.tokens, b.tokens, from)
    && b.baseLvl == a.baseLvl
    && a.drawers <= b.drawers
    && HeadsKept(a.sections, b.sections)
    && a.tables <= b.tables
  }

  /** A parse that only grew the outline and the tables follows its start. */
  lemma FollowsByGrowth(a: Snapshot, b: Snapshot, i: nat)
    requires b == a.(sections := b.sections, tables := b.tables)
    requires HeadsKept(a.sections, b.sections) && a.tables <= b.tables
    ensures Follows(a, b, i)
  {
  }

  lemma FollowsTrans(a: Snapshot, b: Snapshot, c: Snapshot, i: nat, j: nat)
    requires Follows(a, b, i) && Follows(b, c, j) && i <= j
    ensures Follows(a, c, i)
  {
    ShrinksTrans(a.tokens, b.tokens, c.tokens, i, j);
    HeadsKeptTrans(a.sections, b.sections, c.sections);
  }

  // ---------------------------------------------------------------------------
  // Keywords

  /** The cases of parseKeyword's switch on the key; CAPTION, ATTR_HTML, ENV and ATTR_LATEX share one. */
  datatype KeyKind = NameKey | SetupFileKey | IncludeKey | LinkKey | MacroKey | AffiliatedKey | FormulaKey | SettingKey

  function KindOf(key: string): (r: KeyKind)
    ensures r == NameKey <==> key == "NAME"
    ensures r == SetupFileKey <==> key == "SETUPFILE"
    ensures r == IncludeKey <==> key == "INCLUDE"
    ensures r == LinkKey <==> key == "LINK"
    ensures r == MacroKey <==> key == "MACRO"
    ensures r == AffiliatedKey <==> IsAffiliatedKey(key)
    ensures r == FormulaKey <==> key == "TBLFM"
  {
    if key == "NAME" then NameKey
    else if key == "SETUPFILE" then SetupFileKey
    else if key == "INCLUDE" then IncludeKey
    else if key == "LINK" then LinkKey
    else if key == "MACRO" then MacroKey
    else if IsAffiliatedKey(key) then AffiliatedKey
    else if key == "TBLFM" then FormulaKey
    else SettingKey
  }

  /** #+LINK and #+MACRO: a definition found in the value is recorded under its name. */
  function Define(m: map<string, string>, def: Option<(string, string)>): (r: map<string, string>)
    ensures def.None? ==> r == m
    ensures def.Some? ==> r.Keys == m.Keys + {def.value.0} && r[def.value.0] == def.value.1
    ensures def.Some? ==> forall key :: key in m && key != def.value.0 ==> r[key] == m[key]
  {
    if def.Some? then m[def.value.0 := def.value.1] else m
  }

  /** loadSetupFile: every buffer setting of a setup file that could be read overwrites the document's. */
  function SetupMerged(m: map<string, string>, setup: Option<map<string, string>>): (r: map<string, string>)
    ensures setup.None? ==> r == m
    ensures setup.Some? ==> r.Keys == m.Keys + setup.value.Keys
    ensures setup.Some? ==> forall key :: key in setup.value ==> r[key] == setup.value[key]
    ensures setup.Some? ==> forall key :: key in m && key !in setup.value ==> r[key] == m[key]
  {
    if setup.Some? then m + setup.value else m
  }

  /** Any other keyword is a buffer setting: its value joined to an earlier one with a newline, or set. */
  function BufferSetting(m: map<string, string>, k: Keyword): (r: map<string, string>)
    ensures r.Keys == m.Keys + {k.key} && forall key :: key in m && key != k.key ==> r[key] == m[key]
    ensures k.key in m ==> r[k.key] == m[k.key] + "\n" + k.value
    ensures k.key !in m ==> r[k.key] == k.value
  {
    if k.key in m then m[k.key := m[k.key] + "\n" + k.value] else m[k.key := k.value]
  }

  /** The keys parseAffiliated collects into the metadata of the node after them. */
  predicate IsAffiliatedKey(key: string) {
    key == "CAPTION" || key == "ATTR_HTML" || key == "ENV" || key == "ATTR_LATEX"
  }

  /** Every line of tokens a to b has an affiliated key. */
  predicate AllAffiliated(ts: seq<Token>, a: nat, b: nat)
    requires a <= b <= |ts|
    decreases b - a
  {
    b == a || (AllAffiliated(ts, a, b - 1) && IsAffiliatedKey(ParseKeyword(ts[b - 1]).key))
  }

  lemma {:induction false} AffiliatedAt(ts: seq<Token>, a: nat, b: nat, k: nat)
    requires a <= k < b <= |ts| && AllAffiliated(ts, a, b)
    ensures IsAffiliatedKey(ParseKeyword(ts[k]).key)
    decreases b - a
  {
    if k < b - 1 {
      AffiliatedAt(ts, a, b - 1, k);
    }
  }

  /** parseAffiliated's loop reaches the stop or a line that is not a keyword: the run ends there. */
  lemma AffiliatedEnds(s: Stop, ts: seq<Token>, a: nat, j: nat)
    requires a <= j <= |ts| && AllAffiliated(ts, a, j) && ScanEnd(KeywordRun, s, ts, j) == ScanEnd(KeywordRun, s, ts, a)
    requires Holds(s, ts, j) || ts[j].kind != keyword
    ensures ScanEnd(KeywordRun, s, ts, a) == j && AllAffiliated(ts, a, ScanEnd(KeywordRun, s, ts, a))
  {
    if !Holds(s, ts, j) {
      assert !Continues(KeywordRun, ts[j]);
    }
  }

  /** parseAffiliated's loop meets a keyword line that is not affiliated before the end of the run. */
  lemma AffiliatedBreaks(s: Stop, ts: seq<Token>, a: nat, j: nat)
    requires a <= j < |ts| && !Holds(s, ts, j) && ts[j].kind == keyword && !IsAffiliatedKey(ParseKeyword(ts[j]).key)
    requires ScanEnd(KeywordRun, s, ts, j) == ScanEnd(KeywordRun, s, ts, a)
    ensures !AllAffiliated(ts, a, ScanEnd(KeywordRun, s, ts, a))
  {
    ScanEndStep(KeywordRun, s, ts, j);
    if AllAffiliated(ts, a, ScanEnd(KeywordRun, s, ts, a)) {
      AffiliatedAt(ts, a, ScanEnd(KeywordRun, s, ts, a), j);
    }
  }

  /** The values of the lines of tokens a to b whose key is key, in order. */
  function KeyValues(ts: seq<Token>, a: nat, b: nat, key: string): (r: seq<string>)
    requires a <= b <= |ts|
    ensures |r| <= b - a
    decreases b - a
  {
    if b == a then []
    else
      var k := ParseKeyword(ts[b - 1]);
      KeyValues(ts, a, b - 1, key) + (if k.key == key then [k.value] else [])
  }

  /** The attribute lists of the values of ATTR_HTML or ATTR_LATEX lines. */
  function AttributeLists(values: seq<string>): (r: seq<seq<string>>)
    ensures |r| == |values| && forall k :: 0 <= k < |values| ==> r[k] == Attributes(values[k])
  {
    seq(|values|, k requires 0 <= k < |values| => Attributes(values[k]))
  }

  /** The trimmed value of the last ENV line among tokens a to b, "" when there is none. */
  function LastEnv(ts: seq<Token>, a: nat, b: nat): string
    requires a <= b <= |ts|
  {
    var vs := KeyValues(ts, a, b, "ENV");
    if |vs| == 0 then "" else TrimSpace(vs[|vs| - 1])
  }

  /**
   * The metadata parseAffiliated collects from tokens a to b: a caption per CAPTION line, parsed
   * inline; an attribute list per ATTR_HTML and per ATTR_LATEX line; the last ENV value.
   */
  ghost predicate MetaBuilt(meta: Metadata, ts: seq<Token>, a: nat, b: nat)
    requires a <= b <= |ts|
  {
    var captions := KeyValues(ts, a, b, "CAPTION");
    && meta.htmlAttributes == AttributeLists(KeyValues(ts, a, b, "ATTR_HTML"))
    && meta.latexAttributes == AttributeLists(KeyValues(ts, a, b, "ATTR_LATEX"))
    && meta.latexEnv == LastEnv(ts, a, b)
    && |meta.caption| == |captions| && forall k :: 0 <= k < |captions| ==> Inline.Spells(meta.caption[k], captions[k])
  }

  /** One more line: its value joins the values for its key, and no other key's. */
  lemma KeyValuesStep(ts: seq<Token>, a: nat, b: nat, key: string)
    requires a <= b < |ts|
    ensures KeyValues(ts, a, b + 1, key) == KeyValues(ts, a, b, key) + (if ParseKeyword(ts[b]).key == key then [ParseKeyword(ts[b]).value] else [])
  {
  }

  /** A CAPTION line adds a caption that spells its value. */
  lemma CaptionStep(meta: Metadata, caption: seq<Inline.Node>, ts: seq<Token>, a: nat, b: nat)
    requires a <= b < |ts| && MetaBuilt(meta, ts, a, b)
    requires ParseKeyword(ts[b]).key == "CAPTION" && Inline.Spells(caption, ParseKeyword(ts[b]).value)
    ensures MetaBuilt(meta.(caption := meta.caption + [caption]), ts, a, b + 1)
  {
    KeyValuesStep(ts, a, b, "CAPTION");
    KeyValuesStep(ts, a, b, "ATTR_HTML");
    KeyValuesStep(ts, a, b, "ATTR_LATEX");
    KeyValuesStep(ts, a, b, "ENV");
    assert KeyValues(ts, a, b + 1, "ATTR_HTML") == KeyValues(ts, a, b, "ATTR_HTML");
    assert KeyValues(ts, a, b + 1, "ATTR_LATEX") == KeyValues(ts, a, b, "ATTR_LATEX");
    assert KeyValues(ts, a, b + 1, "ENV") == KeyValues(ts, a, b, "ENV");
    var captions := KeyValues(ts, a, b + 1, "CAPTION");
    var c' := meta.caption + [caption];
    forall q | 0 <= q < |captions|
      ensures Inline.Spells(c'[q], captions[q])
    {
      if q < |meta.caption| {
        assert c'[q] == meta.caption[q];
      }
    }
  }

  lemma AttributeListsAppend(values: seq<string>, v: string)
    ensures AttributeLists(values + [v]) == AttributeLists(values) + [Attributes(v)]
  {
    assert forall k :: 0 <= k < |values| ==> (values + [v])[k] == values[k];
  }

  /** An ATTR_HTML line adds its attribute list. */
  lemma HtmlStep(meta: Metadata, ts: seq<Token>, a: nat, b: nat)
    requires a <= b < |ts| && MetaBuilt(meta, ts, a, b) && ParseKeyword(ts[b]).key == "ATTR_HTML"
    ensures MetaBuilt(meta.(htmlAttributes := meta.htmlAttributes + [Attributes(ParseKeyword(ts[b]).value)]), ts, a, b + 1)
  {
    KeyValuesStep(ts, a, b, "CAPTION");
    KeyValuesStep(ts, a, b, "ATTR_HTML");
    KeyValuesStep(ts, a, b, "ATTR_LATEX");
    KeyValuesStep(ts, a, b, "ENV");
    AttributeListsAppend(KeyValues(ts, a, b, "ATTR_HTML"), ParseKeyword(ts[b]).value);
  }

  /** An ATTR_LATEX line adds its attribute list. */
  lemma LatexStep(meta: Metadata, ts: seq<Token>, a: nat, b: nat)
    requires a <= b < |ts| && MetaBuilt(meta, ts, a, b) && ParseKeyword(ts[b]).key == "ATTR_LATEX"
    ensures MetaBuilt(meta.(latexAttributes := meta.latexAttributes + [Attributes(ParseKeyword(ts[b]).value)]), ts, a, b + 1)
  {
    KeyValuesStep(ts, a, b, "CAPTION");
    KeyValuesStep(ts, a, b, "ATTR_HTML");
    KeyValuesStep(ts, a, b, "ATTR_LATEX");
    KeyValuesStep(ts, a, b, "ENV");
    AttributeListsAppend(KeyValues(ts, a, b, "ATTR_LATEX"), ParseKeyword(ts[b]).value);
  }

  /** An ENV line sets the environment to its trimmed value. */
  lemma EnvStep(meta: Metadata, ts: seq<Token>, a: nat, b: nat)
    requires a <= b < |ts| && MetaBuilt(meta, ts, a, b) && ParseKeyword(ts[b]).key == "ENV"
    ensures MetaBuilt(meta.(latexEnv := TrimSpace(ParseKeyword(ts[b]).value)), ts, a, b + 1)
  {
    KeyValuesStep(ts, a, b, "CAPTION");
    KeyValuesStep(ts, a, b, "ATTR_HTML");
    KeyValuesStep(ts, a, b, "ATTR_LATEX");
    KeyValuesStep(ts, a, b, "ENV");
  }

  // ---------------------------------------------------------------------------
  // Headlines

  /** The TODO keywords of parseHeadline: the fields of the setting, fast-access keys trimmed. */
  function TodoKeywords(setting: string): (r: seq<string>)
  {
    var fields := FieldsFunc(setting, IsTodoSeparator);
    seq(|fields|, k requires 0 <= k < |fields| => TrimFastTag(fields[k]))
  }

  datatype HeadParts = HeadParts(status: string, priority: string, tags: seq<string>, title: string)

  /**
   * parseHeadline's decomposition of the headline text: the first TODO keyword it starts with
   * (and one white-space character) is the status, then a priority cookie, then a trailing tag
   * cluster; what is left is the title text.
   */
  function HeadlineParts(keywords: seq<string>, content: string): (r: HeadParts)
  {
    var s := StatusIndex(keywords, content, 0);
    var status := if s >= 0 then keywords[s] else "";
    var text := if s >= 0 then content[|status| + 1..] else content;
    var (priority, text) := Priority(text);
    match MatchTags(text)
    case Some(m) => HeadParts(status, priority, TagsOf(m), m.title)
    case None => HeadParts(status, priority, [], text)
  }

  /** The statements of parseHeadline that take its text apart: the status loop, the priority cookie, the tags. */
  method SplitHeadline(keywords: seq<string>, content: string) returns (parts: HeadParts)
    ensures parts == HeadlineParts(keywords, content)
  {
    var status, text := ParseStatus(keywords, content);
    var (priority, rest) := Priority(text);
    parts := HeadParts(status, priority, [], rest);
    var m := MatchTags(rest);
    if m.Some? {
      parts := parts.(tags := TagsOf(m.value), title := m.value.title);
    }
  }

  /**
   * The headline parseHeadline makes of token t before its children are parsed: at t's
   * position, with the level of its stars and the index addHeadline gave it, and with the
   * status, priority, tags and title text that decompose t's text.
   */
  ghost predicate HeadlineBegun(h: Headline, t: Token, index: int, keywords: seq<string>) {
    var parts := HeadlineParts(keywords, t.content);
    && h.pos == t.pos && h.lvl == |Group(t, 1)| && h.index == index
    && h.status == parts.status && h.priority == parts.priority && h.tags == parts.tags
    && Inline.Spells(h.title, parts.title)
  }

  /** What parseHeadline has made of the start of a headline survives setting anything else on it. */
  lemma BegunKept(g: Headline, h: Headline, t: Token, index: int, keywords: seq<string>)
    requires HeadlineBegun(g, t, index, keywords) && SameStart(g, h)
    ensures HeadlineBegun(h, t, index, keywords)
  {
  }

  /** h agrees with g on what parseHeadline sets before it parses the children. */
  predicate SameStart(g: Headline, h: Headline) {
    && h.pos == g.pos && h.lvl == g.lvl && h.index == g.index && h.status == g.status
    && h.priority == g.priority && h.tags == g.tags && h.title == g.title
  }

  /**
   * The end of parseHeadline: of the nodes parsed below the headline, a leading property
   * drawer becomes its properties, and the others are its children.
   */
  predicate Promotes(h: Headline, parsed: seq<Node>) {
    if |parsed| > 0 && parsed[0].PropertyDrawerNode? then h.properties == parsed[0].drawer && h.children == parsed[1..]
    else h.properties == null && h.children == parsed
  }

  // ---------------------------------------------------------------------------
  // List items

  /** parseListItem's new line for an item: its bullet and indent as spaces, then the body. */
  function ItemLine(t: Token, body: string): string
    requires t.lvl >= 0
  {
    Spaces(Indentation(t)) + body
  }

  /** minIndent of parseListItem: the level of the item plus the length of its bullet. */
  function Indentation(t: Token): int
    ensures t.lvl >= 0 ==> Indentation(t) >= 0
  {
    t.lvl + |Group(t, 2)|
  }

  lemma SpacesAreReSpace(n: nat)
    ensures AllReSpace(Spaces(n))
  {
  }

  /** Re-lexing an item line without its head makes the token lighter. */
  lemma ItemLineLighter(t: Token, body: string, nt: Token)
    requires WellFormed(t) && IsListToken(t) && |body| <= |t.content|
    requires |Group(nt, 0)| <= |ItemLine(t, body)|
    requires AllReSpace(ItemLine(t, body)) ==> nt.kind == text && Group(nt, 0) == ItemLine(t, body)
    ensures W(nt) < W(t)
  {
    if body == "" {
      assert ItemLine(t, body) == Spaces(Indentation(t));
      SpacesAreReSpace(Indentation(t));
    }
  }

  /** The re-lexed item line is indented at least as far as the item's body. */
  lemma ItemLineLevel(t: Token, body: string, nt: Token)
    requires WellFormed(t) && IsListToken(t) && LevelIsLead(nt, ItemLine(t, body))
    ensures nt.lvl >= Indentation(t)
  {
    var line := ItemLine(t, body);
    assert line[0] == ' ';
    LeadOfIndented(Indentation(t), body);
  }

  lemma ItemLineClean(t: Token, body: string)
    requires t.lvl >= 0 && CleanToken(t) && |body| <= |t.content| && body == t.content[|t.content| - |body|..]
    ensures NoNewline(ItemLine(t, body))
  {
    assert forall k :: 0 <= k < |body| ==> body[k] == t.content[|t.content| - |body| + k];
  }

  /** The re-lexed item line as parseListItem stores it: one column to the right. */
  function Shifted(t: Token): (r: Token)
    ensures W(r) == W(t) && (WellFormed(t) ==> WellFormed(r))
    ensures r.kind == t.kind && r.lvl == t.lvl && r.content == t.content && r.matches == t.matches
  {
    t.(pos := Pos(t.pos.row, t.pos.col + 1), endPos := Pos(t.endPos.row, t.endPos.col + 1))
  }
  /** At a line indented at least as far as the item, the item's stop holds just when its parent's does. */
  lemma ItemEndAtItem(stop: Stop, ts: seq<Token>, i: nat, minIndent: int)
    requires i < |ts| && ts[i].lvl >= minIndent
    ensures Holds(ItemEnd(stop, minIndent), ts, i) == Holds(stop, ts, i)
  {
  }


  /**
   * The stop of parseList at token j: its parent's stop, or a line that is not a list item of
   * the list's level and main kind.
   */
  predicate ListEnds(stop: Stop, ts: seq<Token>, j: nat, lvl: int, main: string) {
    j >= |ts| || Holds(stop, ts, j) || ts[j].lvl != lvl || !IsListToken(ts[j]) || MainKind(Group(ts[j], 2)) != Some(main)
  }

  /** Every item of a descriptive list is a DescriptiveListItem, and of any other list a ListItem. */
  predicate ItemOf(kind: string, item: Node) {
    if kind == "descriptive" then item.DescriptiveListItem? else item.ListItem?
  }

  /** Where the loop of parseListItem ends: its stop holds, or a second blank line after its first two lines. */
  predicate ItemStops(stop: Stop, ts: seq<Token>, start: nat, j: nat) {
    Holds(stop, ts, j) || (start + 1 < j < |ts| && IsSecondBlankLine(ts, j))
  }

  // ---------------------------------------------------------------------------
  // Tables

  predicate IsBar(c: char) { c == '|' }

  /** The cells of a table row as strings.FieldsFunc on '|' cuts them, not yet trimmed. */
  function RawCells(t: Token): seq<string> {
    if t.kind == tableRow then FieldsFunc(t.content, IsBar) else []
  }

  /** The total length of the first k cells. */
  function CellsWidth(raw: seq<string>, k: nat): nat
    requires k <= |raw|
  {
    if k == 0 then 0 else CellsWidth(raw, k - 1) + |raw[k - 1]|
  }

  /** Where parseTable puts the start of cell k: one past the end of the one before it. */
  function CellStart(p: Pos, raw: seq<string>, k: nat): Pos
    requires k <= |raw|
  {
    Pos(p.row, p.col + 1 + k + CellsWidth(raw, k))
  }

  function CellEnd(p: Pos, raw: seq<string>, k: nat): Pos
    requires k < |raw|
  {
    Pos(p.row, CellStart(p, raw, k).col + |raw[k]|)
  }

  /** The cells of a row as parseTable keeps them: trimmed. */
  function RowCells(t: Token): (r: seq<string>)
    ensures |r| == |RawCells(t)|
  {
    var raw := RawCells(t);
    seq(|raw|, k requires 0 <= k < |raw| => TrimSpace(raw[k]))
  }

  function CellStarts(t: Token): (r: seq<Pos>)
    ensures |r| == |RawCells(t)|
  {
    var raw := RawCells(t);
    seq(|raw|, k requires 0 <= k < |raw| => CellStart(t.pos, raw, k))
  }

  function CellEnds(t: Token): (r: seq<Pos>)
    ensures |r| == |RawCells(t)|
  {
    var raw := RawCells(t);
    seq(|raw|, k requires 0 <= k < |raw| => CellEnd(t.pos, raw, k))
  }

  /** The rows of tokens a to b: the trimmed cells of a row, nothing for a separator. */
  function TableRows(ts: seq<Token>, a: nat, b: nat): (r: seq<seq<string>>)
    requires a <= b <= |ts|
    ensures |r| == b - a
    decreases b - a
  {
    if b == a then [] else TableRows(ts, a, b - 1) + [RowCells(ts[b - 1])]
  }

  /** The separator rows of tokens a to b, as indices from start. */
  function TableSeparators(ts: seq<Token>, start: nat, a: nat, b: nat): (r: seq<int>)
    requires a <= b <= |ts|
    decreases b - a
  {
    if b == a then []
    else TableSeparators(ts, start, a, b - 1) + (if ts[b - 1].kind == tableSeparator then [b - 1 - start] else [])
  }

  /** The cell starts of the rows of tokens a to b. */
  function TableStarts(ts: seq<Token>, a: nat, b: nat): (r: seq<seq<Pos>>)
    requires a <= b <= |ts|
    ensures |r| == b - a
    decreases b - a
  {
    if b == a then [] else TableStarts(ts, a, b - 1) + [CellStarts(ts[b - 1])]
  }

  /** The cell ends of the rows of tokens a to b. */
  function TableEnds(ts: seq<Token>, a: nat, b: nat): (r: seq<seq<Pos>>)
    requires a <= b <= |ts|
    ensures |r| == b - a
    decreases b - a
  {
    if b == a then [] else TableEnds(ts, a, b - 1) + [CellEnds(ts[b - 1])]
  }

  /** Row k of a table is made from token a + k: its cells, their starts and their ends. */
  lemma {:induction false} TableRowAt(ts: seq<Token>, a: nat, b: nat, k: nat)
    requires a <= b <= |ts| && k < b - a
    ensures TableRows(ts, a, b)[k] == RowCells(ts[a + k])
    ensures TableStarts(ts, a, b)[k] == CellStarts(ts[a + k]) && TableEnds(ts, a, b)[k] == CellEnds(ts[a + k])
  {
    TableRowsAt(ts, a, b, k);
    TableStartsAt(ts, a, b, k);
    TableEndsAt(ts, a, b, k);
  }

  /** Indexing a sequence with one element appended. */
  lemma IndexOfAppended<T>(xs: seq<T>, y: T, k: nat)
    requires k <= |xs|
    ensures (xs + [y])[k] == if k < |xs| then xs[k] else y
  {
  }

  /** The three parts of TableRowAt, one lemma each. */
  lemma {:induction false} TableRowsAt(ts: seq<Token>, a: nat, b: nat, k: nat)
    requires a <= b <= |ts| && k < b - a
    ensures TableRows(ts, a, b)[k] == RowCells(ts[a + k])
    decreases b - a
  {
    var last := RowCells(ts[b - 1]);
    assert TableRows(ts, a, b) == TableRows(ts, a, b - 1) + [last];
    IndexOfAppended(TableRows(ts, a, b - 1), last, k);
    if k < b - a - 1 {
      TableRowsAt(ts, a, b - 1, k);
    } else {
      assert ts[a + k] == ts[b - 1];
    }
  }

  lemma {:induction false} TableStartsAt(ts: seq<Token>, a: nat, b: nat, k: nat)
    requires a <= b <= |ts| && k < b - a
    ensures TableStarts(ts, a, b)[k] == CellStarts(ts[a + k])
    decreases b - a
  {
    if k < b - a - 1 {
      TableStartsAt(ts, a, b - 1, k);
      var last := CellStarts(ts[b - 1]);
      assert TableStarts(ts, a, b) == TableStarts(ts, a, b - 1) + [last];
      IndexOfAppended(TableStarts(ts, a, b - 1), last, k);
    } else {
      TableStartsLast(ts, a, b);
      assert a + k == b - 1;
    }
  }

  /** The last row's starts are those of the last token. */
  lemma TableStartsLast(ts: seq<Token>, a: nat, b: nat)
    requires a < b <= |ts|
    ensures TableStarts(ts, a, b)[b - a - 1] == CellStarts(ts[b - 1])
  {
    var last := CellStarts(ts[b - 1]);
    assert TableStarts(ts, a, b) == TableStarts(ts, a, b - 1) + [last];
  }

  lemma {:induction false} TableEndsAt(ts: seq<Token>, a: nat, b: nat, k: nat)
    requires a <= b <= |ts| && k < b - a
    ensures TableEnds(ts, a, b)[k] == CellEnds(ts[a + k])
    decreases b - a
  {
    if k < b - a - 1 {
      TableEndsAt(ts, a, b - 1, k);
      var last := CellEnds(ts[b - 1]);
      assert TableEnds(ts, a, b) == TableEnds(ts, a, b - 1) + [last];
      IndexOfAppended(TableEnds(ts, a, b - 1), last, k);
    } else {
      TableEndsLast(ts, a, b);
      assert a + k == b - 1;
    }
  }

  /** The last row's ends are those of the last token. */
  lemma TableEndsLast(ts: seq<Token>, a: nat, b: nat)
    requires a < b <= |ts|
    ensures TableEnds(ts, a, b)[b - a - 1] == CellEnds(ts[b - 1])
  {
    var last := CellEnds(ts[b - 1]);
    assert TableEnds(ts, a, b) == TableEnds(ts, a, b - 1) + [last];
  }

  /**
   * The start of column c of a row that has cells: the cell's own start; one past the end of the
   * last cell for the column just after them; the zero position for the columns after that.
   */
  function ColumnStart(starts: seq<Pos>, ends: seq<Pos>, c: nat): Pos
    requires |starts| == |ends|
  {
    if c < |starts| then starts[c]
    else if c == |starts| && c > 0 then Pos(ends[c - 1].row, ends[c - 1].col + 1)
    else ZeroPos
  }

  function ColumnEnd(starts: seq<Pos>, ends: seq<Pos>, c: nat): Pos
    requires |starts| == |ends|
  {
    if c < |ends| then ends[c] else ColumnStart(starts, ends, c)
  }

  /** Column c of a row as parseTable builds it from the cells and their positions. */
  ghost predicate ColumnBuilt(col: Column, cells: seq<string>, starts: seq<Pos>, ends: seq<Pos>, c: nat)
    requires |starts| == |ends|
  {
    && col.info == c
    && col.pos == ColumnStart(starts, ends, c) && col.endPos == ColumnEnd(starts, ends, c)
    && (c < |cells| ==> Inline.Spells(col.children, cells[c]))
    && (c >= |cells| ==> col.children == [])
  }

  /** A row as parseTable builds it: one column per column of the table, none for a row without cells. */
  ghost predicate RowBuilt(row: Row, cells: seq<string>, starts: seq<Pos>, ends: seq<Pos>, n: nat)
    requires |starts| == |ends|
  {
    && row.isSpecial == IsSpecialRow(cells)
    && |row.columns| == (if |cells| == 0 then 0 else n)
    && forall c :: 0 <= c < |row.columns| ==> ColumnBuilt(row.columns[c], cells, starts, ends, c)
  }

  /** The rows of a table and the positions of their cells line up. */
  lemma {:induction false} TableShape(ts: seq<Token>, a: nat, b: nat)
    requires a <= b <= |ts|
    ensures forall r :: 0 <= r < b - a ==>
              |TableStarts(ts, a, b)[r]| == |TableEnds(ts, a, b)[r]| == |TableRows(ts, a, b)[r]|
  {
    forall r | 0 <= r < b - a
      ensures |TableStarts(ts, a, b)[r]| == |TableEnds(ts, a, b)[r]| == |TableRows(ts, a, b)[r]|
    {
      TableRowAt(ts, a, b, r);
    }
  }

  /**
   * The table parseTable builds from tokens a to b: at token a, with the separators and one
   * layout per column of the longest row, and row r built from token a + r with that many columns.
   */
  ghost predicate TableBuilt(t: Table, ts: seq<Token>, a: nat, b: nat, isNumeric: string -> bool)
    reads t
    requires a < |ts| && a <= b <= |ts|
  {
    var rows, starts, ends := TableRows(ts, a, b), TableStarts(ts, a, b), TableEnds(ts, a, b);
    && t.pos == ts[a].pos && t.separatorIndices == TableSeparators(ts, a, a, b)
    && t.formulas.None? && t.cur == RowColRef(1, 1, false, false)
    && |t.columnInfos| == MaxColumns(rows)
    && (forall c :: 0 <= c < |t.columnInfos| ==> t.columnInfos[c] == LayoutOf(rows, c, isNumeric))
    && |t.rows| == |rows|
    && forall r :: 0 <= r < |rows| ==>
         |starts[r]| == |ends[r]| && RowBuilt(t.rows[r], rows[r], starts[r], ends[r], |t.columnInfos|)
  }

  // ---------------------------------------------------------------------------
  // The loops that scan a run of tokens

  /** parseParagraph's loop: the lines from token i up to the stop or a line that is blank or not text. */
  method ScanParagraph(ends: DrawerEnds, stop: Stop, ts: seq<Token>, i: nat, baseLvl: int) returns (j: nat, lines: seq<string>)
    requires i < |ts| && StopOk(stop, |ends.endPos|)
    modifies ends
    ensures |ends.endPos| == |old(ends.endPos)|
    ensures j == ScanEnd(ParagraphRun, stop, ts, i + 1) && lines == ParagraphLines(ts, i, j, baseLvl)
  {
    lines := [ts[i].content];
    j := i + 1;
    while true
      invariant i < j <= |ts| && ScanEnd(ParagraphRun, stop, ts, j) == ScanEnd(ParagraphRun, stop, ts, i + 1)
      invariant lines == ParagraphLines(ts, i, j, baseLvl)
      invariant |ends.endPos| == |old(ends.endPos)|
      decreases |ts| - j
    {
      var s := Stopped(ends, stop, ts, j);
      if s || ts[j].kind != text || ts[j].content == "" {
        ScanEndHere(ParagraphRun, stop, ts, j);
        break;
      }
      ScanEndStep(ParagraphRun, stop, ts, j);
      lines := lines + [Spaces(Indent(ts[j].lvl - baseLvl)) + ts[j].content];
      j := j + 1;
    }
  }

  /** parseExample's loop: the example lines from token i up to the stop. */
  method ScanExample(ends: DrawerEnds, stop: Stop, ts: seq<Token>, i: nat) returns (j: nat, children: seq<Inline.Node>)
    requires i <= |ts| && StopOk(stop, |ends.endPos|)
    modifies ends
    ensures |ends.endPos| == |old(ends.endPos)|
    ensures j == ScanEnd(ExampleRun, stop, ts, i) && children == ExampleTexts(ts, i, j)
  {
    children := [];
    j := i;
    while true
      invariant i <= j <= |ts| && ScanEnd(ExampleRun, stop, ts, j) == ScanEnd(ExampleRun, stop, ts, i)
      invariant children == ExampleTexts(ts, i, j)
      invariant |ends.endPos| == |old(ends.endPos)|
      decreases |ts| - j
    {
      var s := Stopped(ends, stop, ts, j);
      if s || ts[j].kind != example {
        ScanEndHere(ExampleRun, stop, ts, j);
        break;
      }
      ScanEndStep(ExampleRun, stop, ts, j);
      var p := ts[j].pos;
      children := children + [Inline.Text(p, OneLineEnd(p, ts[j].content), ts[j].content, true)];
      j := j + 1;
    }
  }

  /** parseSrcBlockResult's loop: the blank text lines from token i up to the stop. */
  method SkipBlank(ends: DrawerEnds, stop: Stop, ts: seq<Token>, i: nat) returns (j: nat)
    requires i <= |ts| && StopOk(stop, |ends.endPos|)
    modifies ends
    ensures |ends.endPos| == |old(ends.endPos)|
    ensures j == ScanEnd(BlankRun, stop, ts, i)
  {
    j := i;
    while true
      invariant i <= j <= |ts| && ScanEnd(BlankRun, stop, ts, j) == ScanEnd(BlankRun, stop, ts, i)
      invariant |ends.endPos| == |old(ends.endPos)|
      decreases |ts| - j
    {
      var s := Stopped(ends, stop, ts, j);
      if s || ts[j].kind != text || ts[j].content != "" {
        ScanEndHere(BlankRun, stop, ts, j);
        break;
      }
      ScanEndStep(BlankRun, stop, ts, j);
      j := j + 1;
    }
  }

  /**
   * parsePropertyDrawer's loop: the lines after the drawer start, up to the stop or a line that is
   * neither text nor a drawer start; ok is false as soon as one of them is not a property line.
   */
  method ScanProperties(ends: DrawerEnds, stop: Stop, ts: seq<Token>, i: nat) returns (j: nat, properties: seq<(string, string)>, ok: bool)
    requires i < |ts| && StopOk(stop, |ends.endPos|)
    modifies ends
    ensures |ends.endPos| == |old(ends.endPos)|
    ensures ok == AllProperties(ts, i + 1, ScanEnd(PropertyRun, stop, ts, i + 1))
    ensures ok ==> j == ScanEnd(PropertyRun, stop, ts, i + 1) && properties == PropertiesOf(ts, i + 1, j)
  {
    properties := [];
    j := i + 1;
    while true
      invariant PropertyScan(stop, ts, i, j, properties)
      invariant |ends.endPos| == |old(ends.endPos)|
      decreases |ts| - j
    {
      var done, isProperty;
      done, isProperty, properties := PropertyStep(ends, stop, ts, i, j, properties);
      if done {
        break;
      }
      if !isProperty {
        return j, properties, false;
      }
      j := j + 1;
    }
    ok := true;
  }

  /**
   * One round of parsePropertyDrawer's loop at line j: done at the stop or at a line that is
   * neither text nor a drawer start, else the line's pair is taken if it is a property line.
   */
  method PropertyStep(ends: DrawerEnds, stop: Stop, ts: seq<Token>, i: nat, j: nat, properties: seq<(string, string)>)
      returns (done: bool, isProperty: bool, more: seq<(string, string)>)
    requires PropertyScan(stop, ts, i, j, properties) && StopOk(stop, |ends.endPos|)
    modifies ends
    ensures |ends.endPos| == |old(ends.endPos)|
    ensures done ==> ScanEnd(PropertyRun, stop, ts, i + 1) == j && more == properties
    ensures !done ==> j < |ts|
    ensures !done && isProperty ==> PropertyScan(stop, ts, i, j + 1, more)
    ensures !done && !isProperty ==> !AllProperties(ts, i + 1, ScanEnd(PropertyRun, stop, ts, i + 1))
  {
    var s := Stopped(ends, stop, ts, j);
    if s || (ts[j].kind != text && ts[j].kind != beginDrawer) {
      ScanEndHere(PropertyRun, stop, ts, j);
      return true, false, properties;
    }
    done := false;
    isProperty, more := AddProperty(stop, ts, i, j, properties);
  }

  /** What parsePropertyDrawer's loop has seen after the drawer start at i, up to j: property lines. */
  ghost predicate PropertyScan(stop: Stop, ts: seq<Token>, i: nat, j: nat, properties: seq<(string, string)>) {
    && i + 1 <= j <= |ts| && ScanEnd(PropertyRun, stop, ts, j) == ScanEnd(PropertyRun, stop, ts, i + 1)
    && AllProperties(ts, i + 1, j) && properties == PropertiesOf(ts, i + 1, j)
  }

  /** One line of parsePropertyDrawer's loop: its pair appended, if it is a property line. */
  method AddProperty(stop: Stop, ts: seq<Token>, i: nat, j: nat, properties: seq<(string, string)>) returns (isProperty: bool, more: seq<(string, string)>)
    requires PropertyScan(stop, ts, i, j, properties) && j < |ts| && !Holds(stop, ts, j) && Continues(PropertyRun, ts[j])
    ensures isProperty ==> PropertyScan(stop, ts, i, j + 1, more)
    ensures !isProperty ==> !AllProperties(ts, i + 1, ScanEnd(PropertyRun, stop, ts, i + 1))
  {
    ScanEndStep(PropertyRun, stop, ts, j);
    ghost var e := ScanEnd(PropertyRun, stop, ts, i + 1);
    assert j + 1 <= ScanEnd(PropertyRun, stop, ts, j + 1) == e;
    AllPropertiesPrefix(ts, i + 1, j + 1, e);
    isProperty, more := AppendProperty(ts, i + 1, j, properties);
  }

  method AppendProperty(ts: seq<Token>, a: nat, j: nat, properties: seq<(string, string)>) returns (isProperty: bool, more: seq<(string, string)>)
    requires a <= j < |ts| && AllProperties(ts, a, j) && properties == PropertiesOf(ts, a, j)
    ensures isProperty == AllProperties(ts, a, j + 1)
    ensures isProperty ==> more == PropertiesOf(ts, a, j + 1)
  {
    isProperty := IsPropertyToken(ts[j]);
    more := properties + [PropertyOf(ts[j])];
  }

  lemma AllPropertiesPrefix(ts: seq<Token>, a: nat, b: nat, c: nat)
    requires a <= b <= c <= |ts|
    ensures AllProperties(ts, a, c) ==> AllProperties(ts, a, b)
    decreases c - b
  {
    if b < c {
      AllPropertiesPrefix(ts, a, b, c - 1);
    }
  }

  /** parseTable's loop: the rows and separators from token i up to the stop or a line of another kind. */
  method ScanTable(ends: DrawerEnds, stop: Stop, ts: seq<Token>, i: nat)
    returns (j: nat, rawRows: seq<seq<string>>, starts: seq<seq<Pos>>, rowEnds: seq<seq<Pos>>, separators: seq<int>)
    requires i <= |ts| && StopOk(stop, |ends.endPos|)
    modifies ends
    ensures |ends.endPos| == |old(ends.endPos)|
    ensures j == ScanEnd(TableRun, stop, ts, i) && rawRows == TableRows(ts, i, j) && separators == TableSeparators(ts, i, i, j)
    ensures starts == TableStarts(ts, i, j) && rowEnds == TableEnds(ts, i, j)
  {
    rawRows, starts, rowEnds, separators := [], [], [], [];
    j := i;
    while true
      invariant i <= j <= |ts| && ScanEnd(TableRun, stop, ts, j) == ScanEnd(TableRun, stop, ts, i)
      invariant rawRows == TableRows(ts, i, j) && separators == TableSeparators(ts, i, i, j)
      invariant starts == TableStarts(ts, i, j) && rowEnds == TableEnds(ts, i, j)
      invariant |ends.endPos| == |old(ends.endPos)|
      decreases |ts| - j
    {
      var s := Stopped(ends, stop, ts, j);
      if s || !(ts[j].kind == tableRow || ts[j].kind == tableSeparator) {
        ScanEndHere(TableRun, stop, ts, j);
        break;
      }
      rawRows, starts, rowEnds, separators := AddTableLine(ts, i, j, rawRows, starts, rowEnds, separators);
      ScanEndStep(TableRun, stop, ts, j);
      j := j + 1;
    }
  }

  /** One round of parseTable's loop: the cells of a row with their positions, or a separator. */
  method AddTableLine(ts: seq<Token>, i: nat, j: nat, rawRows: seq<seq<string>>, starts: seq<seq<Pos>>,
                      rowEnds: seq<seq<Pos>>, separators: seq<int>)
    returns (rawRows': seq<seq<string>>, starts': seq<seq<Pos>>, rowEnds': seq<seq<Pos>>, separators': seq<int>)
    requires i <= j < |ts| && (ts[j].kind == tableRow || ts[j].kind == tableSeparator)
    requires rawRows == TableRows(ts, i, j) && separators == TableSeparators(ts, i, i, j)
    requires starts == TableStarts(ts, i, j) && rowEnds == TableEnds(ts, i, j)
    ensures rawRows' == TableRows(ts, i, j + 1) && separators' == TableSeparators(ts, i, i, j + 1)
    ensures starts' == TableStarts(ts, i, j + 1) && rowEnds' == TableEnds(ts, i, j + 1)
  {
    if ts[j].kind == tableRow {
      var cells, cellStarts, cellEnds := SplitRow(ts[j]);
      rawRows', starts', rowEnds', separators' := rawRows + [cells], starts + [cellStarts], rowEnds + [cellEnds], separators;
    } else {
      rawRows', starts', rowEnds', separators' := rawRows + [[]], starts + [[]], rowEnds + [[]], separators + [j - i];
    }
  }

  /** The cells of one table row, trimmed, with where each starts and ends on the line. */
  method SplitRow(t: Token) returns (cells: seq<string>, starts: seq<Pos>, ends: seq<Pos>)
    requires t.kind == tableRow
    ensures cells == RowCells(t) && starts == CellStarts(t) && ends == CellEnds(t)
  {
    var raw := FieldsFunc(t.content, IsBar);
    assert raw == RawCells(t);
    var endPos := t.pos;
    cells, starts, ends := [], [], [];
    var k := 0;
    while k < |raw|
      invariant 0 <= k <= |raw| && |cells| == k && |starts| == k && |ends| == k
      invariant endPos == Pos(t.pos.row, t.pos.col + k + CellsWidth(raw, k))
      invariant forall m :: 0 <= m < k ==> CellSplit(cells[m], starts[m], ends[m], t.pos, raw, m)
    {
      var startPos := Pos(endPos.row, endPos.col + 1);
      endPos := Pos(startPos.row, startPos.col + |raw[k]|);
      assert CellSplit(TrimSpace(raw[k]), startPos, endPos, t.pos, raw, k);
      cells, starts, ends := cells + [TrimSpace(raw[k])], starts + [startPos], ends + [endPos];
      k := k + 1;
    }
    assert forall m :: 0 <= m < k ==> cells[m] == RowCells(t)[m] && starts[m] == CellStarts(t)[m] && ends[m] == CellEnds(t)[m];
  }

  /** Cell k of a row as parseTable's loop over the raw columns leaves it: trimmed, with its start and end. */
  predicate CellSplit(cell: string, start: Pos, end: Pos, p: Pos, raw: seq<string>, k: nat)
    requires k < |raw|
  {
    cell == TrimSpace(raw[k]) && start == CellStart(p, raw, k) && end == CellEnd(p, raw, k)
  }

  /** parseBlock's loop for a raw text block: the lines up to the END line of the block, indent trimmed. */
  method ScanBody(ts: seq<Token>, i: nat, name: string, lvl: int) returns (j: nat, lines: seq<string>)
    requires i <= |ts|
    ensures j == ScanEnd(AnyRun, BlockEnd(name), ts, i) && lines == BodyLines(ts, lvl, i, j)
  {
    lines := [];
    j := i;
    while !(j >= |ts| || (ts[j].kind == endBlock && ts[j].content == name))
      invariant i <= j <= |ts| && ScanEnd(AnyRun, BlockEnd(name), ts, j) == ScanEnd(AnyRun, BlockEnd(name), ts, i)
      invariant lines == BodyLines(ts, lvl, i, j)
      decreases |ts| - j
    {
      var l := TrimIndentUpTo(lvl, Group(ts[j], 0));
      lines := lines + [l];
      j := j + 1;
    }
  }

  // ---------------------------------------------------------------------------
  // Reading a token past the last one

  /**
   * d.tokens[ni] as parseInline and parseRawInline read it for the position of every text
   * piece: None is the index panic of an ni past the last token.
   */
  function TokenAtAsWritten(ts: seq<Token>, ni: int): (r: Option<Token>)
    ensures r.Some? <==> 0 <= ni < |ts|
    ensures r.Some? ==> r.value == ts[ni]
  {
    if 0 <= ni < |ts| then Some(ts[ni]) else None
  }

  /**
   * `#+BEGIN_SRC` followed by one line and no END line: parseBlock's loop runs to the end of the
   * tokens and hands the non-empty body to parseRawInline at that index, which panics.
   */
  lemma RawBlockAsWrittenPanics()
    ensures var ts := [Token(beginBlock, 0, "SRC", ["#+BEGIN_SRC", "", "SRC", ""], Pos(0, 0), Pos(0, 11)),
                       Token(text, 0, "x", ["x", "", "x"], Pos(1, 0), Pos(1, 1))];
            var j := ScanEnd(AnyRun, BlockEnd("SRC"), ts, 1);
            j == |ts| && RawBlockText(ts, 0, 1, j, false) == "x\n" && TokenAtAsWritten(ts, j).None?
  {
    var ts := [Token(beginBlock, 0, "SRC", ["#+BEGIN_SRC", "", "SRC", ""], Pos(0, 0), Pos(0, 11)),
               Token(text, 0, "x", ["x", "", "x"], Pos(1, 0), Pos(1, 1))];
    assert !Holds(BlockEnd("SRC"), ts, 1);
    ScanEndStep(AnyRun, BlockEnd("SRC"), ts, 1);
    assert ScanEnd(AnyRun, BlockEnd("SRC"), ts, 2) == 2;
    assert Group(ts[1], 0) == "x";
    assert BodyLine(ts[1], 0) == "x"[IndentRun("x", 0)..] == "x";
    assert BodyLines(ts, 0, 1, 2) == [] + ["x"];
    assert Blocks.RawText(["x"]) == Blocks.RawText([]) + "x" + "\n";
  }

  /** The line `- a :: b` is an unordered item: no indentation, the bullet `-`, then ` a :: b`. */
  lemma DescriptiveLineMatches()
    ensures MatchUnorderedList("- a :: b") == Some(["- a :: b", "", "-", " a :: b", "a :: b"])
  {
    var line := "- a :: b";
    assert Lead(line) == 0;
    assert line[1..] == " a :: b";
    assert ListTail(" a :: b") == Some((" a :: b", "a :: b")) by {
      assert PrefixRun("a :: b", IsReSpace) == 0;
      assert " a :: b"[1..] == "a :: b";
    }
    assert MatchUnorderedList(line) == Some([line, line[..0], line[0..1], " a :: b", "a :: b"]);
    assert line[..0] == "" && line[0..1] == "-";
  }

  /** The lexer turns the line `- a :: b` into an unordered-list token at level 0 whose content is `a :: b`. */
  lemma DescriptiveLineLexes()
    ensures LexList("- a :: b", 0, 0)
            == Some(Token(unorderedList, 0, "a :: b", ["- a :: b", "", "-", " a :: b", "a :: b"], Pos(0, 0), Pos(0, 8)))
  {
    DescriptiveLineMatches();
  }

  /**
   * `- a :: b` (lexed as `DescriptiveLineLexes` shows) as the last line: the item's children end with the tokens, and parseListItem
   * hands the term "a" to parseInline at that index, which panics.
   */
  lemma DescriptiveAsWrittenPanics()
    ensures var t := Token(unorderedList, 0, "a :: b", ["- a :: b", "", "-", " a :: b", "a :: b"], Pos(0, 0), Pos(0, 8));
            var ts := [t];
            var h := Head("descriptive", t.content);
            h.described && h.term == "a" && Holds(ItemEnd(Root, 1), ts, 1) && TokenAtAsWritten(ts, 1).None?
  {
    var h := Head("descriptive", "a :: b");
    assert DescriptiveAt("a :: b", 1);
  }
}
