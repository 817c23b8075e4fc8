// The Document of org/document.go and its parse methods: parseOne dispatches on the kind of a
// token and falls back to re-lexing it as text, parseMany repeats parseOne until a stop holds,
// and the parse* methods of org/headline.go, org/list.go, org/block.go, org/drawer.go,
// org/keyword.go, org/paragraph.go, org/footnote.go and org/table.go build the block nodes.
// Every parse method states how many tokens it consumes, what node it makes of them, and what it
// may change of the document (Progress): tokens are only rewritten lighter from where it starts,
// the base level comes back, drawers, headlines and tables only grow.
module Documents {
  import opened Wrappers
  import opened Strs
  import opened Lexer
  import Inline
  import opened Keywords
  import opened OrgTable
  import opened Drawers
  import opened Nodes
  import opened Headlines
  import opened Lists
  import opened Blocks
  import opened Util
  import Settings
  import opened Parser

  class Document {
    const config: Config
    const outline: Outline
    const ends: DrawerEnds
    var tokens: seq<Token>
    var baseLvl: int
    var macros: map<string, string>
    var links: map<string, string>
    var namedNodes: map<string, Node>
    var bufferSettings: map<string, string>
    var lastKeywords: seq<Keyword>
    /** The top-level nodes, set by Parse. */
    var nodes: seq<Node>
    /** The section of the headline parsed last, 0 while there is none (the root). */
    var currentHeadline: nat
    /** Every table the parse has made so far. */
    ghost var tables: set<Table>

    ghost predicate Valid()
      reads this, outline
    {
      && outline.Valid()
      && currentHeadline < |outline.sections|
      && TablesKnown(outline.sections, tables)
      && AllWellFormed(tokens)
    }

    ghost function Snap(): Snapshot
      reads this, outline, ends
    {
      Snapshot(tokens, baseLvl, |ends.endPos|, outline.sections, tables)
    }

    /** What a parse from token i may change: see Follows; the tables it adds are new ones. */
    twostate predicate Progress(i: nat)
      reads this, outline, ends
    {
      Follows(old(Snap()), Snap(), i) && forall t :: t in tables && t !in old(tables) ==> fresh(t)
    }

    /** An empty document with no tokens; Parse below tokenizes its input first. */
    constructor (config: Config)
      ensures Valid() && this.config == config && fresh(outline) && fresh(ends)
      ensures tokens == [] && baseLvl == 0 && ends.endPos == [] && outline.sections == [Section(None, -1, [])]
      ensures macros == map[] && links == map[] && namedNodes == map[] && bufferSettings == map[]
      ensures lastKeywords == [] && currentHeadline == 0 && tables == {} && nodes == []
    {
      this.config := config;
      outline := new Outline();
      ends := new DrawerEnds();
      tokens, baseLvl := [], 0;
      macros, links, namedNodes, bufferSettings := map[], map[], map[], map[];
      lastKeywords, currentHeadline := [], 0;
      tables, nodes := {}, [];
    }

    /** tokenize: one token per line, numbered from 0. */
    method Tokenize(lines: seq<string>)
      requires Valid() && forall k :: 0 <= k < |lines| ==> NoNewline(lines[k])
      modifies this`tokens
      ensures Valid() && |tokens| == |lines|
      ensures forall k :: 0 <= k < |lines| ==> LexedFrom(tokens[k], lines[k], k, config.deadlineRe)
    {
      tokens := [];
      var row := 0;
      while row < |lines|
        invariant row <= |lines| && |tokens| == row && Valid()
        invariant forall k :: 0 <= k < row ==> LexedFrom(tokens[k], lines[k], k, config.deadlineRe)
      {
        var t := Lexer.Tokenize(lines[row], row, config.deadlineRe);
        WellFormedPush(tokens, t);
        tokens := tokens + [t];
        row := row + 1;
      }
    }

    /** d.tokens[i] = t. */
    method Rewrite(i: nat, t: Token)
      requires Valid() && i < |tokens| && WellFormed(t)
      modifies this`tokens
      ensures Valid() && tokens == old(tokens)[i := t]
    {
      WellFormedUpdate(tokens, |tokens|, i, t);
      tokens := tokens[i := t];
    }

    /**
     * The context in which parseInline and parseRawInline read token ni for positions. When ni is
     * past the last token (the findings on raw blocks and descriptive items) it reads the last
     * token instead, and for a document without tokens the zero position.
     */
    function InlineContext(ni: int): (ctx: Inline.Ctx)
      reads this
      ensures ctx.autoLink == config.settings.autoLink && ctx.maxEmphasisNewLines == config.settings.maxEmphasisNewLines
      ensures ctx.parseTimestamp == config.parseTimestamp
      ensures 0 <= ni < |tokens| ==> ctx.pos == tokens[ni].pos && ctx.endPos == tokens[ni].endPos
      ensures !(0 <= ni < |tokens|) && |tokens| > 0 ==> ctx.pos == tokens[|tokens| - 1].pos
      ensures |tokens| == 0 ==> ctx.pos == ZeroPos && ctx.endPos == ZeroPos
    {
      var k := if 0 <= ni < |tokens| then ni else |tokens| - 1;
      var p := if k >= 0 then tokens[k].pos else ZeroPos;
      var e := if k >= 0 then tokens[k].endPos else ZeroPos;
      Inline.Ctx(p, e, config.settings.autoLink, config.settings.maxEmphasisNewLines, config.parseTimestamp)
    }

    /**
     * parseInline(input, ni): the inline nodes spell the input; a timestamp among them is set on
     * the last headline, and inline blocks take the pending keywords.
     */
    method InlineAt(input: string, ni: int) returns (nodes: seq<Inline.Node>)
      requires Valid()
      modifies this`lastKeywords, outline
      ensures Valid() && Inline.Spells(nodes, input) && (|input| > 0 ==> |nodes| > 0)
      ensures lastKeywords == old(lastKeywords) || lastKeywords == []
      ensures outline.last == old(outline.last) && outline.count == old(outline.count)
      ensures |outline.sections| == |old(outline.sections)| && HeadsKept(old(outline.sections), outline.sections)
      ensures exists stamp :: outline.sections == WithTimestamp(old(outline.sections), outline.last, stamp)
    {
      var h := outline.LastHeadline();
      ghost var pieces;
      var st;
      nodes, st, pieces := Inline.ParseInline(input, InlineContext(ni), Inline.State(lastKeywords, if h.Some? then h.value.timestamp else None));
      lastKeywords := st.lastKeywords;
      ghost var s0 := outline.sections;
      WithTimestampKeeps(s0, outline.last, st.timestamp, tables);
      if h.Some? {
        outline.SetHeadline(outline.last, h.value.(timestamp := st.timestamp));
      }
      assert outline.sections == WithTimestamp(s0, outline.last, st.timestamp);
      assert Inline.Flatten(pieces) == input && Inline.Covers(nodes, pieces);
    }

    /** parseRawInline(input, ni): text and line breaks that give back the input. */
    method RawInlineAt(input: string, ni: int) returns (nodes: seq<Inline.Node>)
      ensures Inline.RawSource(nodes) == input && Inline.RawNodes(nodes, InlineContext(ni))
      ensures |nodes| == 0 <==> |input| == 0
    {
      nodes := Inline.ParseRawInline(input, InlineContext(ni));
    }

    // -------------------------------------------------------------------------
    // parseOne and parseMany

    /**
     * parseOne: the sub-parser for the kind of token i; when it consumes nothing, token i is
     * re-lexed as plain text from its group-0 match (for END and RESULTS lines, the line up to the
     * name or the colon) and parsed again, as a paragraph. It always consumes a token.
     */
    method ParseOne(i: nat, stop: Stop) returns (consumed: nat, node: Option<Node>)
      requires Valid() && i < |tokens| && StopOk(stop, |ends.endPos|)
      modifies this, outline, ends, tables
      ensures Valid() && Progress(i)
      ensures 1 <= consumed <= |tokens| - i && node.Some?
      ensures ParseOneDone(old(tokens[i]), old(tokens), tokens, i, node.value)
      decreases |tokens| - i, Wt(tokens, i), 8
    {
      ghost var s0 := Snap();
      consumed, node := Dispatch(i, stop);
      if consumed != 0 {
        assert ParsedAs(s0.tokens[i], node.value);
        return;
      }
      ghost var s1 := Snap();
      var t := tokens[i];
      WellFormedAt(tokens, |tokens|, i);
      TokenShrinks(s0.tokens, tokens, i, i);
      FallbackLighter(s0.tokens[i], t);
      var nt := AsText(t);
      RewriteAfter(s0.tokens, tokens, i, nt);
      Rewrite(i, nt);
      ghost var s2 := Snap();
      assert Follows(s0, s2, i);
      StopOkGrows(stop, s0.drawers, |ends.endPos|);
      consumed, node := ParseOne(i, stop);
      FollowsTrans(s0, s2, Snap(), i, i);
      FallbackDone(s0.tokens[i], s0.tokens, s1.tokens, tokens, i, node.value);
    }

    /** parseMany: parseOne from token i on, as long as the stop does not hold; the spans add up to what it consumes. */
    method ParseMany(i: nat, stop: Stop) returns (consumed: nat, nodes: seq<Node>, ghost spans: seq<nat>)
      requires Valid() && i <= |tokens| && StopOk(stop, |ends.endPos|)
      modifies this, outline, ends, tables
      ensures Valid() && Progress(i)
      ensures consumed <= |tokens| - i && Holds(stop, tokens, i + consumed)
      ensures |spans| == |nodes| && Sum(spans) == consumed && forall k :: 0 <= k < |spans| ==> spans[k] >= 1
      ensures consumed == 0 ==> tokens == old(tokens)
      decreases |tokens| - i, Wt(tokens, i), 9
    {
      ghost var s0 := Snap();
      var j := i;
      nodes, spans := [], [];
      while true
        invariant Valid() && i <= j <= |tokens| && StopOk(stop, |ends.endPos|)
        invariant Follows(s0, Snap(), i) && forall t :: t in tables && t !in old(tables) ==> fresh(t)
        invariant j == i ==> tokens == old(tokens)
        invariant |spans| == |nodes| && Sum(spans) == j - i && forall k :: 0 <= k < |spans| ==> spans[k] >= 1
        decreases |tokens| - j
      {
        var s := Stopped(ends, stop, tokens, j);
        if s {
          break;
        }
        ghost var s1 := Snap();
        if j == i {
          assert Wt(tokens, i) == Wt(s0.tokens, i);
        }
        var c, node := ParseOne(j, stop);
        FollowsTrans(s0, s1, Snap(), i, j);
        StopOkGrows(stop, s1.drawers, |ends.endPos|);
        SumAppend(spans, c);
        nodes, spans := nodes + [node.value], spans + [c];
        j := j + c;
      }
      consumed := j - i;
    }

    /** The switch of parseOne on the kind of token i, in three parts. */
    method Dispatch(i: nat, stop: Stop) returns (consumed: nat, node: Option<Node>)
      requires Valid() && i < |tokens| && StopOk(stop, |ends.endPos|)
      modifies this, outline, ends, tables
      ensures Valid() && Progress(i)
      ensures consumed <= |tokens| - i && (consumed > 0 ==> node.Some?)
      ensures old(tokens[i]).kind == text ==> consumed >= 1
      ensures (old(tokens[i]).kind == endBlock || old(tokens[i]).kind == endDrawer) ==> consumed == 0 && tokens == old(tokens)
      ensures var t := old(tokens[i]);
              t.kind == horizontalRule ==> consumed == 1 && node == Some(HorizontalRule(t.pos))
      ensures var t := old(tokens[i]);
              t.kind == comment ==> consumed == 1 && node == Some(Comment(t.pos, Pos(t.pos.row, t.pos.col + |t.content|), t.content))
      ensures old(tokens[i]).kind == headline ==> consumed >= 1 && node.value.HeadlineNode?
      ensures old(tokens[i]).kind in AlwaysParsed ==> consumed >= 1
      ensures old(tokens[i]).kind == text ==> tokens == old(tokens)
      ensures consumed > 0 ==> ParsedAs(old(tokens[i]), node.value)
      decreases |tokens| - i, Wt(tokens, i), 7
    {
      var kind := tokens[i].kind;
      if kind in {beginBlock, result, beginDrawer, footnoteDefinition} {
        consumed, node := DispatchBlocks(i, stop);
      } else if kind in {text, example, horizontalRule, comment, scheduled, deadline, closed} {
        consumed, node := DispatchLines(i, stop);
      } else {
        consumed, node := DispatchMore(i, stop);
      }
    }

    /** The cases of parseOne's switch for the kinds that open a block, a drawer or a footnote definition. */
    method DispatchBlocks(i: nat, stop: Stop) returns (consumed: nat, node: Option<Node>)
      requires Valid() && i < |tokens| && StopOk(stop, |ends.endPos|)
      requires tokens[i].kind in {beginBlock, result, beginDrawer, footnoteDefinition}
      modifies this, outline, ends, tables
      ensures Valid() && Progress(i)
      ensures consumed <= |tokens| - i && (consumed > 0 ==> node.Some?)
      ensures consumed > 0 ==> ParsedAs(old(tokens[i]), node.value)
      decreases |tokens| - i, Wt(tokens, i), 6
    {
      match tokens[i].kind {
        case beginBlock =>
          ghost var last;
          consumed, node, last := ParseBlock(i, stop);
        case result =>
          ghost var s0 := Snap();
          consumed, node := ParseResult(i, stop);
          FollowsFrom(s0, Snap(), i, i + 1);
        case beginDrawer =>
          consumed, node := ParseDrawer(i, stop);
        case footnoteDefinition =>
          ghost var relexed;
          consumed, node, relexed := ParseFootnoteDefinition(i, stop);
      }
    }

    /** The cases of parseOne's switch for the kinds of a single line or a run of lines. */
    method DispatchLines(i: nat, stop: Stop) returns (consumed: nat, node: Option<Node>)
      requires Valid() && i < |tokens| && StopOk(stop, |ends.endPos|)
      requires tokens[i].kind in {text, example, horizontalRule, comment, scheduled, deadline, closed}
      modifies this, outline, ends, tables
      ensures Valid() && Progress(i)
      ensures consumed <= |tokens| - i && (consumed > 0 ==> node.Some?)
      ensures old(tokens[i]).kind == text ==> consumed >= 1 && tokens == old(tokens)
      ensures var t := old(tokens[i]);
              t.kind == horizontalRule ==> consumed == 1 && node == Some(HorizontalRule(t.pos))
      ensures var t := old(tokens[i]);
              t.kind == comment ==> consumed == 1 && node == Some(Comment(t.pos, Pos(t.pos.row, t.pos.col + |t.content|), t.content))
      ensures old(tokens[i]).kind in {scheduled, deadline, closed} ==> consumed == 1
      ensures consumed > 0 ==> ParsedAs(old(tokens[i]), node.value)
    {
      var t := tokens[i];
      match t.kind {
        case text =>
          consumed, node := ParseParagraph(i, stop);
        case example =>
          consumed, node := ParseExample(i, stop);
        case horizontalRule =>
          consumed, node := 1, Some(HorizontalRule(t.pos));
        case comment =>
          consumed, node := 1, Some(Comment(t.pos, Pos(t.pos.row, t.pos.col + |t.content|), t.content));
        case scheduled =>
          consumed, node := ParseSDC(i, 0);
        case deadline =>
          consumed, node := ParseSDC(i, 1);
        case closed =>
          consumed, node := ParseSDC(i, 2);
      }
    }

    /** The cases of parseOne's switch for lists, tables, keywords and headlines; no other kind is parsed. */
    method DispatchMore(i: nat, stop: Stop) returns (consumed: nat, node: Option<Node>)
      requires Valid() && i < |tokens| && StopOk(stop, |ends.endPos|)
      modifies this, outline, ends, tables
      ensures Valid() && Progress(i)
      ensures consumed <= |tokens| - i && (consumed > 0 ==> node.Some?)
      ensures old(tokens[i]).kind == headline ==> consumed >= 1 && node.value.HeadlineNode?
      ensures old(tokens[i]).kind in {tableRow, tableSeparator} ==> node.Some? && node.value.TableNode?
      ensures old(tokens[i]).kind in {unorderedList, orderedList} ==> node.Some? && node.value.List?
      ensures old(tokens[i]).kind !in {unorderedList, orderedList, tableRow, tableSeparator, keyword, headline} ==>
                consumed == 0 && tokens == old(tokens)
      ensures consumed > 0 ==> ParsedAs(old(tokens[i]), node.value)
      decreases |tokens| - i, Wt(tokens, i), 6
    {
      var t := tokens[i];
      match t.kind {
        case unorderedList =>
          consumed, node := ParseList(i, stop);
        case orderedList =>
          consumed, node := ParseList(i, stop);
        case tableRow =>
          consumed, node := ParseTable(i, stop);
        case tableSeparator =>
          consumed, node := ParseTable(i, stop);
        case keyword =>
          consumed, node := DispatchKeyword(i, stop);
        case headline =>
          ghost var parsed;
          consumed, node, parsed := ParseHeadline(i, stop);
        case _ =>
          consumed, node := 0, None;
      }
    }

    /** The keyword case of parseOne's switch: a name, affiliated, keyword or include node. */
    method DispatchKeyword(i: nat, stop: Stop) returns (consumed: nat, node: Option<Node>)
      requires Valid() && i < |tokens| && tokens[i].kind == keyword && StopOk(stop, |ends.endPos|)
      modifies this, outline, ends, tables
      ensures Valid() && Progress(i)
      ensures consumed <= |tokens| - i && (consumed > 0 ==> node.Some? && ParsedAs(old(tokens[i]), node.value))
      decreases |tokens| - i, Wt(tokens, i), 5
    {
      consumed, node := ParseKeyword(Keywords.ParseKeyword(tokens[i]), i, stop);
    }

    // -------------------------------------------------------------------------
    // One-line and run parsers

    /**
     * parseParagraph: the text lines up to a blank line, a line of another kind or the stop,
     * joined with newlines (later lines indented by their level above the base level) and parsed
     * inline at the first line. Its end is left at the zero position.
     */
    method ParseParagraph(i: nat, stop: Stop) returns (consumed: nat, node: Option<Node>)
      requires Valid() && i < |tokens| && StopOk(stop, |ends.endPos|)
      modifies this, outline, ends, tables
      ensures Valid() && Progress(i) && tokens == old(tokens)
      ensures consumed == ScanEnd(ParagraphRun, stop, tokens, i + 1) - i && consumed >= 1
      ensures node.Some? && node.value.Paragraph? && node.value.pos == tokens[i].pos && node.value.endPos == ZeroPos
      ensures Inline.Spells(node.value.inlines, Join(ParagraphLines(tokens, i, i + consumed, baseLvl), "\n"))
    {
      ghost var s0 := Snap();
      var j, lines := ScanParagraph(ends, stop, tokens, i, baseLvl);
      var inlines := InlineAt(Join(lines, "\n"), i);
      consumed, node := j - i, Some(Paragraph(tokens[i].pos, ZeroPos, inlines));
      assert Follows(s0, Snap(), i);
    }

    /** parseExample: the example lines up to the stop, each a raw text node of its content. */
    method ParseExample(i: nat, stop: Stop) returns (consumed: nat, node: Option<Node>)
      requires i < |tokens| && StopOk(stop, |ends.endPos|)
      modifies ends
      ensures |ends.endPos| == |old(ends.endPos)|
      ensures consumed == ScanEnd(ExampleRun, stop, tokens, i) - i
      ensures node == Some(Example(tokens[i].pos, ExampleTexts(tokens, i, i + consumed)))
    {
      var j, children := ScanExample(ends, stop, tokens, i);
      consumed, node := j - i, Some(Example(tokens[i].pos, children));
    }

    /**
     * parseScheduled, parseDeadline and parseClosed: the entry is set on the last headline (none
     * before the first one) and made a node as well. dateType is 0, 1 or 2 for the three kinds.
     */
    method ParseSDC(i: nat, kind: nat) returns (consumed: nat, node: Option<Node>)
      requires Valid() && i < |tokens| && kind <= 2
      modifies outline
      ensures Valid() && Progress(i) && consumed == 1
      ensures var (date, dateType) := config.parseSDC(tokens[i].content);
              node == Some(SDCNode(SDC(tokens[i].pos, date, dateType)))
      ensures outline.last == old(outline.last) && outline.count == old(outline.count)
      ensures HeadsKept(old(outline.sections), outline.sections)
      ensures var sdc := node.value.sdc;
              var k := outline.last;
              outline.sections == if k == 0 then old(outline.sections)
                                  else old(outline.sections)[k := old(outline.sections)[k].(headline :=
                                         Some(SetSDC(old(outline.sections)[k].headline.value, kind, sdc)))]
    {
      var (date, dateType) := config.parseSDC(tokens[i].content);
      var sdc := SDC(tokens[i].pos, date, dateType);
      var h := outline.LastHeadline();
      if h.Some? {
        TablesKeptOnUpdate(outline.sections, outline.last, SetSDC(h.value, kind, sdc), tables);
        outline.SetHeadline(outline.last, SetSDC(h.value, kind, sdc));
        HeadsKeptBy(old(outline.sections), outline.sections);
      }
      return 1, Some(SDCNode(sdc));
    }

    // -------------------------------------------------------------------------
    // Blocks and results

    /**
     * parseBlock: the lines up to the END line of the same name (`last`). A raw text block takes
     * them as text, less the block's indent, unescaped for EXAMPLE and org source; any other
     * block parses them. Without an END line it consumes nothing; a source block takes a result
     * that follows it.
     */
    method ParseBlock(i: nat, stop: Stop) returns (consumed: nat, node: Option<Node>, ghost last: nat)
      requires Valid() && i < |tokens| && tokens[i].kind == beginBlock && StopOk(stop, |ends.endPos|)
      modifies this, outline, ends, tables
      ensures Valid() && Progress(i)
      ensures consumed <= |tokens| - i && i < last <= |tokens| && (consumed == 0 <==> last == |tokens|)
      ensures last < |tokens| ==> tokens[last].kind == endBlock && tokens[last].content == old(tokens[i]).content
      ensures consumed == 0 ==> node.None?
      ensures var t := old(tokens[i]);
              IsRawTextBlock(t.content) ==> last == ScanEnd(AnyRun, BlockEnd(t.content), old(tokens), i + 1)
      ensures var t := old(tokens[i]);
              consumed > 0 ==> && node.Some? && node.value.Block? && node.value.name == t.content && node.value.pos == t.pos
                               && node.value.endPos == tokens[last].endPos
                               && node.value.parameters == Parameters(Split(Group(t, 3), " :"))
      ensures var t := old(tokens[i]);
              consumed > 0 && IsRawTextBlock(t.content) ==>
                RawBody(node.value.children, RawBlockText(old(tokens), t.lvl, i + 1, last, Unescapes(t.content, node.value.parameters)),
                        old(InlineContext(last)))
      ensures old(tokens[i]).content != "SRC" && consumed > 0 ==> consumed == last + 1 - i && node.value.result.None?
      ensures old(tokens[i]).content == "SRC" && consumed > 0 ==> consumed >= last + 1 - i
      decreases |tokens| - i, Wt(tokens, i), 2
    {
      ghost var s0 := Snap();
      var t := tokens[i];
      var parameters := SplitParameters(Group(t, 3));
      var j, children := BlockBody(i, parameters);
      last := j;
      if j >= |tokens| || tokens[j].kind != endBlock || tokens[j].content != t.content {
        return 0, None, last;
      }
      var endPos := tokens[j].endPos;
      var result: Option<Node> := None;
      consumed := j + 1 - i;
      if t.content == "SRC" {
        ghost var s1 := Snap();
        StopOkGrows(stop, s0.drawers, |ends.endPos|);
        var c;
        c, result := BlockResult(i, j, stop);
        FollowsTrans(s0, s1, Snap(), i, i);
        consumed := consumed + c;
      }
      node := Some(Block(t.content, t.pos, endPos, parameters, children, result));
    }

    /** The result after the END line j of the source block at token i; the END line stays. */
    method BlockResult(i: nat, j: nat, stop: Stop) returns (consumed: nat, node: Option<Node>)
      requires Valid() && i < j < |tokens| && StopOk(stop, |ends.endPos|)
      modifies this, outline, ends, tables
      ensures Valid() && Progress(i) && consumed <= |tokens| - (j + 1) && tokens[j] == old(tokens[j])
      decreases |tokens| - i, Wt(tokens, i), 1
    {
      ghost var s0 := Snap();
      consumed, node := ParseSrcBlockResult(j + 1, stop);
      TokenShrinks(s0.tokens, tokens, j + 1, j);
      FollowsFrom(s0, Snap(), i, j + 1);
    }

    /**
     * The lines of the block at token i up to its END line (j): as raw text for a raw text block,
     * which changes nothing, else parsed up to that line.
     */
    method BlockBody(i: nat, parameters: seq<string>) returns (j: nat, children: seq<Node>)
      requires Valid() && i < |tokens| && tokens[i].kind == beginBlock
      modifies this, outline, ends, tables
      ensures Valid() && Progress(i) && i < j <= |tokens| && tokens[i] == old(tokens[i])
      ensures j < |tokens| ==> tokens[j].kind == endBlock && tokens[j].content == tokens[i].content
      ensures var t := old(tokens[i]);
              IsRawTextBlock(t.content) ==>
                && tokens == old(tokens) && j == ScanEnd(AnyRun, BlockEnd(t.content), tokens, i + 1)
                && RawBody(children, RawBlockText(tokens, t.lvl, i + 1, j, Unescapes(t.content, parameters)), InlineContext(j))
      decreases |tokens| - i, Wt(tokens, i), 1
    {
      var name := tokens[i].content;
      if IsRawTextBlock(name) {
        j, children := RawBlockBody(i, parameters);
      } else {
        ghost var s0 := Snap();
        var c, nodes, spans := ParseMany(i + 1, BlockEnd(name));
        TokenShrinks(s0.tokens, tokens, i + 1, i);
        FollowsFrom(s0, Snap(), i, i + 1);
        j, children := i + 1 + c, nodes;
      }
    }

    /** The children of a raw text block: its lines up to the END line, as raw inline text read at that line. */
    method RawBlockBody(i: nat, parameters: seq<string>) returns (j: nat, children: seq<Node>)
      requires i < |tokens|
      ensures var t := tokens[i];
              && j == ScanEnd(AnyRun, BlockEnd(t.content), tokens, i + 1)
              && (j < |tokens| ==> tokens[j].kind == endBlock && tokens[j].content == t.content)
              && RawBody(children, RawBlockText(tokens, t.lvl, i + 1, j, Unescapes(t.content, parameters)), InlineContext(j))
    {
      var t := tokens[i];
      var lines;
      j, lines := ScanBody(tokens, i + 1, t.content, t.lvl);
      ScanEndIsFirst(AnyRun, BlockEnd(t.content), tokens, i + 1);
      var text := if Unescapes(t.content, parameters) then Escaped(lines) else RawText(lines);
      var raw := RawInlineAt(text, j);
      children := InlineNodes(raw);
      assert RawBody(children, text, InlineContext(j));
    }

    /**
     * parseSrcBlockResult: blank lines up to the stop, then a result line. Without one it
     * consumes nothing; a result line that is the last line is not parsed, only the blank lines
     * before it are consumed.
     */
    method ParseSrcBlockResult(i: nat, stop: Stop) returns (consumed: nat, node: Option<Node>)
      requires Valid() && i <= |tokens| && StopOk(stop, |ends.endPos|)
      modifies this, outline, ends, tables
      ensures Valid() && Progress(i) && consumed <= |tokens| - i
      ensures ResultParsed(stop, old(tokens), tokens, i, consumed, node)
      decreases |tokens| - i, Wt(tokens, i), 1
    {
      ghost var s0 := Snap();
      var j, found := ResultAfterBlanks(i, stop);
      assert Snap() == s0;
      if !found {
        FollowsByGrowth(s0, Snap(), i);
        return 0, None;
      }
      var c;
      c, node := ParseResult(j, stop);
      FollowsFrom(s0, Snap(), i, j + 1);
      consumed := j - i + c;
    }

    /** The blank lines before a source block's result, and whether a result line follows them. */
    method ResultAfterBlanks(i: nat, stop: Stop) returns (j: nat, found: bool)
      requires i <= |tokens| && StopOk(stop, |ends.endPos|)
      modifies ends
      ensures |ends.endPos| == |old(ends.endPos)|
      ensures j == ScanEnd(BlankRun, stop, tokens, i) && i <= j <= |tokens|
      ensures found <==> j < |tokens| && !Holds(stop, tokens, j) && tokens[j].kind == result
    {
      j := SkipBlank(ends, stop, tokens, i);
      var s := Stopped(ends, stop, tokens, j);
      found := !s && j < |tokens| && tokens[j].kind == result;
    }

    /** parseResult: the result line and the one node after it; nothing when it is the last line. */
    method ParseResult(i: nat, stop: Stop) returns (consumed: nat, node: Option<Node>)
      requires Valid() && i < |tokens| && StopOk(stop, |ends.endPos|)
      modifies this, outline, ends, tables
      ensures Valid() && Progress(i + 1) && consumed <= |tokens| - i
      ensures (consumed == 0) == (i + 1 >= |tokens|) && (consumed == 0 ==> node.None? && tokens == old(tokens))
      ensures consumed > 0 ==> consumed >= 2 && node.Some? && node.value.Result? && node.value.pos == old(tokens[i]).pos
      decreases |tokens| - i, Wt(tokens, i), 0
    {
      if i + 1 >= |tokens| {
        return 0, None;
      }
      ghost var ts := tokens;
      var c, n := ParseOne(i + 1, stop);
      TokenShrinks(ts, tokens, i + 1, i);
      consumed, node := c + 1, Some(Result(tokens[i].pos, n.value));
    }

    // -------------------------------------------------------------------------
    // Drawers and footnote definitions

    /**
     * parseDrawer: a PROPERTIES drawer is parsed as a property drawer. Any other drawer parses
     * its lines up to an END line, the next drawer start or a headline; a nested drawer start
     * becomes a paragraph of its own text and the drawer goes on. The end is the END line's
     * when there is one, else what the stop recorded.
     */
    method ParseDrawer(i: nat, stop: Stop) returns (consumed: nat, node: Option<Node>)
      requires Valid() && i < |tokens| && tokens[i].kind == beginDrawer && StopOk(stop, |ends.endPos|)
      modifies this, outline, ends, tables
      ensures Valid() && Progress(i) && consumed <= |tokens| - i
      ensures ToUpper(old(tokens[i]).content) == "PROPERTIES" ==>
                && tokens == old(tokens)
                && (node.Some? <==> PropertyDrawerAt(stop, tokens, i)) && (node.None? ==> consumed == 0)
                && (node.Some? ==> var e := ScanEnd(PropertyRun, stop, tokens, i + 1);
                                   && consumed == e + 1 - i && node.value.PropertyDrawerNode?
                                   && node.value.drawer.pos == tokens[i].pos && node.value.drawer.endPos == tokens[e].endPos
                                   && node.value.drawer.properties == PropertiesOf(tokens, i + 1, e))
      ensures var t := old(tokens[i]);
              ToUpper(t.content) != "PROPERTIES" ==>
                && consumed >= 1 && node.Some? && node.value.Drawer? && node.value.pos == t.pos && node.value.name == ToUpper(t.content)
                && var e := i + consumed;
                   || (e - 1 > i && tokens[e - 1].kind == endDrawer && node.value.endPos == tokens[e - 1].endPos)
                   || e == |tokens|
                   || (tokens[e].kind != endDrawer && tokens[e].kind != beginDrawer && (Holds(stop, tokens, e) || tokens[e].kind == headline))
      decreases |tokens| - i, Wt(tokens, i), 2
    {
      var t := tokens[i];
      var name := ToUpper(t.content);
      if name == "PROPERTIES" {
        consumed, node := ParsePropertyDrawer(i, stop);
        return;
      }
      ghost var s0 := Snap();
      var d := |ends.endPos|;
      ends.endPos := ends.endPos + [ZeroPos];
      StopOkGrows(stop, d, d + 1);
      ghost var s1 := Snap();
      var j, children := DrawerBody(i, d, stop);
      FollowsTrans(s0, s1, Snap(), i, i + 1);
      if j < |tokens| && tokens[j].kind != endDrawer {
        DrawerStopAt(stop, d, tokens, j);
      }
      var endPos := ends.endPos[d];
      if j < |tokens| && tokens[j].kind == endDrawer {
        endPos := tokens[j].endPos;
        j := j + 1;
      }
      consumed, node := j - i, Some(Drawer(t.pos, endPos, name, children));
    }

    /**
     * The loop of parseDrawer over the lines of drawer d after token i: parseMany up to the
     * drawer's stop, and a nested drawer start made a paragraph of its own text each time.
     */
    method DrawerBody(i: nat, d: nat, stop: Stop) returns (j: nat, children: seq<Node>)
      requires Valid() && i < |tokens| && d < |ends.endPos| && StopOk(stop, |ends.endPos|)
      modifies this, outline, ends, tables
      ensures Valid() && Progress(i + 1) && i + 1 <= j <= |tokens| && d < |ends.endPos|
      ensures j < |tokens| ==> Holds(DrawerEnd(stop, d), tokens, j) && tokens[j].kind != beginDrawer
      decreases |tokens| - i, Wt(tokens, i), 1
    {
      ghost var s0 := Snap();
      children := [];
      j := i + 1;
      while true
        invariant Valid() && i + 1 <= j <= |tokens| && d < |ends.endPos| && StopOk(stop, |ends.endPos|)
        invariant Follows(s0, Snap(), i + 1) && forall u :: u in tables && u !in old(tables) ==> fresh(u)
        decreases |tokens| - j
      {
        ghost var s1 := Snap();
        var k, nodes, nested := DrawerPart(j, d, stop);
        FollowsTrans(s0, s1, Snap(), i + 1, j);
        j, children := k, children + nodes;
        if !nested {
          break;
        }
      }
    }

    /**
     * One round of parseDrawer's loop from line j: parseMany up to the drawer's stop, then the
     * nested drawer start it stopped at, if any, made a paragraph of its own text.
     */
    method DrawerPart(j: nat, d: nat, stop: Stop) returns (k: nat, nodes: seq<Node>, nested: bool)
      requires Valid() && j <= |tokens| && d < |ends.endPos| && StopOk(stop, |ends.endPos|)
      modifies this, outline, ends, tables
      ensures Valid() && Progress(j) && j <= k <= |tokens| && d < |ends.endPos| && StopOk(stop, |ends.endPos|)
      ensures nested ==> j < k
      ensures !nested && k < |tokens| ==> Holds(DrawerEnd(stop, d), tokens, k) && tokens[k].kind != beginDrawer
      decreases |tokens| - j, Wt(tokens, j), 10
    {
      ghost var s0 := Snap();
      var c, ns, spans := ParseMany(j, DrawerEnd(stop, d));
      StopOkGrows(stop, s0.drawers, |ends.endPos|);
      k, nodes := j + c, ns;
      nested := k < |tokens| && tokens[k].kind == beginDrawer;
      if nested {
        var p := tokens[k].pos;
        var content := tokens[k].content;
        var text := Inline.Text(p, OneLineEnd(p, content), ":" + content + ":", false);
        nodes := nodes + [Paragraph(p, Inline.GetEnd(text), [text])];
        k := k + 1;
      }
    }

    /**
     * parsePropertyDrawer: every line up to a line that is neither text nor a drawer start must
     * be a property line, and an END line must follow; otherwise it consumes nothing.
     */
    method ParsePropertyDrawer(i: nat, stop: Stop) returns (consumed: nat, node: Option<Node>)
      requires i < |tokens| && StopOk(stop, |ends.endPos|)
      modifies ends
      ensures |ends.endPos| == |old(ends.endPos)| && consumed <= |tokens| - i
      ensures (node.Some? <==> PropertyDrawerAt(stop, tokens, i)) && (node.None? ==> consumed == 0)
      ensures node.Some? ==> var e := ScanEnd(PropertyRun, stop, tokens, i + 1);
                             && consumed == e + 1 - i && node.value.PropertyDrawerNode? && fresh(node.value.drawer)
                             && node.value.drawer.pos == tokens[i].pos && node.value.drawer.endPos == tokens[e].endPos
                             && node.value.drawer.properties == PropertiesOf(tokens, i + 1, e)
    {
      var j, properties, ok := ScanProperties(ends, stop, tokens, i);
      if !ok || !(j < |tokens| && tokens[j].kind == endDrawer) {
        return 0, None;
      }
      var drawer := new PropertyDrawer(tokens[i].pos, tokens[j].endPos, properties);
      consumed, node := j + 1 - i, Some(PropertyDrawerNode(drawer));
    }

    /**
     * parseFootnoteDefinition: token i is re-lexed from the text after the label, then its lines
     * are parsed up to a second blank line, a headline or the next definition.
     */
    method ParseFootnoteDefinition(i: nat, stop: Stop) returns (consumed: nat, node: Option<Node>, ghost relexed: Token)
      requires Valid() && i < |tokens| && tokens[i].kind == footnoteDefinition && StopOk(stop, |ends.endPos|)
      modifies this, outline, ends, tables
      ensures Valid() && Progress(i) && consumed <= |tokens| - i && Holds(FootnoteEnd(stop, i), tokens, i + consumed)
      ensures var t := old(tokens[i]); LexedFrom(relexed, Group(t, 2), t.pos.row, config.deadlineRe)
      ensures consumed == 0 ==> tokens == old(tokens)[i := relexed]
      ensures node.Some? && node.value.FootnoteDefinition? && node.value.name == old(tokens[i]).content
      ensures node.value.pos == tokens[i].pos && !node.value.isInline
      decreases |tokens| - i, Wt(tokens, i), 2
    {
      ghost var s0 := Snap();
      var t := tokens[i];
      WellFormedAt(tokens, |tokens|, i);
      GroupsClean(t, 2);
      var nt := Lexer.Tokenize(Group(t, 2), t.pos.row, config.deadlineRe);
      relexed := nt;
      RewriteShrinks(tokens, i, nt);
      Rewrite(i, nt);
      ghost var s1 := Snap();
      var c, nodes, spans := ParseMany(i, FootnoteEnd(stop, i));
      FollowsTrans(s0, s1, Snap(), i, i);
      consumed, node := c, Some(FootnoteDefinition(tokens[i].pos, t.content, nodes, false));
    }

    // -------------------------------------------------------------------------
    // Headlines

    /**
     * parseHeadline up to its children: the headline gets the next section and index, then its
     * status, priority, tags and title from its text, with the TODO keywords of the buffer
     * setting; a timestamp in the title is set on it, as the last headline.
     */
    method StartHeadline(i: nat) returns (k: nat)
      requires Valid() && i < |tokens| && tokens[i].kind == headline
      modifies this`lastKeywords, outline
      ensures Valid()
      ensures k == |old(outline.sections)| == outline.last && |outline.sections| == k + 1
      ensures outline.count == old(outline.count) + 1 && HeadsKept(old(outline.sections), outline.sections)
      ensures var h := outline.sections[k].headline;
              && h.Some? && h.value.properties == null && h.value.children == [] && h.value.tables == []
              && HeadlineBegun(h.value, tokens[i], outline.count, TodoKeywords(Settings.Get(bufferSettings, config.settings.defaultSettings, "TODO")))
      ensures lastKeywords == old(lastKeywords) || lastKeywords == []
    {
      var t := tokens[i];
      var lvl := |Group(t, 1)|;
      ghost var s0 := outline.sections;
      var index := outline.AddHeadline(NewHeadline(t.pos, lvl));
      k := outline.last;
      ghost var s1 := outline.sections;
      TablesKnownOnAdd(s0, s1, tables);
      HeadsKeptBy(s0, s1);
      var setting := Settings.Get(bufferSettings, config.settings.defaultSettings, "TODO");
      var keywords := TrimFastTags(FieldsFunc(setting, IsTodoSeparator));
      assert keywords == TodoKeywords(setting);
      var parts := SplitHeadline(keywords, t.content);
      var nodes := InlineAt(parts.title, i);
      ghost var s2 := outline.sections;
      HeadsKeptTrans(s0, s1, s2);
      CoreFields(s1[k], s2[k]);
      var h := outline.sections[k].headline.value;
      h := h.(index := index, status := parts.status, priority := parts.priority, tags := parts.tags, title := nodes);
      TablesKeptOnUpdate(s2, k, h, tables);
      outline.SetHeadline(k, h);
      HeadsKeptPast(s0, s2, outline.sections, k);
    }

    /**
     * parseHeadline: the headline's children are what parseMany makes of the lines up to a
     * headline of the same or a higher level (or the parent's stop); a leading property drawer
     * among them becomes its properties instead. It becomes the current headline.
     */
    method ParseHeadline(i: nat, stop: Stop) returns (consumed: nat, node: Option<Node>, ghost parsed: seq<Node>)
      requires Valid() && i < |tokens| && tokens[i].kind == headline && StopOk(stop, |ends.endPos|)
      modifies this, outline, ends, tables
      ensures Valid() && Progress(i) && 1 <= consumed <= |tokens| - i && tokens[i] == old(tokens[i])
      ensures Holds(HeadlineEnd(stop, |Group(tokens[i], 1)|), tokens, i + consumed)
      ensures node.Some? && node.value.HeadlineNode?
      ensures currentHeadline == |old(outline.sections)| && outline.sections[currentHeadline].headline == Some(node.value.headline)
      ensures HeadlineBegun(node.value.headline, tokens[i], old(outline.count) + 1,
                            TodoKeywords(Settings.Get(old(bufferSettings), config.settings.defaultSettings, "TODO")))
      ensures Promotes(node.value.headline, parsed)
      decreases |tokens| - i, Wt(tokens, i), 2
    {
      ghost var s0 := Snap();
      ghost var index, keywords := outline.count + 1, TodoKeywords(Settings.Get(bufferSettings, config.settings.defaultSettings, "TODO"));
      var k := StartHeadline(i);
      ghost var s1 := Snap();
      assert s1.(sections := s0.sections) == s0;
      ghost var g := outline.sections[k].headline.value;
      var h, nodes;
      consumed, h, nodes := HeadlineRest(i, stop, k, s0.sections);
      parsed := nodes;
      BegunKept(g, h, tokens[i], index, keywords);
      node := Some(HeadlineNode(h));
    }

    /**
     * parseHeadline after the start of the headline in the new section k: its children, and
     * then the headline as the current one.
     */
    method HeadlineRest(i: nat, stop: Stop, k: nat, ghost s0: seq<Section>) returns (consumed: nat, h: Headline, parsed: seq<Node>)
      requires Valid() && i < |tokens| && StopOk(stop, |ends.endPos|)
      requires |s0| <= k < |outline.sections| && HeadsKept(s0, outline.sections)
      requires outline.sections[k].headline.Some? && outline.sections[k].headline.value.properties == null
      modifies this, outline, ends, tables
      ensures Valid() && 1 <= consumed <= |tokens| - i && tokens[i] == old(tokens[i])
      ensures Follows(old(Snap()).(sections := s0), Snap(), i) && forall t :: t in tables && t !in old(tables) ==> fresh(t)
      ensures Holds(HeadlineEnd(stop, |Group(tokens[i], 1)|), tokens, i + consumed)
      ensures currentHeadline == k && outline.sections[k].headline == Some(h) && Promotes(h, parsed)
      ensures SameStart(old(outline.sections[k].headline.value), h)
      decreases |tokens| - i, Wt(tokens, i), 1
    {
      ghost var a := Snap();
      consumed, parsed := HeadlineChildren(i, stop, k);
      ghost var b := Snap();
      CoreFields(a.sections[k], b.sections[k]);
      HeadsKeptTrans(s0, a.sections, b.sections);
      h := FinishHeadline(k, parsed, s0);
    }

    /** The children of the headline of token i, in section k: parseMany up to its stop; the headline line counts. */
    method HeadlineChildren(i: nat, stop: Stop, k: nat) returns (consumed: nat, nodes: seq<Node>)
      requires Valid() && i < |tokens| && StopOk(stop, |ends.endPos|) && k < |outline.sections|
      modifies this, outline, ends, tables
      ensures Valid() && Progress(i) && 1 <= consumed <= |tokens| - i && tokens[i] == old(tokens[i])
      ensures Holds(HeadlineEnd(stop, |Group(tokens[i], 1)|), tokens, i + consumed)
      ensures k < |outline.sections| && Core(outline.sections[k]) == Core(old(outline.sections[k]))
      decreases |tokens| - i, Wt(tokens, i), 0
    {
      ghost var s0 := Snap();
      ghost var spans;
      var c;
      c, nodes, spans := ParseMany(i + 1, HeadlineEnd(stop, |Group(tokens[i], 1)|));
      consumed := c + 1;
      ghost var s1 := Snap();
      TokenShrinks(s0.tokens, s1.tokens, i + 1, i);
      FollowsFrom(s0, s1, i, i + 1);
      if s0.sections != s1.sections {
        CoreKeptAt(s0.sections, s1.sections, |s0.sections|, k);
      }
    }

    /** The end of parseHeadline: the properties and children are set, and the headline becomes the current one. */
    method FinishHeadline(k: nat, nodes: seq<Node>, ghost s0: seq<Section>) returns (h: Headline)
      requires Valid() && |s0| <= k < |outline.sections| && HeadsKept(s0, outline.sections)
      requires outline.sections[k].headline.Some? && outline.sections[k].headline.value.properties == null
      modifies outline, this`currentHeadline
      ensures Valid() && HeadsKept(s0, outline.sections) && |outline.sections| == |old(outline.sections)|
      ensures currentHeadline == k && outline.sections[k].headline == Some(h) && Promotes(h, nodes)
      ensures h == old(outline.sections[k].headline.value).(properties := h.properties, children := h.children)
    {
      ghost var s1 := outline.sections;
      h := outline.sections[k].headline.value;
      if |nodes| > 0 && nodes[0].PropertyDrawerNode? {
        h := h.(properties := nodes[0].drawer, children := nodes[1..]);
      } else {
        h := h.(children := nodes);
      }
      TablesKeptOnUpdate(s1, k, h, tables);
      outline.SetHeadline(k, h);
      currentHeadline := k;
      HeadsKeptPast(s0, s1, outline.sections, k);
    }

    // -------------------------------------------------------------------------
    // Lists

    /**
     * parseList: the items of one list, as long as the stop does not hold and the next token is a
     * list item of the same level and main kind. An item that consumes nothing (its parent's stop
     * holds at its re-lexed line) is still added, and ends the list.
     */
    method ParseList(i: nat, stop: Stop) returns (consumed: nat, node: Option<Node>)
      requires Valid() && i < |tokens| && IsListToken(tokens[i]) && StopOk(stop, |ends.endPos|)
      modifies this, outline, ends, tables
      ensures Valid() && Progress(i) && consumed <= |tokens| - i
      ensures var t := old(tokens[i]);
              && WellFormed(t) && node.Some? && node.value.List? && node.value.kind == ListKind(t).1 && node.value.pos == t.pos
              && ListEnds(stop, tokens, i + consumed, t.lvl, ListKind(t).0)
              && (!Holds(stop, old(tokens), i) ==> |node.value.items| >= 1)
              && forall q :: 0 <= q < |node.value.items| ==> ItemOf(ListKind(t).1, node.value.items[q])
      decreases |tokens| - i, Wt(tokens, i), 5
    {
      var t := tokens[i];
      WellFormedAt(tokens, |tokens|, i);
      MainKindOfToken(t);
      var (main, kind) := ListKind(t);
      var c, items := ListItems(i, stop, t.lvl, main, kind);
      consumed, node := c, Some(List(kind, t.pos, items));
    }

    /** The loop of parseList over its items. */
    method ListItems(i: nat, stop: Stop, lvl: int, main: string, kind: string) returns (consumed: nat, items: seq<Node>)
      requires Valid() && i < |tokens| && StopOk(stop, |ends.endPos|)
      requires tokens[i].lvl == lvl && IsListToken(tokens[i]) && MainKind(Group(tokens[i], 2)) == Some(main)
      modifies this, outline, ends, tables
      ensures Valid() && Progress(i) && consumed <= |tokens| - i
      ensures ListEnds(stop, tokens, i + consumed, lvl, main) && (!Holds(stop, old(tokens), i) ==> |items| >= 1)
      ensures forall q :: 0 <= q < |items| ==> ItemOf(kind, items[q])
      decreases |tokens| - i, Wt(tokens, i), 4
    {
      ghost var s0 := Snap();
      items := [];
      var j := i;
      while true
        invariant Valid() && i <= j <= |tokens| && StopOk(stop, |ends.endPos|)
        invariant Follows(s0, Snap(), i) && forall t :: t in tables && t !in old(tables) ==> fresh(t)
        invariant j == i ==> tokens == old(tokens) || Holds(stop, tokens, i)
        invariant |items| == 0 ==> j == i && tokens == old(tokens)
        invariant forall q :: 0 <= q < |items| ==> ItemOf(kind, items[q])
        decreases |tokens| - j, if Holds(stop, tokens, j) then 0 else 1
      {
        var s := Stopped(ends, stop, tokens, j);
        if s || tokens[j].lvl != lvl || !IsListToken(tokens[j]) || MainKind(Group(tokens[j], 2)) != Some(main) {
          break;
        }
        if j == i {
          assert Wt(tokens, i) == Wt(s0.tokens, i);
        }
        var c, item := ListStep(kind, i, j, stop, s0);
        items := items + [item];
        j := j + c;
      }
      consumed := j - i;
    }

    /** One item of parseList's loop: an item that consumes nothing leaves the stop holding at its re-lexed line. */
    method ListStep(kind: string, i: nat, j: nat, stop: Stop, ghost s0: Snapshot) returns (consumed: nat, item: Node)
      requires Valid() && i <= j < |tokens| && IsListToken(tokens[j]) && StopOk(stop, |ends.endPos|) && Follows(s0, Snap(), i)
      modifies this, outline, ends, tables
      ensures Valid() && StopOk(stop, |ends.endPos|) && Follows(s0, Snap(), i)
      ensures forall t :: t in tables && t !in old(tables) ==> fresh(t)
      ensures consumed <= |tokens| - j && ItemOf(kind, item) && (consumed == 0 ==> Holds(stop, tokens, j))
      decreases |tokens| - j, Wt(tokens, j), 3
    {
      ghost var s1 := Snap();
      ghost var relexed;
      consumed, item, relexed := ParseListItem(kind, j, stop);
      FollowsTrans(s0, s1, Snap(), i, j);
      StopOkGrows(stop, s1.drawers, |ends.endPos|);
    }

    /**
     * parseListItem: the head of the item (value, status, descriptive term) is cut off, its line
     * is re-lexed as the body indented to the item's minimal indent and one column to the right,
     * and its children are parsed up to the item's stop or a second blank line, with the base
     * level set for the paragraphs inside. The base level is restored afterwards.
     */
    method ParseListItem(kind: string, i: nat, stop: Stop) returns (consumed: nat, node: Node, ghost relexed: Token)
      requires Valid() && i < |tokens| && IsListToken(tokens[i]) && StopOk(stop, |ends.endPos|)
      modifies this, outline, ends, tables
      ensures Valid() && Progress(i) && consumed <= |tokens| - i && ItemOf(kind, node)
      ensures var t := old(tokens[i]);
              var head := Head(kind, t.content);
              && WellFormed(t)
              && LexedFrom(relexed, ItemLine(t, head.body), t.pos.row, config.deadlineRe)
              && (consumed == 0 <==> Holds(stop, old(tokens)[i := Shifted(relexed)], i))
              && (consumed == 0 ==> tokens == old(tokens)[i := Shifted(relexed)])
              && ItemStops(ItemEnd(stop, Indentation(t)), tokens, i, i + consumed)
              && (if kind == "descriptive" then
                    && node.DescriptiveListItem? && node.bullet == Group(t, 2) && node.status == head.status
                    && node.pos == t.pos && Inline.Spells(node.term, head.term)
                  else
                    && node.ListItem? && node.bullet == Group(t, 2) && node.status == head.status
                    && node.value == head.value && node.pos == t.pos)
      decreases |tokens| - i, Wt(tokens, i), 2
    {
      ghost var s0 := Snap();
      var t := tokens[i];
      WellFormedAt(tokens, |tokens|, i);
      var minIndent := Indentation(t);
      var head := Head(kind, t.content);
      relexed := RelexItem(i, head.body);
      ghost var s1 := Snap();
      var c, nodes := ItemChildren(i, stop, minIndent, if head.described then Index(Group(t, 0), " ::") + 4 else minIndent + 1, Wt(s0.tokens, i));
      ghost var s2 := Snap();
      ItemEndAtItem(stop, s1.tokens, i, minIndent);
      consumed := c;
      node := ItemNode(kind, t, head, nodes, i + consumed);
      FollowsTrans(s0, s1, s2, i, i);
      FollowsByGrowth(s2, Snap(), i);
      FollowsTrans(s0, s2, Snap(), i, i);
    }

    /**
     * The body of parseListItem: its children up to the item's stop, parsed with the base level
     * set to baseLvl'; the base level comes back afterwards.
     */
    method ItemChildren(i: nat, stop: Stop, minIndent: int, baseLvl': int, ghost w: nat) returns (consumed: nat, nodes: seq<Node>)
      requires Valid() && i < |tokens| && StopOk(stop, |ends.endPos|) && Wt(tokens, i) < w
      modifies this, outline, ends, tables
      ensures Valid() && Progress(i) && consumed <= |tokens| - i
      ensures ItemStops(ItemEnd(stop, minIndent), tokens, i, i + consumed)
      ensures (consumed == 0 <==> Holds(ItemEnd(stop, minIndent), old(tokens), i)) && (consumed == 0 ==> tokens == old(tokens))
      decreases |tokens| - i, w, 1
    {
      ghost var s0 := Snap();
      var originalBaseLvl := baseLvl;
      baseLvl := baseLvl';
      ghost var s1 := Snap();
      consumed, nodes := ItemBody(i, ItemEnd(stop, minIndent), w);
      baseLvl := originalBaseLvl;
      assert Follows(s1.(baseLvl := s0.baseLvl), Snap(), i);
    }

    /** parseListItem's line re-lexed: the item's body indented to its minimal indent, one column to the right. */
    method RelexItem(i: nat, body: string) returns (ghost relexed: Token)
      requires Valid() && i < |tokens| && IsListToken(tokens[i]) && WellFormed(tokens[i])
      requires |body| <= |tokens[i].content| && body == tokens[i].content[|tokens[i].content| - |body|..]
      modifies this`tokens
      ensures var t := old(tokens[i]);
              LexedFrom(relexed, ItemLine(t, body), t.pos.row, config.deadlineRe) && relexed.lvl >= Indentation(t)
      ensures Valid() && tokens == old(tokens)[i := Shifted(relexed)]
      ensures Shrinks(old(tokens), tokens, i) && Wt(tokens, i) < Wt(old(tokens), i)
    {
      var t := tokens[i];
      WellFormedAt(tokens, |tokens|, i);
      ItemLineClean(t, body);
      var nt := Lexer.Tokenize(ItemLine(t, body), t.pos.row, config.deadlineRe);
      relexed := nt;
      ItemLineLighter(t, body, nt);
      ItemLineLevel(t, body, nt);
      RewriteShrinks(tokens, i, Shifted(nt));
      Rewrite(i, Shifted(nt));
    }

    /** The node of parseListItem; a descriptive item's term is parsed inline at token ni, the token after the item. */
    method ItemNode(kind: string, t: Token, head: ItemHead, nodes: seq<Node>, ni: nat) returns (node: Node)
      requires Valid()
      modifies this`lastKeywords, outline
      ensures Valid() && outline.last == old(outline.last) && outline.count == old(outline.count)
      ensures |outline.sections| == |old(outline.sections)| && HeadsKept(old(outline.sections), outline.sections)
      ensures Snap() == old(Snap()).(sections := outline.sections)
      ensures kind == "descriptive" ==>
                && node.DescriptiveListItem? && node.bullet == Group(t, 2) && node.status == head.status
                && node.pos == t.pos && Inline.Spells(node.term, head.term) && node.details == nodes
      ensures kind != "descriptive" ==>
                node == ListItem(Group(t, 2), head.status, head.value, t.pos, nodes) && unchanged(this, outline)
    {
      if kind == "descriptive" {
        var term := InlineAt(head.term, ni);
        node := DescriptiveListItem(Group(t, 2), head.status, t.pos, term, nodes);
      } else {
        node := ListItem(Group(t, 2), head.status, head.value, t.pos, nodes);
      }
    }

    /** The loop of parseListItem: parseOne up to the item's stop or a second blank line after its first two lines. */
    method ItemBody(i: nat, stop: Stop, ghost w: nat) returns (consumed: nat, nodes: seq<Node>)
      requires Valid() && i < |tokens| && StopOk(stop, |ends.endPos|) && Wt(tokens, i) < w
      modifies this, outline, ends, tables
      ensures Valid() && Progress(i) && consumed <= |tokens| - i
      ensures ItemStops(stop, tokens, i, i + consumed)
      ensures (consumed == 0 <==> Holds(stop, old(tokens), i)) && (consumed == 0 ==> tokens == old(tokens))
      decreases |tokens| - i, w, 0
    {
      ghost var s0 := Snap();
      var j := i;
      nodes := [];
      while true
        invariant Valid() && i <= j <= |tokens| && StopOk(stop, |ends.endPos|)
        invariant Follows(s0, Snap(), i) && forall t :: t in tables && t !in old(tables) ==> fresh(t)
        invariant j == i ==> tokens == old(tokens)
        invariant j > i ==> !Holds(stop, old(tokens), i)
        decreases |tokens| - j
      {
        var s := Stopped(ends, stop, tokens, j);
        if s || (j > i + 1 && IsSecondBlankLine(tokens, j)) {
          break;
        }
        ghost var s1 := Snap();
        if j == i {
          assert Wt(tokens, i) == Wt(s0.tokens, i);
        }
        var c, node := ParseOne(j, stop);
        FollowsTrans(s0, s1, Snap(), i, j);
        StopOkGrows(stop, s1.drawers, |ends.endPos|);
        nodes := nodes + [node.value];
        j := j + c;
      }
      consumed := j - i;
    }

    // -------------------------------------------------------------------------
    // Keywords

    /**
     * parseKeyword: NAME names the node after it; SETUPFILE and INCLUDE, LINK and MACRO are
     * handled on their own line; CAPTION, ATTR_HTML, ENV and ATTR_LATEX attach to the node after
     * them and, when there is none, fall through to TBLFM, which extends the formulas of the
     * current table; any other keyword is recorded as a buffer setting.
     */
    method ParseKeyword(k: Keyword, i: nat, stop: Stop) returns (consumed: nat, node: Option<Node>)
      requires Valid() && i < |tokens| && tokens[i].kind == keyword && StopOk(stop, |ends.endPos|)
      requires k == Keywords.ParseKeyword(tokens[i])
      modifies this, outline, ends, tables
      ensures Valid() && Progress(i) && consumed <= |tokens| - i && (consumed > 0 ==> node.Some?)
      ensures match KindOf(k.key)
              case NameKey =>
                && (consumed == 0 <==> Holds(stop, old(tokens), i + 1))
                && (consumed > 0 ==> node.value.NodeWithName? && node.value.name == k.value
                                     && k.value in namedNodes && namedNodes[k.value] == node.value.node)
              case AffiliatedKey =>
                var e := ScanEnd(KeywordRun, stop, old(tokens), i);
                if AllAffiliated(old(tokens), i, e) && !Holds(stop, old(tokens), e) then
                  consumed > e - i && node.value.NodeWithMeta? && node.value.pos == k.pos && MetaBuilt(node.value.meta, old(tokens), i, e)
                else consumed == 1 && node == Some(KeywordNode(k))
              case FormulaKey => consumed == 1 && node == Some(KeywordNode(k))
              case _ => KeywordLineDone(k, consumed, node, old(links), old(macros), old(bufferSettings), old(lastKeywords))
      decreases |tokens| - i, Wt(tokens, i), 3
    {
      match KindOf(k.key)
      case NameKey =>
        consumed, node := ParseNodeWithName(k, i, stop);
      case AffiliatedKey =>
        consumed, node := ParseAffiliatedOrFormat(k, i, stop);
      case FormulaKey =>
        consumed, node := ParseAffiliatedOrFormat(k, i, stop);
      case _ =>
        consumed, node := KeywordOnOwnLine(k, i);
    }

    /** The keywords of parseKeyword that stand on their own line change nothing a parse must keep. */
    method KeywordOnOwnLine(k: Keyword, i: nat) returns (consumed: nat, node: Option<Node>)
      requires KindOf(k.key) in {SetupFileKey, IncludeKey, LinkKey, MacroKey, SettingKey}
      modifies this`links, this`macros, this`bufferSettings, this`lastKeywords
      ensures Progress(i)
      ensures KeywordLineDone(k, consumed, node, old(links), old(macros), old(bufferSettings), old(lastKeywords))
    {
      ghost var s0 := Snap();
      consumed, node := KeywordLine(k);
      assert Snap() == s0;
      FollowsByGrowth(s0, Snap(), i);
    }

    /** The affiliated keywords of parseKeyword, which fall through to TBLFM when no node takes them. */
    method ParseAffiliatedOrFormat(k: Keyword, i: nat, stop: Stop) returns (consumed: nat, node: Option<Node>)
      requires Valid() && i < |tokens| && tokens[i].kind == keyword && StopOk(stop, |ends.endPos|)
      requires k == Keywords.ParseKeyword(tokens[i]) && KindOf(k.key) in {AffiliatedKey, FormulaKey}
      modifies this, outline, ends, tables
      ensures Valid() && Progress(i) && consumed <= |tokens| - i && consumed > 0 && node.Some?
      ensures var e := ScanEnd(KeywordRun, stop, old(tokens), i);
              KindOf(k.key) == AffiliatedKey ==>
                if AllAffiliated(old(tokens), i, e) && !Holds(stop, old(tokens), e) then
                  consumed > e - i && node.value.NodeWithMeta? && node.value.pos == k.pos && MetaBuilt(node.value.meta, old(tokens), i, e)
                else consumed == 1 && node == Some(KeywordNode(k))
      ensures KindOf(k.key) == FormulaKey ==> consumed == 1 && node == Some(KeywordNode(k))
      decreases |tokens| - i, Wt(tokens, i), 2
    {
      consumed := 0;
      if KindOf(k.key) == AffiliatedKey {
        consumed, node := ParseAffiliated(i, stop);
      }
      if consumed == 0 {
        ghost var s1 := Snap();
        consumed, node := ParseTableFormat(k);
        FollowsByGrowth(s1, Snap(), i);
      }
    }

    /**
     * What the keywords of parseKeyword that stand on their own line do: SETUPFILE merges the
     * setup file's settings, INCLUDE makes an Include node, LINK and MACRO record a definition,
     * and any other key is a buffer setting and one more pending keyword.
     */
    ghost predicate KeywordLineDone(k: Keyword, consumed: nat, node: Option<Node>, links0: map<string, string>,
                                    macros0: map<string, string>, settings0: map<string, string>, pending0: seq<Keyword>)
      reads this
    {
      var kind := KindOf(k.key);
      && consumed == 1 && node == Some(if kind == IncludeKey then IncludeNode(ParseInclude(k)) else KeywordNode(k))
      && links == (if kind == LinkKey then Define(links0, LinkDefinition(k.value)) else links0)
      && macros == (if kind == MacroKey then Define(macros0, MacroDefinition(k.value)) else macros0)
      && bufferSettings == (if kind == SetupFileKey then SetupMerged(settings0, config.setupFile(k.value))
                            else if kind == SettingKey then BufferSetting(settings0, k) else settings0)
      && lastKeywords == (if kind == SettingKey then pending0 + [k] else pending0)
    }

    /** The keywords of parseKeyword that stand on their own line. */
    method KeywordLine(k: Keyword) returns (consumed: nat, node: Option<Node>)
      requires KindOf(k.key) in {SetupFileKey, IncludeKey, LinkKey, MacroKey, SettingKey}
      modifies this`links, this`macros, this`bufferSettings, this`lastKeywords
      ensures KeywordLineDone(k, consumed, node, old(links), old(macros), old(bufferSettings), old(lastKeywords))
    {
      match KindOf(k.key)
      case SetupFileKey =>
        consumed, node := LoadSetupFile(k);
      case IncludeKey =>
        consumed, node := 1, Some(IncludeNode(ParseInclude(k)));
      case LinkKey =>
        links := Define(links, LinkDefinition(k.value));
        consumed, node := 1, Some(KeywordNode(k));
      case MacroKey =>
        macros := Define(macros, MacroDefinition(k.value));
        consumed, node := 1, Some(KeywordNode(k));
      case SettingKey =>
        bufferSettings := BufferSetting(bufferSettings, k);
        lastKeywords := lastKeywords + [k];
        consumed, node := 1, Some(KeywordNode(k));
    }

    /** loadSetupFile: the buffer settings of the setup file, when it can be read, overwrite the document's. */
    method LoadSetupFile(k: Keyword) returns (consumed: nat, node: Option<Node>)
      modifies this`bufferSettings
      ensures consumed == 1 && node == Some(KeywordNode(k))
      ensures bufferSettings == SetupMerged(old(bufferSettings), config.setupFile(k.value))
    {
      var setup := config.setupFile(k.value);
      if setup.Some? {
        bufferSettings := bufferSettings + setup.value;
      }
      return 1, Some(KeywordNode(k));
    }

    /** The last table of the current headline, which #+TBLFM lines extend; none before the first headline. */
    function CurrentTable(): (t: Option<Table>)
      reads this, outline
      requires Valid()
      ensures t.Some? ==> t.value in tables
    {
      var ts := TablesOf(outline.sections[currentHeadline]);
      if |ts| > 0 then Some(ts[|ts| - 1]) else None
    }

    /** parseTableFormat: the keyword starts or extends the formulas of the current table. */
    method ParseTableFormat(k: Keyword) returns (consumed: nat, node: Option<Node>)
      requires Valid()
      modifies if CurrentTable().Some? then {CurrentTable().value} else {}
      ensures consumed == 1 && node == Some(KeywordNode(k)) && Snap() == old(Snap())
      ensures CurrentTable().Some? ==>
                var t := CurrentTable().value;
                t.formulas == Some(if old(t.formulas).None? then Formulas([k], []) else AppendKeyword(old(t.formulas).value, k))
    {
      var t := CurrentTable();
      if t.Some? {
        var table := t.value;
        if table.formulas.None? {
          table.formulas := Some(Formulas([k], []));
        } else {
          table.formulas := Some(AppendKeyword(table.formulas.value, k));
        }
      }
      return 1, Some(KeywordNode(k));
    }

    /** parseNodeWithName: the node after the keyword line, recorded under the keyword's value; nothing if the stop holds there. */
    method ParseNodeWithName(k: Keyword, i: nat, stop: Stop) returns (consumed: nat, node: Option<Node>)
      requires Valid() && i < |tokens| && StopOk(stop, |ends.endPos|)
      modifies this, outline, ends, tables
      ensures Valid() && Progress(i) && consumed <= |tokens| - i
      ensures (consumed == 0 <==> Holds(stop, old(tokens), i + 1)) && (consumed == 0 ==> node.None? && tokens == old(tokens))
      ensures consumed > 0 ==> && consumed >= 2 && node.Some? && node.value.NodeWithName? && node.value.name == k.value
                               && k.value in namedNodes && namedNodes[k.value] == node.value.node
      decreases |tokens| - i, Wt(tokens, i), 1
    {
      var s := Stopped(ends, stop, tokens, i + 1);
      if s {
        return 0, None;
      }
      ghost var s0 := Snap();
      var c, n := ParseOne(i + 1, stop);
      FollowsFrom(s0, Snap(), i, i + 1);
      namedNodes := namedNodes[k.value := n.value];
      consumed, node := c + 1, Some(NodeWithName(k.value, n.value));
    }

    /**
     * parseAffiliated: the keyword lines from token i, which must all be affiliated, then the
     * node after them, which takes their metadata; nothing when a line is not affiliated or the
     * stop holds after them.
     */
    method ParseAffiliated(i: nat, stop: Stop) returns (consumed: nat, node: Option<Node>)
      requires Valid() && i < |tokens| && tokens[i].kind == keyword && StopOk(stop, |ends.endPos|)
      modifies this, outline, ends, tables
      ensures Valid() && Progress(i) && consumed <= |tokens| - i
      ensures var e := ScanEnd(KeywordRun, stop, old(tokens), i);
              && (consumed > 0 <==> AllAffiliated(old(tokens), i, e) && !Holds(stop, old(tokens), e))
              && (consumed == 0 ==> node.None? && tokens == old(tokens))
              && (consumed > 0 ==> && consumed > e - i && node.Some? && node.value.NodeWithMeta?
                                   && node.value.pos == old(tokens[i]).pos && MetaBuilt(node.value.meta, old(tokens), i, e))
      decreases |tokens| - i, Wt(tokens, i), 1
    {
      ghost var s0 := Snap();
      var startPos := tokens[i].pos;
      var j, meta, ok := AffiliatedLines(i, stop);
      if !ok {
        return 0, None;
      }
      var s := Stopped(ends, stop, tokens, j);
      if s {
        return 0, None;
      }
      ghost var s1 := Snap();
      FollowsByGrowth(s0, s1, i);
      var c, n := ParseOne(j, stop);
      FollowsFrom(s1, Snap(), i, j);
      FollowsTrans(s0, s1, Snap(), i, i);
      consumed, node := j - i + c, Some(NodeWithMeta(startPos, n.value, meta));
    }

    /**
     * The loop of parseAffiliated: the metadata of the keyword lines from token i up to the stop
     * or a line that is not a keyword; ok is false at the first line with another key.
     */
    method AffiliatedLines(i: nat, stop: Stop) returns (j: nat, meta: Metadata, ok: bool)
      requires Valid() && i <= |tokens| && StopOk(stop, |ends.endPos|)
      modifies this`lastKeywords, outline, ends
      ensures Valid() && Snap() == old(Snap()).(sections := outline.sections)
      ensures outline.last == old(outline.last) && outline.count == old(outline.count)
      ensures |outline.sections| == |old(outline.sections)| && HeadsKept(old(outline.sections), outline.sections)
      ensures ok <==> AllAffiliated(tokens, i, ScanEnd(KeywordRun, stop, tokens, i))
      ensures ok ==> j == ScanEnd(KeywordRun, stop, tokens, i) && MetaBuilt(meta, tokens, i, j)
    {
      meta := NoMetadata;
      j := i;
      ghost var ts, s0 := tokens, outline.sections;
      while true
        invariant Valid() && tokens == ts && i <= j <= |ts| && Snap() == old(Snap()).(sections := outline.sections)
        invariant outline.last == old(outline.last) && outline.count == old(outline.count)
        invariant |outline.sections| == |s0| && HeadsKept(s0, outline.sections)
        invariant ScanEnd(KeywordRun, stop, ts, j) == ScanEnd(KeywordRun, stop, ts, i)
        invariant AllAffiliated(ts, i, j) && MetaBuilt(meta, ts, i, j)
        decreases |ts| - j
      {
        var more;
        more, ok := AffiliatedTest(i, j, stop);
        if !more {
          return;
        }
        meta := AffiliatedLine(i, j, meta, s0);
        j := j + 1;
      }
    }

    /** The test of parseAffiliated's loop at token j: on to the next line, or the verdict. */
    method AffiliatedTest(i: nat, j: nat, stop: Stop) returns (more: bool, ok: bool)
      requires Valid() && i <= j <= |tokens| && StopOk(stop, |ends.endPos|)
      requires ScanEnd(KeywordRun, stop, tokens, j) == ScanEnd(KeywordRun, stop, tokens, i) && AllAffiliated(tokens, i, j)
      modifies ends
      ensures Snap() == old(Snap())
      ensures more ==> j < |tokens| && ScanEnd(KeywordRun, stop, tokens, j + 1) == ScanEnd(KeywordRun, stop, tokens, i)
      ensures more ==> IsAffiliatedKey(Keywords.ParseKeyword(tokens[j]).key) && AllAffiliated(tokens, i, j + 1)
      ensures !more ==> (ok <==> AllAffiliated(tokens, i, ScanEnd(KeywordRun, stop, tokens, i)))
      ensures !more && ok ==> j == ScanEnd(KeywordRun, stop, tokens, i)
    {
      var s := Stopped(ends, stop, tokens, j);
      if s || tokens[j].kind != keyword {
        AffiliatedEnds(stop, tokens, i, j);
        return false, true;
      }
      if !IsAffiliatedKey(Keywords.ParseKeyword(tokens[j]).key) {
        AffiliatedBreaks(stop, tokens, i, j);
        return false, false;
      }
      ScanEndStep(KeywordRun, stop, tokens, j);
      return true, true;
    }

    /** One affiliated line of parseAffiliated's loop: its part of the metadata. */
    method AffiliatedLine(i: nat, j: nat, meta: Metadata, ghost s0: seq<Section>) returns (meta': Metadata)
      requires Valid() && i <= j < |tokens| && MetaBuilt(meta, tokens, i, j)
      requires IsAffiliatedKey(Keywords.ParseKeyword(tokens[j]).key)
      requires |outline.sections| == |s0| && HeadsKept(s0, outline.sections)
      modifies this`lastKeywords, outline
      ensures Valid() && outline.last == old(outline.last) && outline.count == old(outline.count)
      ensures |outline.sections| == |s0| && HeadsKept(s0, outline.sections)
      ensures Snap() == old(Snap()).(sections := outline.sections)
      ensures MetaBuilt(meta', tokens, i, j + 1)
    {
      ghost var before := outline.sections;
      var k := Keywords.ParseKeyword(tokens[j]);
      if k.key == "CAPTION" {
        var caption := InlineAt(k.value, j);
        CaptionStep(meta, caption, tokens, i, j);
        meta' := meta.(caption := meta.caption + [caption]);
      } else if k.key == "ATTR_HTML" {
        var attributes := SplitAttributes(k.value);
        HtmlStep(meta, tokens, i, j);
        meta' := meta.(htmlAttributes := meta.htmlAttributes + [attributes]);
      } else if k.key == "ATTR_LATEX" {
        var attributes := SplitAttributes(k.value);
        LatexStep(meta, tokens, i, j);
        meta' := meta.(latexAttributes := meta.latexAttributes + [attributes]);
      } else {
        EnvStep(meta, tokens, i, j);
        meta' := meta.(latexEnv := TrimSpace(k.value));
      }
      HeadsKeptTrans(s0, before, outline.sections);
    }

    // -------------------------------------------------------------------------
    // Tables

    /**
     * parseTable: the rows and separators up to the stop or a line of another kind make a new
     * table at the first line, with one layout per column; it is appended to the tables of the
     * current headline, if there is one. A stop that holds at once gives an empty table.
     */
    method ParseTable(i: nat, stop: Stop) returns (consumed: nat, node: Option<Node>)
      requires Valid() && i < |tokens| && StopOk(stop, |ends.endPos|)
      modifies this`lastKeywords, this`tables, outline, ends
      ensures Valid() && Progress(i) && tokens == old(tokens)
      ensures consumed == ScanEnd(TableRun, stop, tokens, i) - i
      ensures node.Some? && node.value.TableNode? && fresh(node.value.table) && tables == old(tables) + {node.value.table}
      ensures TableBuilt(node.value.table, tokens, i, ScanEnd(TableRun, stop, tokens, i), config.isNumeric)
      ensures var h := old(outline.sections[currentHeadline].headline);
              h.Some? ==> outline.sections[currentHeadline].headline.value.tables == h.value.tables + [node.value.table]
    {
      ghost var s0 := Snap();
      var j, rawRows, starts, rowEnds, separators := ScanTable(ends, stop, tokens, i);
      assert Snap() == s0;
      var table := NewTable(i, j, rawRows, starts, rowEnds, separators);
      AttachTable(table, s0.sections);
      FollowsByGrowth(s0, Snap(), i);
      consumed, node := j - i, Some(TableNode(table));
    }

    /** The table of parseTable from the rows and separators of tokens i to j. */
    method NewTable(i: nat, j: nat, rawRows: seq<seq<string>>, starts: seq<seq<Pos>>, rowEnds: seq<seq<Pos>>, separators: seq<int>)
      returns (table: Table)
      requires Valid() && i < |tokens| && i <= j <= |tokens|
      requires rawRows == TableRows(tokens, i, j) && separators == TableSeparators(tokens, i, i, j)
      requires starts == TableStarts(tokens, i, j) && rowEnds == TableEnds(tokens, i, j)
      modifies this`lastKeywords, outline
      ensures Valid() && fresh(table) && TableBuilt(table, tokens, i, j, config.isNumeric)
      ensures Snap() == old(Snap()).(sections := outline.sections)
      ensures outline.last == old(outline.last) && outline.count == old(outline.count)
      ensures HeadsKept(old(outline.sections), outline.sections) && Restamped(old(outline.sections), outline.sections, outline.last)
    {
      var infos := GetColumnInfos(rawRows, config.isNumeric);
      TableShape(tokens, i, j);
      ghost var s0 := outline.sections;
      var rows := BuildRows(rawRows, starts, rowEnds, |infos|, i);
      ghost var stamp :| outline.sections == WithTimestamp(s0, outline.last, stamp);
      WithTimestampKeeps(s0, outline.last, stamp, tables);
      table := new Table(rows, infos, separators, tokens[i].pos);
    }

    /**
     * The last lines of parseTable: the table goes to the current headline's tables, if there is
     * one. Since s0 the outline has changed at most in the last headline's timestamp.
     */
    method AttachTable(t: Table, ghost s0: seq<Section>)
      requires Valid() && t !in tables
      requires Restamped(s0, outline.sections, outline.last) && HeadsKept(s0, outline.sections)
      modifies this`tables, outline
      ensures Valid() && tables == old(tables) + {t} && HeadsKept(s0, outline.sections)
      ensures Snap() == old(Snap()).(sections := outline.sections, tables := tables)
      ensures currentHeadline < |s0| && var h := s0[currentHeadline].headline;
              h.Some? ==> outline.sections[currentHeadline].headline.value.tables == h.value.tables + [t]
    {
      ghost var s1 := outline.sections;
      ghost var stamp :| s1 == WithTimestamp(s0, outline.last, stamp);
      assert TablesOf(s1[currentHeadline]) == TablesOf(s0[currentHeadline]);
      var ch := outline.sections[currentHeadline].headline;
      if ch.Some? {
        var h := ch.value.(tables := ch.value.tables + [t]);
        TableAddedKnown(s1, currentHeadline, h, tables, t);
        outline.SetHeadline(currentHeadline, h);
        HeadsKeptBy(s1, outline.sections);
        HeadsKeptTrans(s0, s1, outline.sections);
      }
      tables := tables + {t};
    }

    /** The rows loop of parseTable: row r from its cells and their positions, with n columns. */
    method BuildRows(rawRows: seq<seq<string>>, starts: seq<seq<Pos>>, rowEnds: seq<seq<Pos>>, n: nat, ni: nat) returns (rows: seq<Row>)
      requires Valid() && |starts| == |rawRows| && |rowEnds| == |rawRows|
      requires forall r :: 0 <= r < |rawRows| ==> |starts[r]| == |rowEnds[r]|
      modifies this`lastKeywords, outline
      ensures Valid() && |rows| == |rawRows|
      ensures forall r :: 0 <= r < |rawRows| ==> RowBuilt(rows[r], rawRows[r], starts[r], rowEnds[r], n)
      ensures lastKeywords == old(lastKeywords) || lastKeywords == []
      ensures outline.last == old(outline.last) && outline.count == old(outline.count)
      ensures Restamped(old(outline.sections), outline.sections, outline.last)
    {
      rows := [];
      var r := 0;
      RestampedRefl(outline.sections, outline.last);
      while r < |rawRows|
        invariant Valid() && r <= |rawRows| && |rows| == r
        invariant forall q :: 0 <= q < r ==> RowBuilt(rows[q], rawRows[q], starts[q], rowEnds[q], n)
        invariant lastKeywords == old(lastKeywords) || lastKeywords == []
        invariant outline.last == old(outline.last) && outline.count == old(outline.count)
        invariant Restamped(old(outline.sections), outline.sections, outline.last)
      {
        ghost var s1 := outline.sections;
        var row := BuildRow(rawRows[r], starts[r], rowEnds[r], n, ni);
        RestampedTrans(old(outline.sections), s1, outline.sections, outline.last);
        rows := rows + [row];
        r := r + 1;
      }
    }

    /** One row of parseTable: no columns for a row without cells, else n columns, inline cells parsed at ni. */
    method BuildRow(cells: seq<string>, starts: seq<Pos>, ends: seq<Pos>, n: nat, ni: nat) returns (row: Row)
      requires Valid() && |starts| == |ends|
      modifies this`lastKeywords, outline
      ensures Valid() && RowBuilt(row, cells, starts, ends, n)
      ensures lastKeywords == old(lastKeywords) || lastKeywords == []
      ensures outline.last == old(outline.last) && outline.count == old(outline.count)
      ensures Restamped(old(outline.sections), outline.sections, outline.last)
    {
      var columns := [];
      ghost var s0 := outline.sections;
      RestampedRefl(s0, outline.last);
      if |cells| != 0 {
        var c := 0;
        while c < n
          invariant Valid() && c <= n && |columns| == c
          invariant forall m :: 0 <= m < c ==> ColumnBuilt(columns[m], cells, starts, ends, m)
          invariant lastKeywords == old(lastKeywords) || lastKeywords == []
          invariant outline.last == old(outline.last) && outline.count == old(outline.count)
          invariant Restamped(s0, outline.sections, outline.last)
        {
          var children := [];
          if c < |cells| {
            ghost var s1 := outline.sections;
            children := InlineAt(cells[c], ni);
            RestampedTrans(s0, s1, outline.sections, outline.last);
          }
          columns := columns + [Column(ColumnStart(starts, ends, c), ColumnEnd(starts, ends, c), children, c)];
          c := c + 1;
        }
      }
      row := Row(columns, IsSpecialRow(cells));
    }
  }

  /**
   * Configuration.Parse: a new document over the lines of the input, tokenized one token per
   * line and parsed by parseMany from the first token with a stop that holds only past the last;
   * so every token is consumed, and the top-level nodes are what parseMany makes of them.
   */
  method Parse(config: Config, lines: seq<string>) returns (d: Document)
    requires forall k :: 0 <= k < |lines| ==> NoNewline(lines[k])
    ensures fresh(d) && d.Valid() && d.config == config && |d.tokens| == |lines| && d.baseLvl == 0
    ensures exists spans: seq<nat> :: |spans| == |d.nodes| && Sum(spans) == |lines| && forall k :: 0 <= k < |spans| ==> spans[k] >= 1
  {
    d := new Document(config);
    d.Tokenize(lines);
    var consumed, nodes, spans := d.ParseMany(0, Root);
    d.nodes := nodes;
  }
}
