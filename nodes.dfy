// The block-level node types the parser builds (org/headline.go, org/list.go, org/block.go,
// org/drawer.go, org/keyword.go, org/paragraph.go, org/footnote.go) and their GetEnd methods.
module Nodes {
  import opened Wrappers
  import opened Lexer
  import Inline
  import opened Keywords
  import opened OrgTable
  import opened Drawers

  /** A SCHEDULED/DEADLINE/CLOSED entry: the date code's result is an abstract optional date. */
  datatype SDC = SDC(pos: Pos, date: Option<Inline.OrgDate>, dateType: int)

  /** What CAPTION, ATTR_HTML, ATTR_LATEX and ENV lines attach to the node that follows them. */
  datatype Metadata = Metadata(caption: seq<seq<Inline.Node>>, htmlAttributes: seq<seq<string>>,
                               latexAttributes: seq<seq<string>>, latexEnv: string)

  const NoMetadata := Metadata([], [], [], "")

  datatype Headline = Headline(
    pos: Pos,
    index: int,
    lvl: int,
    status: string,
    priority: string,
    properties: PropertyDrawer?,
    scheduled: Option<SDC>,
    closed: Option<SDC>,
    deadline: Option<SDC>,
    timestamp: Option<Inline.Node>,
    title: seq<Inline.Node>,
    tags: seq<string>,
    children: seq<Node>,
    tables: seq<Table>)

  /** The headline as parseHeadline starts it: only the position and the level are set. */
  function NewHeadline(pos: Pos, lvl: int): (h: Headline)
    ensures h.pos == pos && h.lvl == lvl && h.index == 0 && h.status == "" && h.priority == ""
    ensures h.properties == null && h.tags == [] && h.children == [] && h.tables == []
    ensures h.scheduled.None? && h.deadline.None? && h.closed.None? && h.timestamp.None?
  {
    Headline(pos, 0, lvl, "", "", null, None, None, None, None, [], [], [], [])
  }

  datatype Node =
    | HeadlineNode(headline: Headline)
    | Paragraph(pos: Pos, endPos: Pos, inlines: seq<Inline.Node>)
    | HorizontalRule(pos: Pos)
    | Comment(pos: Pos, endPos: Pos, content: string)
    | KeywordNode(keyword: Keyword)
    | IncludeNode(inc: Include)
    | NodeWithName(name: string, node: Node)
    | NodeWithMeta(pos: Pos, node: Node, meta: Metadata)
    | List(kind: string, pos: Pos, items: seq<Node>)
    | ListItem(bullet: string, status: string, value: string, pos: Pos, children: seq<Node>)
    | DescriptiveListItem(bullet: string, status: string, pos: Pos, term: seq<Inline.Node>, details: seq<Node>)
    | Block(name: string, pos: Pos, endPos: Pos, parameters: seq<string>, children: seq<Node>, result: Option<Node>)
    | InlineNode(inline: Inline.Node)
    | Result(pos: Pos, node: Node)
    | Example(pos: Pos, inlines: seq<Inline.Node>)
    | Drawer(pos: Pos, endPos: Pos, name: string, children: seq<Node>)
    | PropertyDrawerNode(drawer: PropertyDrawer)
    | TableNode(table: Table)
    | FootnoteDefinition(pos: Pos, name: string, children: seq<Node>, isInline: bool)
    | SDCNode(sdc: SDC)

  /** The objects GetEnd reads: it follows wrappers and last children down to a drawer or a table. */
  function EndFootprint(n: Node): set<object>
    decreases n
  {
    match n
    case NodeWithName(_, m) => EndFootprint(m)
    case NodeWithMeta(_, m, _) => EndFootprint(m)
    case Result(_, m) => EndFootprint(m)
    case List(_, _, c) => if |c| == 0 then {} else EndFootprint(c[|c| - 1])
    case ListItem(_, _, _, _, c) => if |c| == 0 then {} else EndFootprint(c[|c| - 1])
    case DescriptiveListItem(_, _, _, _, c) => if |c| == 0 then {} else EndFootprint(c[|c| - 1])
    case FootnoteDefinition(_, _, c, _) => if |c| == 0 then {} else EndFootprint(c[|c| - 1])
    case PropertyDrawerNode(d) => {d}
    case TableNode(t) => {t}
    case _ => {}
  }

  /**
   * GetEnd of a block node. None where the source cannot answer: Paragraph.GetEnd reads its last
   * child without a guard, and Headline and SDC declare no GetEnd. List, ListItem,
   * DescriptiveListItem and FootnoteDefinition end where their last child ends, or at their own
   * position when they have none.
   */
  function GetEnd(n: Node): (r: Option<Pos>)
    reads EndFootprint(n)
    ensures n.HeadlineNode? || n.SDCNode? ==> r.None?
    ensures n.Paragraph? ==> (r.None? <==> |n.inlines| == 0)
    decreases n
  {
    match n
    case HeadlineNode(_) => None
    case SDCNode(_) => None
    case Paragraph(_, _, c) => if |c| == 0 then None else Some(Inline.GetEnd(c[|c| - 1]))
    case HorizontalRule(p) => Some(p)
    case Comment(_, e, _) => Some(e)
    case KeywordNode(k) => Some(k.endPos)
    case IncludeNode(inc) => Some(inc.endPos)
    case NodeWithName(_, m) => GetEnd(m)
    case NodeWithMeta(_, m, _) => GetEnd(m)
    case List(_, p, c) => if |c| == 0 then Some(p) else GetEnd(c[|c| - 1])
    case ListItem(_, _, _, p, c) => if |c| == 0 then Some(p) else GetEnd(c[|c| - 1])
    case DescriptiveListItem(_, _, p, _, c) => if |c| == 0 then Some(p) else GetEnd(c[|c| - 1])
    case Block(_, _, e, _, _, _) => Some(e)
    case InlineNode(m) => Some(Inline.GetEnd(m))
    case Result(_, m) => GetEnd(m)
    case Example(p, c) => if |c| == 0 then Some(p) else Some(Inline.GetEnd(c[|c| - 1]))
    case Drawer(_, e, _, _) => Some(e)
    case PropertyDrawerNode(d) => Some(d.endPos)
    case TableNode(t) => Some(TableEnd(t))
    case FootnoteDefinition(p, _, c, _) => if |c| == 0 then Some(p) else GetEnd(c[|c| - 1])
  }

  /** The nodes whose GetEnd is their own position or end position: a rule, and the containers without children. */
  lemma GetEndOwn(n: Node)
    ensures n.HorizontalRule? ==> GetEnd(n) == Some(n.pos)
    ensures n.Comment? || n.Block? || n.Drawer? ==> GetEnd(n) == Some(n.endPos)
    ensures n.List? && |n.items| == 0 ==> GetEnd(n) == Some(n.pos)
    ensures n.ListItem? && |n.children| == 0 ==> GetEnd(n) == Some(n.pos)
    ensures n.DescriptiveListItem? && |n.details| == 0 ==> GetEnd(n) == Some(n.pos)
    ensures n.FootnoteDefinition? && |n.children| == 0 ==> GetEnd(n) == Some(n.pos)
    ensures n.Example? && |n.inlines| == 0 ==> GetEnd(n) == Some(n.pos)
  {
  }
}
