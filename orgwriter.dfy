// The serialising rules of OrgWriter (org/org_writer.go) that do not depend on writing nested
// nodes: the line-break bookkeeping, keyword and property drawer lines, a headline's line with
// its tag column, and a table with padded cells and separator rows. What WriteNodes makes of
// nested nodes (a headline's title, a cell's children) is given as `render`.
module OrgWriter {
  import opened Wrappers
  import opened Strs
  import opened Lexer
  import Keywords
  import opened Drawers
  import opened OrgTable
  import Inline
  import Nodes

  // ---------------------------------------------------------------------------
  // Go's len: bytes of UTF-8

  /** The number of bytes UTF-8 takes for a character. */
  function Utf8Width(c: char): (n: nat)
    ensures 1 <= n <= 4 && (n == 1 <==> c as int < 0x80)
  {
    if c as int < 0x80 then 1 else if c as int < 0x800 then 2 else if c as int < 0x10000 then 3 else 4
  }

  /** len(s): the length of s in bytes. */
  function ByteLen(s: string): (n: nat)
    ensures |s| <= n <= 4 * |s|
  {
    if |s| == 0 then 0 else ByteLen(s[..|s| - 1]) + Utf8Width(s[|s| - 1])
  }

  lemma {:induction false} ByteLenAppend(a: string, b: string)
    ensures ByteLen(a + b) == ByteLen(a) + ByteLen(b)
    decreases |b|
  {
    if |b| > 0 {
      assert (a + b)[..|a + b| - 1] == a + b[..|b| - 1];
      ByteLenAppend(a, b[..|b| - 1]);
    } else {
      assert a + b == a;
    }
  }

  /** ASCII text takes one byte per character. */
  lemma {:induction false} ByteLenAscii(s: string)
    requires forall i :: 0 <= i < |s| ==> s[i] as int < 0x80
    ensures ByteLen(s) == |s|
    decreases |s|
  {
    if |s| > 0 {
      ByteLenAscii(s[..|s| - 1]);
    }
  }

  // ---------------------------------------------------------------------------
  // Line shapes

  /** WriteKeyword's line: `#+KEY:`, then a space and the value only when there is a value. */
  function KeywordLine(key: string, value: string): (s: string)
  {
    "#+" + key + ":" + (if value != "" then " " + value else "")
  }

  /** A line of WritePropertyDrawer: two spaces, `:KEY:`, then a space and the value when there is one. */
  function PropertyLineText(key: string, value: string): (s: string)
  {
    "  :" + key + ":" + (if value != "" then " " + value else "")
  }

  /** WriteHeadline up to the title: the stars, the status, the priority cookie, a space. */
  function HeadlinePrefix(lvl: nat, status: string, priority: string): (s: string)
  {
    Repeat('*', lvl) + (if status != "" then " " + status else "") + (if priority != "" then " [#" + priority + "]" else "") + " "
  }

  /** The tags, `:a:b:`. */
  function TagString(tags: seq<string>): (s: string)
  {
    ":" + Join(tags, ":") + ":"
  }

  /**
   * The tags after `written` bytes of the headline line: padded with spaces so that they end at
   * byte column `column` when there is room, else after one space; nothing without tags.
   */
  function TagsPart(column: int, written: nat, tags: seq<string>): (s: string)
  {
    if |tags| == 0 then ""
    else
      var t := TagString(tags);
      var n := column - ByteLen(t) - written;
      if n > 0 then Spaces(n) + t else " " + t
  }

  /** The first line WriteHeadline writes, up to its line break, the title rendered as `title`. */
  function HeadlineLine(column: int, lvl: nat, status: string, priority: string, title: string, tags: seq<string>): (s: string)
  {
    var p := HeadlinePrefix(lvl, status, priority) + title;
    p + TagsPart(column, ByteLen(p), tags)
  }

  // ---------------------------------------------------------------------------
  // Tables

  /** The columns' widths as the table is written: the width each cell is padded to. */
  function CellWidth(info: ColumnInfo): (w: int)
  {
    Max(info.len, 1)
  }

  /**
   * How many of a cell's n padding spaces WriteTable puts before the content: all of them (right),
   * half with the odd one in front (center), or none.
   */
  function LeadingPad(align: string, n: nat): (l: nat)
    ensures l <= n
  {
    if align == "center" then n - n / 2 else if align == "right" then n else 0
  }

  /**
   * A cell's content as WriteTable pads it to the column: empty content stands as a space, and
   * n = the column's width less the content's runes, or 0, spaces surround it as LeadingPad says.
   */
  function Padded(content: string, info: ColumnInfo): (s: string)
  {
    var c := if content == "" then " " else content;
    var n := Max(info.len - |c|, 0);
    var l := LeadingPad(info.align, n);
    Spaces(l) + c + Spaces(n - l)
  }

  /** Where the content lies in its padded cell: after the spaces (right), in the middle with the odd space in front (center), or first. */
  lemma PaddedShape(content: string, info: ColumnInfo)
    ensures var s := Padded(content, info);
            var c := if content == "" then " " else content;
            var n := Max(info.len - |c|, 0);
            && |s| == Max(info.len, |c|)
            && (info.align == "right" ==> s[n..] == c && AllSpace(s[..n]))
            && (info.align == "center" ==> s[n - n / 2..n - n / 2 + |c|] == c && AllSpace(s[..n - n / 2]) && AllSpace(s[n - n / 2 + |c|..]))
            && (info.align != "right" && info.align != "center" ==> s[..|c|] == c && AllSpace(s[|c|..]))
  {
    var s := Padded(content, info);
    var c := if content == "" then " " else content;
    var n := Max(info.len - |c|, 0);
    var l := LeadingPad(info.align, n);
    assert s[..l] == Spaces(l) && s[l..l + |c|] == c && s[l + |c|..] == Spaces(n - l);
  }

  /** The dashes of a separator row for the first k columns, each two wider than its column, joined by '+'. */
  function SeparatorCells(infos: seq<ColumnInfo>, k: nat): (s: string)
    requires k <= |infos|
  {
    if k == 0 then ""
    else SeparatorCells(infos, k - 1) + Repeat('-', CellWidth(infos[k - 1]) + 2) + (if k < |infos| then "+" else "")
  }

  /**
   * The dashes as org_writer.go:400 writes them: Len + 2 per column, which for a column whose
   * cells are all empty (Len 0) is one short of the " " its cells are written as. None where a
   * negative count would make strings.Repeat panic.
   */
  function SeparatorCellsAsWritten(infos: seq<ColumnInfo>, k: nat): (s: Option<string>)
    requires k <= |infos|
    ensures s.Some? <==> forall i :: 0 <= i < k ==> infos[i].len + 2 >= 0
  {
    if k == 0 then Some("")
    else
      match SeparatorCellsAsWritten(infos, k - 1)
      case None => None
      case Some(p) =>
        if infos[k - 1].len + 2 < 0 then None
        else Some(p + Repeat('-', infos[k - 1].len + 2) + (if k < |infos| then "+" else ""))
  }

  /** `| |` over `|-|`: the empty column's cell line is one wider than the separator as written, not than the corrected one. */
  lemma SeparatorMisaligned()
    ensures var infos := [ColumnInfo("", 0, 0)];
            var row := Row([Column(Pos(0, 0), Pos(0, 3), [], 0)], false);
            var render: seq<Inline.Node> -> string := _ => "";
            && SeparatorCellsAsWritten(infos, 1) == Some("--")
            && TableLine(row, infos, render) == "|   |"
            && |"|" + SeparatorCellsAsWritten(infos, 1).value + "|"| < |TableLine(row, infos, render)|
            && SeparatorLine(infos) == "|---|"
  {
    var infos := [ColumnInfo("", 0, 0)];
    assert SeparatorCellsAsWritten(infos, 0) == Some("");
    assert Repeat('-', 2) == "--";
    assert SeparatorCellsAsWritten(infos, 1) == Some("" + "--" + "");
    assert "" + "--" + "" == "--";
    assert Repeat('-', 3) == "---";
    assert Padded("", infos[0]) == " ";
  }

  /** A separator row: '|', the dashes of every column, '|'. */
  function SeparatorLine(infos: seq<ColumnInfo>): (s: string)
  {
    "|" + SeparatorCells(infos, |infos|) + "|"
  }

  /**
   * The column info a cell links to. The parser links every cell to the info of its column; an
   * unlinked cell, a nil pointer in Go, reads as an empty column.
   */
  function InfoOf(infos: seq<ColumnInfo>, col: Column): (info: ColumnInfo)
    ensures col.info < |infos| ==> info == infos[col.info]
  {
    if col.info < |infos| then infos[col.info] else ColumnInfo("", 0, 0)
  }

  /** A cell as WriteTable writes it: a space, the padded content, " |". */
  function CellText(content: string, info: ColumnInfo): (s: string)
  {
    " " + Padded(content, info) + " |"
  }

  /** The first k cells of a row. */
  function RowCells(columns: seq<Column>, infos: seq<ColumnInfo>, render: seq<Inline.Node> -> string, k: nat): (s: string)
    requires k <= |columns|
  {
    if k == 0 then "" else RowCells(columns, infos, render, k - 1) + CellText(render(columns[k - 1].children), InfoOf(infos, columns[k - 1]))
  }

  /** A table line: a separator row for a row without columns, else '|' and its cells. */
  function TableLine(row: Row, infos: seq<ColumnInfo>, render: seq<Inline.Node> -> string): (s: string)
  {
    if |row.columns| == 0 then SeparatorLine(infos) else "|" + RowCells(row.columns, infos, render, |row.columns|)
  }

  /** The width in characters every line of a table with these columns takes: three more than each column. */
  function TableWidth(infos: seq<ColumnInfo>, k: nat): (w: int)
    requires k <= |infos|
  {
    if k == 0 then 1 else TableWidth(infos, k - 1) + CellWidth(infos[k - 1]) + 3
  }

  lemma {:induction false} SeparatorCellsWidth(infos: seq<ColumnInfo>, k: nat)
    requires k <= |infos|
    ensures |SeparatorCells(infos, k)| == TableWidth(infos, k) - 1 - (if k == |infos| && k > 0 then 1 else 0)
  {
    if k > 0 {
      SeparatorCellsWidth(infos, k - 1);
    }
  }

  /** A column's cells fit it: their rendering is no wider than its width. */
  predicate Fits(columns: seq<Column>, infos: seq<ColumnInfo>, render: seq<Inline.Node> -> string) {
    forall c :: 0 <= c < |columns| ==> |render(columns[c].children)| <= CellWidth(InfoOf(infos, columns[c]))
  }

  /** A cell no wider than its column is written three characters wider than the column. */
  lemma CellTextWidth(content: string, info: ColumnInfo)
    requires |content| <= CellWidth(info)
    ensures |CellText(content, info)| == CellWidth(info) + 3
  {
  }

  lemma {:induction false} RowCellsWidth(columns: seq<Column>, infos: seq<ColumnInfo>, render: seq<Inline.Node> -> string, k: nat)
    requires k <= |columns| <= |infos|
    requires forall c :: 0 <= c < k ==> |CellText(render(columns[c].children), InfoOf(infos, columns[c]))| == CellWidth(infos[c]) + 3
    ensures |RowCells(columns, infos, render, k)| == TableWidth(infos, k) - 1
  {
    if k > 0 {
      RowCellsWidth(columns, infos, render, k - 1);
      var t := CellText(render(columns[k - 1].children), InfoOf(infos, columns[k - 1]));
      assert |t| == CellWidth(infos[k - 1]) + 3;
      assert |RowCells(columns, infos, render, k)| == |RowCells(columns, infos, render, k - 1)| + |t|;
    }
  }

  /**
   * Every line of a table comes out equally wide when each row has a column per column info, in
   * order, and no cell is wider than its column: separator rows line up with the cells.
   */
  lemma TableLinesAligned(rows: seq<Row>, infos: seq<ColumnInfo>, render: seq<Inline.Node> -> string, r: nat)
    requires r < |rows| && |infos| > 0
    requires |rows[r].columns| == 0 || |rows[r].columns| == |infos|
    requires forall c :: 0 <= c < |rows[r].columns| ==> rows[r].columns[c].info == c
    requires Fits(rows[r].columns, infos, render)
    ensures |TableLine(rows[r], infos, render)| == TableWidth(infos, |infos|)
  {
    if |rows[r].columns| == 0 {
      SeparatorCellsWidth(infos, |infos|);
    } else {
      var columns := rows[r].columns;
      forall c | 0 <= c < |infos|
        ensures |CellText(render(columns[c].children), InfoOf(infos, columns[c]))| == CellWidth(infos[c]) + 3
      {
        CellTextWidth(render(columns[c].children), InfoOf(infos, columns[c]));
      }
      RowCellsWidth(columns, infos, render, |infos|);
    }
  }

  /** After RecomputeColumnInfos every cell of a row fits its column. */
  lemma {:induction false} WidestFits(base: int, rows: seq<Row>, c: nat, render: seq<Inline.Node> -> string, r: nat)
    requires r < |rows| && c < |rows[r].columns|
    ensures |render(rows[r].columns[c].children)| <= Widest(base, rows, c, render)
    decreases |rows|
  {
    if r < |rows| - 1 {
      WidestFits(base, rows[..|rows| - 1], c, render, r);
    }
  }

  // ---------------------------------------------------------------------------
  // The written lines read back

  /** A run of n characters satisfying f, followed by one that does not or by the end, is the prefix run. */
  lemma {:induction false} PrefixRunAt(s: string, f: char -> bool, n: nat)
    requires n <= |s| && (forall i :: 0 <= i < n ==> f(s[i])) && (n < |s| ==> !f(s[n]))
    ensures PrefixRun(s, f) == n
    decreases n
  {
    if n > 0 {
      assert forall i :: 0 <= i < n - 1 ==> s[1..][i] == s[i + 1];
      PrefixRunAt(s[1..], f, n - 1);
    }
  }

  /** The first occurrence of c is where IndexChar finds it. */
  lemma {:induction false} IndexCharFirst(s: string, c: char, n: nat)
    requires n < |s| && s[n] == c && forall j :: 0 <= j < n ==> s[j] != c
    ensures IndexChar(s, c) == n
    decreases n
  {
    if n > 0 {
      assert forall j :: 0 <= j < n - 1 ==> s[1..][j] == s[j + 1];
      IndexCharFirst(s[1..], c, n - 1);
    }
  }

  /** A line starting `#+`, a letter, and a colon c characters further matches the keyword pattern there. */
  lemma MatchKeywordShape(line: string, c: nat)
    requires NoNewline(line) && |line| >= 4 && line[0] == '#' && line[1] == '+' && IsAsciiLetter(line[2])
    requires IndexChar(line[3..], ':') == c
    ensures 4 + c <= |line|
    ensures var after := line[4 + c..];
            MatchKeyword(line) == Some([line, "", line[2..3 + c], after, after[PrefixRun(after, IsReSpace)..]])
  {
    PrefixRunAt(line, IsReSpace, 0);
    assert line[0..] == line;
    assert line[..0] == "";
  }

  /** `#+KEY:` and what follows the colon match the keyword pattern with that key. */
  lemma MatchKeywordLine(key: string, after: string)
    requires |key| > 0 && IsAsciiLetter(key[0]) && NoNewline(key) && NoNewline(after)
    requires forall j :: 0 <= j < |key| ==> key[j] != ':'
    ensures var line := "#+" + key + ":" + after;
            NoNewline(line) && MatchKeyword(line) == Some([line, "", key, after, after[PrefixRun(after, IsReSpace)..]])
  {
    var line := "#+" + key + ":" + after;
    var n := |key|;
    assert NoNewline(line) by {
      NoNewlineConcat("#+", key);
      NoNewlineConcat("#+" + key, ":");
      NoNewlineConcat("#+" + key + ":", after);
    }
    assert line[3..] == key[1..] + ":" + after;
    assert forall j :: 0 <= j < n - 1 ==> (key[1..] + ":" + after)[j] == key[1..][j];
    IndexCharFirst(key[1..] + ":" + after, ':', n - 1);
    assert line[2..3 + (n - 1)] == key;
    assert line[4 + (n - 1)..] == after;
    MatchKeywordShape(line, n - 1);
  }

  /** The keyword line of a parsed keyword lexes and parses back to the same key and value. */
  lemma KeywordLineRoundTrip(k: Keywords.Keyword, row: int)
    requires |k.key| > 0 && IsAsciiLetter(k.key[0]) && NoNewline(k.key)
    requires forall j :: 0 <= j < |k.key| ==> k.key[j] != ':'
    requires ToUpper(k.key) == k.key && NoNewline(k.value)
    requires |k.value| > 0 ==> !IsSpace(k.value[0]) && !IsSpace(k.value[|k.value| - 1])
    ensures var line := KeywordLine(k.key, k.value);
            && NoNewline(line)
            && LexKeywordOrComment(line, row, 0).Some?
            && var t := LexKeywordOrComment(line, row, 0).value;
               t.kind == keyword && Keywords.ParseKeyword(t).key == k.key && Keywords.ParseKeyword(t).value == k.value
  {
    var after := if k.value != "" then " " + k.value else "";
    NoNewlineConcat(" ", k.value);
    MatchKeywordLine(k.key, after);
    var line := "#+" + k.key + ":" + after;
    assert KeywordLine(k.key, k.value) == line;
    var v := after[PrefixRun(after, IsReSpace)..];
    if k.value != "" {
      ReSpaceIsSpace(k.value[0]);
      assert PrefixRun(after, IsReSpace) == 1;
      assert v == k.value;
      TrimSpaceOfNonSpace(k.value);
    } else {
      assert v == "";
    }
    assert TrimSpace(v) == k.value;
  }

  /** A written property line matches the property pattern with the same key and value. */
  lemma PropertyLineRoundTrip(key: string, value: string)
    requires |key| > 0 && (forall i :: 0 <= i < |key| ==> !IsReSpace(key[i]))
    requires |value| > 0 ==> !IsReSpace(value[0])
    ensures MatchProperty(PropertyLineText(key, value)) == Some(PropertyLine("  ", key, if value != "" then " " else "", value))
  {
    var p := PropertyLine("  ", key, if value != "" then " " else "", value);
    assert PropertyLineText(key, value) == p.lead + ":" + p.key + ":" + p.blanks + p.value;
    MatchPropertyComplete(PropertyLineText(key, value), p);
  }

  /** A headline line begins with its level's stars and a space. */
  lemma PrefixStars(lvl: nat, status: string, priority: string, rest: string)
    ensures var s := HeadlinePrefix(lvl, status, priority) + rest;
            |s| > lvl && s[lvl] == ' ' && forall i :: 0 <= i < lvl ==> s[i] == '*'
  {
    var tail := (if status != "" then " " + status else "") + (if priority != "" then " [#" + priority + "]" else "") + " ";
    assert HeadlinePrefix(lvl, status, priority) + rest == Repeat('*', lvl) + (tail + rest);
    assert tail[0] == ' ';
  }

  /** A written headline line lexes as a headline of the same level. */
  lemma HeadlineLineLexes(column: int, lvl: nat, status: string, priority: string, title: string, tags: seq<string>, row: int)
    requires lvl > 0
    ensures var text := HeadlineLine(column, lvl, status, priority, title, tags);
            NoNewline(text) ==> LexHeadline(text, row, 0).Some? && |Group(LexHeadline(text, row, 0).value, 1)| == lvl
  {
    var text := HeadlineLine(column, lvl, status, priority, title, tags);
    var p := HeadlinePrefix(lvl, status, priority) + title;
    assert text == HeadlinePrefix(lvl, status, priority) + (title + TagsPart(column, ByteLen(p), tags));
    PrefixStars(lvl, status, priority, title + TagsPart(column, ByteLen(p), tags));
    if NoNewline(text) {
      StarsLexHeadline(text, lvl, row);
    }
  }

  /** A line of lvl stars and a space lexes as a headline of level lvl. */
  lemma StarsLexHeadline(text: string, lvl: nat, row: int)
    requires NoNewline(text) && 0 < lvl < |text| && text[lvl] == ' ' && forall i :: 0 <= i < lvl ==> text[i] == '*'
    ensures LexHeadline(text, row, 0).Some? && |Group(LexHeadline(text, row, 0).value, 1)| == lvl
  {
    PrefixRunAt(text, c => c == '*', lvl);
  }

  /** The tags end at the tag column when the line leaves room for them, else one space separates them from the title. */
  lemma TagsEndAtColumn(column: int, written: nat, tags: seq<string>)
    requires |tags| > 0
    ensures var t := TagString(tags);
            var s := TagsPart(column, written, tags);
            && (written + ByteLen(t) < column ==> written + ByteLen(s) == column && s[|s| - |t|..] == t && AllSpace(s[..|s| - |t|]))
            && (written + ByteLen(t) >= column ==> s == " " + t)
  {
    var t := TagString(tags);
    var n := column - ByteLen(t) - written;
    if n > 0 {
      ByteLenAscii(Spaces(n));
      ByteLenAppend(Spaces(n), t);
      assert (Spaces(n) + t)[..n] == Spaces(n);
    }
  }

  // ---------------------------------------------------------------------------
  // The writer

  /** IsAfterNewline: the node being written comes right after the one that ended with a line break. */
  predicate AfterNewline(idx: int, lastLineBreak: int) {
    lastLineBreak >= 0 && idx == lastLineBreak + 1
  }

  class OrgWriter {
    var out: string
    var tagsColumn: int
    var indent: string
    var idx: int
    var lastLineBreak: int
    var doIndent: bool

    /** NewOrgWriter: the tag column at 77, no line break yet, indenting on. */
    constructor ()
      ensures out == "" && tagsColumn == 77 && indent == "" && idx == 0 && lastLineBreak == -1 && doIndent
      ensures !IsAfterNewline()
    {
      out, tagsColumn, indent, idx, lastLineBreak, doIndent := "", 77, "", 0, -1, true;
    }

    predicate IsAfterNewline()
      reads this
    {
      AfterNewline(idx, lastLineBreak)
    }

    method NodeIdx(i: int)
      modifies this`idx
      ensures idx == i
    {
      idx := i;
    }

    /** ResetLineBreak: no node counts as after a line break until the next one is set. */
    method ResetLineBreak()
      modifies this`lastLineBreak
      ensures lastLineBreak == -1 && forall i :: !AfterNewline(i, lastLineBreak)
    {
      lastLineBreak := -1;
    }

    method SetIndentState(state: bool)
      modifies this`doIndent
      ensures doIndent == state
    {
      doIndent := state;
    }

    /** SetLineBreak: the current node ends with a line break, so the next one is after it. */
    method SetLineBreak()
      modifies this`lastLineBreak
      ensures lastLineBreak == old(idx) && (idx >= 0 ==> AfterNewline(idx + 1, lastLineBreak))
    {
      lastLineBreak := idx;
    }

    method SetLineBreakAs(i: int)
      modifies this`lastLineBreak
      ensures lastLineBreak == i
    {
      lastLineBreak := i;
    }

    /** What WriteIndent writes: the indent, if indenting is on. */
    function IndentText(): string
      reads this
    {
      if doIndent then indent else ""
    }

    method WriteIndent()
      modifies this`out
      ensures out == old(out) + old(IndentText())
    {
      if doIndent {
        out := out + indent;
      }
    }

    /** WriteKeyword: one indented keyword line, which ends with a line break. */
    method WriteKeyword(k: Keywords.Keyword)
      modifies this`out, this`lastLineBreak
      ensures out == old(out) + old(IndentText()) + KeywordLine(k.key, k.value) + "\n"
      ensures lastLineBreak == idx
    {
      WriteIndent();
      out := out + "#+" + k.key + ":";
      if k.value != "" {
        out := out + " " + k.value;
      }
      out := out + "\n";
      SetLineBreak();
    }

    /** WritePropertyDrawer: `:PROPERTIES:`, a line per property, `:END:`, each indented. */
    method WritePropertyDrawer(d: PropertyDrawer)
      modifies this`out, this`lastLineBreak
      ensures var ind := old(IndentText());
              out == old(out) + ind + ":PROPERTIES:\n" + PropertyLines(ind, d.properties, |d.properties|) + ind + ":END:\n"
      ensures lastLineBreak == idx
    {
      var ind := if doIndent then indent else "";
      var props := d.properties;
      var lines := "";
      var i := 0;
      while i < |props|
        invariant i <= |props| && lines == PropertyLines(ind, props, i) && out == old(out)
      {
        var (k, v) := props[i];
        lines := lines + ind + "  :" + k + ":" + (if v != "" then " " + v else "") + "\n";
        i := i + 1;
      }
      out := out + ind + ":PROPERTIES:\n" + lines + ind + ":END:\n";
      SetLineBreak();
    }

    /** The first line of WriteHeadline, the title rendered; the properties and children that follow are not part of this model. */
    method WriteHeadlineLine(h: Nodes.Headline, render: seq<Inline.Node> -> string)
      requires h.lvl >= 0
      modifies this`out
      ensures out == old(out) + HeadlineLine(tagsColumn, h.lvl, h.status, h.priority, render(h.title), h.tags) + "\n"
    {
      var prefix := PrefixText(h.lvl, h.status, h.priority);
      var line := prefix + render(h.title);
      var tags := TagsText(tagsColumn, ByteLen(line), h.tags);
      out := out + line + tags + "\n";
    }

    /** WriteTable: a line per row, each indented, then the table counts as ending with a line break. */
    method WriteTable(t: Table, render: seq<Inline.Node> -> string)
      modifies this`out, this`lastLineBreak
      ensures out == old(out) + TableText(old(IndentText()), t.rows, t.columnInfos, render, |t.rows|)
      ensures lastLineBreak == idx
    {
      var ind := if doIndent then indent else "";
      var rows, infos := t.rows, t.columnInfos;
      var text := "";
      var r := 0;
      while r < |rows|
        invariant r <= |rows| && text == TableText(ind, rows, infos, render, r) && out == old(out)
      {
        var line := TableRowLine(rows[r], infos, render);
        text := text + ind + line + "\n";
        r := r + 1;
      }
      assert rows == t.rows && infos == t.columnInfos && ind == old(IndentText());
      out := out + text;
      SetLineBreak();
    }
  }

  /** One line of WriteTable: a separator row for a row without columns, else its cells. */
  method TableRowLine(row: Row, infos: seq<ColumnInfo>, render: seq<Inline.Node> -> string) returns (line: string)
    ensures line == TableLine(row, infos, render)
  {
    if |row.columns| == 0 {
      var cells := SeparatorRow(infos);
      line := "|" + cells + "|";
    } else {
      var cells := CellsRow(row.columns, infos, render);
      line := "|" + cells;
    }
  }

  /** WriteTable's loop over the column infos for a separator row. */
  method SeparatorRow(infos: seq<ColumnInfo>) returns (cells: string)
    ensures cells == SeparatorCells(infos, |infos|)
  {
    cells := "";
    var i := 0;
    while i < |infos|
      invariant i <= |infos| && cells == SeparatorCells(infos, i)
    {
      cells := cells + Repeat('-', CellWidth(infos[i]) + 2);
      if i < |infos| - 1 {
        cells := cells + "+";
      }
      i := i + 1;
    }
  }

  /** WriteTable's loop over the cells of a row. */
  method CellsRow(columns: seq<Column>, infos: seq<ColumnInfo>, render: seq<Inline.Node> -> string) returns (cells: string)
    ensures cells == RowCells(columns, infos, render, |columns|)
  {
    cells := "";
    for c := 0 to |columns|
      invariant cells == RowCells(columns, infos, render, c)
    {
      cells := cells + CellText(render(columns[c].children), InfoOf(infos, columns[c]));
    }
  }

  /** A headline line up to its title. */
  method PrefixText(lvl: nat, status: string, priority: string) returns (line: string)
    ensures line == HeadlinePrefix(lvl, status, priority)
  {
    line := Repeat('*', lvl);
    if status != "" {
      line := line + " " + status;
    }
    if priority != "" {
      line := line + " [#" + priority + "]";
    }
    line := line + " ";
  }

  /** The tags of a headline line after `written` bytes, padded towards the tag column. */
  method TagsText(column: int, written: nat, tags: seq<string>) returns (s: string)
    ensures s == TagsPart(column, written, tags)
  {
    s := "";
    if |tags| != 0 {
      var tString := ":" + Join(tags, ":") + ":";
      var n := column - ByteLen(tString) - written;
      if n > 0 {
        s := Spaces(n) + tString;
      } else {
        s := " " + tString;
      }
    }
  }

  /** The lines of the first k properties, each indented: `  :KEY:` and the value after a space. */
  function PropertyLines(indent: string, props: seq<(string, string)>, k: nat): (s: string)
    requires k <= |props|
  {
    if k == 0 then "" else PropertyLines(indent, props, k - 1) + indent + PropertyLineText(props[k - 1].0, props[k - 1].1) + "\n"
  }

  /** The first k lines of a table, each indented and ended by a line break. */
  function TableText(indent: string, rows: seq<Row>, infos: seq<ColumnInfo>, render: seq<Inline.Node> -> string, k: nat): (s: string)
    requires k <= |rows|
  {
    if k == 0 then "" else TableText(indent, rows, infos, render, k - 1) + indent + TableLine(rows[k - 1], infos, render) + "\n"
  }
}
