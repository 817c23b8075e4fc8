// The table engine of org/table.go: column layout, the mapping from logical rows to physical rows,
// cell updates, roman numerals, formula targets (`@row$col` references and ranges), the lazy
// iterators over a range of cells, and the splitting of #+TBLFM values into formulas.
//
// A Go table is a *Table whose rows and cells are pointers updated in place; here the table is a
// class whose rows are values that its methods replace. A cell's *ColumnInfo points into the
// table's ColumnInfos slice; here it is the index of that entry.
module OrgTable {
  import opened Wrappers
  import opened Strs
  import opened Lexer
  import Inline
  import opened Keywords

  datatype ColumnInfo = ColumnInfo(align: string, len: int, displayLen: int)

  datatype Column = Column(pos: Pos, endPos: Pos, children: seq<Inline.Node>, info: nat)

  datatype Row = Row(columns: seq<Column>, isSpecial: bool)

  datatype RowColRef = RowColRef(row: int, col: int, relativeCol: bool, relativeRow: bool)
  {
    predicate IsEntireRow() { col == -1 }
    predicate IsEntireCol() { row == -1 }
  }

  const ZeroRef := RowColRef(0, 0, false, false)

  datatype FormulaTarget = FormulaTarget(raw: string, start: RowColRef, end: RowColRef)

  datatype Formula = Formula(keyword: Keyword, formulaStr: string, subKeywordIndex: int,
                             target: Option<FormulaTarget>, expr: string, format: string, valid: bool)

  datatype Formulas = Formulas(keywords: seq<Keyword>, formulas: seq<Formula>)

  // ---------------------------------------------------------------------------
  // Column layout (getColumnInfos, isSpecialRow)

  /** `^<(l|c|r)?(\d+)?>$`: the alignment letter (or "") and the width digits (or ""). */
  function MatchAlign(s: string): Option<(string, string)>
  {
    if |s| < 2 || s[0] != '<' || s[|s| - 1] != '>' then None
    else
      var inner := s[1..|s| - 1];
      var a := if |inner| == 0 then "" else if inner[0] == 'l' then "l"
               else if inner[0] == 'c' then "c" else if inner[0] == 'r' then "r" else "";
      var d := inner[|a|..];
      if AllDigits(d) then Some((a, d)) else None
  }

  /** A recognised directive is `<`, the letter, the digits and `>`. */
  lemma MatchAlignSound(s: string)
    ensures MatchAlign(s).Some? ==> var m := MatchAlign(s).value;
              s == "<" + m.0 + m.1 + ">" && m.0 in {"", "l", "c", "r"} && AllDigits(m.1)
  {
    if MatchAlign(s).Some? {
      var inner := s[1..|s| - 1];
      var m := MatchAlign(s).value;
      assert inner == inner[..|m.0|] + m.1 && inner[..|m.0|] == m.0;
      assert s == [s[0]] + inner + [s[|s| - 1]];
    }
  }

  /** Every directive `<` letter? digits* `>` is recognised, with its two parts. */
  lemma MatchAlignComplete(a: string, d: string)
    requires a in {"", "l", "c", "r"} && AllDigits(d)
    ensures MatchAlign("<" + a + d + ">") == Some((a, d))
  {
    var s := "<" + a + d + ">";
    assert s[1..|s| - 1] == a + d;
    if a == "" && |d| > 0 {
      assert (a + d)[0] == d[0];
    }
  }

  /** isSpecialRow: every cell is empty or an alignment directive. */
  predicate IsSpecialRow(cells: seq<string>)
  {
    forall k :: 0 <= k < |cells| ==> cells[k] == "" || MatchAlign(cells[k]).Some?
  }

  /** A cell that getColumnInfos reads as a directive: an alignment cell in a special row. */
  predicate IsDirective(cells: seq<string>, i: nat)
  {
    i < |cells| && MatchAlign(cells[i]).Some? && IsSpecialRow(cells)
  }

  function Max(a: int, b: int): int { if a < b then b else a }

  function MaxColumns(rows: seq<seq<string>>): (n: nat)
    ensures forall r :: 0 <= r < |rows| ==> |rows[r]| <= n
    ensures n == 0 || exists r :: 0 <= r < |rows| && |rows[r]| == n
  {
    if |rows| == 0 then 0 else Max(MaxColumns(rows[..|rows| - 1]), |rows[|rows| - 1]|)
  }

  /** The largest rune count of a cell in column i. */
  function MaxLen(rows: seq<seq<string>>, i: nat): (n: nat)
    ensures forall r :: 0 <= r < |rows| && i < |rows[r]| ==> |rows[r][i]| <= n
    ensures n == 0 || exists r :: 0 <= r < |rows| && i < |rows[r]| && |rows[r][i]| == n
  {
    if |rows| == 0 then 0
    else Max(MaxLen(rows[..|rows| - 1], i), if i < |rows[|rows| - 1]| then |rows[|rows| - 1][i]| else 0)
  }

  function AlignName(letter: string): string
  {
    if letter == "l" then "left" else if letter == "c" then "center" else if letter == "r" then "right" else ""
  }

  /** The alignment named by the last directive of column i that has a letter, or "". */
  function DirectiveAlign(rows: seq<seq<string>>, i: nat): (a: string)
    ensures a in {"", "left", "center", "right"}
  {
    if |rows| == 0 then ""
    else
      var last := rows[|rows| - 1];
      if IsDirective(last, i) && MatchAlign(last[i]).value.0 != "" then AlignName(MatchAlign(last[i]).value.0)
      else DirectiveAlign(rows[..|rows| - 1], i)
  }

  /** The width of the last directive of column i that has digits, or 0. */
  function DirectiveWidth(rows: seq<seq<string>>, i: nat): int
  {
    if |rows| == 0 then 0
    else
      var last := rows[|rows| - 1];
      if IsDirective(last, i) && MatchAlign(last[i]).value.1 != "" then DigitsValue(MatchAlign(last[i]).value.1)
      else DirectiveWidth(rows[..|rows| - 1], i)
  }

  /** The cells of column i that are numbers (strconv.ParseFloat accepts them). */
  function CountNumeric(rows: seq<seq<string>>, i: nat, isNumeric: string -> bool): nat
  {
    if |rows| == 0 then 0
    else
      var last := rows[|rows| - 1];
      CountNumeric(rows[..|rows| - 1], i, isNumeric)
      + (if i < |last| && !IsDirective(last, i) && isNumeric(last[i]) then 1 else 0)
  }

  /** The cells of column i that are neither directives, nor numbers, nor blank. */
  function CountText(rows: seq<seq<string>>, i: nat, isNumeric: string -> bool): nat
  {
    if |rows| == 0 then 0
    else
      var last := rows[|rows| - 1];
      CountText(rows[..|rows| - 1], i, isNumeric)
      + (if i < |last| && !IsDirective(last, i) && !isNumeric(last[i]) && TrimSpace(last[i]) != "" then 1 else 0)
  }

  /**
   * The layout of column i: the widest cell, the width of the last directive, and the alignment
   * of the last directive, or else "right" when numbers are at least as many as other text.
   */
  function LayoutOf(rows: seq<seq<string>>, i: nat, isNumeric: string -> bool): ColumnInfo
  {
    var a := DirectiveAlign(rows, i);
    ColumnInfo(if a == "" && CountNumeric(rows, i, isNumeric) >= CountText(rows, i, isNumeric) then "right" else a,
               MaxLen(rows, i), DirectiveWidth(rows, i))
  }

  /** A column in which every cell is empty is right-aligned. */
  lemma {:induction false} EmptyColumnIsRight(rows: seq<seq<string>>, i: nat, isNumeric: string -> bool)
    requires forall r :: 0 <= r < |rows| && i < |rows[r]| ==> rows[r][i] == ""
    ensures LayoutOf(rows, i, isNumeric).align == "right" && LayoutOf(rows, i, isNumeric).len == 0
  {
    EmptyColumnCounts(rows, i, isNumeric);
  }

  lemma {:induction false} EmptyColumnCounts(rows: seq<seq<string>>, i: nat, isNumeric: string -> bool)
    requires forall r :: 0 <= r < |rows| && i < |rows[r]| ==> rows[r][i] == ""
    ensures CountText(rows, i, isNumeric) == 0 && DirectiveAlign(rows, i) == "" && MaxLen(rows, i) == 0
    decreases |rows|
  {
    if |rows| > 0 {
      EmptyColumnCounts(rows[..|rows| - 1], i, isNumeric);
      assert TrimSpace("") == "";
    }
  }

  /** What the getColumnInfos scan of column i knows after some rows: the layout so far and the two counts. */
  datatype ColumnScan = ColumnScan(info: ColumnInfo, numeric: nat, text: nat)

  function ScanOf(rows: seq<seq<string>>, i: nat, isNumeric: string -> bool): ColumnScan
  {
    ColumnScan(ColumnInfo(DirectiveAlign(rows, i), MaxLen(rows, i), DirectiveWidth(rows, i)),
               CountNumeric(rows, i, isNumeric), CountText(rows, i, isNumeric))
  }

  /** What one more row does to the scan of column i. */
  function RowScan(sc: ColumnScan, columns: seq<string>, i: nat, isNumeric: string -> bool): ColumnScan
  {
    if i >= |columns| then sc
    else
      var info := sc.info.(len := Max(sc.info.len, |columns[i]|));
      if IsDirective(columns, i) then
        var m := MatchAlign(columns[i]).value;
        ColumnScan(info.(align := if m.0 != "" then AlignName(m.0) else info.align,
                         displayLen := if m.1 != "" then DigitsValue(m.1) else info.displayLen),
                   sc.numeric, sc.text)
      else if isNumeric(columns[i]) then ColumnScan(info, sc.numeric + 1, sc.text)
      else if TrimSpace(columns[i]) != "" then ColumnScan(info, sc.numeric, sc.text + 1)
      else ColumnScan(info, sc.numeric, sc.text)
  }

  /** The scan of column i over some rows and one more is one RowScan after the scan of the first rows. */
  lemma ScanOfAppend(prefix: seq<seq<string>>, columns: seq<string>, i: nat, isNumeric: string -> bool)
    ensures ScanOf(prefix + [columns], i, isNumeric) == RowScan(ScanOf(prefix, i, isNumeric), columns, i, isNumeric)
  {
    assert (prefix + [columns])[..|prefix|] == prefix;
  }

  /** One row of the scan of column i, as getColumnInfos does it. */
  method ScanRow(columns: seq<string>, i: nat, isNumeric: string -> bool, sc: ColumnScan) returns (sc': ColumnScan)
    ensures sc' == RowScan(sc, columns, i, isNumeric)
  {
    var info := sc.info;
    var countNumeric, countNonNumeric := sc.numeric, sc.text;
    if i < |columns| {
      var n := |columns[i]|;
      if n > info.len {
        info := info.(len := n);
      }
      var m := MatchAlign(columns[i]);
      if m.Some? && IsSpecialRow(columns) {
        if m.value.0 == "l" {
          info := info.(align := "left");
        } else if m.value.0 == "c" {
          info := info.(align := "center");
        } else if m.value.0 == "r" {
          info := info.(align := "right");
        }
        if m.value.1 != "" {
          info := info.(displayLen := DigitsValue(m.value.1));
        }
      } else if isNumeric(columns[i]) {
        countNumeric := countNumeric + 1;
      } else if TrimSpace(columns[i]) != "" {
        countNonNumeric := countNonNumeric + 1;
      }
    }
    sc' := ColumnScan(info, countNumeric, countNonNumeric);
  }

  /** The scan of one column by getColumnInfos. */
  method ColumnLayout(rows: seq<seq<string>>, i: nat, isNumeric: string -> bool) returns (info: ColumnInfo)
    ensures info == LayoutOf(rows, i, isNumeric)
  {
    var sc := ColumnScan(ColumnInfo("", 0, 0), 0, 0);
    var k := 0;
    while k < |rows|
      invariant k <= |rows| && sc == ScanOf(rows[..k], i, isNumeric)
    {
      assert rows[..k + 1] == rows[..k] + [rows[k]];
      ScanOfAppend(rows[..k], rows[k], i, isNumeric);
      sc := ScanRow(rows[k], i, isNumeric, sc);
      k := k + 1;
    }
    assert rows[..k] == rows;
    info := sc.info;
    if info.align == "" && sc.numeric >= sc.text {
      info := info.(align := "right");
    }
  }

  /** The layouts of the first n columns. */
  function Layouts(rows: seq<seq<string>>, n: nat, isNumeric: string -> bool): (r: seq<ColumnInfo>)
    ensures |r| == n
  {
    if n == 0 then [] else Layouts(rows, n - 1, isNumeric) + [LayoutOf(rows, n - 1, isNumeric)]
  }

  lemma {:induction false} LayoutsAt(rows: seq<seq<string>>, n: nat, isNumeric: string -> bool, j: nat)
    requires j < n
    ensures Layouts(rows, n, isNumeric)[j] == LayoutOf(rows, j, isNumeric)
  {
    if j < n - 1 {
      LayoutsAt(rows, n - 1, isNumeric, j);
    }
  }

  /** The number of columns of the longest row. */
  method ColumnCount(rows: seq<seq<string>>) returns (n: nat)
    ensures n == MaxColumns(rows)
  {
    n := 0;
    var k := 0;
    while k < |rows|
      invariant k <= |rows| && n == MaxColumns(rows[..k])
    {
      assert rows[..k + 1][..k] == rows[..k];
      if |rows[k]| > n {
        n := |rows[k]|;
      }
      k := k + 1;
    }
    assert rows[..k] == rows;
  }

  /** getColumnInfos: one layout per column of the longest row. */
  method GetColumnInfos(rows: seq<seq<string>>, isNumeric: string -> bool) returns (infos: seq<ColumnInfo>)
    ensures |infos| == MaxColumns(rows)
    ensures forall i :: 0 <= i < |infos| ==> infos[i] == LayoutOf(rows, i, isNumeric)
  {
    var columnCount := ColumnCount(rows);
    infos := [];
    var i := 0;
    while i < columnCount
      invariant i <= columnCount && infos == Layouts(rows, i, isNumeric)
    {
      var info := ColumnLayout(rows, i, isNumeric);
      infos := infos + [info];
      i := i + 1;
    }
    forall j | 0 <= j < |infos|
      ensures infos[j] == LayoutOf(rows, j, isNumeric)
    {
      LayoutsAt(rows, columnCount, isNumeric, j);
    }
  }

  /** Formulas.AppendKeyword: one more #+TBLFM line; the formulas processed so far stay. */
  function AppendKeyword(fs: Formulas, k: Keyword): (r: Formulas)
    ensures r.keywords == fs.keywords + [k] && r.formulas == fs.formulas
  {
    fs.(keywords := fs.keywords + [k])
  }

  // ---------------------------------------------------------------------------
  // The table

  class Table {
    var rows: seq<Row>
    var columnInfos: seq<ColumnInfo>
    var separatorIndices: seq<int>
    var pos: Pos
    var formulas: Option<Formulas>
    var cur: RowColRef

    /** A table as parseTable builds it: no formulas yet, the current cell at (1, 1). */
    constructor (rows: seq<Row>, columnInfos: seq<ColumnInfo>, separatorIndices: seq<int>, pos: Pos)
      ensures this.rows == rows && this.columnInfos == columnInfos
      ensures this.separatorIndices == separatorIndices && this.pos == pos
      ensures formulas == None && cur == RowColRef(1, 1, false, false)
    {
      this.rows, this.columnInfos, this.separatorIndices, this.pos := rows, columnInfos, separatorIndices, pos;
      formulas, cur := None, RowColRef(1, 1, false, false);
    }

    predicate IsSeparatorRow(row: int)
      reads this
    {
      row in separatorIndices
    }

    /** GetRealRowCol: the physical index of logical row `row`, and col - 1; (-1, -1) if there is none. */
    method GetRealRowCol(row: int, col: int) returns (r: int, c: int)
      ensures (r, c) == RealRowCol(|rows|, separatorIndices, row, col)
    {
      var specialCount := 0;
      var i := 0;
      while i < |rows|
        invariant i <= |rows| && specialCount == SepsBelow(separatorIndices, i)
        invariant RealRow(|rows|, separatorIndices, row, 0) == RealRow(|rows|, separatorIndices, row, i)
      {
        if IsSeparatorRow(i) {
          specialCount := specialCount + 1;
        }
        if i + 1 == row + specialCount {
          return i, col - 1;
        }
        i := i + 1;
      }
      return -1, -1;
    }

    /** GetValRef: a relative reference counts back from the current cell. */
    method GetValRef(ref: RowColRef, render: seq<Inline.Node> -> string) returns (v: string)
      ensures v == CellText(this, if ref.relativeRow then cur.row - ref.row else ref.row,
                            if ref.relativeCol then cur.col - ref.col else ref.col, render)
    {
      var row, col := ref.row, ref.col;
      if ref.relativeRow {
        row := cur.row - row;
      }
      if ref.relativeCol {
        col := cur.col - col;
      }
      v := GetVal(this, row, col, render);
    }

    /** RecomputeColumnInfos: each column's width grows to its widest rendered cell. */
    method RecomputeColumnInfos(render: seq<Inline.Node> -> string)
      requires forall r :: 0 <= r < |rows| ==> |rows[r].columns| <= |columnInfos|
      modifies this
      ensures rows == old(rows) && separatorIndices == old(separatorIndices) && pos == old(pos)
      ensures formulas == old(formulas) && cur == old(cur) && |columnInfos| == |old(columnInfos)|
      ensures forall c :: 0 <= c < |columnInfos| ==>
                columnInfos[c] == old(columnInfos[c]).(len := Widest(old(columnInfos[c]).len, rows, c, render))
    {
      var infos := columnInfos;
      var r := 0;
      while r < |rows|
        invariant r <= |rows| && unchanged(this) && WidenedBy(columnInfos, rows[..r], render, infos)
      {
        var infos' := WidenRow(infos, rows[r], render);
        WidenedStep(columnInfos, rows, r, render, infos, infos');
        infos := infos';
        r := r + 1;
      }
      assert rows[..r] == rows;
      columnInfos := infos;
    }
  }

  /** infos is base with each column widened to the widest rendering of its cells in rows. */
  predicate WidenedBy(base: seq<ColumnInfo>, rows: seq<Row>, render: seq<Inline.Node> -> string, infos: seq<ColumnInfo>)
  {
    |infos| == |base|
    && forall c :: 0 <= c < |infos| ==> infos[c] == base[c].(len := Widest(base[c].len, rows, c, render))
  }

  lemma WidenedStep(base: seq<ColumnInfo>, rows: seq<Row>, r: nat, render: seq<Inline.Node> -> string,
                    infos: seq<ColumnInfo>, infos': seq<ColumnInfo>)
    requires r < |rows| && WidenedBy(base, rows[..r], render, infos) && |infos'| == |infos|
    requires forall c :: 0 <= c < |infos| ==>
               infos'[c] == infos[c].(len := if c < |rows[r].columns| then Max(infos[c].len, |render(rows[r].columns[c].children)|) else infos[c].len)
    ensures WidenedBy(base, rows[..r + 1], render, infos')
  {
    forall c | 0 <= c < |infos'|
      ensures infos'[c] == base[c].(len := Widest(base[c].len, rows[..r + 1], c, render))
    {
      WidestAppend(base[c].len, rows[..r], rows[r], c, render);
      assert rows[..r + 1] == rows[..r] + [rows[r]];
    }
  }

  /** The larger of base and the widest rendering of a cell in column c. */
  function Widest(base: int, rows: seq<Row>, c: nat, render: seq<Inline.Node> -> string): (n: int)
    ensures base <= n
  {
    if |rows| == 0 then base
    else
      var last := rows[|rows| - 1];
      Max(Widest(base, rows[..|rows| - 1], c, render), if c < |last.columns| then |render(last.columns[c].children)| else base)
  }

  lemma WidestAppend(base: int, prefix: seq<Row>, row: Row, c: nat, render: seq<Inline.Node> -> string)
    ensures Widest(base, prefix + [row], c, render)
            == if c < |row.columns| then Max(Widest(base, prefix, c, render), |render(row.columns[c].children)|)
               else Widest(base, prefix, c, render)
  {
    assert (prefix + [row])[..|prefix|] == prefix;
  }

  /** Widest is the maximum: no rendered cell of column c is wider, and one is as wide unless base wins. */
  lemma {:induction false} WidestIsMax(base: int, rows: seq<Row>, c: nat, render: seq<Inline.Node> -> string)
    ensures forall r :: 0 <= r < |rows| && c < |rows[r].columns| ==> |render(rows[r].columns[c].children)| <= Widest(base, rows, c, render)
    ensures Widest(base, rows, c, render) == base
            || exists r :: 0 <= r < |rows| && c < |rows[r].columns| && Widest(base, rows, c, render) == |render(rows[r].columns[c].children)|
  {
    if |rows| > 0 {
      var prefix := rows[..|rows| - 1];
      WidestIsMax(base, prefix, c, render);
      assert forall r :: 0 <= r < |prefix| ==> prefix[r] == rows[r];
    }
  }

  /** One row of RecomputeColumnInfos: each of its cells may widen its column. */
  method WidenRow(infos: seq<ColumnInfo>, row: Row, render: seq<Inline.Node> -> string) returns (infos': seq<ColumnInfo>)
    requires |row.columns| <= |infos|
    ensures |infos'| == |infos|
    ensures forall c :: 0 <= c < |infos| ==>
              infos'[c] == infos[c].(len := if c < |row.columns| then Max(infos[c].len, |render(row.columns[c].children)|) else infos[c].len)
  {
    infos' := infos;
    var c := 0;
    while c < |row.columns|
      invariant c <= |row.columns| && |infos'| == |infos|
      invariant forall j :: 0 <= j < |infos| ==>
                  infos'[j] == infos[j].(len := if j < c then Max(infos[j].len, |render(row.columns[j].children)|) else infos[j].len)
    {
      var l := |render(row.columns[c].children)|;
      if l > infos'[c].len {
        infos' := infos'[c := infos'[c].(len := l)];
      }
      c := c + 1;
    }
  }

  // ---------------------------------------------------------------------------
  // Logical rows

  /** The number of separator rows among the first m rows. */
  function SepsBelow(seps: seq<int>, m: nat): (n: nat)
    ensures n <= m
  {
    if m == 0 then 0 else SepsBelow(seps, m - 1) + (if m - 1 in seps then 1 else 0)
  }

  /** The number of ordinary rows among the first m rows. */
  function DataRows(seps: seq<int>, m: nat): nat
  {
    m - SepsBelow(seps, m)
  }

  /** The first row index k <= r < n for which the ordinary rows up to and including r number `row`. */
  function RealRow(n: nat, seps: seq<int>, row: int, k: nat): (r: int)
    requires k <= n
    ensures r == -1 || k <= r < n
    ensures r >= 0 ==> DataRows(seps, r + 1) == row && forall m :: k < m <= r ==> DataRows(seps, m) != row
    ensures r == -1 ==> forall m :: k < m <= n ==> DataRows(seps, m) != row
    decreases n - k
  {
    if k == n then -1
    else if k + 1 == row + SepsBelow(seps, k + 1) then k
    else RealRow(n, seps, row, k + 1)
  }

  function RealRowCol(n: nat, seps: seq<int>, row: int, col: int): (int, int)
  {
    var r := RealRow(n, seps, row, 0);
    if r == -1 then (-1, -1) else (r, col - 1)
  }

  lemma {:induction false} DataRowsStep(seps: seq<int>, m: nat)
    ensures DataRows(seps, m + 1) == DataRows(seps, m) + (if m in seps then 0 else 1)
  {
  }

  lemma {:induction false} DataRowsMonotone(seps: seq<int>, a: nat, b: nat)
    requires a <= b
    ensures DataRows(seps, a) <= DataRows(seps, b)
    decreases b - a
  {
    if a < b {
      DataRowsStep(seps, b - 1);
      DataRowsMonotone(seps, a, b - 1);
    }
  }

  /**
   * For row >= 1 the physical row found is the row-th ordinary row: it is not a separator and
   * exactly row - 1 ordinary rows precede it; there is one exactly when the table has row ordinary rows.
   */
  lemma {:induction false} RealRowIsRowth(n: nat, seps: seq<int>, row: int)
    requires row >= 1
    ensures var r := RealRow(n, seps, row, 0);
            (r >= 0 <==> DataRows(seps, n) >= row)
            && (r >= 0 ==> r !in seps && DataRows(seps, r) == row - 1)
  {
    var r := RealRow(n, seps, row, 0);
    if r >= 0 {
      DataRowsStep(seps, r);
      if r > 0 {
        DataRowsStep(seps, r - 1);
        DataRowsBelowTarget(seps, row, r);
      }
      DataRowsMonotone(seps, r + 1, n);
    } else if DataRows(seps, n) >= row {
      DataRowsReach(seps, row, n);
    }
  }

  /** Below the first index that reaches row, the count stays under row. */
  lemma {:induction false} DataRowsBelowTarget(seps: seq<int>, row: int, r: nat)
    requires row >= 1
    requires forall m :: 0 < m <= r ==> DataRows(seps, m) != row
    ensures DataRows(seps, r) < row
    decreases r
  {
    if r > 0 {
      DataRowsBelowTarget(seps, row, r - 1);
      DataRowsStep(seps, r - 1);
    }
  }

  /** A count that gets to row passes through row at some index (it grows by steps of at most 1). */
  lemma {:induction false} DataRowsReach(seps: seq<int>, row: int, n: nat)
    requires row >= 1 && DataRows(seps, n) >= row
    ensures exists m :: 0 < m <= n && DataRows(seps, m) == row
    decreases n
  {
    DataRowsStep(seps, n - 1);
    if DataRows(seps, n - 1) >= row {
      DataRowsReach(seps, row, n - 1);
    } else {
      assert DataRows(seps, n) == row;
    }
  }

  // ---------------------------------------------------------------------------
  // Cells

  function GetHeight(s: Table?): (h: nat)
    reads s
  {
    if s == null then 0 else |s.rows|
  }

  /** GetWidth reads the first row, so a table that starts with a separator has width 0. */
  function GetWidth(s: Table?): (w: nat)
    reads s
    ensures s != null && |s.rows| > 0 ==> w == |s.rows[0].columns|
    ensures (s == null || |s.rows| == 0) ==> w == 0
  {
    if GetHeight(s) > 0 then |s.rows[0].columns| else 0
  }

  /** The plain text cell that SetVal stores. */
  function PlainCell(val: string): Inline.Node
  {
    Inline.Text(ZeroPos, ZeroPos, val, false)
  }

  /** Whether physical cell (r, c) exists. */
  predicate HasCell(rows: seq<Row>, r: int, c: int)
  {
    0 <= r < |rows| && 0 <= c < |rows[r].columns|
  }

  /**
   * SetVal: the cell at logical (row, col) gets a single Text child; nothing else changes, and
   * nothing at all when the table is nil or the cell does not exist.
   */
  method SetVal(s: Table?, row: int, col: int, val: string)
    modifies s
    ensures s != null ==> s.columnInfos == old(s.columnInfos) && s.separatorIndices == old(s.separatorIndices)
    ensures s != null ==> s.pos == old(s.pos) && s.formulas == old(s.formulas) && s.cur == old(s.cur)
    ensures s != null ==>
              var (r, c) := RealRowCol(|old(s.rows)|, old(s.separatorIndices), row, col);
              s.rows == if HasCell(old(s.rows), r, c)
                        then old(s.rows)[r := old(s.rows)[r].(columns := old(s.rows)[r].columns[c := old(s.rows)[r].columns[c].(children := [PlainCell(val)])])]
                        else old(s.rows)
  {
    if s == null {
      return;
    }
    var r, c := s.GetRealRowCol(row, col);
    if c >= 0 && r >= 0 && r < |s.rows| {
      if c < |s.rows[r].columns| {
        var theRow := s.rows[r];
        s.rows := s.rows[r := theRow.(columns := theRow.columns[c := theRow.columns[c].(children := [PlainCell(val)])])];
      }
    }
  }

  /** SetValRef: SetVal at the reference's row and column, as they are (relative flags ignored). */
  method SetValRef(s: Table?, ref: RowColRef, v: string)
    modifies s
    ensures s != null ==> s.columnInfos == old(s.columnInfos) && s.separatorIndices == old(s.separatorIndices)
    ensures s != null ==> s.pos == old(s.pos) && s.formulas == old(s.formulas) && s.cur == old(s.cur)
    ensures s != null ==>
              var (r, c) := RealRowCol(|old(s.rows)|, old(s.separatorIndices), ref.row, ref.col);
              s.rows == if HasCell(old(s.rows), r, c)
                        then old(s.rows)[r := old(s.rows)[r].(columns := old(s.rows)[r].columns[c := old(s.rows)[r].columns[c].(children := [PlainCell(v)])])]
                        else old(s.rows)
  {
    if s == null {
      return;
    }
    SetVal(s, ref.row, ref.col, v);
  }

  /** The rendered text of the cell at logical (row, col), or "" when there is none. */
  function CellText(s: Table?, row: int, col: int, render: seq<Inline.Node> -> string): string
    reads s
  {
    if s == null then ""
    else
      var (r, c) := RealRowCol(|s.rows|, s.separatorIndices, row, col);
      if HasCell(s.rows, r, c) then render(s.rows[r].columns[c].children) else ""
  }

  /** GetVal: the cell's children written back as Org text; "" for a nil table or a missing cell. */
  method GetVal(s: Table?, row: int, col: int, render: seq<Inline.Node> -> string) returns (v: string)
    ensures v == CellText(s, row, col, render)
    ensures s == null ==> v == ""
  {
    if s == null {
      return "";
    }
    var r, c := s.GetRealRowCol(row, col);
    if c >= 0 && r >= 0 && r < |s.rows| {
      if c < |s.rows[r].columns| {
        return render(s.rows[r].columns[c].children);
      }
    }
    return "";
  }

  /** A value written by SetVal is read back by GetVal (through the renderer). */
  method SetThenGet(s: Table, row: int, col: int, val: string, render: seq<Inline.Node> -> string) returns (v: string)
    requires HasCell(s.rows, RealRowCol(|s.rows|, s.separatorIndices, row, col).0, RealRowCol(|s.rows|, s.separatorIndices, row, col).1)
    modifies s
    ensures v == render([PlainCell(val)])
  {
    SetVal(s, row, col, val);
    v := GetVal(s, row, col, render);
  }

  /** ClampToMinMax: 1 below 1, max above max, the value itself in between. */
  function ClampToMinMax(sr: int, max: int): (r: int)
    ensures max >= 1 ==> 1 <= r <= max
    ensures 1 <= sr <= max ==> r == sr
    ensures sr <= 0 ==> r == 1
    ensures sr > max && sr > 0 ==> r == max
  {
    if sr <= 0 then 1 else if sr > max then max else sr
  }

  function ClampRow(s: Table?, r: int): int
    reads s
  {
    ClampToMinMax(r, GetHeight(s))
  }

  function ClampCol(s: Table?, c: int): int
    reads s
  {
    ClampToMinMax(c, GetWidth(s))
  }

  /** Row.GetEnd: one past the end of the last cell (the closing bar), or (0, 0) for a separator. */
  function RowEnd(row: Row): (p: Pos)
    ensures |row.columns| > 0 ==> p == Pos(row.columns[|row.columns| - 1].endPos.row, row.columns[|row.columns| - 1].endPos.col + 1)
    ensures |row.columns| == 0 ==> p == ZeroPos
  {
    if |row.columns| > 0 then
      var e := row.columns[|row.columns| - 1].endPos;
      Pos(e.row, e.col + 1)
    else ZeroPos
  }

  function RowPos(row: Row): (p: Pos)
    ensures p == if |row.columns| > 0 then row.columns[0].pos else ZeroPos
  {
    if |row.columns| > 0 then row.columns[0].pos else ZeroPos
  }

  /** Table.GetEnd: the end of the last row, or the table's position when it has none. */
  function TableEnd(t: Table): (p: Pos)
    reads t
    ensures |t.rows| == 0 ==> p == t.pos
    ensures |t.rows| > 0 ==> p == RowEnd(t.rows[|t.rows| - 1])
  {
    if |t.rows| > 0 then RowEnd(t.rows[|t.rows| - 1]) else t.pos
  }
}
