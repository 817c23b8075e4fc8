// Cell references of org/table.go: `@row$col` parts, the recogniser of a reference, and the
// targets of a formula with their ranges.
module TableRefs {
  import opened Wrappers
  import opened Strs
  import opened Lexer
  import opened Roman
  import opened OrgTable


  /** GetRow works on the separators of the table for `>` and roman numerals, so those need one. */
  predicate RowNeedsTable(v: string)
  {
    var w := TrimSpace(v);
    |w| > 0 && w[0] in {'>', 'I', 'V', 'X'}
  }

  /**
   * GetRow: "" is row 1; a run of k `<` is row k and `>` counts back from the last ordinary row,
   * both clamped to the table; a roman numeral names the row of that separator; an integer is
   * taken as it is when positive and as a relative offset when zero or negative; anything else is 1.
   */
  function GetRow(v: string, tbl: Table?): (r: (int, bool))
    requires tbl != null || !RowNeedsTable(v)
    reads tbl
    ensures var w := TrimSpace(v);
            (w == "" ==> r == (1, false))
            && (w != "" && w[0] == '<' ==> r == (ClampRow(tbl, |w|), false))
            && (w != "" && w[0] == '>' ==> r == (ClampRow(tbl, GetHeight(tbl) - |tbl.separatorIndices| - (|w| - 1)), false))
            && (w != "" && w[0] in {'I', 'V', 'X'} ==>
                  r == if 1 <= ConvertRomanNumeral(w) <= |tbl.separatorIndices|
                       then (ClampRow(tbl, tbl.separatorIndices[ConvertRomanNumeral(w) - 1]), false) else IntOrOne(w))
            && (w != "" && w[0] !in {'<', '>', 'I', 'V', 'X'} ==> r == IntOrOne(w))
  {
    var w := TrimSpace(v);
    if w == "" then (1, false)
    else if w[0] == '<' then (ClampRow(tbl, |w|), false)
    else if w[0] == '>' then (ClampRow(tbl, GetHeight(tbl) - |tbl.separatorIndices| - (|w| - 1)), false)
    else if w[0] in {'I', 'V', 'X'} && 1 <= ConvertRomanNumeral(w) <= |tbl.separatorIndices| then
      (ClampRow(tbl, tbl.separatorIndices[ConvertRomanNumeral(w) - 1]), false)
    else IntOrOne(w)
  }

  /** The tail of GetRow and GetCol: strconv.Atoi, negated into a relative offset when not positive. */
  function IntOrOne(w: string): (r: (int, bool))
    ensures r.0 >= 0
  {
    match Atoi(w)
    case Some(k) => if k <= 0 then (-k, true) else (k, false)
    case None => (1, false)
  }

  /** GetCol: as GetRow without roman numerals; `>` counts back from the height, not the width. */
  function GetCol(v: string, tbl: Table?): (r: (int, bool))
    reads tbl
    ensures var w := TrimSpace(v);
            (w == "" ==> r == (1, false))
            && (w != "" && w[0] == '<' ==> r == (ClampCol(tbl, |w|), false))
            && (w != "" && w[0] == '>' ==> r == (ClampCol(tbl, GetHeight(tbl) - (|w| - 1)), false))
            && (w != "" && w[0] !in {'<', '>'} ==> r == IntOrOne(w))
  {
    var w := TrimSpace(v);
    if w == "" then (1, false)
    else if w[0] == '<' then (ClampCol(tbl, |w|), false)
    else if w[0] == '>' then (ClampCol(tbl, GetHeight(tbl) - (|w| - 1)), false)
    else IntOrOne(w)
  }

  lemma ItoaLead(n: int)
    ensures Itoa(n)[0] == '-' || IsDigit(Itoa(n)[0])
    ensures TrimSpace(Itoa(n)) == Itoa(n)
  {
    var s := Itoa(n);
    if n >= 0 {
      assert IsDigit(s[0]);
    }
    assert !IsSpace(s[0]) && !IsSpace(s[|s| - 1]) by {
      if n < 0 { assert s[|s| - 1] == NatToDigits(-n)[|NatToDigits(-n)| - 1]; }
    }
    TrimSpaceOfNonSpace(s);
  }

  /** A written integer is read back: a positive one as itself, any other as a relative offset. */
  lemma GetRowColOfInteger(n: int, tbl: Table?)
    ensures GetRow(Itoa(n), tbl) == (if n <= 0 then (-n, true) else (n, false))
    ensures GetCol(Itoa(n), tbl) == (if n <= 0 then (-n, true) else (n, false))
  {
    ItoaLead(n);
    ItoaAtoi(n);
    var w := Itoa(n);
    assert w[0] !in {'<', '>', 'I', 'V', 'X'};
    assert IntOrOne(w) == (if n <= 0 then (-n, true) else (n, false));
  }

  /** A run of k `<` is row (column) k clamped to the table. */
  lemma GetRowColOfLeft(k: nat, tbl: Table?)
    requires k >= 1
    ensures GetRow(Repeat('<', k), tbl) == (ClampRow(tbl, k), false)
    ensures GetCol(Repeat('<', k), tbl) == (ClampCol(tbl, k), false)
  {
    var s := Repeat('<', k);
    assert s[0] == '<' && s[|s| - 1] == '<';
    TrimSpaceOfNonSpace(s);
  }

  /** Whitespace around a reference does not matter. */
  lemma GetRowColEmpty(v: string, tbl: Table?)
    requires AllSpace(v)
    ensures GetRow(v, tbl) == (1, false) && GetCol(v, tbl) == (1, false)
  {
    TrimSpaceAllSpace(v);
  }

  /**
   * A roman numeral below 50 starts with I, V or X, so GetRow reads it as the row of that
   * separator when the table has that many separators.
   */
  lemma GetRowOfRoman(n: int, tbl: Table)
    requires 1 <= n < 50 && n <= |tbl.separatorIndices|
    ensures GetRow(RomanIntToString(n).0, tbl) == (ClampRow(tbl, tbl.separatorIndices[n - 1]), false)
  {
    var s := RomanIntToString(n).0;
    RomanLead(n);
    RomanRoundTrip(n);
    assert ConvertRomanNumeral(s) == n;
  }

  lemma CapitalNotSpace(c: char)
    requires 'A' <= c <= 'Z'
    ensures !IsSpace(c)
  {
  }

  /** Below 50 a numeral starts with I, V or X, and has no white space around it. */
  lemma RomanLead(n: int)
    requires 1 <= n < 50
    ensures var s := RomanIntToString(n).0; |s| > 0 && s[0] in {'I', 'V', 'X'} && TrimSpace(s) == s
  {
    var a, b, c, d := PlaceDigits(n);
    var s := RomanIntToString(n).0;
    assert s == R1[c] + R0[d];
    assert s[0] in {'I', 'V', 'X'} && s[|s| - 1] in {'I', 'V', 'X', 'L'} by {
      if c == 0 { assert s == R0[d]; } else if d == 0 { assert s == R1[c]; }
    }
    CapitalNotSpace(s[0]);
    CapitalNotSpace(s[|s| - 1]);
    TrimSpaceOfNonSpace(s);
  }

  /** `[-]?[0-9><]+`: one reference as tableTargetRe reads it. */
  predicate IsRefText(r: string)
  {
    if |r| > 0 && r[0] == '-' then RefBody(r[1..]) else RefBody(r)
  }

  predicate RefBody(b: string) { |b| > 0 && forall i :: 0 <= i < |b| ==> IsRefChar(b[i]) }

  predicate IsRefChar(c: char) { IsDigit(c) || c == '<' || c == '>' }

  /** Which alternative of tableTargetRe matched, with its groups. */
  datatype TargetMatch = RowOnly(row: string) | ColOnly(col: string) | RowAndCol(row: string, col: string)

  /** The alternatives tried at position q: `@R`, `$R` and `@R$R`, each followed only by white space. */
  function MatchTargetAt(s: string, q: nat): (m: Option<TargetMatch>)
    requires q < |s|
    ensures m.Some? ==> s[q] in {'@', '$'}
  {
    var rest := TrimRightFunc(s[q + 1..], IsReSpace);
    if s[q] == '@' && IsRefText(rest) then Some(RowOnly(rest))
    else if s[q] == '$' && IsRefText(rest) then Some(ColOnly(rest))
    else if s[q] == '@' && IndexChar(rest, '$') >= 0
            && IsRefText(rest[..IndexChar(rest, '$')]) && IsRefText(rest[IndexChar(rest, '$') + 1..]) then
      Some(RowAndCol(rest[..IndexChar(rest, '$')], rest[IndexChar(rest, '$') + 1..]))
    else None
  }

  /**
   * tableTargetRe.FindStringSubmatch: the leftmost match. The leading `\s*` only moves the start
   * of the match, so the groups are those of the first position where an alternative matches.
   */
  function MatchTarget(s: string, q: nat := 0): (m: Option<TargetMatch>)
    requires q <= |s|
    ensures m.Some? ==> exists k :: q <= k < |s| && MatchTargetAt(s, k) == m
    ensures m.None? ==> forall k :: q <= k < |s| ==> MatchTargetAt(s, k).None?
    decreases |s| - q
  {
    if q == |s| then None
    else if MatchTargetAt(s, q).Some? then MatchTargetAt(s, q)
    else MatchTarget(s, q + 1)
  }

  lemma RefHasNoMarker(r: string)
    requires IsRefText(r)
    ensures forall i :: 0 <= i < |r| ==> r[i] == '-' || IsRefChar(r[i])
    ensures IndexChar(r, '$') == -1
  {
    var body := if |r| > 0 && r[0] == '-' then r[1..] else r;
    forall i | 0 <= i < |r| ensures r[i] == '-' || IsRefChar(r[i]) {
      if r[0] == '-' {
        if i > 0 { assert r[i] == body[i - 1]; }
      } else {
        assert r[i] == body[i];
      }
    }
  }

  lemma TrimRef(r: string, s: string)
    requires IsRefText(r) && s == r
    ensures TrimRightFunc(s, IsReSpace) == r
  {
    RefHasNoMarker(r);
    assert !IsReSpace(r[|r| - 1]);
  }

  /** `@R` is a whole row. */
  lemma MatchRowOnly(r: string)
    requires IsRefText(r)
    ensures MatchTarget("@" + r) == Some(RowOnly(r))
  {
    assert ("@" + r)[1..] == r;
    TrimRef(r, ("@" + r)[1..]);
  }

  /** `$C` is a whole column. */
  lemma MatchColOnly(c: string)
    requires IsRefText(c)
    ensures MatchTarget("$" + c) == Some(ColOnly(c))
  {
    assert ("$" + c)[1..] == c;
    TrimRef(c, ("$" + c)[1..]);
  }

  /** `@R$C` is one cell: the whole-row alternative fails on the `$`. */
  lemma MatchRowAndCol(r: string, c: string)
    requires IsRefText(r) && IsRefText(c)
    ensures MatchTarget("@" + r + "$" + c) == Some(RowAndCol(r, c))
  {
    var s := "@" + r + "$" + c;
    var rest := r + "$" + c;
    assert s[1..] == rest;
    RowAndColRest(r, c);
    assert s[0] == '@';
  }

  /** The text after the `@` of `@R$C`: it is no single reference, and splits at its `$`. */
  lemma RowAndColRest(r: string, c: string)
    requires IsRefText(r) && IsRefText(c)
    ensures var rest := r + "$" + c;
            TrimRightFunc(rest, IsReSpace) == rest && !IsRefText(rest) && IndexChar(rest, '$') == |r|
            && rest[..|r|] == r && rest[|r| + 1..] == c
  {
    RefHasNoMarker(r);
    RefHasNoMarker(c);
    var rest := r + "$" + c;
    assert rest[|r|] == '$';
    IndexCharAfter(r, c);
    assert rest[..|r|] == r && rest[|r| + 1..] == c;
    assert !IsReSpace(rest[|rest| - 1]) by { assert rest[|rest| - 1] == c[|c| - 1]; }
    assert rest[0] == r[0];
    NotRef(rest, |r|);
  }

  /** A `$` past any leading minus sign makes a text no reference. */
  lemma NotRef(x: string, k: nat)
    requires 0 < k < |x| && x[k] == '$'
    ensures !IsRefText(x)
  {
    if x[0] == '-' {
      assert x[1..][k - 1] == '$';
    } else {
      assert !IsRefChar(x[k]);
    }
  }

  lemma IndexCharAfter(r: string, c: string)
    requires IndexChar(r, '$') == -1
    ensures IndexChar(r + "$" + c, '$') == |r|
    decreases |r|
  {
    if |r| > 0 {
      assert (r + "$" + c)[1..] == r[1..] + "$" + c;
      IndexCharAfter(r[1..], c);
    }
  }

  /** MakeRowColDef's table use: only a row group that starts with `>` reads the table. */
  predicate TargetNeedsTable(s: string)
  {
    match MatchTarget(s)
    case Some(RowOnly(r)) => RowNeedsTable(r)
    case Some(RowAndCol(r, _)) => RowNeedsTable(r)
    case _ => false
  }

  /** The reference named by one match: Col -1 for a whole row, Row -1 for a whole column. */
  function RefOf(m: TargetMatch, tbl: Table?): (r: RowColRef)
    requires tbl != null || (!m.ColOnly? ==> !RowNeedsTable(m.row))
    reads tbl
    ensures m.RowOnly? ==> r.col == -1 && !r.relativeCol && (r.row, r.relativeRow) == GetRow(m.row, tbl)
    ensures m.ColOnly? ==> r.row == -1 && !r.relativeRow && (r.col, r.relativeCol) == GetCol(m.col, tbl)
    ensures m.RowAndCol? ==> (r.row, r.relativeRow) == GetRow(m.row, tbl) && (r.col, r.relativeCol) == GetCol(m.col, tbl)
  {
    match m
    case RowOnly(row) => var (n, rel) := GetRow(row, tbl); RowColRef(n, -1, false, rel)
    case ColOnly(col) => var (n, rel) := GetCol(col, tbl); RowColRef(-1, n, rel, false)
    case RowAndCol(row, col) =>
      var (n, rel) := GetRow(row, tbl);
      var (k, relc) := GetCol(col, tbl);
      RowColRef(n, k, relc, rel)
  }

  /** MakeRowColDef: the reference of the leftmost match, or all zeros when nothing matches. */
  function MakeRowColDef(s: string, tbl: Table?): (r: RowColRef)
    requires tbl != null || !TargetNeedsTable(s)
    reads tbl
    ensures MatchTarget(s).None? ==> r == ZeroRef
    ensures MatchTarget(s).Some? ==> r == RefOf(MatchTarget(s).value, tbl)
  {
    match MatchTarget(s)
    case None => ZeroRef
    case Some(m) => RefOf(m, tbl)
  }

  /** `@r$c` is the cell in row r, column c (the example "@3$3" is row 3, column 3). */
  lemma MakeRowColDefCell(r: int, c: int, tbl: Table?)
    requires r >= 1 && c >= 1
    ensures !TargetNeedsTable("@" + Itoa(r) + "$" + Itoa(c))
    ensures MakeRowColDef("@" + Itoa(r) + "$" + Itoa(c), tbl) == RowColRef(r, c, false, false)
  {
    var s := "@" + Itoa(r) + "$" + Itoa(c);
    ItoaRef(r);
    ItoaRef(c);
    MatchRowAndCol(Itoa(r), Itoa(c));
    GetRowColOfInteger(r, tbl);
    GetRowColOfInteger(c, tbl);
  }

  /** `@r` is the whole of row r. */
  lemma MakeRowColDefWholeRow(r: int, tbl: Table?)
    requires r >= 1
    ensures !TargetNeedsTable("@" + Itoa(r))
    ensures MakeRowColDef("@" + Itoa(r), tbl) == RowColRef(r, -1, false, false)
  {
    ItoaRef(r);
    MatchRowOnly(Itoa(r));
    GetRowColOfInteger(r, tbl);
  }

  /** `$c` is the whole of column c. */
  lemma MakeRowColDefWholeCol(c: int, tbl: Table?)
    requires c >= 1
    ensures MakeRowColDef("$" + Itoa(c), tbl) == RowColRef(-1, c, false, false)
  {
    ItoaRef(c);
    MatchColOnly(Itoa(c));
    GetRowColOfInteger(c, tbl);
  }

  lemma ItoaRef(n: int)
    requires n >= 1
    ensures IsRefText(Itoa(n)) && !RowNeedsTable(Itoa(n))
  {
    ItoaLead(n);
    var s := Itoa(n);
    assert s == NatToDigits(n) && AllDigits(s);
    assert forall i :: 0 <= i < |s| ==> IsRefChar(s[i]);
  }

  /** FormulaTarget.Process: `A..B` gives both ends, a single reference gives End = Start. */
  function ProcessTarget(t: FormulaTarget, tbl: Table?): (r: FormulaTarget)
    requires tbl != null || RangeNeedsNoTable(t.raw)
    reads tbl
    ensures r.raw == t.raw
    ensures t.raw == "" ==> r == t
    ensures t.raw != "" && !Contains(t.raw, "..") ==> r.start == MakeRowColDef(t.raw, tbl) && r.end == r.start
    ensures t.raw != "" && Contains(t.raw, "..") ==>
              r.start == MakeRowColDef(Split(t.raw, "..")[0], tbl) && r.end == MakeRowColDef(Split(t.raw, "..")[1], tbl)
  {
    if t.raw == "" then t
    else
      var parts := Split(t.raw, "..");
      if |parts| == 1 then
        var st := MakeRowColDef(parts[0], tbl);
        t.(start := st, end := st)
      else t.(start := MakeRowColDef(parts[0], tbl), end := MakeRowColDef(parts[1], tbl))
  }

  /** The one or two references FormulaTarget.Process reads do not need a table. */
  predicate RangeNeedsNoTable(raw: string)
  {
    var parts := Split(raw, "..");
    !TargetNeedsTable(parts[0]) && (|parts| > 1 ==> !TargetNeedsTable(parts[1]))
  }

  /** MakeRowColDefParsed: a reference from separately captured row and column texts. */
  function MakeRowColDefParsed(rin: string, cin: string, tbl: Table?): (r: RowColRef)
    requires tbl != null || !RowNeedsTable(rin)
    reads tbl
    ensures rin != "" && cin == "" ==> r.col == -1 && (r.row, r.relativeRow) == GetRow(rin, tbl) && !r.relativeCol
    ensures cin != "" && rin == "" ==> r.row == -1 && (r.col, r.relativeCol) == GetCol(cin, tbl) && !r.relativeRow
    ensures (rin == "") == (cin == "") ==> (r.row, r.relativeRow) == GetRow(rin, tbl) && (r.col, r.relativeCol) == GetCol(cin, tbl)
  {
    if rin != "" && cin == "" then
      var (n, rel) := GetRow(rin, tbl); RowColRef(n, -1, false, rel)
    else if cin != "" && rin == "" then
      var (n, rel) := GetCol(cin, tbl); RowColRef(-1, n, rel, false)
    else
      var (n, rel) := GetRow(rin, tbl);
      var (m, relc) := GetCol(cin, tbl);
      RowColRef(n, m, relc, rel)
  }

  /** MakeFormulaTarget: without a second reference the target is the single first one. */
  function MakeFormulaTarget(r1: string, c1: string, r2: string, c2: string, tbl: Table?): (t: FormulaTarget)
    requires tbl != null || (!RowNeedsTable(r1) && !RowNeedsTable(r2))
    reads tbl
    ensures t.raw == "" && t.start == MakeRowColDefParsed(r1, c1, tbl)
    ensures r2 == "" && c2 == "" ==> t.end == t.start
    ensures !(r2 == "" && c2 == "") ==> t.end == MakeRowColDefParsed(r2, c2, tbl)
  {
    var st := MakeRowColDefParsed(r1, c1, tbl);
    if r2 == "" && c2 == "" then FormulaTarget("", st, st)
    else FormulaTarget("", st, MakeRowColDefParsed(r2, c2, tbl))
  }

  /** IsRowRange: a whole column, or the row changes within one column. */
  predicate IsRowRange(s: RowColRef, e: RowColRef)
  {
    s.IsEntireCol() || (s.row != e.row && s.col == e.col)
  }

  /** IsColRange: a whole row, or the column changes within one row. */
  predicate IsColRange(s: RowColRef, e: RowColRef)
  {
    s.IsEntireRow() || (s.row == e.row && s.col != e.col)
  }

  /** IsPositiveRange: the coordinate that changes does not decrease. */
  predicate IsPositiveRange(s: RowColRef, e: RowColRef)
  {
    if IsColRange(s, e) && !s.IsEntireCol() then s.col <= e.col
    else if IsRowRange(s, e) && !s.IsEntireRow() then s.row <= e.row
    else true
  }

  /** A rectangle (neither a row range nor a column range) always counts as positive. */
  lemma RectangleIsPositive(s: RowColRef, e: RowColRef)
    requires !IsColRange(s, e) && !IsRowRange(s, e)
    ensures IsPositiveRange(s, e)
  {
  }
}
