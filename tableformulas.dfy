// Formula.Process and Formulas.Process of org/table.go: the split of #+TBLFM values into formulas.
module TableFormulas {
  import opened Wrappers
  import opened Strs
  import opened Keywords
  import opened OrgTable
  import opened TableRefs


  /** Formula.Process reads the table only through the references of its target. */
  predicate FormulaNeedsTable(str: string)
  {
    Contains(str, "=") && !RangeNeedsNoTable(TrimSpace(Cut(str, "=").0))
  }

  /**
   * Formula.Process: a formula with "=" is valid; its target is the trimmed text before the
   * first "=", and the rest splits at its last ";" into the expression and the format.
   */
  function ProcessFormula(f: Formula, tbl: Table?): (r: Formula)
    requires tbl != null || !FormulaNeedsTable(f.formulaStr)
    reads tbl
    ensures r.keyword == f.keyword && r.formulaStr == f.formulaStr && r.subKeywordIndex == f.subKeywordIndex
    ensures !Contains(f.formulaStr, "=") ==> r == f
    ensures Contains(f.formulaStr, "=") ==>
              var (tgt, rest, _) := Cut(f.formulaStr, "=");
              r.valid && r.target.Some? && r.target.value.raw == TrimSpace(tgt)
              && (Contains(rest, ";") ==> r.expr + ";" + r.format == rest && !Contains(r.format, ";"))
              && (!Contains(rest, ";") ==> r.expr == rest && r.format == "")
  {
    var (tgt, expr, found) := Cut(f.formulaStr, "=");
    if !found then f
    else
      var target := ProcessTarget(FormulaTarget(TrimSpace(tgt), ZeroRef, ZeroRef), tbl);
      var frmt := LastIndex(expr, ";");
      if frmt != -1 then
        NoLaterSemicolon(expr, frmt);
        f.(valid := true, target := Some(target), expr := expr[..frmt], format := expr[frmt + 1..])
      else f.(valid := true, target := Some(target), expr := expr, format := "")
  }

  lemma NoLaterSemicolon(s: string, k: int)
    requires 0 <= k < |s| && k == LastIndex(s, ";")
    ensures s[..k] + ";" + s[k + 1..] == s && !Contains(s[k + 1..], ";") && Contains(s, ";")
  {
    assert OccursAt(s, ";", k);
    SplitAtChar(s, k, ';');
    var t := s[k + 1..];
    var j := Index(t, ";");
    if j >= 0 {
      assert OccursAt(t, ";", j);
      OccursLater(s, k + 1, j, ";");
      assert false;
    }
  }

  lemma SplitAtChar(s: string, k: int, c: char)
    requires OccursAt(s, [c], k)
    ensures s[..k] + [c] + s[k + 1..] == s
  {
    assert s[k..k + 1][0] == s[k];
    assert s == s[..k] + [s[k]] + s[k + 1..];
  }

  lemma OccursLater(s: string, d: nat, j: int, pat: string)
    requires d <= |s| && OccursAt(s[d..], pat, j)
    ensures OccursAt(s, pat, d + j)
  {
    assert s[d..][j..j + |pat|] == s[d + j..d + j + |pat|];
  }

  /** The `::` pieces of a keyword value, each trimmed as Formulas.Process trims it. */
  function TrimAll(pieces: seq<string>): (r: seq<string>)
    ensures |r| == |pieces|
  {
    if |pieces| == 0 then [] else TrimAll(pieces[..|pieces| - 1]) + [TrimSpace(pieces[|pieces| - 1])]
  }

  lemma {:induction false} TrimAllAt(pieces: seq<string>, j: nat)
    requires j < |pieces|
    ensures TrimAll(pieces)[j] == TrimSpace(pieces[j])
    decreases |pieces|
  {
    if j < |pieces| - 1 {
      TrimAllAt(pieces[..|pieces| - 1], j);
      assert pieces[..|pieces| - 1][j] == pieces[j];
    }
  }

  /** No piece's formula reads the table through its target. */
  predicate PiecesNeedNoTable(trimmed: seq<string>)
  {
    forall j :: 0 <= j < |trimmed| ==> !FormulaNeedsTable(trimmed[j])
  }

  /** No `::` piece of any of the keywords reads the table through its target. */
  predicate KeywordsNeedNoTable(ks: seq<Keyword>)
  {
    forall k :: 0 <= k < |ks| ==> PiecesNeedNoTable(KeywordPieceTexts(ks[k]))
  }

  /** The formulas of one keyword: one per non-blank trimmed piece among the first n, in order. */
  function PieceFormulas(k: Keyword, trimmed: seq<string>, n: nat, tbl: Table?): (r: seq<Formula>)
    requires tbl != null || PiecesNeedNoTable(trimmed)
    requires n <= |trimmed|
    reads tbl
    ensures |r| <= n
    decreases n
  {
    if n == 0 then [] else PieceFormulas(k, trimmed, n - 1, tbl) + PieceFormula(k, trimmed, n - 1, tbl)
  }

  /** The formula of piece i, or none when the piece is blank. */
  function PieceFormula(k: Keyword, trimmed: seq<string>, i: nat, tbl: Table?): (r: seq<Formula>)
    requires tbl != null || PiecesNeedNoTable(trimmed)
    requires i < |trimmed|
    reads tbl
    ensures |r| <= 1
  {
    if trimmed[i] == "" then [] else [ProcessFormula(Formula(k, trimmed[i], i, None, "", "", false), tbl)]
  }

  /** Every formula of a keyword comes from one of its non-blank pieces and is numbered by that piece. */
  lemma {:induction false} PieceFormulasFrom(k: Keyword, trimmed: seq<string>, n: nat, tbl: Table?, m: nat)
    requires tbl != null || PiecesNeedNoTable(trimmed)
    requires n <= |trimmed|
    requires m < |PieceFormulas(k, trimmed, n, tbl)|
    ensures var x := PieceFormulas(k, trimmed, n, tbl)[m];
            x.keyword == k && 0 <= x.subKeywordIndex < n && x.formulaStr == trimmed[x.subKeywordIndex] && x.formulaStr != ""
    decreases n
  {
    var prev := PieceFormulas(k, trimmed, n - 1, tbl);
    var last := PieceFormula(k, trimmed, n - 1, tbl);
    if m < |prev| {
      PieceFormulasFrom(k, trimmed, n - 1, tbl, m);
      assert PieceFormulas(k, trimmed, n, tbl)[m] == prev[m];
    } else {
      assert PieceFormulas(k, trimmed, n, tbl)[m] == last[0];
    }
  }

  /** Every non-blank piece gives a formula: m is where it lands. */
  lemma {:induction false} PieceFormulasCover(k: Keyword, trimmed: seq<string>, n: nat, tbl: Table?, j: nat) returns (m: nat)
    requires tbl != null || PiecesNeedNoTable(trimmed)
    requires n <= |trimmed|
    requires j < n && trimmed[j] != ""
    ensures m < |PieceFormulas(k, trimmed, n, tbl)| && PieceFormulas(k, trimmed, n, tbl)[m].subKeywordIndex == j
    decreases n
  {
    var prev := PieceFormulas(k, trimmed, n - 1, tbl);
    if j < n - 1 {
      m := PieceFormulasCover(k, trimmed, n - 1, tbl, j);
      assert PieceFormulas(k, trimmed, n, tbl)[m] == prev[m];
    } else {
      m := |prev|;
      assert PieceFormulas(k, trimmed, n, tbl)[m] == PieceFormula(k, trimmed, j, tbl)[0];
    }
  }

  /** The trimmed `::` pieces of a keyword's value. */
  function KeywordPieceTexts(k: Keyword): seq<string>
  {
    TrimAll(Split(k.value, "::"))
  }

  /** The formulas of the first n keywords, keyword by keyword. */
  function AllFormulas(ks: seq<Keyword>, n: nat, tbl: Table?): (r: seq<Formula>)
    requires tbl != null || KeywordsNeedNoTable(ks)
    requires n <= |ks|
    reads tbl
  {
    if n == 0 then []
    else
      var t := KeywordPieceTexts(ks[n - 1]);
      AllFormulas(ks, n - 1, tbl) + PieceFormulas(ks[n - 1], t, |t|, tbl)
  }

  /** Formulas.Process: a no-op once there are formulas, else every non-blank `::` piece of every keyword. */
  method ProcessFormulas(fs: Formulas, tbl: Table?) returns (r: Formulas)
    requires tbl != null || KeywordsNeedNoTable(fs.keywords)
    ensures r.keywords == fs.keywords
    ensures |fs.formulas| > 0 ==> r == fs
    ensures |fs.formulas| == 0 ==> r.formulas == AllFormulas(fs.keywords, |fs.keywords|, tbl)
  {
    if |fs.formulas| > 0 {
      return fs;
    }
    var frms: seq<Formula> := [];
    for i := 0 to |fs.keywords|
      invariant frms == AllFormulas(fs.keywords, i, tbl)
    {
      frms := AddKeyword(fs.keywords, i, tbl, frms);
    }
    return fs.(formulas := frms);
  }

  /** One round of the outer loop: the formulas of keyword i. */
  method AddKeyword(ks: seq<Keyword>, i: nat, tbl: Table?, frms: seq<Formula>) returns (frms': seq<Formula>)
    requires tbl != null || KeywordsNeedNoTable(ks)
    requires i < |ks| && frms == AllFormulas(ks, i, tbl)
    ensures frms' == AllFormulas(ks, i + 1, tbl)
  {
    var pieces := KeywordPieces(ks[i], Split(ks[i].value, "::"), tbl);
    frms' := frms + pieces;
  }

  /** The inner loop of Formulas.Process over the `::` pieces of one keyword. */
  method KeywordPieces(k: Keyword, temp: seq<string>, tbl: Table?) returns (r: seq<Formula>)
    requires tbl != null || PiecesNeedNoTable(TrimAll(temp))
    ensures r == PieceFormulas(k, TrimAll(temp), |temp|, tbl)
  {
    ghost var trimmed := TrimAll(temp);
    r := [];
    for i := 0 to |temp|
      invariant r == PieceFormulas(k, trimmed, i, tbl)
    {
      r := AddPiece(k, temp, i, tbl, r);
    }
  }

  /** One round of the inner loop: trim piece i and, unless it is blank, process its formula. */
  method AddPiece(k: Keyword, temp: seq<string>, i: nat, tbl: Table?, r: seq<Formula>) returns (r': seq<Formula>)
    requires tbl != null || PiecesNeedNoTable(TrimAll(temp))
    requires i < |temp| && r == PieceFormulas(k, TrimAll(temp), i, tbl)
    ensures r' == PieceFormulas(k, TrimAll(temp), i + 1, tbl)
  {
    var f := TrimSpace(temp[i]);
    TrimAllAt(temp, i);
    r' := r;
    if f != "" {
      var frm := ProcessFormula(Formula(k, f, i, None, "", "", false), tbl);
      r' := r' + [frm];
    }
  }
}
