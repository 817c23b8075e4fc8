// The lazy iterators of org/table.go: integer counters and the iterator over the cells of a
// formula target.
module TableIter {
  import opened Wrappers
  import opened OrgTable
  import opened TableRefs


  /** rs, rs + 1, ..., re (empty when rs > re). */
  function Up(rs: int, re: int): (r: seq<int>)
    ensures |r| == if rs > re then 0 else re - rs + 1
    ensures forall k :: 0 <= k < |r| ==> r[k] == rs + k
    decreases re - rs
  {
    if rs > re then [] else [rs] + Up(rs + 1, re)
  }

  /** rs, rs - 1, ..., re (empty when rs < re). */
  function Down(rs: int, re: int): (r: seq<int>)
    ensures |r| == if rs < re then 0 else rs - re + 1
    ensures forall k :: 0 <= k < |r| ==> r[k] == rs - k
    decreases rs - re
  {
    if rs < re then [] else [rs] + Down(rs - 1, re)
  }

  /**
   * The state captured by the closures of CreatePosIterator and CreateNegIterator: the last value
   * handed out (or one step before the first) and the bound.
   */
  datatype Counter = Counter(strt: int, end: int, ascending: bool)
  {
    /** The values the closure still returns before it returns -1. */
    function Pending(): seq<int>
    {
      if ascending then Up(strt + 1, end) else Down(strt - 1, end)
    }

    /** Every value still to come is a clamped coordinate, never the -1 that signals the end. */
    predicate NonNegative()
    {
      if ascending then strt >= -1 else end >= 0
    }

    /** One call: the next value and the new state, or -1 and the same state once exhausted. */
    function Step(): (r: (int, Counter))
      ensures Pending() == [] ==> r == (-1, this)
      ensures Pending() != [] ==> r.0 == Pending()[0] && r.1.Pending() == Pending()[1..]
      ensures r.1.end == end && r.1.ascending == ascending
      ensures NonNegative() ==> r.1.NonNegative() && (r.0 == -1 <==> Pending() == [])
    {
      if ascending then
        if strt >= end then (-1, this) else (strt + 1, this.(strt := strt + 1))
      else
        if strt <= end then (-1, this) else (strt - 1, this.(strt := strt - 1))
    }
  }

  function PosCounter(rs: int, re: int): (c: Counter)
    ensures c.Pending() == Up(rs, re)
    ensures rs >= 0 ==> c.NonNegative()
  {
    Counter(rs - 1, re, true)
  }

  function NegCounter(rs: int, re: int): (c: Counter)
    ensures c.Pending() == Down(rs, re)
    ensures re >= 0 ==> c.NonNegative()
  {
    Counter(rs + 1, re, false)
  }

  /** The closure returned by CreatePosIterator or CreateNegIterator. */
  class IntIterator {
    var counter: Counter

    ghost function Remaining(): seq<int>
      reads this
    {
      counter.Pending()
    }

    /** CreatePosIterator(rs, re): rs..re ascending. */
    constructor Pos(rs: int, re: int)
      ensures Remaining() == Up(rs, re)
    {
      counter := PosCounter(rs, re);
    }

    /** CreateNegIterator(rs, re): rs..re descending. */
    constructor Neg(rs: int, re: int)
      ensures Remaining() == Down(rs, re)
    {
      counter := NegCounter(rs, re);
    }

    /** One call of the closure: the next value, or -1 on this and every later call once exhausted. */
    method Next() returns (v: int)
      modifies this
      ensures old(Remaining()) == [] ==> v == -1 && Remaining() == []
      ensures old(Remaining()) != [] ==> v == old(Remaining())[0] && Remaining() == old(Remaining())[1..]
    {
      var (x, c) := counter.Step();
      v, counter := x, c;
    }
  }

  /** The ascending iterator hands out rs..re, and then -1 for ever; an empty range gives -1 at once. */
  lemma PosCounterYields(rs: int, re: int, k: nat)
    ensures var c := PosCounter(rs, re); |c.Pending()| == (if rs > re then 0 else re - rs + 1)
    ensures var c := PosCounter(rs, re); k < |c.Pending()| ==> c.Pending()[k] == rs + k
    ensures PosCounter(rs, re).Pending() == [] <==> rs > re
  {
  }

  /** The descending iterator hands out rs down to re, and then -1 for ever. */
  lemma NegCounterYields(rs: int, re: int, k: nat)
    ensures var c := NegCounter(rs, re); |c.Pending()| == (if rs < re then 0 else rs - re + 1)
    ensures var c := NegCounter(rs, re); k < |c.Pending()| ==> c.Pending()[k] == rs - k
    ensures NegCounter(rs, re).Pending() == [] <==> rs < re
  {
  }

  /** An exhausted counter stays exhausted. */
  lemma ExhaustedStays(c: Counter)
    requires c.Pending() == []
    ensures c.Step() == (-1, c) && c.Step().1.Pending() == []
  {
  }

  /**
   * FixupPos: a relative coordinate becomes the current cell minus the offset, clamped to the
   * table; absolute coordinates and both flags are kept.
   */
  function FixupPos(tbl: Table?, p: RowColRef): (r: RowColRef)
    requires tbl != null || (!p.relativeCol && !p.relativeRow)
    reads tbl
    ensures r.relativeCol == p.relativeCol && r.relativeRow == p.relativeRow
    ensures !p.relativeCol ==> r.col == p.col
    ensures !p.relativeRow ==> r.row == p.row
    ensures p.relativeCol && GetWidth(tbl) >= 1 ==> 1 <= r.col <= GetWidth(tbl)
    ensures p.relativeRow && GetHeight(tbl) >= 1 ==> 1 <= r.row <= GetHeight(tbl)
  {
    var c := if p.relativeCol then ClampToMinMax(tbl.cur.col - p.col, GetWidth(tbl)) else p.col;
    var r := if p.relativeRow then ClampToMinMax(tbl.cur.row - p.row, GetHeight(tbl)) else p.row;
    RowColRef(r, c, p.relativeCol, p.relativeRow)
  }

  /** The shape of the iterator CreateIterator builds. */
  datatype IterMode = NilTable | AlongRow | AlongCol | Rect

  /** The references handed out along one row (the column varies) or one column (the row varies). */
  function LineCells(cur: RowColRef, values: seq<int>, alongRow: bool): (r: seq<RowColRef>)
    ensures |r| == |values|
    ensures forall k :: 0 <= k < |r| ==> r[k] == if alongRow then cur.(col := values[k]) else cur.(row := values[k])
  {
    if |values| == 0 then [] else [if alongRow then cur.(col := values[0]) else cur.(row := values[0])] + LineCells(cur, values[1..], alongRow)
  }

  /** The rows still to come in the current column of a rectangle. */
  function RowsAt(rows: seq<int>, col: int): (r: seq<RowColRef>)
    ensures |r| == |rows|
    ensures forall k :: 0 <= k < |r| ==> r[k] == RowColRef(rows[k], col, false, false)
  {
    if |rows| == 0 then [] else [RowColRef(rows[0], col, false, false)] + RowsAt(rows[1..], col)
  }

  /**
   * The later columns of a rectangle: each restarts the row counter at sr; when sr > er the
   * restarted counter is empty at once and the column is handed out with row -1.
   */
  function AfterCols(cols: seq<int>, sr: int, er: int): seq<RowColRef>
  {
    if |cols| == 0 then []
    else (if sr > er then [RowColRef(-1, cols[0], false, false)] else RowsAt(Up(sr, er), cols[0])) + AfterCols(cols[1..], sr, er)
  }

  /**
   * The state captured by the closure of FormulaTarget.CreateIterator: the shared reference it
   * updates and hands out, the counter of a line, or the row and column counters of a rectangle
   * with the row range the row counter restarts from.
   */
  datatype IterState = IterState(mode: IterMode, cur: RowColRef, it: Counter, rit: Counter, cit: Counter, sr: int, er: int)
  {
    /** The counters hand out clamped coordinates; a rectangle's reference is absolute. */
    predicate Valid()
    {
      match mode
      case NilTable => true
      case AlongRow => it.NonNegative()
      case AlongCol => it.NonNegative()
      case Rect => !cur.relativeCol && !cur.relativeRow && rit.ascending && rit.end == er && sr >= 0
                   && rit.NonNegative() && cit.NonNegative()
    }

    /** The references still to come, in order. */
    function Remaining(): seq<RowColRef>
    {
      match mode
      case NilTable => []
      case AlongRow => LineCells(cur, it.Pending(), true)
      case AlongCol => LineCells(cur, it.Pending(), false)
      case Rect => RowsAt(rit.Pending(), cur.col) + AfterCols(cit.Pending(), sr, er)
    }

    /**
     * One call of the closure: the next reference (a copy of the shared *RowColRef it updates),
     * or None (nil) once everything has been handed out.
     */
    function Step(): (r: (Option<RowColRef>, IterState))
      requires Valid()
      ensures r.1.Valid() && r.1.mode == mode
      ensures Remaining() == [] ==> r.0 == None && r.1.Remaining() == []
      ensures Remaining() != [] ==> r.0 == Some(Remaining()[0]) && r.1.Remaining() == Remaining()[1..]
    {
      match mode
      case NilTable => (None, this)
      case AlongRow =>
        var (v, c) := it.Step();
        var st := this.(it := c, cur := cur.(col := v));
        (if v == -1 then None else Some(st.cur), st)
      case AlongCol =>
        var (v, c) := it.Step();
        var st := this.(it := c, cur := cur.(row := v));
        (if v == -1 then None else Some(st.cur), st)
      case Rect => RectStep()
    }

    function RectStep(): (r: (Option<RowColRef>, IterState))
      requires mode == Rect && Valid()
      ensures r.1.Valid() && r.1.mode == mode
      ensures Remaining() == [] ==> r.0 == None && r.1.Remaining() == []
      ensures Remaining() != [] ==> r.0 == Some(Remaining()[0]) && r.1.Remaining() == Remaining()[1..]
    {
      var (v, c) := rit.Step();
      if v != -1 then
        RectDown(this);
        var st := this.(rit := c, cur := cur.(row := v));
        (Some(st.cur), st)
      else
        var (w, d) := cit.Step();
        if w == -1 then
          (None, this.(rit := c, cit := d, cur := cur.(row := -1, col := -1)))
        else
          RectNextColumn(this);
          var (v2, c2) := PosCounter(sr, er).Step();
          var st := this.(rit := c2, cit := d, cur := cur.(row := v2, col := w));
          (Some(st.cur), st)
    }
  }

  /** The closure returned by FormulaTarget.CreateIterator. */
  class ColRefIterator {
    var state: IterState

    ghost function Remaining(): seq<RowColRef>
      reads this
    {
      state.Remaining()
    }

    constructor (state: IterState)
      ensures this.state == state
    {
      this.state := state;
    }

    /** One call of the closure: the next reference, or None once everything has been handed out. */
    method Next() returns (r: Option<RowColRef>)
      requires state.Valid()
      modifies this
      ensures state.Valid() && state.mode == old(state.mode)
      ensures old(Remaining()) == [] ==> r == None && Remaining() == []
      ensures old(Remaining()) != [] ==> r == Some(old(Remaining())[0]) && Remaining() == old(Remaining())[1..]
    {
      var (x, st) := state.Step();
      r, state := x, st;
    }
  }

  /** A rectangle step down the current column hands out the next reference still to come. */
  lemma RectDown(st: IterState)
    requires st.mode == Rect && st.Valid() && st.rit.Pending() != []
    ensures var (v, c) := st.rit.Step(); var st' := st.(rit := c, cur := st.cur.(row := v));
            st'.Valid() && st.Remaining() != [] && st'.cur == st.Remaining()[0] && st'.Remaining() == st.Remaining()[1..]
  {
    RowsAtAdvance(st.rit.Pending(), st.cur.col, AfterCols(st.cit.Pending(), st.sr, st.er));
  }

  /** A rectangle step to the next column restarts the rows and hands out the next reference still to come. */
  lemma RectNextColumn(st: IterState)
    requires st.mode == Rect && st.Valid() && st.rit.Pending() == [] && st.cit.Pending() != []
    ensures var (w, d) := st.cit.Step(); var (v2, c2) := PosCounter(st.sr, st.er).Step();
            var st' := st.(rit := c2, cit := d, cur := st.cur.(row := v2, col := w));
            st'.Valid() && st.Remaining() != [] && st'.cur == st.Remaining()[0] && st'.Remaining() == st.Remaining()[1..]
  {
    NextColumn(st.cit.Pending(), st.sr, st.er);
  }

  lemma RowsAtAdvance(rows: seq<int>, col: int, rest: seq<RowColRef>)
    requires |rows| > 0
    ensures (RowsAt(rows, col) + rest)[0] == RowColRef(rows[0], col, false, false)
    ensures (RowsAt(rows, col) + rest)[1..] == RowsAt(rows[1..], col) + rest
  {
  }

  lemma NextColumn(cols: seq<int>, sr: int, er: int)
    requires |cols| > 0
    ensures AfterCols(cols, sr, er)[0] == RowColRef(if sr > er then -1 else sr, cols[0], false, false)
    ensures AfterCols(cols, sr, er)[1..] ==
            (if sr > er then [] else RowsAt(Up(sr + 1, er), cols[0])) + AfterCols(cols[1..], sr, er)
  {
    if sr <= er {
      RowsAtAdvance(Up(sr, er), cols[0], AfterCols(cols[1..], sr, er));
      assert Up(sr, er)[1..] == Up(sr + 1, er);
    }
  }

  /** The references CreateIterator's closure hands out, by the branch it takes. */
  function TargetCells(s: FormulaTarget, tbl: Table?): seq<RowColRef>
    reads tbl
  {
    if tbl == null then []
    else
      var cur := RowColRef(s.start.row, s.end.col, false, false);
      var start, end := FixupPos(tbl, s.start), FixupPos(tbl, s.end);
      var maxRows, maxCols := GetHeight(tbl), GetWidth(tbl);
      if IsColRange(start, end) then
        var sv := ClampToMinMax(start.col, maxCols);
        if IsPositiveRange(start, end) then
          LineCells(cur, Up(sv, if !start.IsEntireRow() then ClampToMinMax(end.col, maxCols) else maxCols), true)
        else
          LineCells(cur, Down(sv, if !start.IsEntireRow() then ClampToMinMax(end.col, maxCols) else 1), true)
      else if IsRowRange(start, end) then
        var sv := ClampToMinMax(start.row, maxRows);
        if IsPositiveRange(start, end) then
          LineCells(cur, Up(sv, if !start.IsEntireCol() then ClampToMinMax(end.row, maxRows) else maxRows), false)
        else
          LineCells(cur, Down(sv, if !start.IsEntireCol() then ClampToMinMax(end.row, maxRows) else 1), false)
      else
        var sr, sc := ClampToMinMax(start.row, maxRows), ClampToMinMax(start.col, maxCols);
        var er, ec := ClampToMinMax(end.row, maxRows), ClampToMinMax(end.col, maxCols);
        var first := PosCounter(sc, ec).Step();
        RowsAt(Up(sr, er), first.0) + AfterCols(first.1.Pending(), sr, er)
  }

  /**
   * FormulaTarget.CreateIterator. A rectangle is always a positive range, so its descending
   * variant is never built.
   */
  method CreateIterator(s: FormulaTarget, tbl: Table?) returns (iter: ColRefIterator)
    ensures fresh(iter)
    ensures iter.state.Valid()
    ensures iter.Remaining() == TargetCells(s, tbl)
    ensures tbl == null <==> iter.state.mode == NilTable
  {
    var none := Counter(0, 0, true);
    if tbl == null {
      iter := new ColRefIterator(IterState(NilTable, ZeroRef, none, none, none, 0, 0));
      return;
    }
    var cur := RowColRef(s.start.row, s.end.col, false, false);
    var start, end := FixupPos(tbl, s.start), FixupPos(tbl, s.end);
    var maxRows, maxCols := GetHeight(tbl), GetWidth(tbl);
    if IsColRange(start, end) {
      var sv := ClampToMinMax(start.col, maxCols);
      if IsPositiveRange(start, end) {
        if !start.IsEntireRow() {
          maxCols := ClampToMinMax(end.col, maxCols);
        }
        iter := new ColRefIterator(IterState(AlongRow, cur, PosCounter(sv, maxCols), none, none, 0, 0));
      } else {
        var minCols := 1;
        if !start.IsEntireRow() {
          minCols := ClampToMinMax(end.col, maxCols);
        }
        iter := new ColRefIterator(IterState(AlongRow, cur, NegCounter(sv, minCols), none, none, 0, 0));
      }
    } else if IsRowRange(start, end) {
      var sv := ClampToMinMax(start.row, maxRows);
      if IsPositiveRange(start, end) {
        if !start.IsEntireCol() {
          maxRows := ClampToMinMax(end.row, maxRows);
        }
        iter := new ColRefIterator(IterState(AlongCol, cur, PosCounter(sv, maxRows), none, none, 0, 0));
      } else {
        var minRows := 1;
        if !start.IsEntireCol() {
          minRows := ClampToMinMax(end.row, maxRows);
        }
        iter := new ColRefIterator(IterState(AlongCol, cur, NegCounter(sv, minRows), none, none, 0, 0));
      }
    } else {
      RectangleIsPositive(start, end);
      var sr, sc := ClampToMinMax(start.row, maxRows), ClampToMinMax(start.col, maxCols);
      var er, ec := ClampToMinMax(end.row, maxRows), ClampToMinMax(end.col, maxCols);
      var rit, cit := PosCounter(sr, er), PosCounter(sc, ec);
      var (c0, cit') := cit.Step();
      iter := new ColRefIterator(IterState(Rect, cur.(col := c0), none, rit, cit', sr, er));
    }
  }

  /** The cells of the rectangle [sr..er] x [sc..ec], rows varying fastest. */
  function Grid(sr: int, er: int, sc: int, ec: int): (g: seq<RowColRef>)
    requires sr <= er
    ensures |g| == (if sc > ec then 0 else (ec - sc + 1) * (er - sr + 1))
    decreases ec - sc
  {
    if sc > ec then [] else RowsAt(Up(sr, er), sc) + Grid(sr, er, sc + 1, ec)
  }

  lemma {:induction false} AfterColsGrid(sr: int, er: int, sc: int, ec: int)
    requires sr <= er
    ensures AfterCols(Up(sc, ec), sr, er) == Grid(sr, er, sc, ec)
    decreases ec - sc
  {
    if sc <= ec {
      assert Up(sc, ec)[1..] == Up(sc + 1, ec);
      AfterColsGrid(sr, er, sc + 1, ec);
    }
  }

  /**
   * Cell q * h + m of the grid, for h the number of rows, is row sr + m of column sc + q: every
   * cell of the rectangle occurs, at its own index.
   */
  lemma {:induction false} GridCell(sr: int, er: int, sc: int, ec: int, q: int, m: int)
    requires sr <= er && 0 <= m < er - sr + 1 && 0 <= q <= ec - sc
    ensures 0 <= q * (er - sr + 1) + m < |Grid(sr, er, sc, ec)|
    ensures Grid(sr, er, sc, ec)[q * (er - sr + 1) + m] == RowColRef(sr + m, sc + q, false, false)
    decreases q
  {
    var h := er - sr + 1;
    assert q * h <= (ec - sc) * h by {
      MulMono(q, ec - sc, h);
    }
    assert (ec - sc) * h + h == (ec - sc + 1) * h;
    if q > 0 {
      GridCell(sr, er, sc + 1, ec, q - 1, m);
      assert (q - 1) * h + m + h == q * h + m;
    }
  }

  lemma MulMono(a: int, b: int, h: nat)
    requires a <= b
    ensures a * h <= b * h
  {
  }

  /**
   * The ascending rectangular iterator visits every cell of [sr..er] x [sc..ec] exactly once,
   * rows varying fastest, when both ranges are non-empty.
   */
  lemma RectangleCells(sr: int, er: int, sc: int, ec: int)
    requires sr <= er && sc <= ec
    ensures var first := PosCounter(sc, ec).Step();
            RowsAt(Up(sr, er), first.0) + AfterCols(first.1.Pending(), sr, er) == Grid(sr, er, sc, ec)
  {
    var first := PosCounter(sc, ec).Step();
    assert first.0 == sc && first.1.Pending() == Up(sc + 1, ec);
    AfterColsGrid(sr, er, sc + 1, ec);
    if sc + 1 <= ec {
      assert Grid(sr, er, sc, ec) == RowsAt(Up(sr, er), sc) + Grid(sr, er, sc + 1, ec);
    }
  }

  /** Over a nil table the iterator hands out nothing: nil on the first and every later call. */
  lemma NilTableIteratesNothing(s: FormulaTarget)
    ensures TargetCells(s, null) == []
  {
  }
}
