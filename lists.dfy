// The value-level parts of org/list.go: which tokens are list items, the list kind, and the
// three unanchored recognisers an item's content goes through (`\s::(\s|$)`, `\[@(\d+)\]\s`
// and `\[( |X|-)\]\s`), each written as a leftmost search.
module Lists {
  import opened Wrappers
  import opened Strs
  import opened Lexer

  predicate IsListToken(t: Token) { t.kind == unorderedList || t.kind == orderedList }

  /**
   * The main kind a list token's bullet gives: "*", "+" and "-" are unordered, a bullet whose
   * first byte, read as a rune, is a letter or a digit is ordered, and any other bullet is the
   * panic case (None).
   */
  function MainKind(bullet: string): (r: Option<string>)
    ensures r.Some? ==> r.value in {"unordered", "ordered"}
    ensures r == Some("unordered") <==> bullet in {"*", "+", "-"}
  {
    if bullet == "*" || bullet == "+" || bullet == "-" then Some("unordered")
    else if |bullet| > 0 && (IsLatin1Letter(FirstByteRune(bullet[0])) || IsDigit(FirstByteRune(bullet[0]))) then Some("ordered")
    else None
  }

  /** The lexers never build a list token whose bullet makes listKind panic. */
  lemma MainKindOfToken(t: Token)
    requires IsListToken(t) && WellFormed(t)
    ensures MainKind(Group(t, 2)) == Some(if t.kind == unorderedList then "unordered" else "ordered")
  {
    var b := Group(t, 2);
    if t.kind == unorderedList {
      assert b == [b[0]];
    } else {
      assert b != "*" && b != "+" && b != "-" by { assert |b| >= 2; }
    }
  }

  /** The list kind: the main kind of the bullet. */
  function ListMainKind(t: Token): (k: string)
    requires IsListToken(t) && WellFormed(t)
    ensures k == (if t.kind == unorderedList then "unordered" else "ordered")
  {
    MainKindOfToken(t);
    MainKind(Group(t, 2)).value
  }

  // ---------------------------------------------------------------------------
  // `\s::(\s|$)`

  /** The descriptive separator starts at k: white space, "::", then white space or the end. */
  predicate DescriptiveAt(c: string, k: int) {
    0 <= k && k + 3 <= |c| && IsReSpace(c[k]) && c[k + 1] == ':' && c[k + 2] == ':'
    && (k + 3 == |c| || IsReSpace(c[k + 3]))
  }

  /** The leftmost separator at or after k, as the index pair FindStringIndex returns. */
  function DescriptiveFrom(c: string, k: nat): (r: Option<(nat, nat)>)
    ensures r.Some? ==> k <= r.value.0 && DescriptiveAt(c, r.value.0)
    ensures r.Some? ==> r.value.1 == (if r.value.0 + 3 < |c| then r.value.0 + 4 else r.value.0 + 3)
    decreases |c| - k
  {
    if k + 3 > |c| then None
    else if DescriptiveAt(c, k) then Some((k, if k + 3 < |c| then k + 4 else k + 3))
    else DescriptiveFrom(c, k + 1)
  }

  /** DescriptiveFrom finds the first separator position at or after k, and None means there is none. */
  lemma {:induction false} DescriptiveFromIsFirst(c: string, k: nat)
    ensures var r := DescriptiveFrom(c, k);
            (r.Some? ==> forall j :: k <= j < r.value.0 ==> !DescriptiveAt(c, j))
            && (r.None? ==> forall j :: k <= j ==> !DescriptiveAt(c, j))
    decreases |c| - k
  {
    if k + 3 <= |c| && !DescriptiveAt(c, k) {
      DescriptiveFromIsFirst(c, k + 1);
    }
  }

  function DescriptiveMatch(c: string): (r: Option<(nat, nat)>)
    ensures r.Some? ==> r.value.0 < r.value.1 <= |c| && DescriptiveAt(c, r.value.0)
  {
    DescriptiveFrom(c, 0)
  }

  /** listKind: a list whose first item holds the separator is "descriptive", else its main kind. */
  function ListKind(t: Token): (k: (string, string))
    requires IsListToken(t) && WellFormed(t)
    ensures k.0 == ListMainKind(t)
    ensures k.1 == "descriptive" <==> exists j :: DescriptiveAt(t.content, j)
    ensures k.1 != "descriptive" ==> k.1 == k.0
  {
    DescriptiveFromIsFirst(t.content, 0);
    var main := ListMainKind(t);
    if DescriptiveMatch(t.content).Some? then (main, "descriptive") else (main, main)
  }

  // ---------------------------------------------------------------------------
  // `\[@(\d+)\]\s`

  /** "[@", a run of n >= 1 digits, "]" and a white-space character start at k. */
  predicate ValueAt(c: string, k: int, n: nat) {
    0 <= k && k + n + 4 <= |c| && c[k] == '[' && c[k + 1] == '@' && n >= 1
    && (forall j :: k + 2 <= j < k + 2 + n ==> IsDigit(c[j]))
    && c[k + 2 + n] == ']' && IsReSpace(c[k + 3 + n])
  }

  /** The digit run after "[@" at k. */
  function DigitsAt(c: string, k: nat): (n: nat)
    requires k <= |c|
    ensures k + n <= |c| && forall j :: k <= j < k + n ==> IsDigit(c[j])
    ensures k + n < |c| ==> !IsDigit(c[k + n])
    decreases |c| - k
  {
    if k < |c| && IsDigit(c[k]) then 1 + DigitsAt(c, k + 1) else 0
  }

  /** At a given start at most one digit count fits, the whole digit run. */
  lemma ValueAtDigits(c: string, k: nat, n: nat)
    requires ValueAt(c, k, n)
    ensures DigitsAt(c, k + 2) == n
  {
  }

  predicate ValueStarts(c: string, k: nat) {
    k + 2 <= |c| && ValueAt(c, k, DigitsAt(c, k + 2))
  }

  /** The digits of the leftmost `[@N]` followed by white space at or after k. */
  function ValueFrom(c: string, k: nat): (r: Option<(nat, string)>)
    ensures r.Some? ==> k <= r.value.0 && ValueAt(c, r.value.0, |r.value.1|)
                        && r.value.1 == c[r.value.0 + 2..r.value.0 + 2 + |r.value.1|]
    decreases |c| - k
  {
    if k + 2 > |c| then None
    else if ValueStarts(c, k) then Some((k, c[k + 2..k + 2 + DigitsAt(c, k + 2)]))
    else ValueFrom(c, k + 1)
  }

  /** ValueFrom finds the leftmost match: no earlier start admits any digit count. */
  lemma {:induction false} ValueFromIsFirst(c: string, k: nat)
    ensures var r := ValueFrom(c, k);
            (r.Some? ==> forall j, n :: k <= j < r.value.0 ==> !ValueAt(c, j, n))
            && (r.None? ==> forall j, n :: k <= j ==> !ValueAt(c, j, n))
    decreases |c| - k
  {
    forall n | ValueAt(c, k, n) ensures ValueStarts(c, k) {
      ValueAtDigits(c, k, n);
    }
    if k + 2 <= |c| && !ValueStarts(c, k) {
      ValueFromIsFirst(c, k + 1);
    }
  }

  // ---------------------------------------------------------------------------
  // `\[( |X|-)\]\s`

  predicate StatusAt(c: string, k: int) {
    0 <= k && k + 4 <= |c| && c[k] == '[' && c[k + 1] in {' ', 'X', '-'} && c[k + 2] == ']' && IsReSpace(c[k + 3])
  }

  /** The marker character of the leftmost status box at or after k. */
  function StatusFrom(c: string, k: nat): (r: Option<nat>)
    ensures r.Some? ==> k <= r.value && StatusAt(c, r.value)
    decreases |c| - k
  {
    if k + 4 > |c| then None
    else if StatusAt(c, k) then Some(k)
    else StatusFrom(c, k + 1)
  }

  lemma {:induction false} StatusFromIsFirst(c: string, k: nat)
    ensures var r := StatusFrom(c, k);
            (r.Some? ==> forall j :: k <= j < r.value ==> !StatusAt(c, j))
            && (r.None? ==> forall j :: k <= j ==> !StatusAt(c, j))
    decreases |c| - k
  {
    if k + 4 <= |c| && !StatusAt(c, k) {
      StatusFromIsFirst(c, k + 1);
    }
  }

  // ---------------------------------------------------------------------------
  // The head of a list item

  /**
   * What parseListItem takes off an item's content before the body: the value, the status,
   * the descriptive term, the rest of the line, and whether a separator was found.
   */
  datatype ItemHead = ItemHead(value: string, status: string, term: string, body: string, described: bool)

  /** `[@N]` cut off the front by a fixed 4 + |N| characters, only for an "ordered" list. */
  function CutValue(kind: string, content: string): (r: (string, string))
    ensures r.0 == "" ==> r.1 == content
    ensures r.0 != "" ==> kind == "ordered" && AllDigits(r.0) && |r.1| + 4 + |r.0| == |content|
                          && r.1 == content[4 + |r.0|..]
    ensures r.0 != "" <==> kind == "ordered" && ValueFrom(content, 0).Some?
    ensures r.0 != "" ==> r.0 == ValueFrom(content, 0).value.1
  {
    var v := if kind == "ordered" then ValueFrom(content, 0) else None;
    if v.Some? then
      assert forall j :: 0 <= j < |v.value.1| ==> v.value.1[j] == content[v.value.0 + 2 + j];
      (v.value.1, content[4 + |v.value.1|..])
    else ("", content)
  }

  /** `[ ]`, `[X]` or `[-]` cut off the front by a fixed 4 characters, for any kind. */
  function CutStatus(content: string): (r: (string, string))
    ensures r.0 in {"", " ", "X", "-"}
    ensures r.0 == "" <==> StatusFrom(content, 0).None?
    ensures r.0 == "" ==> r.1 == content
    ensures r.0 != "" ==> r.1 == content[4..] && r.0 == [content[StatusFrom(content, 0).value + 1]]
  {
    var s := StatusFrom(content, 0);
    if s.Some? then ([content[s.value + 1]], content[4..]) else ("", content)
  }

  /**
   * parseListItem's head: the value cut, then the status cut, then for a descriptive list the
   * first separator splits the rest into the term before it and the body after it.
   */
  function Head(kind: string, content: string): (h: ItemHead)
    ensures var (value, rest) := CutValue(kind, content);
            var (status, rest) := CutStatus(rest);
            && h.value == value && h.status == status
            && (h.described <==> kind == "descriptive" && DescriptiveMatch(rest).Some?)
            && (h.described ==> var m := DescriptiveMatch(rest).value;
                                h.term == rest[..m.0] && h.body == rest[m.1..] && DescriptiveAt(rest, |h.term|))
            && (!h.described ==> h.term == "" && h.body == rest)
    ensures |h.body| <= |content| && h.body == content[|content| - |h.body|..]
  {
    var (value, rest) := CutValue(kind, content);
    var (status, rest) := CutStatus(rest);
    var dm := if kind == "descriptive" then DescriptiveMatch(rest) else None;
    if dm.Some? then ItemHead(value, status, rest[..dm.value.0], rest[dm.value.1..], true)
    else ItemHead(value, status, "", rest, false)
  }
}
