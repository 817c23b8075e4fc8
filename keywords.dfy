// The keyword record of org/keyword.go and the parts of keyword handling that do not touch the
// document: the free function parseKeyword, the ATTR_HTML/ATTR_LATEX attribute splitting, the
// #+LINK and #+MACRO definitions, the #+INCLUDE recogniser and Last.
module Keywords {
  import opened Wrappers
  import opened Strs
  import Lexer

  datatype Keyword = Keyword(pos: Lexer.Pos, endPos: Lexer.Pos, key: string, value: string)

  /** parseKeyword: the key upper-cased, the value trimmed, the end just after the token content. */
  function ParseKeyword(t: Lexer.Token): (k: Keyword)
    ensures k.key == ToUpper(Lexer.Group(t, 2)) && k.value == TrimSpace(Lexer.Group(t, 4))
    ensures forall i :: 0 <= i < |k.key| ==> !('a' <= k.key[i] <= 'z')
    ensures |k.value| > 0 ==> !IsSpace(k.value[0]) && !IsSpace(k.value[|k.value| - 1])
    ensures k.pos == t.pos && k.endPos == Lexer.Pos(t.pos.row, t.pos.col + |t.content|)
  {
    TrimSpaceSpec(Lexer.Group(t, 4));
    Keyword(t.pos, Lexer.Pos(t.pos.row, t.pos.col + |t.content|), ToUpper(Lexer.Group(t, 2)), TrimSpace(Lexer.Group(t, 4)))
  }

  /** Last: the final element of a sequence, or None for an empty one. */
  function Last<E>(s: seq<E>): (r: Option<E>)
    ensures r.None? <==> |s| == 0
    ensures r.Some? ==> r.value == s[|s| - 1]
  {
    if |s| == 0 then None else Some(s[|s| - 1])
  }

  // ---------------------------------------------------------------------------
  // #+LINK and #+MACRO

  /** #+LINK name rest: the name is the text before the first space, the definition all after it. */
  function LinkDefinition(value: string): (r: Option<(string, string)>)
    ensures r.Some? <==> Contains(value, " ")
    ensures r.Some? ==> r.value.0 + " " + r.value.1 == value && !Contains(r.value.0, " ")
  {
    var parts := SplitN2(value, " ");
    if |parts| == 2 then Some((parts[0], parts[1])) else None
  }

  /**
   * #+MACRO name body: strings.Split on " " with at least two parts; the name is the first part
   * and the body only the second, the part between the first and the second space.
   */
  function MacroDefinition(value: string): (r: Option<(string, string)>)
    ensures r.Some? <==> Contains(value, " ")
    ensures r.Some? ==> HasPrefix(value, r.value.0 + " " + r.value.1)
    ensures r.Some? ==> !Contains(r.value.0, " ") && !Contains(r.value.1, " ")
  {
    var k := Index(value, " ");
    if k < 0 then None
    else
      var rest := value[k + 1..];
      var j := Index(rest, " ");
      BeforeFirstIsFree(value, " ");
      assert value == value[..k] + " " + rest by { AroundOccurrence(value, " ", k); }
      if j < 0 then Some((value[..k], rest))
      else
        BeforeFirstIsFree(rest, " ");
        assert HasPrefix(rest, rest[..j]);
        Some((value[..k], rest[..j]))
  }

  // ---------------------------------------------------------------------------
  // ATTR_HTML / ATTR_LATEX: the loop over (?:^|\s+)(:[-\w]+)\s+(.*)$

  predicate IsAttrKeyChar(c: char) { c == '-' || IsWord(c) }

  /** The end of the run of characters satisfying f that starts at j. */
  function RunEnd(s: string, j: nat, f: char -> bool): (e: nat)
    requires j <= |s|
    ensures j <= e <= |s|
    decreases |s| - j
  {
    if j < |s| && f(s[j]) then RunEnd(s, j + 1, f) else j
  }

  lemma {:induction false} RunEndFacts(s: string, j: nat, f: char -> bool)
    requires j <= |s|
    ensures forall k :: j <= k < RunEnd(s, j, f) ==> f(s[k])
    ensures RunEnd(s, j, f) < |s| ==> !f(s[RunEnd(s, j, f)])
    decreases |s| - j
  {
    if j < |s| && f(s[j]) {
      RunEndFacts(s, j + 1, f);
    }
  }

  /** One match of the attribute pattern: where it starts, the ":key" group and the value group. */
  datatype AttrMatch = AttrMatch(start: nat, key: string, rest: string)

  /** The colon that a match starting at p uses: p itself for the `^` branch, else past the blanks. */
  function AttrColon(s: string, p: nat): (c: int)
    requires p <= |s|
    ensures c == -1 || p <= c < |s|
  {
    if p == 0 && p < |s| && s[p] == ':' then p
    else if p < |s| && IsReSpace(s[p]) then
      var c := RunEnd(s, p, IsReSpace);
      if c < |s| && s[c] == ':' then c else -1
    else -1
  }

  /**
   * The match of the attribute pattern starting at p, if any: a colon as above, a non-empty
   * [-\w] run, at least one blank, and the rest of the line (past the maximal blank run) as value.
   */
  function AttrMatchAt(s: string, p: nat): (r: Option<AttrMatch>)
    requires p <= |s|
    ensures r.Some? ==> r.value.start == p && |r.value.rest| + 2 < |s| - p + 1
  {
    var c := AttrColon(s, p);
    if c < 0 then None
    else
      var ke := RunEnd(s, c + 1, IsAttrKeyChar);
      if ke == c + 1 || ke == |s| || !IsReSpace(s[ke]) then None
      else Some(AttrMatch(p, s[c..ke], s[RunEnd(s, ke, IsReSpace)..]))
  }

  /** The leftmost match at or after p (FindStringSubmatch when p = 0). */
  function FindAttrFrom(s: string, p: nat): (r: Option<AttrMatch>)
    requires p <= |s|
    ensures r.Some? ==> p <= r.value.start <= |s| && |r.value.rest| < |s|
    decreases |s| - p
  {
    var m := AttrMatchAt(s, p);
    if m.Some? then m
    else if p == |s| then None
    else FindAttrFrom(s, p + 1)
  }

  /** FindAttrFrom returns the match at the least position that has one, and None when none has. */
  lemma {:induction false} FindAttrFromFacts(s: string, p: nat)
    requires p <= |s|
    ensures var r := FindAttrFrom(s, p);
            (r.Some? ==> AttrMatchAt(s, r.value.start) == r
                         && forall q :: p <= q < r.value.start ==> AttrMatchAt(s, q).None?)
            && (r.None? ==> forall q :: p <= q <= |s| ==> AttrMatchAt(s, q).None?)
    decreases |s| - p
  {
    var m := AttrMatchAt(s, p);
    if m.None? && p < |s| {
      FindAttrFromFacts(s, p + 1);
      var r := FindAttrFrom(s, p + 1);
      assert FindAttrFrom(s, p) == r;
      if r.Some? {
        forall q | p <= q < r.value.start
          ensures AttrMatchAt(s, q).None?
        {
          if q == p {
            assert AttrMatchAt(s, q) == m;
          }
        }
      } else {
        forall q | p <= q <= |s|
          ensures AttrMatchAt(s, q).None?
        {
          if q == p {
            assert AttrMatchAt(s, q) == m;
          }
        }
      }
    }
  }

  function FindAttr(s: string): (r: Option<AttrMatch>)
    ensures r.Some? ==> r.value.start <= |s| && |r.value.rest| < |s|
  {
    FindAttrFrom(s, 0)
  }

  /**
   * The attribute list the loop of parseAffiliated builds from a value: a key, then either the
   * text up to the next match (and the loop goes on from there) or the trimmed remainder.
   */
  function Attributes(s: string): (r: seq<string>)
    decreases |s|
  {
    match FindAttr(s)
    case None => []
    case Some(m1) =>
      match FindAttr(m1.rest)
      case None => [m1.key, TrimSpace(m1.rest)]
      case Some(m2) => [m1.key, m1.rest[..m2.start]] + Attributes(m1.rest[m2.start..])
  }

  /** One round of the loop: the key, then the text up to the next match or the trimmed rest. */
  lemma AttributesStep(s: string)
    ensures FindAttr(s).None? ==> Attributes(s) == []
    ensures FindAttr(s).Some? && FindAttr(FindAttr(s).value.rest).None? ==>
              Attributes(s) == [FindAttr(s).value.key, TrimSpace(FindAttr(s).value.rest)]
    ensures FindAttr(s).Some? && FindAttr(FindAttr(s).value.rest).Some? ==>
              var rest := FindAttr(s).value.rest;
              var k := FindAttr(rest).value.start;
              Attributes(s) == [FindAttr(s).value.key, rest[..k]] + Attributes(rest[k..])
  {
  }

  /** Every match's key group is a colon followed by a non-empty run of [-\w] characters. */
  predicate IsAttrKey(k: string) {
    |k| >= 2 && k[0] == ':' && forall i :: 1 <= i < |k| ==> IsAttrKeyChar(k[i])
  }

  lemma AttrMatchKey(s: string, p: nat)
    requires p <= |s| && AttrMatchAt(s, p).Some?
    ensures IsAttrKey(AttrMatchAt(s, p).value.key)
  {
    var c := AttrColon(s, p);
    var ke := RunEnd(s, c + 1, IsAttrKeyChar);
    RunEndFacts(s, c + 1, IsAttrKeyChar);
    var k := s[c..ke];
    assert forall i :: 1 <= i < |k| ==> k[i] == s[c + i];
  }

  /** A list of ":key", value pairs. */
  predicate KeyValuePairs(r: seq<string>)
    decreases |r|
  {
    |r| == 0 || (|r| >= 2 && IsAttrKey(r[0]) && KeyValuePairs(r[2..]))
  }

  /** The list alternates keys and values: it is made of ":key", value pairs. */
  lemma {:induction false} AttributesShape(s: string)
    ensures KeyValuePairs(Attributes(s))
    decreases |s|
  {
    AttributesStep(s);
    var m1 := FindAttr(s);
    if m1.Some? {
      FindAttrFromFacts(s, 0);
      AttrMatchKey(s, m1.value.start);
      var m2 := FindAttr(m1.value.rest);
      if m2.Some? {
        var rest := m1.value.rest[m2.value.start..];
        AttributesShape(rest);
        var r := [m1.value.key, m1.value.rest[..m2.value.start]] + Attributes(rest);
        assert r[2..] == Attributes(rest);
      } else {
        assert [m1.value.key, TrimSpace(m1.value.rest)][2..] == [];
      }
    }
  }

  /** Such a list has even length. */
  lemma {:induction false} KeyValuePairsEven(r: seq<string>)
    requires KeyValuePairs(r)
    ensures |r| % 2 == 0
    decreases |r|
  {
    if |r| > 0 { KeyValuePairsEven(r[2..]); }
  }

  /** A value with no ":key " part gives an empty attribute list. */
  lemma AttributesNone(s: string)
    requires forall q :: 0 <= q <= |s| ==> AttrMatchAt(s, q).None?
    ensures Attributes(s) == []
  {
    FindAttrFromFacts(s, 0);
  }

  /** The loop of parseAffiliated for ATTR_HTML and ATTR_LATEX. */
  method SplitAttributes(value: string) returns (attributes: seq<string>)
    ensures attributes == Attributes(value)
  {
    attributes := [];
    var rest := value;
    while true
      invariant attributes + Attributes(rest) == Attributes(value)
      decreases |rest|
    {
      ghost var done := attributes;
      AttributesStep(rest);
      var m := FindAttr(rest);
      if m.None? {
        assert attributes == done + Attributes(rest);
        return;
      }
      var key := m.value.key;
      var tail := m.value.rest;
      var m2 := FindAttr(tail);
      if m2.Some? {
        var next := tail[m2.value.start..];
        assert Attributes(rest) == [key, tail[..m2.value.start]] + Attributes(next);
        attributes := attributes + [key, tail[..m2.value.start]];
        rest := next;
      } else {
        assert Attributes(rest) == [key, TrimSpace(tail)];
        attributes := attributes + [key, TrimSpace(tail)];
        return;
      }
    }
  }

  // ---------------------------------------------------------------------------
  // #+INCLUDE: (?i)^"([^"]+)" (src|example|export) (\w+)$

  datatype IncludeFile = IncludeFile(path: string, kind: string, lang: string)

  predicate IsIncludeKind(k: string) { EqualFold(k, "src") || EqualFold(k, "example") || EqualFold(k, "export") }

  /** The shape the include pattern accepts, stated on the parts. */
  predicate IsIncludeValue(value: string, f: IncludeFile) {
    value == "\"" + f.path + "\" " + f.kind + " " + f.lang
    && |f.path| > 0 && (forall i :: 0 <= i < |f.path| ==> f.path[i] != '"')
    && IsIncludeKind(f.kind)
    && |f.lang| > 0 && (forall i :: 0 <= i < |f.lang| ==> IsWord(f.lang[i]))
  }

  predicate NotQuote(c: char) { c != '"' }
  predicate NotSpace(c: char) { c != ' ' }

  /** A run that is known to stop at e ends there. */
  lemma {:induction false} RunEndAt(s: string, j: nat, e: nat, f: char -> bool)
    requires j <= e <= |s|
    requires forall k :: j <= k < e ==> f(s[k])
    requires e == |s| || !f(s[e])
    ensures RunEnd(s, j, f) == e
    decreases e - j
  {
    if j < e { RunEndAt(s, j + 1, e, f); }
  }

  /** The kind ends at the first space after the path; the language is the rest. */
  function IncludeTail(tail: string): (r: Option<(string, string)>)
    ensures r.Some? ==> tail == r.value.0 + " " + r.value.1 && IsIncludeKind(r.value.0)
                        && |r.value.1| > 0 && (forall i :: 0 <= i < |r.value.1| ==> IsWord(r.value.1[i]))
  {
    var k := RunEnd(tail, 0, NotSpace);
    if k == |tail| then None
    else
      var kind := tail[..k];
      var lang := tail[k + 1..];
      assert tail == kind + [tail[k]] + lang;
      RunEndFacts(tail, 0, NotSpace);
      if IsIncludeKind(kind) && |lang| > 0 && (forall i :: 0 <= i < |lang| ==> IsWord(lang[i]))
      then Some((kind, lang)) else None
  }

  /** includeFileRegexp: the quoted path, the kind and the language, when the value has that shape. */
  function IncludeTarget(value: string): (r: Option<IncludeFile>)
    ensures r.Some? ==> IsIncludeValue(value, r.value)
  {
    if |value| < 2 || value[0] != '"' then None
    else
      var q := RunEnd(value, 1, NotQuote);
      if q == 1 || q + 2 > |value| || value[q + 1] != ' ' then None
      else
        RunEndFacts(value, 1, NotQuote);
        var path := value[1..q];
        var tail := value[q + 2..];
        match IncludeTail(tail)
        case None => None
        case Some(kl) =>
          assert value == "\"" + path + "\" " + tail;
          Some(IncludeFile(path, kl.0, kl.1))
  }

  /** No case-folded kind contains a space, so the space after the kind is the first one. */
  lemma KindHasNoSpace(k: string)
    requires IsIncludeKind(k)
    ensures forall i :: 0 <= i < |k| ==> k[i] != ' '
  {
    forall i | 0 <= i < |k| ensures k[i] != ' ' {
      assert LowerChar(k[i]) == ToLower(k)[i];
    }
  }

  /** The recogniser accepts exactly the values of the include shape (the converse of its ensures). */
  lemma IncludeTargetComplete(value: string, f: IncludeFile)
    requires IsIncludeValue(value, f)
    ensures IncludeTarget(value) == Some(f)
  {
    var n := |f.path|;
    assert forall k :: 1 <= k < n + 1 ==> value[k] == f.path[k - 1];
    assert value[n + 1] == '"';
    RunEndAt(value, 1, n + 1, NotQuote);
    assert value[n + 2] == ' ';
    var tail := value[n + 3..];
    assert tail == f.kind + " " + f.lang;
    KindHasNoSpace(f.kind);
    assert forall k :: 0 <= k < |f.kind| ==> tail[k] == f.kind[k];
    RunEndAt(tail, 0, |f.kind|, NotSpace);
    assert tail[..|f.kind|] == f.kind && tail[|f.kind| + 1..] == f.lang;
    assert value[1..n + 1] == f.path;
  }

  /** The recogniser finds a target exactly when the value has the include shape. */
  lemma IncludeTargetExact(value: string)
    ensures IncludeTarget(value).Some? <==> (exists f :: IsIncludeValue(value, f))
  {
    if IncludeTarget(value).None? {
      forall f | IsIncludeValue(value, f) ensures false { IncludeTargetComplete(value, f); }
    }
  }

  /** An Include node: its end, the keyword, and the file it refers to (None: a "Bad include"). */
  datatype Include = Include(endPos: Lexer.Pos, keyword: Keyword, file: Option<IncludeFile>)

  /**
   * parseInclude as written: the end column adds len(m[0]), which indexes a nil match when the
   * value does not have the include shape; None stands for that index panic.
   */
  function ParseIncludeAsWritten(k: Keyword): (r: Option<Include>)
    ensures r.None? <==> IncludeTarget(k.value).None?
    ensures r.Some? ==> r.value.endPos == Lexer.Pos(k.endPos.row, k.endPos.col + |k.value|)
  {
    var m := IncludeTarget(k.value);
    if m.None? then None
    else Some(Include(Lexer.Pos(k.endPos.row, k.endPos.col + |k.value|), k, m))
  }

  /** A plain path without quotes panics as written. */
  lemma IncludeAsWrittenPanics()
    ensures ParseIncludeAsWritten(Keyword(Lexer.Pos(0, 0), Lexer.Pos(0, 15), "INCLUDE", "notes.org")).None?
  {
  }

  /**
   * parseInclude corrected: the whole anchored match is the value, so the end column adds
   * len(value) in every case, and a value of another shape gives a "Bad include" node.
   */
  function ParseInclude(k: Keyword): (r: Include)
    ensures r.keyword == k && r.endPos == Lexer.Pos(k.endPos.row, k.endPos.col + |k.value|)
    ensures r.file.Some? <==> (exists f :: IsIncludeValue(k.value, f))
    ensures r.file.Some? ==> IsIncludeValue(k.value, r.file.value)
    ensures ParseIncludeAsWritten(k).Some? ==> ParseIncludeAsWritten(k).value == r
  {
    var m := IncludeTarget(k.value);
    IncludeTargetExact(k.value);
    Include(Lexer.Pos(k.endPos.row, k.endPos.col + |k.value|), k, m)
  }
}
