// The parts of org/headline.go that do not walk the token stream: the TODO keyword list and its
// fast-access keys, the status, priority and tag decomposition of a headline's text, IsExcluded,
// ID, and the outline of sections that addHeadline and Section.add maintain.
module Headlines {
  import opened Wrappers
  import opened Strs
  import opened Lexer
  import opened Drawers
  import opened Nodes

  // ---------------------------------------------------------------------------
  // TODO keywords

  /** The separator of the TODO setting: white space or '|'. */
  predicate IsTodoSeparator(c: char) { IsSpace(c) || c == '|' }

  /** The entry `k(x)`: a last '(' two characters before the end, and a ')' at the end. */
  predicate HasFastKey(t: string) {
    |t| >= 3 && t[|t| - 3] == '(' && t[|t| - 2] != '(' && t[|t| - 1] == ')'
  }

  /**
   * trimFastTags on one entry as written: it compares LastIndex of '(' with len(t)-3 and slices
   * t[:len(t)-3]. None stands for the slice panic of a two-character entry ending in ')'.
   */
  function TrimFastTagAsWritten(t: string): (r: Option<string>)
  {
    var lParen := LastIndex(t, "(");
    var rParen := LastIndex(t, ")");
    var end := |t| - 1;
    if lParen == end - 2 && rParen == end then
      if end - 2 >= 0 then Some(t[..end - 2]) else None
    else Some(t)
  }

  /** trimFastTags on one entry, corrected: an entry ending in a fast-access key loses it. */
  function TrimFastTag(t: string): (r: string)
    ensures HasFastKey(t) ==> r == t[..|t| - 3]
    ensures !HasFastKey(t) ==> r == t
  {
    if HasFastKey(t) then t[..|t| - 3] else t
  }

  lemma OccursAtChar(s: string, c: char, k: int)
    ensures OccursAt(s, [c], k) <==> 0 <= k < |s| && s[k] == c
  {
    if 0 <= k < |s| {
      assert s[k..k + 1] == [s[k]];
    }
  }

  /** The position LastIndex gives for one character, described by the characters around it. */
  lemma LastIndexChar(s: string, c: char, k: int)
    requires 0 <= k < |s|
    ensures LastIndex(s, [c]) == k <==> s[k] == c && forall j :: k < j < |s| ==> s[j] != c
  {
    var r := LastIndex(s, [c]);
    OccursAtChar(s, c, k);
    OccursAtChar(s, c, r);
    if s[k] == c && forall j :: k < j < |s| ==> s[j] != c {
      assert r >= k;
    }
    if r == k {
      forall j | k < j < |s| ensures s[j] != c {
        OccursAtChar(s, c, j);
      }
    }
  }

  /**
   * The written comparison of LastIndex positions is the fast-key shape, except for the
   * two-character entries ending in ')' without '(', where the written slice panics.
   */
  lemma TrimFastTagAgrees(t: string)
    ensures TrimFastTagAsWritten(t).None? <==> (|t| == 2 && t[0] != '(' && t[1] == ')')
    ensures TrimFastTagAsWritten(t).Some? ==> TrimFastTagAsWritten(t).value == TrimFastTag(t)
  {
    var lParen := LastIndex(t, "(");
    var rParen := LastIndex(t, ")");
    if |t| >= 3 {
      LastIndexChar(t, '(', |t| - 3);
      LastIndexChar(t, ')', |t| - 1);
    } else if |t| == 2 {
      LastIndexChar(t, ')', 1);
      if lParen != -1 {
        OccursAtChar(t, '(', lParen);
        OccursAtChar(t, '(', 0);
        assert lParen >= 0;
      }
      if t[0] == '(' {
        OccursAtChar(t, '(', 0);
      }
    }
  }

  /** The keyword `a)` of `#+TODO: a)` makes every headline's parse panic as written. */
  lemma FastTagPanics()
    ensures TrimFastTagAsWritten("a)").None?
  {
    TrimFastTagAgrees("a)");
  }

  /** trimFastTags with the corrected entry rule: one output per input entry, in order. */
  method TrimFastTags(tags: seq<string>) returns (trimmed: seq<string>)
    ensures |trimmed| == |tags|
    ensures forall i :: 0 <= i < |tags| ==> trimmed[i] == TrimFastTag(tags[i])
  {
    trimmed := [];
    var i := 0;
    while i < |tags|
      invariant 0 <= i <= |tags| && |trimmed| == i
      invariant forall k :: 0 <= k < i ==> trimmed[k] == TrimFastTag(tags[k])
    {
      var t := tags[i];
      if HasFastKey(t) {
        trimmed := trimmed + [t[..|t| - 3]];
      } else {
        trimmed := trimmed + [t];
      }
      i := i + 1;
    }
  }

  /** A trimmed keyword is what remains of its entry after the key was cut off. */
  lemma TrimFastTagIsPrefix(t: string)
    ensures var r := TrimFastTag(t); HasPrefix(t, r) && (r == t || t == r + "(" + [t[|t| - 2]] + ")")
  {
    var r := TrimFastTag(t);
    if HasFastKey(t) {
      assert t == t[..|t| - 3] + t[|t| - 3..];
      assert t[|t| - 3..] == "(" + [t[|t| - 2]] + ")";
    }
  }

  // ---------------------------------------------------------------------------
  // Status

  /** The text starts with the keyword followed by a white-space byte (rune(text[len(k)])). */
  predicate StartsWithKeyword(text: string, k: string) {
    HasPrefix(text, k) && |text| > |k| && IsSpace(FirstByteRune(text[|k|]))
  }

  /** The index of the first keyword the text starts with, at or after j, or -1. */
  function StatusIndex(keywords: seq<string>, text: string, j: nat): (r: int)
    requires j <= |keywords|
    ensures r == -1 <==> forall k :: j <= k < |keywords| ==> !StartsWithKeyword(text, keywords[k])
    ensures r != -1 ==> j <= r < |keywords| && StartsWithKeyword(text, keywords[r])
    ensures r != -1 ==> forall k :: j <= k < r ==> !StartsWithKeyword(text, keywords[k])
    decreases |keywords| - j
  {
    if j == |keywords| then -1
    else if StartsWithKeyword(text, keywords[j]) then j
    else StatusIndex(keywords, text, j + 1)
  }

  /**
   * The status loop of parseHeadline: the first keyword the text starts with becomes the status,
   * and it and the one white-space character after it are cut from the text.
   */
  method ParseStatus(keywords: seq<string>, text: string) returns (status: string, rest: string)
    ensures var r := StatusIndex(keywords, text, 0);
            (r >= 0 ==> status == keywords[r] && rest == text[|status| + 1..])
            && (r < 0 ==> status == "" && rest == text)
  {
    status, rest := "", text;
    var i := 0;
    while i < |keywords|
      invariant 0 <= i <= |keywords|
      invariant StatusIndex(keywords, text, 0) == StatusIndex(keywords, text, i)
    {
      var k := keywords[i];
      if HasPrefix(text, k) && |text| > |k| && IsSpace(FirstByteRune(text[|k|])) {
        status, rest := k, text[|k| + 1..];
        return;
      }
      i := i + 1;
    }
  }

  /** Exactly one ASCII white-space character separates the status from the rest. */
  lemma StatusSeparator(keywords: seq<string>, text: string)
    requires StatusIndex(keywords, text, 0) >= 0
    ensures var k := keywords[StatusIndex(keywords, text, 0)];
            text == k + [text[|k|]] + text[|k| + 1..] && text[|k|] < '\U{80}' && IsSpace(text[|k|])
  {
    var k := keywords[StatusIndex(keywords, text, 0)];
    FirstByteSpace(text[|k|]);
    assert text == text[..|k|] + [text[|k|]] + text[|k| + 1..];
  }

  // ---------------------------------------------------------------------------
  // Priority

  /**
   * The priority cookie: `[#A]`, `[#B]` or `[#C]` at the start of the text sets the priority
   * to the letter, and the text after the cookie is trimmed.
   */
  function Priority(text: string): (r: (string, string))
  {
    if |text| >= 4 && text[0..2] == "[#" && Contains("ABC", text[2..3]) && text[3] == ']' then
      (text[2..3], TrimSpace(text[4..]))
    else ("", text)
  }

  /** The condition of the source, read character by character. */
  lemma PriorityLetters(text: string)
    ensures var r := Priority(text);
            (r.0 != "" <==> (|text| >= 4 && text[0] == '[' && text[1] == '#' && text[2] in {'A', 'B', 'C'} && text[3] == ']'))
            && (r.0 != "" ==> text == "[#" + r.0 + "]" + text[4..] && r.1 == TrimSpace(text[4..]))
            && (r.0 == "" ==> r.1 == text)
  {
    if |text| >= 4 {
      var c := text[2..3];
      assert c == [text[2]];
      if text[2] in {'A', 'B', 'C'} {
        var k := if text[2] == 'A' then 0 else if text[2] == 'B' then 1 else 2;
        assert OccursAt("ABC", c, k) by { assert "ABC"[k..k + 1] == [text[2]]; }
        ContainsWitness("ABC", c, k);
      }
      if text[0] == '[' && text[1] == '#' {
        assert text[0..2] == "[#";
      }
      assert text == text[0..2] + text[2..3] + [text[3]] + text[4..];
    }
  }

  // ---------------------------------------------------------------------------
  // Tags

  predicate IsTagChar(c: char) {
    IsAsciiLetter(c) || IsDigit(c) || c == '_' || c == '@' || c == '#' || c == '%' || c == ':'
  }

  /**
   * A match of `(.*?)\s+(:[A-Za-z0-9_@#%:]+:\s*$)`: group 1 is the title, group 2 is the
   * cluster and the trailing white space. The lazy title is the shortest one, so it does not
   * end in white space.
   */
  datatype TagSplit = TagSplit(title: string, blanks: string, cluster: string, trailing: string)

  predicate IsTagSplit(text: string, m: TagSplit) {
    && text == m.title + m.blanks + m.cluster + m.trailing
    && |m.blanks| > 0 && AllReSpace(m.blanks)
    && (|m.title| > 0 ==> !IsReSpace(m.title[|m.title| - 1]))
    && |m.cluster| >= 3 && m.cluster[0] == ':' && m.cluster[|m.cluster| - 1] == ':'
    && (forall i :: 0 <= i < |m.cluster| ==> IsTagChar(m.cluster[i]))
    && AllReSpace(m.trailing)
  }

  /** The tag pattern on the text of a headline (which holds no newline): None when it does not match. */
  function MatchTags(text: string): (r: Option<TagSplit>)
  {
    var e := |text| - RunBefore(text, IsReSpace, |text|);
    var c := e - RunBefore(text, IsTagChar, e);
    if c >= 1 && e - c >= 3 && text[c] == ':' && text[e - 1] == ':' && IsReSpace(text[c - 1]) then
      var p := c - RunBefore(text, IsReSpace, c);
      Some(TagSplit(text[..p], text[p..c], text[c..e], text[e..]))
    else None
  }

  /** What MatchTags returns is a match of the pattern. */
  lemma MatchTagsSound(text: string)
    ensures MatchTags(text).Some? ==> IsTagSplit(text, MatchTags(text).value)
  {
    var e := |text| - RunBefore(text, IsReSpace, |text|);
    var c := e - RunBefore(text, IsTagChar, e);
    if c >= 1 && e - c >= 3 && text[c] == ':' && text[e - 1] == ':' && IsReSpace(text[c - 1]) {
      var p := c - RunBefore(text, IsReSpace, c);
      RunBeforeFacts(text, IsReSpace, |text|);
      RunBeforeFacts(text, IsTagChar, e);
      RunBeforeFacts(text, IsReSpace, c);
      MatchTagsAt(text, p, c, e);
      SplitIsTagSplit(text, p, c, e);
    } else {
      assert MatchTags(text).None?;
    }
  }

  lemma MatchTagsAt(text: string, p: nat, c: nat, e: nat)
    requires e == |text| - RunBefore(text, IsReSpace, |text|)
    requires c == e - RunBefore(text, IsTagChar, e)
    requires c >= 1 && e - c >= 3 && text[c] == ':' && text[e - 1] == ':' && IsReSpace(text[c - 1])
    requires p == c - RunBefore(text, IsReSpace, c)
    ensures MatchTags(text) == Some(TagSplit(text[..p], text[p..c], text[c..e], text[e..]))
  {
  }

  lemma SplitIsTagSplit(text: string, p: nat, c: nat, e: nat)
    requires p < c && c + 3 <= e <= |text|
    requires forall i :: e <= i < |text| ==> IsReSpace(text[i])
    requires forall i :: c <= i < e ==> IsTagChar(text[i])
    requires forall i :: p <= i < c ==> IsReSpace(text[i])
    requires p > 0 ==> !IsReSpace(text[p - 1])
    requires text[c] == ':' && text[e - 1] == ':'
    ensures IsTagSplit(text, TagSplit(text[..p], text[p..c], text[c..e], text[e..]))
  {
    var m := TagSplit(text[..p], text[p..c], text[c..e], text[e..]);
    assert text == m.title + m.blanks + m.cluster + m.trailing by {
      assert text[..c] == text[..p] + text[p..c];
      assert text[..e] == text[..c] + text[c..e];
      assert text == text[..e] + text[e..];
    }
    assert AllReSpace(m.blanks) && AllReSpace(m.trailing);
    assert forall i :: 0 <= i < |m.cluster| ==> IsTagChar(m.cluster[i]);
  }

  /** Every match of the pattern is the one MatchTags returns. */
  lemma MatchTagsComplete(text: string, m: TagSplit)
    requires IsTagSplit(text, m)
    ensures MatchTags(text) == Some(m)
  {
    var p := |m.title|;
    var c := p + |m.blanks|;
    var e := c + |m.cluster|;
    TagSplitIndices(text, m);
    assert m == TagSplit(text[..p], text[p..c], text[c..e], text[e..]);
    MatchTagsOfIndices(text, p, c, e);
  }

  lemma MatchTagsOfIndices(text: string, p: nat, c: nat, e: nat)
    requires p < c && c + 3 <= e <= |text|
    requires forall i :: e <= i < |text| ==> IsReSpace(text[i])
    requires forall i :: c <= i < e ==> IsTagChar(text[i])
    requires forall i :: p <= i < c ==> IsReSpace(text[i])
    requires p > 0 ==> !IsReSpace(text[p - 1])
    requires text[c] == ':' && text[e - 1] == ':' && !IsReSpace(text[e - 1])
    ensures MatchTags(text) == Some(TagSplit(text[..p], text[p..c], text[c..e], text[e..]))
  {
    RunBeforeIs(text, IsReSpace, |text|, |text| - e);
    assert IsReSpace(text[c - 1]);
    RunBeforeIs(text, IsTagChar, e, e - c);
    RunBeforeIs(text, IsReSpace, c, c - p);
    MatchTagsAt(text, p, c, e);
  }

  /** A match of the pattern, read as positions in the text. */
  lemma TagSplitIndices(text: string, m: TagSplit)
    requires IsTagSplit(text, m)
    ensures var p := |m.title|; var c := p + |m.blanks|; var e := c + |m.cluster|;
            && p < c && c + 3 <= e <= |text|
            && text[..p] == m.title && text[p..c] == m.blanks && text[c..e] == m.cluster && text[e..] == m.trailing
            && (forall i :: e <= i < |text| ==> IsReSpace(text[i]))
            && (forall i :: c <= i < e ==> IsTagChar(text[i]))
            && (forall i :: p <= i < c ==> IsReSpace(text[i]))
            && (p > 0 ==> !IsReSpace(text[p - 1]))
            && text[c] == ':' && text[e - 1] == ':' && !IsReSpace(text[e - 1])
  {
    var p := |m.title|;
    var c := p + |m.blanks|;
    var e := c + |m.cluster|;
    assert text == ((m.title + m.blanks) + m.cluster) + m.trailing;
    assert forall i :: e <= i < |text| ==> text[i] == m.trailing[i - e];
    assert forall i :: c <= i < e ==> text[i] == m.cluster[i - c];
    assert forall i :: p <= i < c ==> text[i] == m.blanks[i - p];
    assert p > 0 ==> text[p - 1] == m.title[p - 1];
  }

  predicate IsColon(c: char) { c == ':' }

  /** The tags are the ':'-separated fields of group 2 (trailing white space is a field too). */
  function TagsOf(m: TagSplit): (tags: seq<string>)
    ensures forall i :: 0 <= i < |tags| ==> |tags[i]| > 0
    ensures forall i, j :: 0 <= i < |tags| && 0 <= j < |tags[i]| ==> tags[i][j] != ':'
  {
    FieldsFunc(m.cluster + m.trailing, IsColon)
  }

  /** The tags hold exactly the characters of group 2 other than ':', in order. */
  lemma TagsKeepText(m: TagSplit)
    ensures Concat(TagsOf(m)) == Without(m.cluster + m.trailing, IsColon)
  {
    FieldsFuncKeepsContent(m.cluster + m.trailing, IsColon);
  }

  /** `title :a:b:` splits into the title, one blank and the tag cluster. */
  lemma TagsExample()
    ensures MatchTags("title :a:b:") == Some(TagSplit("title", " ", ":a:b:", ""))
  {
    var m := TagSplit("title", " ", ":a:b:", "");
    assert "title :a:b:" == m.title + m.blanks + m.cluster + m.trailing;
    assert forall i :: 0 <= i < |m.cluster| ==> IsTagChar(m.cluster[i]);
    MatchTagsComplete("title :a:b:", m);
  }

  // ---------------------------------------------------------------------------
  // IsExcluded and ID

  /** Whether some entry of excluded is one of the tags. */
  function AnyExcluded(excluded: seq<string>, tags: seq<string>): (b: bool)
    ensures b <==> exists i :: 0 <= i < |excluded| && excluded[i] in tags
  {
    if |excluded| == 0 then false
    else if excluded[0] in tags then true
    else
      var b := AnyExcluded(excluded[1..], tags);
      assert forall i :: 1 <= i < |excluded| ==> excluded[i] == excluded[1..][i - 1];
      b
  }

  /** IsExcluded: some tag is one of the white-space separated EXCLUDE_TAGS. */
  function IsExcluded(h: Headline, excludeTags: string): (b: bool)
    ensures b <==> exists t :: t in Fields(excludeTags) && t in h.tags
  {
    var b := AnyExcluded(Fields(excludeTags), h.tags);
    assert b ==> exists t :: t in Fields(excludeTags) && t in h.tags;
    b
  }

  /** ID: the CUSTOM_ID property when there is one, else headline-<Index>. */
  function ID(h: Headline): (id: string)
    reads h.properties
    ensures Get(h.properties, "CUSTOM_ID").1 ==> id == Get(h.properties, "CUSTOM_ID").0
    ensures !Get(h.properties, "CUSTOM_ID").1 ==> id == "headline-" + Itoa(h.index)
  {
    var (customID, ok) := Get(h.properties, "CUSTOM_ID");
    if ok then customID else "headline-" + Itoa(h.index)
  }

  /** Headlines without a CUSTOM_ID have different ids exactly when their indices differ. */
  lemma IDsDistinct(h1: Headline, h2: Headline)
    requires !Get(h1.properties, "CUSTOM_ID").1 && !Get(h2.properties, "CUSTOM_ID").1
    ensures ID(h1) == ID(h2) <==> h1.index == h2.index
  {
    if ID(h1) == ID(h2) {
      var p := "headline-";
      assert Itoa(h1.index) == ID(h1)[|p|..] && Itoa(h2.index) == ID(h2)[|p|..];
      ItoaAtoi(h1.index);
      ItoaAtoi(h2.index);
    }
  }

  // ---------------------------------------------------------------------------
  // The outline

  /**
   * A section of the outline. Sections live in one sequence and refer to each other by index:
   * index 0 is the root, which has no headline.
   */
  datatype Section = Section(headline: Option<Headline>, parent: int, children: seq<nat>)

  /** The first n sections form a tree: the root first, every other section below an earlier one. */
  predicate Tree(sections: seq<Section>, n: nat) {
    && 1 <= n <= |sections|
    && sections[0].headline.None?
    && forall k :: 1 <= k < n ==> sections[k].headline.Some? && 0 <= sections[k].parent < k
  }

  /** Whether section k is the root or has a level below lvl. */
  predicate Accepts(sections: seq<Section>, k: nat, lvl: int)
    requires k < |sections|
  {
    sections[k].headline.None? || sections[k].headline.value.lvl < lvl
  }

  /** The path from section p up to the root, p first. */
  function Ancestors(sections: seq<Section>, n: nat, p: nat): (path: seq<nat>)
    requires Tree(sections, n) && p < n
    ensures |path| > 0 && path[0] == p && path[|path| - 1] == 0
    ensures forall i :: 0 <= i < |path| ==> path[i] < n
    ensures forall i :: 0 <= i < |path| - 1 ==> path[i] > 0 && path[i + 1] == sections[path[i]].parent
    decreases p
  {
    if p == 0 then [0] else [p] + Ancestors(sections, n, sections[p].parent)
  }

  /**
   * Where Section.add attaches a section of level lvl when it is called on p: the first section
   * on the path up from p that is the root or has a smaller level.
   */
  function AttachPoint(sections: seq<Section>, n: nat, p: nat, lvl: int): (q: nat)
    requires Tree(sections, n) && p < n
    ensures q < n && Accepts(sections, q, lvl)
    decreases p
  {
    if Accepts(sections, p, lvl) then p else AttachPoint(sections, n, sections[p].parent, lvl)
  }

  /** The attach point is the first section on the path up from p that accepts the level. */
  lemma {:induction false} AttachPointOnPath(sections: seq<Section>, n: nat, p: nat, lvl: int) returns (k: nat)
    requires Tree(sections, n) && p < n
    ensures var path := Ancestors(sections, n, p);
            k < |path| && path[k] == AttachPoint(sections, n, p, lvl)
            && forall j :: 0 <= j < k ==> !Accepts(sections, path[j], lvl)
    decreases p
  {
    if Accepts(sections, p, lvl) {
      k := 0;
    } else {
      var up := Ancestors(sections, n, sections[p].parent);
      var k' := AttachPointOnPath(sections, n, sections[p].parent, lvl);
      k := k' + 1;
      assert Ancestors(sections, n, p) == [p] + up;
    }
  }

  /** Any section on the path that accepts the level, with none before it, is the attach point. */
  lemma AttachPointIsFirst(sections: seq<Section>, n: nat, p: nat, lvl: int, k: nat)
    requires Tree(sections, n) && p < n
    requires var path := Ancestors(sections, n, p);
             k < |path| && Accepts(sections, path[k], lvl) && forall j :: 0 <= j < k ==> !Accepts(sections, path[j], lvl)
    ensures AttachPoint(sections, n, p, lvl) == Ancestors(sections, n, p)[k]
  {
    var k' := AttachPointOnPath(sections, n, p, lvl);
    assert !(k < k') && !(k' < k);
  }

  /** The attach point depends only on the sections of the tree, not on what follows them. */
  lemma {:induction false} AttachPointPrefix(s: seq<Section>, s': seq<Section>, n: nat, p: nat, lvl: int)
    requires Tree(s, n) && Tree(s', n) && p < n && forall k :: 0 <= k < n ==> s'[k] == s[k]
    ensures AttachPoint(s', n, p, lvl) == AttachPoint(s, n, p, lvl)
    decreases p
  {
    assert s'[p] == s[p];
    if !Accepts(s, p, lvl) {
      AttachPointPrefix(s, s', n, s[p].parent, lvl);
    }
  }

  /** The outline of a document: its sections, the last one added, and the number of headlines. */
  class Outline {
    var sections: seq<Section>
    var last: nat
    var count: nat

    ghost predicate Valid()
      reads this
    {
      Tree(sections, |sections|) && last < |sections| && count == |sections| - 1
    }

    /** The outline of a fresh document: the root section only, which is also the last one. */
    constructor ()
      ensures Valid() && sections == [Section(None, -1, [])] && last == 0 && count == 0
    {
      sections, last, count := [Section(None, -1, [])], 0, 0;
    }

    /** The headline of the last section added, if it is not the root. */
    function LastHeadline(): (h: Option<Headline>)
      reads this
      requires Valid()
      ensures h == sections[last].headline
      ensures h.Some? <==> last > 0
    {
      sections[last].headline
    }

    /**
     * Section.add: the section cur (not yet linked) is appended to the children of the first
     * section on the path up from p that is the root or has a smaller level, which becomes its
     * parent.
     */
    method Add(p: nat, cur: nat)
      modifies this
      requires cur == |sections| - 1 && Tree(sections, cur) && p < cur && sections[cur].headline.Some?
      ensures var q := AttachPoint(old(sections), cur, p, old(sections)[cur].headline.value.lvl);
              sections == old(sections)[q := old(sections)[q].(children := old(sections)[q].children + [cur])]
                                       [cur := old(sections)[cur].(parent := q)]
      ensures last == old(last) && count == old(count)
      decreases p
    {
      var lvl := sections[cur].headline.value.lvl;
      if sections[p].headline.None? || sections[p].headline.value.lvl < lvl {
        sections := sections[p := sections[p].(children := sections[p].children + [cur])];
        sections := sections[cur := sections[cur].(parent := p)];
      } else {
        Add(sections[p].parent, cur);
      }
    }

    /**
     * addHeadline: the headline gets a new section, attached by level below the last section;
     * the count goes up by one, the new section becomes the last one, and the new count is the
     * headline's 1-based index.
     */
    method AddHeadline(h: Headline) returns (index: nat)
      modifies this
      requires Valid()
      ensures Valid()
      ensures index == old(count) + 1 && count == index && last == |old(sections)| && |sections| == |old(sections)| + 1
      ensures var q := AttachPoint(old(sections), |old(sections)|, old(last), h.lvl);
              sections[last] == Section(Some(h), q, [])
              && sections[q] == old(sections)[q].(children := old(sections)[q].children + [last])
              && forall k :: 0 <= k < |old(sections)| && k != q ==> sections[k] == old(sections)[k]
    {
      var cur := |sections|;
      ghost var s0 := sections;
      sections := sections + [Section(Some(h), -1, [])];
      ghost var s1 := sections;
      AttachPointPrefix(s0, s1, cur, last, h.lvl);
      Add(last, cur);
      ghost var q := AttachPoint(s0, cur, old(last), h.lvl);
      assert forall k :: 0 <= k < cur && k != q ==> sections[k] == s0[k];
      assert sections[q].headline == s0[q].headline && sections[q].parent == s0[q].parent;
      count := count + 1;
      last := cur;
      index := count;
    }

    /** Replaces the headline of a section other than the root; the tree is unchanged. */
    method SetHeadline(k: nat, h: Headline)
      modifies this
      requires Valid() && 1 <= k < |sections|
      ensures Valid()
      ensures sections == old(sections)[k := old(sections)[k].(headline := Some(h))]
      ensures last == old(last) && count == old(count)
    {
      sections := sections[k := sections[k].(headline := Some(h))];
    }
  }
}
