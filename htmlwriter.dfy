// The bookkeeping rules of HTMLWriter (org/html_writer.go) that do not depend on HTML rendering:
// footnote numbering (a name-to-index map beside a list of definitions, both updated in place),
// the ids footnote references and definitions are written with, the merging of an attribute into
// an attribute list, and whether a table starts with a header. A footnote definition's type is a
// parameter D and what WriteNodes makes of it is given as `render`.
module HtmlWriter {
  import opened Wrappers
  import opened Strs

  // ---------------------------------------------------------------------------
  // Footnote numbering

  /**
   * The footnote state is consistent: every registered name points into the list, no two names
   * share an index, and the empty (anonymous) name is never registered.
   */
  predicate Registered<D>(mapping: map<string, nat>, list: seq<Option<D>>) {
    && "" !in mapping
    && (forall name :: name in mapping ==> mapping[name] < |list|)
    && (forall a, b :: a in mapping && b in mapping && mapping[a] == mapping[b] ==> a == b)
  }

  /** The footnote state: the name-to-index map and the list of definitions, nil standing as None. */
  datatype FootnoteState<D> = FootnoteState(mapping: map<string, nat>, list: seq<Option<D>>)

  /**
   * footnotes.add: a registered non-empty name keeps its index; any other link appends its
   * definition, and the new index is recorded under its name when it has one.
   */
  function AddFootnote<D>(s: FootnoteState<D>, name: string, definition: Option<D>): (r: (FootnoteState<D>, nat))
  {
    if name in s.mapping && name != "" then (s, s.mapping[name])
    else
      var i := |s.list|;
      (FootnoteState(if name != "" then s.mapping[name := i] else s.mapping, s.list + [definition]), i)
  }

  /** footnotes.updateDefinition: the definition replaces the list entry of its name, if the name is registered. */
  function UpdateFootnote<D>(s: FootnoteState<D>, name: string, definition: D): (r: FootnoteState<D>)
    requires Registered(s.mapping, s.list)
  {
    if name in s.mapping then s.(list := s.list[s.mapping[name] := Some(definition)]) else s
  }

  /** A name seen before gets its old number back, and nothing changes. */
  lemma AddKnown<D>(s: FootnoteState<D>, name: string, definition: Option<D>)
    requires Registered(s.mapping, s.list) && name in s.mapping
    ensures AddFootnote(s, name, definition) == (s, s.mapping[name])
    ensures AddFootnote(s, name, definition).1 < |s.list|
  {
  }

  /**
   * Any other link gets the next number, which no registered name holds: anonymous links always
   * get a number of their own. The definitions before it are unchanged.
   */
  lemma AddFresh<D>(s: FootnoteState<D>, name: string, definition: Option<D>)
    requires Registered(s.mapping, s.list) && name !in s.mapping
    ensures var (s', i) := AddFootnote(s, name, definition);
            && i == |s.list| && s'.list == s.list + [definition]
            && (forall other :: other in s.mapping ==> s.mapping[other] != i)
            && (name != "" ==> s'.mapping == s.mapping[name := i])
            && (name == "" ==> s'.mapping == s.mapping)
  {
  }

  /** add keeps the state consistent and returns an index into the list. */
  lemma AddRegistered<D>(s: FootnoteState<D>, name: string, definition: Option<D>)
    requires Registered(s.mapping, s.list)
    ensures var (s', i) := AddFootnote(s, name, definition);
            Registered(s'.mapping, s'.list) && i < |s'.list| && |s.list| <= |s'.list|
  {
    var (s', i) := AddFootnote(s, name, definition);
    assert forall a :: a in s.mapping ==> s.mapping[a] < |s.list|;
  }

  /** Two different names, added one after the other, get different numbers. */
  lemma AddDistinct<D>(s: FootnoteState<D>, a: string, da: Option<D>, b: string, db: Option<D>)
    requires Registered(s.mapping, s.list) && a != b
    ensures var (s1, i) := AddFootnote(s, a, da);
            var (s2, j) := AddFootnote(s1, b, db);
            i != j
  {
    var (s1, i) := AddFootnote(s, a, da);
    AddRegistered(s, a, da);
    var (s2, j) := AddFootnote(s1, b, db);
    if b in s1.mapping && b != "" {
      if a in s.mapping && a != "" {
        assert s1 == s;
      } else {
        assert b in s.mapping || b == a;
        assert s.mapping[b] < |s.list| == i;
      }
    }
  }

  /** updateDefinition changes only its name's entry, and only when the name is registered. */
  lemma UpdateDefinitionEffect<D>(s: FootnoteState<D>, name: string, definition: D)
    requires Registered(s.mapping, s.list)
    ensures var s' := UpdateFootnote(s, name, definition);
            && Registered(s'.mapping, s'.list)
            && s'.mapping == s.mapping && |s'.list| == |s.list|
            && (name in s.mapping ==> s'.list[s.mapping[name]] == Some(definition))
            && (forall i :: 0 <= i < |s.list| && (name !in s.mapping || i != s.mapping[name]) ==> s'.list[i] == s.list[i])
  {
  }

  /** A named reference followed by its definition: the number the reference got now points at that definition. */
  lemma AddThenDefine<D>(s: FootnoteState<D>, name: string, link: Option<D>, definition: D)
    requires Registered(s.mapping, s.list) && name != ""
    ensures var (s1, i) := AddFootnote(s, name, link);
            Registered(s1.mapping, s1.list) && UpdateFootnote(s1, name, definition).list[i] == Some(definition)
  {
    AddRegistered(s, name, link);
  }

  /** The footnotes of a writer, shared by every reference and definition it writes. */
  class Footnotes<D> {
    var mapping: map<string, nat>
    var list: seq<Option<D>>

    function State(): FootnoteState<D>
      reads this
    {
      FootnoteState(mapping, list)
    }

    constructor ()
      ensures mapping == map[] && list == []
      ensures Registered(mapping, list)
    {
      mapping, list := map[], [];
    }

    /** add: the index of a link's footnote, registering it on first sight. */
    method Add(name: string, definition: Option<D>) returns (i: nat)
      modifies this
      ensures (State(), i) == AddFootnote(old(State()), name, definition)
      ensures old(Registered(mapping, list)) ==> Registered(mapping, list) && i < |list|
    {
      if Registered(mapping, list) {
        AddRegistered(State(), name, definition);
      }
      if name in mapping && name != "" {
        return mapping[name];
      }
      list := list + [definition];
      i := |list| - 1;
      if name != "" {
        mapping := mapping[name := i];
      }
    }

    /** updateDefinition: a definition overwrites the entry of its registered name. */
    method UpdateDefinition(name: string, definition: D)
      requires Registered(mapping, list)
      modifies this
      ensures State() == UpdateFootnote(old(State()), name, definition)
    {
      if name in mapping {
        list := list[mapping[name] := Some(definition)];
      }
    }
  }

  // ---------------------------------------------------------------------------
  // Footnote ids

  /** The anchor of footnote number id's definition. */
  function DefinitionAnchor(id: int): (a: string)
    ensures |a| > |"footnote-"| && a[..|"footnote-"|] == "footnote-"
  {
    "footnote-" + Itoa(id)
  }

  /** The anchor of footnote number id's reference. */
  function ReferenceAnchor(id: int): (a: string)
    ensures |a| > |"footnote-reference-"| && a[..|"footnote-reference-"|] == "footnote-reference-"
  {
    "footnote-reference-" + Itoa(id)
  }

  /** Different footnote numbers have different anchors. */
  lemma AnchorsDistinct(a: int, b: int)
    ensures DefinitionAnchor(a) == DefinitionAnchor(b) <==> a == b
    ensures ReferenceAnchor(a) == ReferenceAnchor(b) <==> a == b
  {
    if DefinitionAnchor(a) == DefinitionAnchor(b) {
      assert Itoa(a) == DefinitionAnchor(a)[|"footnote-"|..];
      assert Itoa(b) == DefinitionAnchor(b)[|"footnote-"|..];
      ItoaAtoi(a);
      ItoaAtoi(b);
    }
    if ReferenceAnchor(a) == ReferenceAnchor(b) {
      assert Itoa(a) == ReferenceAnchor(a)[|"footnote-reference-"|..];
      assert Itoa(b) == ReferenceAnchor(b)[|"footnote-reference-"|..];
      ItoaAtoi(a);
      ItoaAtoi(b);
    }
  }

  /** WriteFootnoteLink's output for footnote number id: a superscript linking to the definition. */
  function ReferenceHtml(id: int): string
  {
    "<sup class=\"footnote-reference\"><a id=\"" + ReferenceAnchor(id) + "\" href=\"#" + DefinitionAnchor(id) + "\">" + Itoa(id) + "</a></sup>"
  }

  /** One definition in WriteFootnotes: its number linking back to the reference, then its body. */
  function DefinitionHtml(id: int, body: string): string
  {
    "<div class=\"footnote-definition\">\n"
    + "<sup id=\"" + DefinitionAnchor(id) + "\"><a href=\"#" + ReferenceAnchor(id) + "\">" + Itoa(id) + "</a></sup>\n"
    + "<div class=\"footnote-body\">\n" + body + "</div>\n</div>\n"
  }

  /** The definitions of the first k footnotes, numbered from 1; a missing definition writes nothing. */
  function DefinitionsHtml<D>(list: seq<Option<D>>, render: D -> string, k: nat): string
    requires k <= |list|
  {
    if k == 0 then ""
    else
      var d := list[k - 1];
      DefinitionsHtml(list, render, k - 1) + (if d.Some? then DefinitionHtml(k, render(d.value)) else "")
  }

  /** The footnotes section around the written definitions. */
  function FootnotesFrame(definitions: string): string
  {
    "<div class=\"footnotes\">\n<hr class=\"footnotes-separatator\">\n<div class=\"footnote-definitions\">\n"
    + definitions + "</div>\n</div>\n"
  }

  /** WriteFootnotes: nothing when footnotes are off or there are none, else the definitions in their frame. */
  function FootnotesHtml<D>(off: bool, list: seq<Option<D>>, render: D -> string): string
  {
    if off || |list| == 0 then "" else FootnotesFrame(DefinitionsHtml(list, render, |list|))
  }

  /** The definitions written for the first j footnotes begin those written for the first k. */
  lemma {:induction false} DefinitionsPrefix<D>(list: seq<Option<D>>, render: D -> string, j: nat, k: nat)
    requires j <= k <= |list|
    ensures var a, b := DefinitionsHtml(list, render, j), DefinitionsHtml(list, render, k);
            |a| <= |b| && b[..|a|] == a
    decreases k
  {
    if j < k {
      DefinitionsPrefix(list, render, j, k - 1);
    }
  }

  /**
   * The definition of footnote number i + 1 is written when it is known: the definitions are
   * written in list order, each under its number.
   */
  lemma DefinitionWritten<D>(list: seq<Option<D>>, render: D -> string, i: nat)
    requires i < |list| && list[i].Some?
    ensures Contains(DefinitionsHtml(list, render, |list|), DefinitionHtml(i + 1, render(list[i].value)))
  {
    var all := DefinitionsHtml(list, render, |list|);
    var before := DefinitionsHtml(list, render, i);
    var def := DefinitionHtml(i + 1, render(list[i].value));
    DefinitionsPrefix(list, render, i + 1, |list|);
    PrefixContains(all, before, def);
  }

  /** A string that begins with before + def contains def. */
  lemma PrefixContains(all: string, before: string, def: string)
    requires |before + def| <= |all| && all[..|before + def|] == before + def
    ensures Contains(all, def)
  {
    assert all[|before|..|before| + |def|] == (before + def)[|before|..];
    ContainsWitness(all, def, |before|);
  }

  /** The definitions WriteFootnotes writes, in list order. */
  method DefinitionsText<D>(list: seq<Option<D>>, render: D -> string) returns (text: string)
    ensures text == DefinitionsHtml(list, render, |list|)
  {
    text := "";
    for i := 0 to |list|
      invariant text == DefinitionsHtml(list, render, i)
    {
      var id := i + 1;
      if list[i].Some? {
        text := text + DefinitionHtml(id, render(list[i].value));
      }
    }
  }

  /** An HTMLWriter's output and its footnotes; `off` is the document's `f:nil` option. */
  class HtmlWriter<D> {
    var out: string
    const off: bool
    const footnotes: Footnotes<D>

    /** The writer's invariant: every recorded footnote number indexes its list. */
    predicate Valid()
      reads this, footnotes
    {
      Registered(footnotes.mapping, footnotes.list)
    }

    constructor (off: bool)
      ensures out == "" && this.off == off && fresh(footnotes)
      ensures footnotes.mapping == map[] && footnotes.list == [] && Valid()
    {
      out := "";
      this.off := off;
      footnotes := new Footnotes();
    }

    /** WriteFootnoteLink: unless footnotes are off, number the link and write its reference. */
    method WriteFootnoteLink(name: string, definition: Option<D>)
      modifies this`out, footnotes
      ensures off ==> out == old(out) && footnotes.State() == old(footnotes.State())
      ensures !off ==> var (s, i) := AddFootnote(old(footnotes.State()), name, definition);
                       footnotes.State() == s && out == old(out) + ReferenceHtml(i + 1)
      ensures old(Valid()) ==> Valid()
    {
      if off {
        return;
      }
      var i := footnotes.Add(name, definition);
      var id := i + 1;
      out := out + ReferenceHtml(id);
    }

    /** WriteFootnoteDefinition: a definition only records itself; WriteFootnotes writes it. */
    method WriteFootnoteDefinition(name: string, definition: D)
      requires Valid()
      modifies footnotes
      ensures footnotes.State() == UpdateFootnote(old(footnotes.State()), name, definition)
      ensures Valid()
    {
      UpdateDefinitionEffect(footnotes.State(), name, definition);
      footnotes.UpdateDefinition(name, definition);
    }

    /** WriteFootnotes: the known definitions in list order, each under its number. */
    method WriteFootnotes(render: D -> string)
      modifies this`out
      ensures out == old(out) + FootnotesHtml(off, footnotes.list, render)
    {
      var list := footnotes.list;
      if !off && |list| != 0 {
        var text := DefinitionsText(list, render);
        assert FootnotesHtml(off, list, render) == FootnotesFrame(text);
        out := out + FootnotesFrame(text);
      } else {
        assert old(out) + FootnotesHtml(off, list, render) == old(out) + "" == out;
      }
    }
  }

  // ---------------------------------------------------------------------------
  // Attributes

  datatype Attribute = Attribute(namespace: string, key: string, val: string)

  /** The first attribute whose key equals k ignoring case, or -1. */
  function FirstKey(attributes: seq<Attribute>, k: string): (i: int)
    ensures -1 <= i < |attributes|
    ensures i >= 0 ==> EqualFold(attributes[i].key, k) && forall j :: 0 <= j < i ==> !EqualFold(attributes[j].key, k)
    ensures i < 0 ==> forall j :: 0 <= j < |attributes| ==> !EqualFold(attributes[j].key, k)
  {
    if |attributes| == 0 then -1
    else
      var i := FirstKey(attributes[..|attributes| - 1], k);
      if i >= 0 then i else if EqualFold(attributes[|attributes| - 1].key, k) then |attributes| - 1 else -1
  }

  /** The keys whose values a new value is appended to, space separated, rather than replacing them. */
  predicate Accumulates(k: string) {
    ToLower(k) == "class" || ToLower(k) == "style"
  }

  /** The value of the first attribute with key k, ignoring case. */
  function Lookup(attributes: seq<Attribute>, k: string): (v: Option<string>)
    ensures v.Some? <==> exists j :: 0 <= j < |attributes| && EqualFold(attributes[j].key, k)
  {
    var i := FirstKey(attributes, k);
    if i < 0 then None else Some(attributes[i].val)
  }

  /** setHTMLAttribute on values: the first matching attribute is merged with v, or a new one is appended. */
  function SetAttribute(attributes: seq<Attribute>, k: string, v: string): (r: seq<Attribute>)
  {
    var i := FirstKey(attributes, k);
    if i < 0 then attributes + [Attribute("", k, v)]
    else attributes[i := attributes[i].(val := if Accumulates(k) then attributes[i].val + " " + v else v)]
  }

  /**
   * Only the first attribute whose key matches changes, keeping its key: class and style get
   * " " + v appended, other keys get v. Without a match the list grows by (k, v) at the end.
   */
  lemma SetAttributeEffect(attributes: seq<Attribute>, k: string, v: string)
    ensures var r := SetAttribute(attributes, k, v);
            var i := FirstKey(attributes, k);
            && (i < 0 ==> r == attributes + [Attribute("", k, v)])
            && (i >= 0 ==>
                  && |r| == |attributes|
                  && r[i].namespace == attributes[i].namespace && r[i].key == attributes[i].key
                  && r[i].val == (if Accumulates(k) then attributes[i].val + " " + v else v)
                  && forall j :: 0 <= j < |r| && j != i ==> r[j] == attributes[j])
  {
  }

  /** After setting k, looking k up finds v, or for class and style the old value with v appended. */
  lemma SetThenLookup(attributes: seq<Attribute>, k: string, v: string)
    ensures var old_ := Lookup(attributes, k);
            Lookup(SetAttribute(attributes, k, v), k)
              == Some(if old_.Some? && Accumulates(k) then old_.value + " " + v else v)
  {
    var r := SetAttribute(attributes, k, v);
    var i := FirstKey(attributes, k);
    if i < 0 {
      assert r[|attributes|].key == k;
      assert forall j :: 0 <= j < |attributes| ==> r[j] == attributes[j];
      FirstKeyAt(r, k, |attributes|);
    } else {
      assert r[i].key == attributes[i].key;
      assert forall j :: 0 <= j < i ==> r[j] == attributes[j];
      FirstKeyAt(r, k, i);
    }
  }

  /** The first matching attribute is where FirstKey finds it. */
  lemma FirstKeyAt(attributes: seq<Attribute>, k: string, i: nat)
    requires i < |attributes| && EqualFold(attributes[i].key, k)
    requires forall j :: 0 <= j < i ==> !EqualFold(attributes[j].key, k)
    ensures FirstKey(attributes, k) == i
  {
  }

  /** Setting a key no attribute has ignoring case leaves every other key's value in place. */
  lemma SetAttributeKeepsOthers(attributes: seq<Attribute>, k: string, v: string, other: string)
    requires !EqualFold(other, k)
    ensures Lookup(SetAttribute(attributes, k, v), other) == Lookup(attributes, other)
  {
    var r := SetAttribute(attributes, k, v);
    var i := FirstKey(attributes, k);
    var o := FirstKey(attributes, other);
    assert forall j :: 0 <= j < |attributes| ==> r[j].key == attributes[j].key;
    if i >= 0 {
      assert forall j :: 0 <= j < |attributes| && j != i ==> r[j] == attributes[j];
      if o >= 0 {
        assert o != i;
      }
    } else {
      assert !EqualFold(r[|attributes|].key, other);
    }
    assert FirstKey(r, other) == o;
  }

  /** setHTMLAttribute: scan for the first key matching k ignoring case and merge v into it, else append. */
  method SetHtmlAttribute(attributes: seq<Attribute>, k: string, v: string) returns (r: seq<Attribute>)
    ensures r == SetAttribute(attributes, k, v)
  {
    var lk := ToLower(k);
    for i := 0 to |attributes|
      invariant forall j :: 0 <= j < i ==> !EqualFold(attributes[j].key, k)
    {
      var a := attributes[i];
      if ToLower(a.key) == lk {
        var val := if lk == "class" || lk == "style" then a.val + " " + v else v;
        return attributes[i := a.(val := val)];
      }
    }
    return attributes + [Attribute("", k, v)];
  }

  // ---------------------------------------------------------------------------
  // Tables

  /**
   * WriteTable's inHead: the table opens with a header when it has separators, the first is not
   * on the last row, and either the first is not on the first row or there is more than one and
   * the last is not on the last row.
   */
  predicate InHead(separatorIndices: seq<int>, rows: int) {
    && |separatorIndices| > 0
    && separatorIndices[0] != rows - 1
    && (separatorIndices[0] != 0 || (|separatorIndices| > 1 && separatorIndices[|separatorIndices| - 1] != rows - 1))
  }

  /** A separator strictly inside the table, neither on its first nor on its last row. */
  predicate Inner(s: int, rows: int) {
    0 < s < rows - 1
  }

  /**
   * For separator rows in increasing order, a table has a header exactly when some separator is
   * inner, unless the separators both open and close the table.
   */
  lemma InHeadIff(separatorIndices: seq<int>, rows: int)
    requires forall i, j :: 0 <= i < j < |separatorIndices| ==> separatorIndices[i] < separatorIndices[j]
    requires forall i :: 0 <= i < |separatorIndices| ==> 0 <= separatorIndices[i] < rows
    ensures InHead(separatorIndices, rows) <==>
              && (exists i :: 0 <= i < |separatorIndices| && Inner(separatorIndices[i], rows))
              && !(|separatorIndices| > 0 && separatorIndices[0] == 0 && separatorIndices[|separatorIndices| - 1] == rows - 1)
  {
    var s := separatorIndices;
    if |s| > 0 {
      var last := |s| - 1;
      assert forall i :: 0 < i < |s| ==> s[0] < s[i];
      assert Inner(s[0], rows) || Inner(s[last], rows) || !InHead(s, rows);
    }
  }
}
