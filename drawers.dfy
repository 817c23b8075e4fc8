// The property drawer of org/drawer.go: an ordered list of key/value pairs that Set and Append
// update in place, Get and Has read, and the recogniser of one `:KEY: value` line.
module Drawers {
  import opened Wrappers
  import opened Strs
  import opened Lexer
  import opened Keywords

  /** A PROPERTIES drawer; a headline holds a pointer to one, so it is updated in place. */
  class PropertyDrawer {
    var pos: Pos
    var endPos: Pos
    var properties: seq<(string, string)>

    constructor (pos: Pos, endPos: Pos, properties: seq<(string, string)>)
      ensures this.pos == pos && this.endPos == endPos && this.properties == properties
    {
      this.pos, this.endPos, this.properties := pos, endPos, properties;
    }
  }

  // ---------------------------------------------------------------------------
  // Reading

  /** The index of the first pair at or after k whose key is key, or -1. */
  function FirstIndexFrom(props: seq<(string, string)>, key: string, k: nat): (r: int)
    requires k <= |props|
    ensures r == -1 || k <= r < |props|
    decreases |props| - k
  {
    if k == |props| then -1
    else if props[k].0 == key then k
    else FirstIndexFrom(props, key, k + 1)
  }

  lemma {:induction false} FirstIndexFromFacts(props: seq<(string, string)>, key: string, k: nat)
    requires k <= |props|
    ensures var r := FirstIndexFrom(props, key, k);
            (r == -1 <==> forall j :: k <= j < |props| ==> props[j].0 != key)
            && (r >= 0 ==> props[r].0 == key && forall j :: k <= j < r ==> props[j].0 != key)
    decreases |props| - k
  {
    if k < |props| && props[k].0 != key {
      FirstIndexFromFacts(props, key, k + 1);
    }
  }

  /** The index of the first pair whose key is key, or -1 when there is none. */
  function FirstIndex(props: seq<(string, string)>, key: string): (r: int)
    ensures r == -1 <==> forall j :: 0 <= j < |props| ==> props[j].0 != key
    ensures r >= 0 ==> r < |props| && props[r].0 == key && forall j :: 0 <= j < r ==> props[j].0 != key
  {
    FirstIndexFromFacts(props, key, 0);
    FirstIndexFrom(props, key, 0)
  }

  /** The value of the first pair with the key, and whether there was one. */
  function Lookup(props: seq<(string, string)>, key: string): (r: (string, bool))
  {
    var k := FirstIndex(props, key);
    if k >= 0 then (props[k].1, true) else ("", false)
  }

  /** Get: the first value stored under key; ("", false) when there is none or the drawer is nil. */
  function Get(d: PropertyDrawer?, key: string): (r: (string, bool))
    reads d
    ensures d == null ==> r == ("", false)
    ensures d != null ==> r == Lookup(d.properties, key)
  {
    if d == null then ("", false) else Lookup(d.properties, key)
  }

  /** Whether some pair at or after k has the key (the loop of Has). */
  predicate HasFrom(props: seq<(string, string)>, key: string, k: nat)
    requires k <= |props|
    decreases |props| - k
  {
    k < |props| && (props[k].0 == key || HasFrom(props, key, k + 1))
  }

  /** Has: whether some pair has the key; false on a nil drawer. */
  predicate Has(d: PropertyDrawer?, key: string)
    reads d
  {
    d != null && HasFrom(d.properties, key, 0)
  }

  lemma {:induction false} HasFromExists(props: seq<(string, string)>, key: string, k: nat)
    requires k <= |props|
    ensures HasFrom(props, key, k) <==> exists j :: k <= j < |props| && props[j].0 == key
    decreases |props| - k
  {
    if k < |props| {
      HasFromExists(props, key, k + 1);
    }
  }

  /** Has agrees with the found flag of Get. */
  lemma HasAgreesWithGet(d: PropertyDrawer?, key: string)
    ensures Has(d, key) == Get(d, key).1
  {
    if d != null {
      HasFromExists(d.properties, key, 0);
    }
  }

  /** Get finds the first pair with the key: its value, and no pair before it has that key. */
  lemma GetFindsFirst(props: seq<(string, string)>, key: string, i: nat)
    requires i < |props| && props[i].0 == key
    requires forall j :: 0 <= j < i ==> props[j].0 != key
    ensures Lookup(props, key) == (props[i].1, true)
  {
    var k := FirstIndex(props, key);
    assert k >= 0;
    assert !(k < i) && !(i < k);
  }

  // ---------------------------------------------------------------------------
  // Updating in place

  /** Every pair with the key given the value val; the others unchanged. */
  function Overwritten(props: seq<(string, string)>, key: string, val: string): (r: seq<(string, string)>)
    ensures |r| == |props|
  {
    seq(|props|, i requires 0 <= i < |props| => if props[i].0 == key then (key, val) else props[i])
  }

  /** Every pair with the key has val appended to its value; the others unchanged. */
  function Extended(props: seq<(string, string)>, key: string, val: string): (r: seq<(string, string)>)
    ensures |r| == |props|
  {
    seq(|props|, i requires 0 <= i < |props| => if props[i].0 == key then (key, props[i].1 + val) else props[i])
  }

  /**
   * Set overwrites the value of every pair with the key and then appends the pair (key, val)
   * in any case, because its didAdd flag is never set. A nil drawer is left alone.
   */
  method Set(d: PropertyDrawer?, key: string, val: string)
    modifies d
    ensures d != null ==> d.properties == Overwritten(old(d.properties), key, val) + [(key, val)]
    ensures d != null ==> d.pos == old(d.pos) && d.endPos == old(d.endPos)
  {
    if d == null {
      return;
    }
    var i := 0;
    while i < |d.properties|
      invariant 0 <= i <= |d.properties| == |old(d.properties)|
      invariant d.pos == old(d.pos) && d.endPos == old(d.endPos)
      invariant forall j :: 0 <= j < i ==> d.properties[j] == Overwritten(old(d.properties), key, val)[j]
      invariant forall j :: i <= j < |d.properties| ==> d.properties[j] == old(d.properties)[j]
    {
      if d.properties[i].0 == key {
        d.properties := d.properties[i := (key, val)];
      }
      i := i + 1;
    }
    d.properties := d.properties + [(key, val)];
  }

  /** Append adds val to the value of every pair with the key and then appends (key, val). */
  method Append(d: PropertyDrawer?, key: string, val: string)
    modifies d
    ensures d != null ==> d.properties == Extended(old(d.properties), key, val) + [(key, val)]
    ensures d != null ==> d.pos == old(d.pos) && d.endPos == old(d.endPos)
  {
    if d == null {
      return;
    }
    var i := 0;
    while i < |d.properties|
      invariant 0 <= i <= |d.properties| == |old(d.properties)|
      invariant d.pos == old(d.pos) && d.endPos == old(d.endPos)
      invariant forall j :: 0 <= j < i ==> d.properties[j] == Extended(old(d.properties), key, val)[j]
      invariant forall j :: i <= j < |d.properties| ==> d.properties[j] == old(d.properties)[j]
    {
      if d.properties[i].0 == key {
        d.properties := d.properties[i := (key, d.properties[i].1 + val)];
      }
      i := i + 1;
    }
    d.properties := d.properties + [(key, val)];
  }

  /** After Set, Get returns the new value. */
  lemma GetAfterSet(props: seq<(string, string)>, key: string, val: string)
    ensures Lookup(Overwritten(props, key, val) + [(key, val)], key) == (val, true)
  {
    var p := Overwritten(props, key, val) + [(key, val)];
    var k := FirstIndex(props, key);
    if k >= 0 {
      GetFindsFirst(p, key, k);
    } else {
      assert forall j :: 0 <= j < |props| ==> p[j] == props[j];
      GetFindsFirst(p, key, |props|);
    }
  }

  /** Set leaves what Get returns for every other key unchanged. */
  lemma GetOtherAfterSet(props: seq<(string, string)>, key: string, val: string, other: string)
    requires other != key
    ensures Lookup(Overwritten(props, key, val) + [(key, val)], other) == Lookup(props, other)
  {
    var p := Overwritten(props, key, val) + [(key, val)];
    var k := FirstIndex(props, other);
    assert forall j :: 0 <= j < |props| ==> (p[j].0 == other <==> props[j].0 == other);
    if k >= 0 {
      GetFindsFirst(p, other, k);
    } else {
      assert FirstIndex(p, other) == -1;
    }
  }

  /** After Append, Get returns the old value with val appended, or val when the key was new. */
  lemma GetAfterAppend(props: seq<(string, string)>, key: string, val: string)
    ensures var (v, found) := Lookup(props, key);
            Lookup(Extended(props, key, val) + [(key, val)], key) == (if found then v + val else val, true)
  {
    var p := Extended(props, key, val) + [(key, val)];
    var k := FirstIndex(props, key);
    if k >= 0 {
      GetFindsFirst(p, key, k);
    } else {
      assert forall j :: 0 <= j < |props| ==> p[j] == props[j];
      GetFindsFirst(p, key, |props|);
    }
  }

  // ---------------------------------------------------------------------------
  // One line of a property drawer

  /** The parts of a line matched by `^(\s*):(\S+):(\s+(.*)$|$)`. */
  datatype PropertyLine = PropertyLine(lead: string, key: string, blanks: string, value: string)

  /** The shape the pattern demands of the parts of a line. */
  predicate IsPropertyLine(line: string, p: PropertyLine) {
    && line == p.lead + ":" + p.key + ":" + p.blanks + p.value
    && AllReSpace(p.lead) && AllReSpace(p.blanks)
    && |p.key| > 0 && (forall i :: 0 <= i < |p.key| ==> !IsReSpace(p.key[i]))
    && (|p.value| > 0 ==> |p.blanks| > 0 && !IsReSpace(p.value[0]))
  }

  /**
   * The key is the non-blank run after the first colon less its last character, which must be a
   * colon; what follows is the end of the line or blanks, and the value is the text after them.
   */
  function MatchProperty(line: string): (m: Option<PropertyLine>)
  {
    var l := RunEnd(line, 0, IsReSpace);
    if l < |line| && line[l] == ':' then
      var e := RunEnd(line, l + 1, NotReSpace);
      if e >= l + 3 && line[e - 1] == ':' then
        var v := RunEnd(line, e, IsReSpace);
        Some(PropertyLine(line[..l], line[l + 1..e - 1], line[e..v], line[v..]))
      else None
    else None
  }

  /** The parts of a line written as lead, colon, key, colon, blanks, value, by position. */
  lemma PropertyLineParts(line: string, p: PropertyLine)
    requires line == p.lead + ":" + p.key + ":" + p.blanks + p.value
    ensures var l := |p.lead|; var e := l + |p.key| + 2; var v := e + |p.blanks|;
            && |line| == v + |p.value| && line[l] == ':' && line[e - 1] == ':'
            && line[..l] == p.lead && line[l + 1..e - 1] == p.key && line[e..v] == p.blanks && line[v..] == p.value
  {
    var l := |p.lead|;
    var e := l + |p.key| + 2;
    var a := p.lead + ":" + p.key + ":";
    assert |a| == e;
    assert line == a + (p.blanks + p.value);
    assert line[..e] == a;
    assert line[e..] == p.blanks + p.value;
    assert a == (p.lead + ":") + (p.key + ":");
    assert line[..l + 1] == p.lead + ":";
    assert line[l + 1..e] == p.key + ":";
  }

  /** A line cut at the points MatchProperty finds is put back together by the pattern's concatenation. */
  lemma PropertyLineJoin(line: string, l: nat, e: nat, v: nat)
    requires l + 3 <= e <= v <= |line| && line[l] == ':' && line[e - 1] == ':'
    ensures line == line[..l] + ":" + line[l + 1..e - 1] + ":" + line[e..v] + line[v..]
  {
    assert line[..l + 1] == line[..l] + ":";
    assert line[..e - 1] == line[..l + 1] + line[l + 1..e - 1];
    assert line[..e] == line[..e - 1] + ":";
    assert line[..v] == line[..e] + line[e..v];
    assert line == line[..v] + line[v..];
  }

  /** A slice of a run of characters satisfying f is itself made of such characters. */
  lemma SliceOfRun(s: string, a: nat, b: nat, f: char -> bool)
    requires a <= b <= |s| && forall k :: a <= k < b ==> f(s[k])
    ensures forall i :: 0 <= i < b - a ==> f(s[a..b][i])
  {
    forall i | 0 <= i < b - a ensures f(s[a..b][i]) { assert s[a..b][i] == s[a + i]; }
  }

  /** What MatchProperty returns has the shape of the pattern. */
  lemma MatchPropertySound(line: string)
    requires MatchProperty(line).Some?
    ensures IsPropertyLine(line, MatchProperty(line).value)
  {
    var l := RunEnd(line, 0, IsReSpace);
    var e := RunEnd(line, l + 1, NotReSpace);
    var v := RunEnd(line, e, IsReSpace);
    PropertyLineJoin(line, l, e, v);
    RunEndFacts(line, 0, IsReSpace);
    SliceOfRun(line, 0, l, IsReSpace);
    RunEndFacts(line, l + 1, NotReSpace);
    SliceOfRun(line, l + 1, e - 1, NotReSpace);
    RunEndFacts(line, e, IsReSpace);
    SliceOfRun(line, e, v, IsReSpace);
    assert line[..l] == line[0..l];
    if v < |line| {
      assert line[v..][0] == line[v];
    }
    var p := PropertyLine(line[..l], line[l + 1..e - 1], line[e..v], line[v..]);
    assert MatchProperty(line) == Some(p);
    assert line == p.lead + ":" + p.key + ":" + p.blanks + p.value;
    assert AllReSpace(p.lead) && AllReSpace(p.blanks);
    assert |p.key| > 0 && forall i :: 0 <= i < |p.key| ==> !IsReSpace(p.key[i]);
  }

  /** The characters of a slice known to satisfy f, read back in the whole string. */
  lemma RunOfSlice(s: string, a: nat, b: nat, t: string, f: char -> bool)
    requires a <= b <= |s| && s[a..b] == t && forall i :: 0 <= i < |t| ==> f(t[i])
    ensures forall k :: a <= k < b ==> f(s[k])
  {
    forall k | a <= k < b ensures f(s[k]) { assert s[k] == t[k - a]; }
  }

  /** Cut points that delimit the runs the pattern needs are the ones MatchProperty finds. */
  lemma MatchPropertyAt(line: string, l: nat, e: nat, v: nat)
    requires l + 3 <= e <= v <= |line| && line[l] == ':' && line[e - 1] == ':'
    requires forall k :: 0 <= k < l ==> IsReSpace(line[k])
    requires forall k :: l + 1 <= k < e ==> NotReSpace(line[k])
    requires forall k :: e <= k < v ==> IsReSpace(line[k])
    requires e < |line| ==> IsReSpace(line[e])
    requires v < |line| ==> !IsReSpace(line[v])
    ensures MatchProperty(line) == Some(PropertyLine(line[..l], line[l + 1..e - 1], line[e..v], line[v..]))
  {
    RunEndAt(line, 0, l, IsReSpace);
    RunEndAt(line, l + 1, e, NotReSpace);
    RunEndAt(line, e, v, IsReSpace);
  }

  /** Every line of that shape is matched, and its parts are found: the decomposition is unique. */
  lemma MatchPropertyComplete(line: string, p: PropertyLine)
    requires IsPropertyLine(line, p)
    ensures MatchProperty(line) == Some(p)
  {
    PropertyLineParts(line, p);
    var l := |p.lead|;
    var e := l + |p.key| + 2;
    var v := e + |p.blanks|;
    RunOfSlice(line, 0, l, p.lead, IsReSpace);
    RunOfSlice(line, l + 1, e - 1, p.key, NotReSpace);
    RunOfSlice(line, e, v, p.blanks, IsReSpace);
    if e < |line| {
      assert line[e] == line[e..v][0];
    }
    if v < |line| {
      assert line[v] == line[v..][0];
    }
    MatchPropertyAt(line, l, e, v);
  }
}
