// The value-level parts of org/block.go: which blocks keep their body as raw text, the indent
// trim of raw lines, the comma escape of EXAMPLE and org SRC blocks, the block parameter split
// and Block.ParameterMap.
module Blocks {
  import opened Wrappers
  import opened Strs

  predicate IsRawTextBlock(name: string) {
    name == "SRC" || name == "EXAMPLE" || name == "EXPORT" || name == "VERSE" || name == "QUOTE" || name == "CUSTOM"
  }

  // ---------------------------------------------------------------------------
  // trimIndentUpTo

  /** unicode.IsSpace of the byte line[i] read as a rune. */
  predicate IndentChar(c: char) { IsSpace(FirstByteRune(c)) }

  /** How many leading characters trimIndentUpTo(max) removes from line, counting from i. */
  function IndentFrom(line: string, max: int, i: nat): (n: nat)
    requires i <= |line|
    ensures i <= n <= |line| && (n > i ==> n <= max)
    ensures forall j :: i <= j < n ==> IndentChar(line[j])
    ensures n < |line| && n < max ==> !IndentChar(line[n])
    decreases |line| - i
  {
    if i < |line| && i < max && IndentChar(line[i]) then IndentFrom(line, max, i + 1) else i
  }

  function IndentRun(line: string, max: int): (n: nat)
    ensures n <= |line|
  {
    IndentFrom(line, max, 0)
  }

  /** The closure trimIndentUpTo(max) applied to one line. */
  method TrimIndentUpTo(max: int, line: string) returns (r: string)
    ensures r == line[IndentRun(line, max)..]
    ensures |line| - |r| <= (if max < 0 then 0 else max)
    ensures forall j :: 0 <= j < |line| - |r| ==> IndentChar(line[j])
    ensures |r| > 0 && |line| - |r| < max ==> !IndentChar(r[0])
  {
    var i := 0;
    while i < |line| && i < max && IndentChar(line[i])
      invariant 0 <= i <= |line| && IndentFrom(line, max, i) == IndentRun(line, max)
      decreases |line| - i
    {
      i := i + 1;
    }
    r := line[i..];
  }

  /** The raw body of a block: every line followed by "\n". */
  function RawText(lines: seq<string>): (r: string)
  {
    if |lines| == 0 then "" else RawText(lines[..|lines| - 1]) + lines[|lines| - 1] + "\n"
  }

  // ---------------------------------------------------------------------------
  // exampleBlockEscapeRegexp: `(^|\n)([ \t]*),([ \t]*)(\*|,\*|#\+|,#\+)` replaced by "$1$2$3$4"

  predicate IsBlank(c: char) { c == ' ' || c == '\t' }

  function BlankRun(s: string, i: nat): (n: nat)
    requires i <= |s|
    ensures i <= n <= |s| && (forall j :: i <= j < n ==> IsBlank(s[j])) && (n < |s| ==> !IsBlank(s[n]))
    decreases |s| - i
  {
    if i < |s| && IsBlank(s[i]) then BlankRun(s, i + 1) else i
  }

  /** One of the four escaped markers starts the text. */
  predicate EscapedMarker(s: string) {
    HasPrefix(s, "*") || HasPrefix(s, ",*") || HasPrefix(s, "#+") || HasPrefix(s, ",#+")
  }

  /** The escaping comma of a line: blanks, the comma, blanks, then one of the markers. */
  predicate EscapeAt(line: string, k: nat) {
    k < |line| && (forall j :: 0 <= j < k ==> IsBlank(line[j])) && line[k] == ','
    && EscapedMarker(line[BlankRun(line, k + 1)..])
  }

  /** The comma the replacement removes from a line, if any. */
  function EscapeComma(line: string): (r: Option<nat>)
    ensures r.Some? ==> EscapeAt(line, r.value)
    ensures r.None? ==> forall k :: !EscapeAt(line, k)
  {
    var a := BlankRun(line, 0);
    if a < |line| && line[a] == ',' && EscapedMarker(line[BlankRun(line, a + 1)..]) then Some(a)
    else None
  }

  /** One line with the escaping comma, if any, removed; nothing else changes. */
  function EscapeLine(line: string): (r: string)
    ensures EscapeComma(line).None? ==> r == line
    ensures EscapeComma(line).Some? ==> var k := EscapeComma(line).value; r == line[..k] + line[k + 1..] && |r| + 1 == |line|
  {
    match EscapeComma(line)
    case None => line
    case Some(k) => line[..k] + line[k + 1..]
  }

  /**
   * The replacement applied to a raw body. Every match starts at the beginning of the text
   * or at a "\n" and contains no other "\n", so it works line by line.
   */
  function Escaped(lines: seq<string>): (r: string)
  {
    if |lines| == 0 then "" else Escaped(lines[..|lines| - 1]) + EscapeLine(lines[|lines| - 1]) + "\n"
  }

  /** Escaping takes out at most one character per line. */
  lemma {:induction false} EscapedLength(lines: seq<string>)
    ensures |RawText(lines)| - |lines| <= |Escaped(lines)| <= |RawText(lines)|
  {
    if |lines| > 0 {
      EscapedLength(lines[..|lines| - 1]);
    }
  }

  /** A body in which no line carries an escape is left as it is. */
  lemma {:induction false} EscapedUnchanged(lines: seq<string>)
    requires forall i :: 0 <= i < |lines| ==> EscapeComma(lines[i]).None?
    ensures Escaped(lines) == RawText(lines)
  {
    if |lines| > 0 {
      EscapedUnchanged(lines[..|lines| - 1]);
    }
  }

  // ---------------------------------------------------------------------------
  // splitParameters

  /** The two parameters one " :"-separated piece gives: ":" + its first word, and the trimmed rest. */
  function PairOf(p: string): (r: seq<string>)
    ensures |r| == 2 && HasPrefix(r[0], ":") && !Contains(r[0][1..], " ")
  {
    var kv := SplitN2(p + " ", " ");
    assert Contains(p + " ", " ") by { assert OccursAt(p + " ", " ", |p|); ContainsWitness(p + " ", " ", |p|); }
    assert (":" + kv[0])[1..] == kv[0];
    [":" + kv[0], TrimSpace(kv[1])]
  }

  function Pairs(pieces: seq<string>): (r: seq<string>)
    ensures |r| == 2 * |pieces|
  {
    if |pieces| == 0 then [] else Pairs(pieces[..|pieces| - 1]) + PairOf(pieces[|pieces| - 1])
  }

  /** The parameters of a piece list: the trimmed language (left out when empty), then the pairs. */
  function Parameters(parts: seq<string>): (r: seq<string>)
    requires |parts| >= 1
  {
    var lang := TrimSpace(parts[0]);
    (if lang != "" then [lang] else []) + Pairs(parts[1..])
  }

  /** The loop of splitParameters over the pieces after the language. */
  method AppendPairs(rest: seq<string>) returns (pairs: seq<string>)
    ensures pairs == Pairs(rest)
  {
    pairs := [];
    var k := 0;
    while k < |rest|
      invariant 0 <= k <= |rest| && pairs == Pairs(rest[..k])
    {
      assert rest[..k + 1][..k] == rest[..k];
      pairs := pairs + PairOf(rest[k]);
      k := k + 1;
    }
    assert rest[..k] == rest;
  }

  method SplitParameters(s: string) returns (parameters: seq<string>)
    ensures parameters == Parameters(Split(s, " :"))
  {
    var parts := Split(s, " :");
    var lang := TrimSpace(parts[0]);
    var pairs := AppendPairs(parts[1..]);
    parameters := (if lang != "" then [lang] else []) + pairs;
  }

  /** The keys sit at fixed places: after the optional language, every other entry starts with ':'. */
  lemma {:induction false} PairsKeys(pieces: seq<string>, j: nat)
    requires j < |pieces|
    ensures var r := Pairs(pieces); HasPrefix(r[2 * j], ":") && r[2 * j .. 2 * j + 2] == PairOf(pieces[j])
    decreases |pieces|
  {
    if j < |pieces| - 1 {
      PairsKeys(pieces[..|pieces| - 1], j);
    }
  }

  // ---------------------------------------------------------------------------
  // Block.ParameterMap

  /** The loop of ParameterMap from index i on: params[i] := params[i + 1] for i = 1, 3, 5, ... */
  function Assigned(params: seq<string>, m: map<string, string>, i: nat): (r: map<string, string>)
    decreases |params| - i
  {
    if i + 1 < |params| then Assigned(params, m[params[i] := params[i + 1]], i + 2) else m
  }

  method ParameterMap(parameters: seq<string>) returns (r: Option<map<string, string>>)
    ensures r.None? <==> |parameters| == 0
    ensures r.Some? ==> r.value == Assigned(parameters, map[":lang" := parameters[0]], 1)
  {
    if |parameters| == 0 {
      return None;
    }
    var m := map[":lang" := parameters[0]];
    var i := 1;
    while i + 1 < |parameters|
      invariant i >= 1 && Assigned(parameters, m, i) == Assigned(parameters, map[":lang" := parameters[0]], 1)
      decreases |parameters| - i
    {
      m := m[parameters[i] := parameters[i + 1]];
      i := i + 2;
    }
    r := Some(m);
  }

  /** A key written at an odd place j, and again at no later odd place, maps to the entry after it. */
  lemma {:induction false} AssignedLastWins(params: seq<string>, m: map<string, string>, i: nat, j: nat)
    requires i <= j && (j - i) % 2 == 0 && j + 1 < |params|
    requires forall l :: j < l && (l - i) % 2 == 0 && l + 1 < |params| ==> params[l] != params[j]
    ensures params[j] in Assigned(params, m, i) && Assigned(params, m, i)[params[j]] == params[j + 1]
    decreases |params| - i
  {
    if i < j {
      AssignedLastWins(params, m[params[i] := params[i + 1]], i + 2, j);
    } else {
      AssignedKeeps(params, m[params[i] := params[i + 1]], i + 2, params[j]);
    }
  }

  /** A key written at no odd place from i on keeps the value it had. */
  lemma {:induction false} AssignedKeeps(params: seq<string>, m: map<string, string>, i: nat, k: string)
    requires forall l :: i <= l && (l - i) % 2 == 0 && l + 1 < |params| ==> params[l] != k
    ensures k in m ==> k in Assigned(params, m, i) && Assigned(params, m, i)[k] == m[k]
    ensures k !in m ==> k !in Assigned(params, m, i)
    decreases |params| - i
  {
    if i + 1 < |params| {
      AssignedKeeps(params, m[params[i] := params[i + 1]], i + 2, k);
    }
  }
}
