// The line lexer: one token per input line, produced by the first recogniser in a fixed
// priority list that accepts the line (org/document.go and the lex* functions of each file).
// Every regular expression of the lexers is written out as a hand-made recogniser that
// returns the capture groups the Go code reads (group 0 is the matched text; a group that
// did not participate is "").
module Lexer {
  import opened Wrappers
  import opened Strs

  datatype Pos = Pos(row: int, col: int)

  const ZeroPos := Pos(0, 0)

  datatype Kind =
    | headline | endDrawer | beginDrawer | beginBlock | endBlock | result
    | unorderedList | orderedList | tableSeparator | tableRow | horizontalRule
    | keyword | comment | footnoteDefinition | example | text
    | scheduled | deadline | closed

  /** The kinds of the date lines, which only the date recogniser of the configuration yields. */
  predicate IsDateKind(k: Kind) {
    k == scheduled || k == deadline || k == closed
  }

  datatype Token = Token(kind: Kind, lvl: int, content: string, matches: seq<string>, pos: Pos, endPos: Pos)

  /** matches[k] of a token, "" when the group is absent. */
  function Group(t: Token, k: nat): string {
    if k < |t.matches| then t.matches[k] else ""
  }

  /** A recogniser for the deadline/scheduled/closed lines, which live in the date code. */
  type LineMatcher = string -> Option<seq<string>>

  // ---------------------------------------------------------------------------
  // Character helpers shared by the recognisers

  /** RE2 case-insensitive match of c against u (u is an upper-case ASCII letter or a symbol). */
  predicate FoldsTo(c: char, u: char) {
    c == u || c == LowerChar(u) || (u == 'S' && c == '\U{17F}') || (u == 'K' && c == '\U{212A}')
  }

  predicate EqualsFold(s: string, word: string) {
    |s| == |word| && forall i :: 0 <= i < |s| ==> FoldsTo(s[i], word[i])
  }

  /** RE2 \w under the (?i) flag also takes the two characters that fold onto s and k. */
  predicate IsWordFold(c: char) { IsWord(c) || c == '\U{17F}' || c == '\U{212A}' }

  predicate NotReSpace(c: char) { !IsReSpace(c) }

  function Lead(line: string): (n: nat)
    ensures n <= |line|
  {
    PrefixRun(line, IsReSpace)
  }

  /** Every capture group lies inside the line, so none contains a newline when the line has none. */
  predicate Clean(m: seq<string>) { forall k :: 0 <= k < |m| ==> NoNewline(m[k]) }

  // ---------------------------------------------------------------------------
  // Recognisers

  /** `^([*]+)\s+(.*)` */
  function MatchHeadline(line: string): (m: Option<seq<string>>)
    requires NoNewline(line)
    ensures m.Some? ==> |m.value| == 3 && m.value[0] == line && Clean(m.value)
    ensures m.Some? <==> 0 < PrefixRun(line, c => c == '*') < |line|
                          && IsReSpace(line[PrefixRun(line, c => c == '*')])
  {
    var n := PrefixRun(line, c => c == '*');
    if n == 0 || n == |line| || !IsReSpace(line[n]) then None
    else
      var w := PrefixRun(line[n..], IsReSpace);
      NoNewlineSlice(line, 0, n);
      NoNewlineSlice(line, n + w, |line|);
      Some([line, line[..n], line[n + w..]])
  }

  /** `(?i)^(\s*):END:\s*$` */
  function MatchEndDrawer(line: string): (m: Option<seq<string>>)
    requires NoNewline(line)
    ensures m.Some? ==> |m.value| == 2 && m.value[0] == line && Clean(m.value)
  {
    var l := Lead(line);
    var rest := line[l..];
    if |rest| >= 5 && EqualsFold(rest[..5], ":END:") && AllReSpace(rest[5..]) then
      NoNewlineSlice(line, 0, l);
      Some([line, line[..l]])
    else None
  }

  /** `^(\s*):(\S+):\s*$`: a run of non-space characters ending in ':' and only spaces after it. */
  function MatchBeginDrawer(line: string): (m: Option<seq<string>>)
    requires NoNewline(line)
    ensures m.Some? ==> |m.value| == 3 && m.value[0] == line && Clean(m.value) && |m.value[2]| > 0
  {
    var l := Lead(line);
    var rest := line[l..];
    if |rest| == 0 || rest[0] != ':' then None
    else
      var after := rest[1..];
      var r := PrefixRun(after, NotReSpace);
      if r >= 2 && after[r - 1] == ':' && AllReSpace(after[r..]) then
        NoNewlineSlice(line, 0, l);
        NoNewlineSlice(line, l + 1, l + r);
        assert after[..r - 1] == line[l + 1..l + r];
        Some([line, line[..l], after[..r - 1]])
      else None
  }

  /** `(?i)^(\s*)#\+BEGIN_(\w+)(.*)` */
  function MatchBeginBlock(line: string): (m: Option<seq<string>>)
    requires NoNewline(line)
    ensures m.Some? ==> |m.value| == 4 && m.value[0] == line && Clean(m.value) && |m.value[2]| > 0
  {
    var l := Lead(line);
    var rest := line[l..];
    if |rest| < 9 || !EqualsFold(rest[..8], "#+BEGIN_") then None
    else
      var w := PrefixRun(rest[8..], IsWordFold);
      if w == 0 then None
      else
        NoNewlineSlice(line, 0, l);
        NoNewlineSlice(line, l + 8, l + 8 + w);
        NoNewlineSlice(line, l + 8 + w, |line|);
        assert rest[8..][..w] == line[l + 8..l + 8 + w];
        assert rest[8 + w..] == line[l + 8 + w..];
        Some([line, line[..l], rest[8..][..w], rest[8 + w..]])
  }

  /** `(?i)^(\s*)#\+END_(\w+)`: group 0 stops after the name. */
  function MatchEndBlock(line: string): (m: Option<seq<string>>)
    requires NoNewline(line)
    ensures m.Some? ==> |m.value| == 3 && HasPrefix(line, m.value[0]) && Clean(m.value)
  {
    var l := Lead(line);
    var rest := line[l..];
    if |rest| < 7 || !EqualsFold(rest[..6], "#+END_") then None
    else
      var w := PrefixRun(rest[6..], IsWordFold);
      if w == 0 then None
      else
        NoNewlineSlice(line, 0, l + 6 + w);
        NoNewlineSlice(line, 0, l);
        NoNewlineSlice(line, l + 6, l + 6 + w);
        assert rest[6..][..w] == line[l + 6..l + 6 + w];
        Some([line[..l + 6 + w], line[..l], rest[6..][..w]])
  }

  /** `(?i)^(\s*)#\+RESULTS:`: group 0 stops after the colon. */
  function MatchResult(line: string): (m: Option<seq<string>>)
    requires NoNewline(line)
    ensures m.Some? ==> |m.value| == 2 && HasPrefix(line, m.value[0]) && Clean(m.value)
  {
    var l := Lead(line);
    var rest := line[l..];
    if |rest| >= 10 && EqualsFold(rest[..10], "#+RESULTS:") then
      NoNewlineSlice(line, 0, l + 10);
      NoNewlineSlice(line, 0, l);
      Some([line[..l + 10], line[..l]])
    else None
  }

  /** The tail `(\s+(.*)|$)` shared by both list forms: groups (whole tail, text after the spaces). */
  function ListTail(rest: string): (m: Option<(string, string)>)
    ensures m.Some? ==> m.value.0 == rest
    ensures m.Some? ==> (rest == "" ==> m.value.1 == "") && (rest != "" ==> |m.value.1| < |rest|)
    ensures m.Some? ==> HasSuffix(rest, m.value.1)
  {
    if |rest| == 0 then Some(("", ""))
    else if IsReSpace(rest[0]) then Some((rest, rest[PrefixRun(rest, IsReSpace)..]))
    else None
  }

  lemma CleanListGroups(line: string, l: nat, b: nat, tail: string)
    requires NoNewline(line) && l <= b <= |line|
    requires HasSuffix(line[b..], tail)
    ensures NoNewline(line[..l]) && NoNewline(line[l..b]) && NoNewline(line[b..]) && NoNewline(tail)
  {
    NoNewlineSlice(line, 0, l);
    NoNewlineSlice(line, l, b);
    NoNewlineSlice(line, b, |line|);
    var t := line[b..];
    NoNewlineSlice(t, |t| - |tail|, |t|);
  }

  predicate IsUnorderedBullet(c: char) { c == '+' || c == '*' || c == '-' }

  /** `^(\s*)([+*-])(\s+(.*)|$)` */
  function MatchUnorderedList(line: string): (m: Option<seq<string>>)
    requires NoNewline(line)
    ensures m.Some? ==> |m.value| == 5 && m.value[0] == line && Clean(m.value)
    ensures m.Some? ==> |line| == |m.value[1]| + |m.value[2]| + |m.value[3]| && |m.value[2]| == 1
    ensures m.Some? ==> IsUnorderedBullet(m.value[2][0])
    ensures m.Some? ==> (m.value[3] == "" ==> m.value[4] == "") && (m.value[3] != "" ==> |m.value[4]| < |m.value[3]|)
  {
    var l := Lead(line);
    if l == |line| || !IsUnorderedBullet(line[l]) then None
    else
      match ListTail(line[l + 1..])
      case None => None
      case Some(tail) =>
        CleanListGroups(line, l, l + 1, tail.1);
        Some([line, line[..l], line[l..l + 1], tail.0, tail.1])
  }

  /** The length of the bullet `([0-9]+|[a-zA-Z])[.)]` at the start of rest, 0 when there is none. */
  function OrderedBullet(rest: string): (b: nat)
    ensures b == 0 || (2 <= b <= |rest| && (IsDigit(rest[0]) || IsAsciiLetter(rest[0])))
  {
    var d := PrefixRun(rest, IsDigit);
    if d >= 1 then (if d < |rest| && (rest[d] == '.' || rest[d] == ')') then d + 1 else 0)
    else if |rest| >= 2 && IsAsciiLetter(rest[0]) && (rest[1] == '.' || rest[1] == ')') then 2
    else 0
  }

  /** `^(\s*)(([0-9]+|[a-zA-Z])[.)])(\s+(.*)|$)` */
  function MatchOrderedList(line: string): (m: Option<seq<string>>)
    requires NoNewline(line)
    ensures m.Some? ==> |m.value| == 6 && m.value[0] == line && Clean(m.value)
    ensures m.Some? ==> |line| == |m.value[1]| + |m.value[2]| + |m.value[4]| && |m.value[2]| >= 2
    ensures m.Some? ==> (m.value[4] == "" ==> m.value[5] == "") && (m.value[4] != "" ==> |m.value[5]| < |m.value[4]|)
    ensures m.Some? ==> IsDigit(m.value[2][0]) || IsAsciiLetter(m.value[2][0])
  {
    var l := Lead(line);
    var rest := line[l..];
    var b := OrderedBullet(rest);
    if b == 0 then None
    else
      match ListTail(line[l + b..])
      case None => None
      case Some(tail) =>
        OrderedListGroups(line, l, b, tail.0, tail.1);
        Some([line, line[..l], line[l..l + b], line[l..l + b - 1], tail.0, tail.1])
  }

  /** The capture groups of an ordered list item line, given where the bullet and the tail lie. */
  lemma OrderedListGroups(line: string, l: nat, b: nat, rest: string, body: string)
    requires NoNewline(line) && l <= |line| && b == OrderedBullet(line[l..]) && b != 0
    requires rest == line[l + b..] && HasSuffix(rest, body)
    requires (rest == "" ==> body == "") && (rest != "" ==> |body| < |rest|)
    ensures var m := [line, line[..l], line[l..l + b], line[l..l + b - 1], rest, body];
            |m| == 6 && m[0] == line && Clean(m)
            && |line| == |m[1]| + |m[2]| + |m[4]| && |m[2]| >= 2
            && (m[4] == "" ==> m[5] == "") && (m[4] != "" ==> |m[5]| < |m[4]|)
            && (IsDigit(m[2][0]) || IsAsciiLetter(m[2][0]))
  {
    assert line[l..][0] == line[l];
    CleanListGroups(line, l, l + b, body);
    NoNewlineSlice(line, l, l + b - 1);
    assert line[l..l + b][0] == line[l];
    var m := [line, line[..l], line[l..l + b], line[l..l + b - 1], rest, body];
    assert forall k :: 0 <= k < 6 ==> NoNewline(m[k]);
  }

  predicate IsSeparatorChar(c: char) { c == '+' || c == '|' || c == '-' }

  /** `^(\s*)(\|[+|-]+)\s*$` */
  function MatchTableSeparator(line: string): (m: Option<seq<string>>)
    requires NoNewline(line)
    ensures m.Some? ==> |m.value| == 3 && m.value[0] == line && Clean(m.value)
  {
    var l := Lead(line);
    var rest := line[l..];
    if |rest| < 2 || rest[0] != '|' then None
    else
      var r := PrefixRun(rest[1..], IsSeparatorChar);
      if r >= 1 && AllReSpace(rest[1 + r..]) then
        NoNewlineSlice(line, 0, l);
        NoNewlineSlice(line, l, l + 1 + r);
        assert rest[..1 + r] == line[l..l + 1 + r];
        Some([line, line[..l], rest[..1 + r]])
      else None
  }

  /** `^(\s*)(\|.*)` */
  function MatchTableRow(line: string): (m: Option<seq<string>>)
    requires NoNewline(line)
    ensures m.Some? ==> |m.value| == 3 && m.value[0] == line && Clean(m.value)
  {
    var l := Lead(line);
    if l < |line| && line[l] == '|' then
      NoNewlineSlice(line, 0, l);
      NoNewlineSlice(line, l, |line|);
      Some([line, line[..l], line[l..]])
    else None
  }

  /** `^(\s*)-{5,}\s*$` */
  function MatchHorizontalRule(line: string): (m: Option<seq<string>>)
    requires NoNewline(line)
    ensures m.Some? ==> |m.value| == 2 && m.value[0] == line && Clean(m.value)
  {
    var l := Lead(line);
    var rest := line[l..];
    var dashes := PrefixRun(rest, c => c == '-');
    if dashes >= 5 && AllReSpace(rest[dashes..]) then
      NoNewlineSlice(line, 0, l);
      Some([line, line[..l]])
    else None
  }

  /** `^(\s*)#\+([a-zA-Z][^:]*):(\s*(.*)|$)`: the key runs up to the first colon. */
  function MatchKeyword(line: string): (m: Option<seq<string>>)
    requires NoNewline(line)
    ensures m.Some? ==> |m.value| == 5 && m.value[0] == line && Clean(m.value)
  {
    var l := Lead(line);
    var rest := line[l..];
    if |rest| < 4 || rest[0] != '#' || rest[1] != '+' || !IsAsciiLetter(rest[2]) then None
    else
      var c := IndexChar(rest[3..], ':');
      if c < 0 then None
      else
        var after := rest[4 + c..];
        var w := PrefixRun(after, IsReSpace);
        NoNewlineSlice(line, 0, l);
        NoNewlineSlice(line, l + 2, l + 3 + c);
        NoNewlineSlice(line, l + 4 + c, |line|);
        assert rest[2..3 + c] == line[l + 2..l + 3 + c];
        assert after == line[l + 4 + c..];
        NoNewlineSlice(after, w, |after|);
        Some([line, line[..l], rest[2..3 + c], after, after[w..]])
  }

  /** `^(\s*)#\s(.*)` */
  function MatchComment(line: string): (m: Option<seq<string>>)
    requires NoNewline(line)
    ensures m.Some? ==> |m.value| == 3 && m.value[0] == line && Clean(m.value)
  {
    var l := Lead(line);
    var rest := line[l..];
    if |rest| >= 2 && rest[0] == '#' && IsReSpace(rest[1]) then
      NoNewlineSlice(line, 0, l);
      NoNewlineSlice(line, l + 2, |line|);
      assert rest[2..] == line[l + 2..];
      Some([line, line[..l], rest[2..]])
    else None
  }

  predicate IsLabelChar(c: char) { IsWord(c) || c == '-' }

  /** Group 3 of `(\s+(.+)|\s*$)` on a non-empty text that starts with white space. */
  function FootnoteBody(rest: string): (body: string)
    requires NoNewline(rest)
    ensures NoNewline(body)
  {
    var w := PrefixRun(rest, IsReSpace);
    if w < |rest| then
      NoNewlineSlice(rest, w, |rest|);
      rest[w..]
    else if |rest| >= 2 then
      NoNewlineSlice(rest, |rest| - 1, |rest|);
      rest[|rest| - 1..]
    else ""
  }

  /** `^\[fn:([\w-]+)\](\s+(.+)|\s*$)` (group 2 is then all of the line after the label). */
  function MatchFootnoteDefinition(line: string): (m: Option<seq<string>>)
    requires NoNewline(line)
    ensures m.Some? ==> |m.value| == 4 && m.value[0] == line && Clean(m.value)
    ensures m.Some? ==> HasSuffix(line, m.value[2]) && |m.value[2]| + 6 <= |line|
  {
    if |line| < 6 || line[..4] != "[fn:" then None
    else
      var n := PrefixRun(line[4..], IsLabelChar);
      if n == 0 || 4 + n >= |line| || line[4 + n] != ']' then None
      else
        var rest := line[5 + n..];
        NoNewlineSlice(line, 4, 4 + n);
        NoNewlineSlice(line, 5 + n, |line|);
        assert line[4..][..n] == line[4..4 + n];
        var name := line[4..4 + n];
        if |rest| == 0 then Some([line, name, "", ""])
        else if !IsReSpace(rest[0]) then None
        else Some([line, name, rest, FootnoteBody(rest)])
  }

  /** `^(\s*):(\s(.*)|\s*$)` */
  function MatchExample(line: string): (m: Option<seq<string>>)
    requires NoNewline(line)
    ensures m.Some? ==> |m.value| == 4 && m.value[0] == line && Clean(m.value)
  {
    var l := Lead(line);
    var rest := line[l..];
    if |rest| == 0 || rest[0] != ':' then None
    else
      var after := rest[1..];
      NoNewlineSlice(line, 0, l);
      NoNewlineSlice(line, l + 1, |line|);
      assert after == line[l + 1..];
      if |after| == 0 then Some([line, line[..l], "", ""])
      else if IsReSpace(after[0]) then
        NoNewlineSlice(after, 1, |after|);
        Some([line, line[..l], after, after[1..]])
      else None
  }

  /** `^(\s*)(.*)`, which accepts every line. */
  function MatchText(line: string): (m: seq<string>)
    requires NoNewline(line)
    ensures |m| == 3 && m[0] == line && Clean(m)
    ensures m[1] + m[2] == line && AllReSpace(m[1]) && (|m[2]| > 0 ==> !IsReSpace(m[2][0]))
  {
    var l := Lead(line);
    PrefixRunFacts(line, IsReSpace);
    NoNewlineSlice(line, 0, l);
    NoNewlineSlice(line, l, |line|);
    assert line == line[..l] + line[l..];
    [line, line[..l], line[l..]]
  }

  // ---------------------------------------------------------------------------
  // The lex functions

  /** A token whose content and capture groups hold no newline. */
  predicate CleanToken(t: Token) {
    NoNewline(t.content) && Clean(t.matches)
  }

  function LexHeadline(line: string, row: int, col: int): (t: Option<Token>)
    requires NoNewline(line)
    ensures LexedWell(t, line, row)
    ensures t.Some? ==> t.value.kind == headline && t.value.lvl == 0 && CleanToken(t.value)
  {
    match MatchHeadline(line)
    case None => None
    case Some(m) => Some(Token(headline, 0, m[2], m, Pos(row, col), ZeroPos))
  }

  function LexDrawer(line: string, row: int, col: int): (t: Option<Token>)
    requires NoNewline(line)
    ensures LexedWell(t, line, row)
    ensures t.Some? ==> t.value.kind in {endDrawer, beginDrawer} && CleanToken(t.value)
  {
    match MatchEndDrawer(line)
    case Some(m) => Some(Token(endDrawer, |m[1]|, "", m, Pos(row, col + |m[1]|), Pos(row, col + |m[0]|)))
    case None =>
      match MatchBeginDrawer(line)
      case Some(m) =>
        ToUpperNoNewline(m[2]);
        Some(Token(beginDrawer, |m[1]|, ToUpper(m[2]), m, Pos(row, col + |m[1]|), Pos(row, col + |m[0]|)))
      case None => None
  }

  function LexBlock(line: string, row: int, col: int): (t: Option<Token>)
    requires NoNewline(line)
    ensures LexedWell(t, line, row)
    ensures t.Some? ==> t.value.kind in {beginBlock, endBlock} && CleanToken(t.value)
  {
    match MatchBeginBlock(line)
    case Some(m) =>
      ToUpperNoNewline(m[2]);
      Some(Token(beginBlock, |m[1]|, ToUpper(m[2]), m, Pos(row, col + |m[1]|), Pos(row, col + |m[0]|)))
    case None =>
      match MatchEndBlock(line)
      case Some(m) =>
        ToUpperNoNewline(m[2]);
        Some(Token(endBlock, |m[1]|, ToUpper(m[2]), m, Pos(row, col + |m[1]|), Pos(row, col + |m[0]|)))
      case None => None
  }

  function LexResult(line: string, row: int, col: int): (t: Option<Token>)
    requires NoNewline(line)
    ensures LexedWell(t, line, row)
    ensures t.Some? ==> t.value.kind == result && CleanToken(t.value)
  {
    match MatchResult(line)
    case Some(m) => Some(Token(result, |m[1]|, "", m, Pos(row, col + |m[1]|), Pos(row, col + |m[0]|)))
    case None => None
  }

  function LexList(line: string, row: int, col: int): (t: Option<Token>)
    requires NoNewline(line)
    ensures t.Some? ==> WellFormed(t.value) && t.value.pos.row == row && Group(t.value, 0) == line
    ensures t.Some? ==> t.value.kind in {unorderedList, orderedList} && CleanToken(t.value)
    ensures t.Some? ==> t.value.lvl == |Group(t.value, 1)|
  {
    match MatchUnorderedList(line)
    case Some(m) => Some(Token(unorderedList, |m[1]|, m[4], m, Pos(row, col + |m[1]|), Pos(row, col + |m[0]|)))
    case None =>
      match MatchOrderedList(line)
      case Some(m) => Some(Token(orderedList, |m[1]|, m[5], m, Pos(row, col + |m[1]|), Pos(row, col + |m[0]|)))
      case None => None
  }

  function LexTable(line: string, row: int, col: int): (t: Option<Token>)
    requires NoNewline(line)
    ensures LexedWell(t, line, row)
    ensures t.Some? ==> t.value.kind in {tableSeparator, tableRow} && CleanToken(t.value)
  {
    match MatchTableSeparator(line)
    case Some(m) => Some(Token(tableSeparator, |m[1]|, m[2], m, Pos(row, col), Pos(row, col + |m[0]|)))
    case None =>
      match MatchTableRow(line)
      case Some(m) => Some(Token(tableRow, |m[1]|, m[2], m, Pos(row, col + |m[1]|), Pos(row, col + |m[0]|)))
      case None => None
  }

  function LexHorizontalRule(line: string, row: int, col: int): (t: Option<Token>)
    requires NoNewline(line)
    ensures LexedWell(t, line, row)
    ensures t.Some? ==> t.value.kind == horizontalRule && CleanToken(t.value)
  {
    match MatchHorizontalRule(line)
    case Some(m) => Some(Token(horizontalRule, |m[1]|, "", m, Pos(row, col), ZeroPos))
    case None => None
  }

  function LexKeywordOrComment(line: string, row: int, col: int): (t: Option<Token>)
    requires NoNewline(line)
    ensures LexedWell(t, line, row)
    ensures t.Some? ==> t.value.kind in {keyword, comment} && CleanToken(t.value)
  {
    match MatchKeyword(line)
    case Some(m) => Some(Token(keyword, |m[1]|, m[0], m, Pos(row, col + |m[1]|), Pos(row, col + |m[0]|)))
    case None =>
      match MatchComment(line)
      case Some(m) => Some(Token(comment, |m[1]|, m[2], m, Pos(row, col + |m[1]|), Pos(row, col + |m[0]|)))
      case None => None
  }

  function LexFootnoteDefinition(line: string, row: int, col: int): (t: Option<Token>)
    requires NoNewline(line)
    ensures LexedWell(t, line, row)
    ensures t.Some? ==> t.value.kind == footnoteDefinition && t.value.lvl == 0 && CleanToken(t.value)
  {
    match MatchFootnoteDefinition(line)
    case Some(m) => Some(Token(footnoteDefinition, 0, m[1], m, Pos(row, col), Pos(row, col + |m[0]|)))
    case None => None
  }

  function LexExample(line: string, row: int, col: int): (t: Option<Token>)
    requires NoNewline(line)
    ensures LexedWell(t, line, row)
    ensures t.Some? ==> t.value.kind == example && CleanToken(t.value)
  {
    match MatchExample(line)
    case Some(m) => Some(Token(example, |m[1]|, m[3], m, Pos(row, col + |m[1]|), Pos(row, col + |m[0]|)))
    case None => None
  }

  /** lexText accepts every line: lvl is the width of the leading white space, content the rest. */
  function LexText(line: string, row: int, col: int): (t: Option<Token>)
    requires NoNewline(line)
    ensures t.Some? && t.value.kind == text && CleanToken(t.value)
    ensures WellFormed(t.value) && t.value.pos.row == row
    ensures 0 <= t.value.lvl <= |line|
    ensures Strs.AllReSpace(line[..t.value.lvl]) && t.value.content == line[t.value.lvl..]
    ensures Group(t.value, 0) == line
  {
    var m := MatchText(line);
    assert line[..|m[1]|] == m[1];
    Some(Token(text, |m[1]|, m[2], m, Pos(row, col), ZeroPos))
  }

  /** lexScheduled, lexDeadline and lexClosed all use the deadline recogniser of the date code. */
  function LexDateLine(kind: Kind, deadlineRe: LineMatcher, line: string, row: int, col: int): (t: Option<Token>)
    requires IsDateKind(kind)
    ensures t.Some? ==> t.value.kind == kind && t.value.content == line
  {
    match deadlineRe(line)
    case Some(m) => Some(Token(kind, |if |m| > 1 then m[1] else ""|, line, m, Pos(row, col), ZeroPos))
    case None => None
  }

  datatype LexFn =
    | LexHeadlineFn | LexDrawerFn | LexBlockFn | LexResultFn | LexListFn | LexTableFn
    | LexHorizontalRuleFn | LexKeywordOrCommentFn | LexFootnoteDefinitionFn | LexExampleFn
    | LexTextFn | LexScheduledFn | LexDeadlineFn | LexClosedFn

  /** The priority order of lexFns. */
  const LexFns: seq<LexFn> := [
    LexHeadlineFn, LexDrawerFn, LexBlockFn, LexResultFn, LexListFn, LexTableFn,
    LexHorizontalRuleFn, LexKeywordOrCommentFn, LexFootnoteDefinitionFn, LexExampleFn,
    LexTextFn, LexScheduledFn, LexDeadlineFn, LexClosedFn
  ]

  function Lex(f: LexFn, deadlineRe: LineMatcher, line: string, row: int, col: int): Option<Token>
    requires NoNewline(line)
  {
    match f
    case LexHeadlineFn => LexHeadline(line, row, col)
    case LexDrawerFn => LexDrawer(line, row, col)
    case LexBlockFn => LexBlock(line, row, col)
    case LexResultFn => LexResult(line, row, col)
    case LexListFn => LexList(line, row, col)
    case LexTableFn => LexTable(line, row, col)
    case LexHorizontalRuleFn => LexHorizontalRule(line, row, col)
    case LexKeywordOrCommentFn => LexKeywordOrComment(line, row, col)
    case LexFootnoteDefinitionFn => LexFootnoteDefinition(line, row, col)
    case LexExampleFn => LexExample(line, row, col)
    case LexTextFn => LexText(line, row, col)
    case LexScheduledFn => LexDateLine(scheduled, deadlineRe, line, row, col)
    case LexDeadlineFn => LexDateLine(deadline, deadlineRe, line, row, col)
    case LexClosedFn => LexDateLine(closed, deadlineRe, line, row, col)
  }

  /** The token of the first lexer of fns that accepts the line. */
  function FirstMatch(fns: seq<LexFn>, deadlineRe: LineMatcher, line: string, row: int): Option<Token>
    requires NoNewline(line)
  {
    if |fns| == 0 then None
    else
      match Lex(fns[0], deadlineRe, line, row, 0)
      case Some(t) => Some(t)
      case None => FirstMatch(fns[1..], deadlineRe, line, row)
  }

  /** tokenize: try each lexer in priority order and return the first token. */
  method Tokenize(line: string, row: int, deadlineRe: LineMatcher) returns (t: Token)
    requires NoNewline(line)
    ensures FirstMatch(LexFns, deadlineRe, line, row) == Some(t)
    ensures WellFormed(t) && t.pos.row == row && !IsDateKind(t.kind)
    ensures |Group(t, 0)| <= |line|
    ensures AllReSpace(line) ==> t.kind == text && Group(t, 0) == line
    ensures LevelIsLead(t, line)
  {
    LexNeverReachesDates(line, row, deadlineRe);
    if AllReSpace(line) {
      BlankLineIsText(line, row, deadlineRe);
    }
    var k := 0;
    while k < 10 && Lex(LexFns[k], deadlineRe, line, row, 0).None?
      invariant 0 <= k <= 10
      invariant FirstMatch(LexFns, deadlineRe, line, row) == FirstMatch(LexFns[k..], deadlineRe, line, row)
    {
      assert LexFns[k..][1..] == LexFns[k + 1..];
      k := k + 1;
    }
    assert NotDateLexer(LexFns[k]);
    LexLevel(LexFns[k], deadlineRe, line, row);
    t := Lex(LexFns[k], deadlineRe, line, row, 0).value;
  }

  // ---------------------------------------------------------------------------
  // What the rest of the parser relies on about tokens

  /** The shape of each kind of token as the lexers build it. */
  predicate WellFormed(t: Token) {
    && CleanToken(t)
    && (t.kind == headline ==> |t.matches| == 3 && t.lvl == 0)
    && (t.kind == unorderedList ==>
          |t.matches| == 5 && t.content == t.matches[4] && t.lvl == |t.matches[1]| && |t.matches[2]| == 1
          && IsUnorderedBullet(t.matches[2][0])
          && |t.matches[0]| == |t.matches[1]| + |t.matches[2]| + |t.matches[3]|
          && (t.matches[3] == "" ==> t.content == "") && (t.matches[3] != "" ==> |t.content| < |t.matches[3]|))
    && (t.kind == orderedList ==>
          |t.matches| == 6 && t.content == t.matches[5] && t.lvl == |t.matches[1]| && |t.matches[2]| >= 2
          && |t.matches[0]| == |t.matches[1]| + |t.matches[2]| + |t.matches[4]|
          && (t.matches[4] == "" ==> t.content == "") && (t.matches[4] != "" ==> |t.content| < |t.matches[4]|)
          && (IsDigit(t.matches[2][0]) || IsAsciiLetter(t.matches[2][0])))
    && (t.kind == footnoteDefinition ==> |t.matches| == 4 && |t.matches[2]| + 6 <= |t.matches[0]| && t.lvl == 0)
    && (t.kind == keyword ==> |t.matches| == 5)
    && (t.kind == beginBlock || t.kind == beginDrawer ==> |t.content| > 0)
  }

  /** What a lexer yields on a line, if anything: a well-formed token on the row, of no date kind, whose match lies in the line. */
  predicate LexedWell(r: Option<Token>, line: string, row: int) {
    r.Some? ==> WellFormed(r.value) && r.value.pos.row == row && !IsDateKind(r.value.kind) && |Group(r.value, 0)| <= |line|
  }

  /** Every lexer before the date lexers builds well-formed tokens on the given row; lexText accepts every line. */
  lemma LexSound(f: LexFn, deadlineRe: LineMatcher, line: string, row: int)
    requires NoNewline(line)
    requires !f.LexScheduledFn? && !f.LexDeadlineFn? && !f.LexClosedFn?
    ensures f.LexTextFn? ==> Lex(f, deadlineRe, line, row, 0).Some?
    ensures LexedWell(Lex(f, deadlineRe, line, row, 0), line, row)
  {
  }

  /** A lexer that is not a date lexer. */
  predicate NotDateLexer(f: LexFn) { !f.LexScheduledFn? && !f.LexDeadlineFn? && !f.LexClosedFn? }

  /** Trying lexers none of which is a date lexer, one of which is lexText, always yields a well-formed token. */
  lemma {:induction false} FirstMatchSound(fns: seq<LexFn>, deadlineRe: LineMatcher, line: string, row: int)
    requires NoNewline(line)
    requires forall i :: 0 <= i < |fns| ==> NotDateLexer(fns[i])
    requires LexTextFn in fns
    ensures var r := FirstMatch(fns, deadlineRe, line, row);
            r.Some? && WellFormed(r.value) && r.value.pos.row == row && !IsDateKind(r.value.kind)
            && |Group(r.value, 0)| <= |line|
  {
    LexSound(fns[0], deadlineRe, line, row);
    if Lex(fns[0], deadlineRe, line, row, 0).None? {
      assert fns[0] != LexTextFn;
      FirstMatchSound(fns[1..], deadlineRe, line, row);
    }
  }

  /** Once a prefix of the lexers accepts the line, the lexers after it are never tried. */
  lemma {:induction false} FirstMatchPrefix(fns: seq<LexFn>, n: nat, deadlineRe: LineMatcher, line: string, row: int)
    requires NoNewline(line) && n <= |fns|
    requires FirstMatch(fns[..n], deadlineRe, line, row).Some?
    ensures FirstMatch(fns, deadlineRe, line, row) == FirstMatch(fns[..n], deadlineRe, line, row)
  {
    if Lex(fns[0], deadlineRe, line, row, 0).None? {
      assert fns[..n][1..] == fns[1..][..n - 1];
      FirstMatchPrefix(fns[1..], n - 1, deadlineRe, line, row);
    }
  }

  /** lexText accepts every line, so tokenize never panics and never gets to the date lexers. */
  lemma LexNeverReachesDates(line: string, row: int, deadlineRe: LineMatcher)
    requires NoNewline(line)
    ensures FirstMatch(LexFns, deadlineRe, line, row).Some?
    ensures !IsDateKind(FirstMatch(LexFns, deadlineRe, line, row).value.kind)
    ensures WellFormed(FirstMatch(LexFns, deadlineRe, line, row).value)
    ensures FirstMatch(LexFns, deadlineRe, line, row).value.pos.row == row
    ensures |Group(FirstMatch(LexFns, deadlineRe, line, row).value, 0)| <= |line|
    ensures FirstMatch(LexFns, deadlineRe, line, row) == FirstMatch(LexFns[..11], deadlineRe, line, row)
  {
    var first := LexFns[..11];
    assert first[10] == LexTextFn;
    FirstMatchSound(first, deadlineRe, line, row);
    FirstMatchPrefix(LexFns, 11, deadlineRe, line, row);
  }

  /**
   * The lvl of a token is the width of the line's leading white space, except for a headline or a
   * footnote definition (lvl 0), whose line starts with a character that is not white space.
   */
  predicate LevelIsLead(t: Token, line: string) {
    t.lvl == Lead(line) || ((t.kind == headline || t.kind == footnoteDefinition) && |line| > 0 && !IsReSpace(line[0]))
  }

  lemma LexLevel(f: LexFn, deadlineRe: LineMatcher, line: string, row: int)
    requires NoNewline(line) && NotDateLexer(f)
    ensures var r := Lex(f, deadlineRe, line, row, 0);
            r.Some? ==> LevelIsLead(r.value, line)
  {
    match f {
      case LexHeadlineFn => LexHeadlineLevel(line, row);
      case LexDrawerFn => LexDrawerLevel(line, row);
      case LexBlockFn => LexBlockLevel(line, row);
      case LexResultFn => LexResultLevel(line, row);
      case LexListFn => LexListLevel(line, row);
      case LexTableFn => LexTableLevel(line, row);
      case LexHorizontalRuleFn => LexHorizontalRuleLevel(line, row);
      case LexKeywordOrCommentFn => LexKeywordOrCommentLevel(line, row);
      case LexFootnoteDefinitionFn => LexFootnoteDefinitionLevel(line, row);
      case LexExampleFn => LexExampleLevel(line, row);
      case LexTextFn => LexTextLevel(line, row);
    }
  }

  lemma LexHeadlineLevel(line: string, row: int)
    requires NoNewline(line)
    ensures var r := LexHeadline(line, row, 0); r.Some? ==> LevelIsLead(r.value, line)
  {
  }

  lemma LexDrawerLevel(line: string, row: int)
    requires NoNewline(line)
    ensures var r := LexDrawer(line, row, 0); r.Some? ==> LevelIsLead(r.value, line)
  {
  }

  lemma LexBlockLevel(line: string, row: int)
    requires NoNewline(line)
    ensures var r := LexBlock(line, row, 0); r.Some? ==> LevelIsLead(r.value, line)
  {
  }

  lemma LexResultLevel(line: string, row: int)
    requires NoNewline(line)
    ensures var r := LexResult(line, row, 0); r.Some? ==> LevelIsLead(r.value, line)
  {
  }

  lemma LexListLevel(line: string, row: int)
    requires NoNewline(line)
    ensures var r := LexList(line, row, 0); r.Some? ==> LevelIsLead(r.value, line)
  {
  }

  lemma LexTableLevel(line: string, row: int)
    requires NoNewline(line)
    ensures var r := LexTable(line, row, 0); r.Some? ==> LevelIsLead(r.value, line)
  {
  }

  lemma LexHorizontalRuleLevel(line: string, row: int)
    requires NoNewline(line)
    ensures var r := LexHorizontalRule(line, row, 0); r.Some? ==> LevelIsLead(r.value, line)
  {
  }

  lemma LexKeywordOrCommentLevel(line: string, row: int)
    requires NoNewline(line)
    ensures var r := LexKeywordOrComment(line, row, 0); r.Some? ==> LevelIsLead(r.value, line)
  {
  }

  lemma LexFootnoteDefinitionLevel(line: string, row: int)
    requires NoNewline(line)
    ensures var r := LexFootnoteDefinition(line, row, 0); r.Some? ==> LevelIsLead(r.value, line)
  {
  }

  lemma LexExampleLevel(line: string, row: int)
    requires NoNewline(line)
    ensures var r := LexExample(line, row, 0); r.Some? ==> LevelIsLead(r.value, line)
  {
  }

  lemma LexTextLevel(line: string, row: int)
    requires NoNewline(line)
    ensures var r := LexText(line, row, 0); r.Some? ==> LevelIsLead(r.value, line)
  {
  }

  /** A line that starts with n spaces has at least n characters of leading white space. */
  lemma {:induction false} LeadOfIndented(n: nat, rest: string)
    ensures Lead(Spaces(n) + rest) >= n
    decreases n
  {
    if n > 0 {
      assert (Spaces(n) + rest)[1..] == Spaces(n - 1) + rest;
      LeadOfIndented(n - 1, rest);
    }
  }

  /** Once the first k lexers reject the line, the result is that of the remaining ones. */
  lemma {:induction false} FirstMatchSkip(fns: seq<LexFn>, k: nat, deadlineRe: LineMatcher, line: string, row: int)
    requires NoNewline(line) && k <= |fns|
    requires forall j :: 0 <= j < k ==> Lex(fns[j], deadlineRe, line, row, 0).None?
    ensures FirstMatch(fns, deadlineRe, line, row) == FirstMatch(fns[k..], deadlineRe, line, row)
  {
    if k > 0 {
      assert fns[1..][k - 1..] == fns[k..];
      FirstMatchSkip(fns[1..], k - 1, deadlineRe, line, row);
    }
  }

  lemma {:induction false} LeadOfBlank(line: string)
    requires AllReSpace(line)
    ensures Lead(line) == |line|
  {
    PrefixRunFacts(line, IsReSpace);
  }

  /** A line of white space only is rejected by every lexer before lexText, so it becomes text. */
  lemma BlankLineIsText(line: string, row: int, deadlineRe: LineMatcher)
    requires NoNewline(line) && AllReSpace(line)
    ensures FirstMatch(LexFns, deadlineRe, line, row).Some?
    ensures FirstMatch(LexFns, deadlineRe, line, row).value.kind == text
    ensures Group(FirstMatch(LexFns, deadlineRe, line, row).value, 0) == line
  {
    forall j | 0 <= j < 10 ensures Lex(LexFns[j], deadlineRe, line, row, 0).None? {
      BlankRejected(LexFns[j], line, row, deadlineRe);
    }
    FirstMatchSkip(LexFns, 10, deadlineRe, line, row);
    assert LexFns[10..][0] == LexTextFn;
  }

  lemma BlankRejected(f: LexFn, line: string, row: int, deadlineRe: LineMatcher)
    requires NoNewline(line) && AllReSpace(line) && f in LexFns[..10]
    ensures Lex(f, deadlineRe, line, row, 0).None?
  {
    LeadOfBlank(line);
    assert line[Lead(line)..] == "";
    match f {
      case LexHeadlineFn => assert PrefixRun(line, c => c == '*') == 0;
      case LexDrawerFn =>
      case LexBlockFn =>
      case LexResultFn =>
      case LexListFn =>
      case LexTableFn =>
      case LexHorizontalRuleFn =>
      case LexKeywordOrCommentFn =>
      case LexFootnoteDefinitionFn =>
      case LexExampleFn =>
    }
  }
}
