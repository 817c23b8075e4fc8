// The parts of Go's strings, strconv and unicode packages that the parser relies on,
// stated over strings as sequences of code points (a rune count is a length).
module Strs {
  import opened Wrappers

  // ---------------------------------------------------------------------------
  // Character classes

  /** unicode.IsSpace: the Unicode White_Space property. */
  predicate IsSpace(c: char) {
    c == ' ' || c == '\t' || c == '\n' || c == '\U{B}' || c == '\U{C}' || c == '\r'
    || c == '\U{85}' || c == '\U{A0}' || c == '\U{1680}'
    || ('\U{2000}' <= c <= '\U{200A}')
    || c == '\U{2028}' || c == '\U{2029}' || c == '\U{202F}' || c == '\U{205F}' || c == '\U{3000}'
  }

  /**
   * The first byte of the UTF-8 encoding of c, read as a rune: what Go's `rune(s[i])` sees
   * when i is the first byte of c.
   */
  function FirstByteRune(c: char): (r: char)
    ensures c < '\U{80}' ==> r == c
    ensures c >= '\U{80}' ==> '\U{C2}' <= r <= '\U{F4}'
  {
    var n := c as int;
    if n < 0x80 then c
    else if n < 0x800 then (0xC0 + n / 64) as char
    else if n < 0x10000 then (0xE0 + n / 4096) as char
    else (0xF0 + n / 262144) as char
  }

  /** The last byte of the UTF-8 encoding of c, read as a rune. */
  function LastByteRune(c: char): (r: char)
    ensures c < '\U{80}' ==> r == c
    ensures c >= '\U{80}' ==> '\U{80}' <= r <= '\U{BF}'
  {
    if c < '\U{80}' then c else (0x80 + (c as int) % 64) as char
  }

  /** Only an ASCII character can begin with a white-space byte. */
  lemma FirstByteSpace(c: char)
    ensures IsSpace(FirstByteRune(c)) <==> c < '\U{80}' && IsSpace(c)
  {
  }

  /** A non-ASCII character ends in a white-space byte (U+0085 or U+00A0) when its low six bits are 5 or 32. */
  lemma LastByteSpace(c: char)
    ensures IsSpace(LastByteRune(c)) <==> (if c < '\U{80}' then IsSpace(c) else (c as int) % 64 == 5 || (c as int) % 64 == 32)
  {
  }

  /** The RE2 class \s, which is ASCII only: [\t\n\f\r ]. */
  predicate IsReSpace(c: char) {
    c == ' ' || c == '\t' || c == '\n' || c == '\U{C}' || c == '\r'
  }

  predicate IsDigit(c: char) { '0' <= c <= '9' }

  predicate IsAsciiLetter(c: char) { ('a' <= c <= 'z') || ('A' <= c <= 'Z') }

  /** unicode.IsLetter on the runes up to U+00FF. */
  predicate IsLatin1Letter(r: char)
  {
    IsAsciiLetter(r) || r == '\U{AA}' || r == '\U{B5}' || r == '\U{BA}'
    || ('\U{C0}' <= r <= '\U{FF}' && r != '\U{D7}' && r != '\U{F7}')
  }

  /** The RE2 class \w: [0-9A-Za-z_]. */
  predicate IsWord(c: char) { IsDigit(c) || IsAsciiLetter(c) || c == '_' }

  predicate AllSpace(s: string) { forall i :: 0 <= i < |s| ==> IsSpace(s[i]) }
  predicate AllReSpace(s: string) { forall i :: 0 <= i < |s| ==> IsReSpace(s[i]) }
  predicate AllDigits(s: string) { forall i :: 0 <= i < |s| ==> IsDigit(s[i]) }

  predicate NoNewline(s: string) { forall i :: 0 <= i < |s| ==> s[i] != '\n' }

  lemma ReSpaceIsSpace(c: char)
    ensures IsReSpace(c) ==> IsSpace(c)
  {
  }

  /** A slice of a slice is a slice of the original. */
  lemma SliceOfSlice(s: string, a: nat, b: nat, i: nat, j: nat)
    requires a <= b <= |s| && i <= j <= b - a
    ensures s[a..b][i..j] == s[a + i..a + j]
  {
    assert forall k :: 0 <= k < j - i ==> s[a..b][i..j][k] == s[a + i + k];
  }

  lemma NoNewlineSlice(s: string, a: int, b: int)
    requires NoNewline(s) && 0 <= a <= b <= |s|
    ensures NoNewline(s[a..b])
  {
    assert forall i :: 0 <= i < b - a ==> s[a..b][i] == s[a + i];
  }

  lemma NoNewlineConcat(s: string, t: string)
    requires NoNewline(s) && NoNewline(t)
    ensures NoNewline(s + t)
  {
    assert forall i :: 0 <= i < |s| ==> (s + t)[i] == s[i];
    assert forall i :: |s| <= i < |s| + |t| ==> (s + t)[i] == t[i - |s|];
  }

  // ---------------------------------------------------------------------------
  // Case mapping (ASCII letters only)

  function UpperChar(c: char): (r: char)
    ensures IsAsciiLetter(c) ==> IsAsciiLetter(r) && 'A' <= r <= 'Z'
    ensures !('a' <= c <= 'z') ==> r == c
  {
    if 'a' <= c <= 'z' then (c as int - 32) as char else c
  }

  function LowerChar(c: char): (r: char)
    ensures !('A' <= c <= 'Z') ==> r == c
    ensures 'A' <= c <= 'Z' ==> 'a' <= r <= 'z'
  {
    if 'A' <= c <= 'Z' then (c as int + 32) as char else c
  }

  /** strings.ToUpper over ASCII letters: same length, each character mapped. */
  function ToUpper(s: string): (r: string)
    ensures |r| == |s|
    ensures forall i :: 0 <= i < |s| ==> r[i] == UpperChar(s[i])
  {
    seq(|s|, i requires 0 <= i < |s| => UpperChar(s[i]))
  }

  function ToLower(s: string): (r: string)
    ensures |r| == |s|
    ensures forall i :: 0 <= i < |s| ==> r[i] == LowerChar(s[i])
  {
    seq(|s|, i requires 0 <= i < |s| => LowerChar(s[i]))
  }

  /** strings.EqualFold over ASCII letters. */
  predicate EqualFold(a: string, b: string) { ToLower(a) == ToLower(b) }

  lemma ToUpperNoNewline(s: string)
    requires NoNewline(s)
    ensures NoNewline(ToUpper(s))
  {
  }

  // ---------------------------------------------------------------------------
  // Prefixes, searching

  predicate HasPrefix(s: string, p: string) { |p| <= |s| && s[..|p|] == p }

  predicate HasSuffix(s: string, p: string) { |p| <= |s| && s[|s| - |p|..] == p }

  predicate OccursAt(s: string, pat: string, k: int) {
    0 <= k && k + |pat| <= |s| && s[k..k + |pat|] == pat
  }

  lemma OccursAtTail(s: string, pat: string, k: int)
    requires |s| > 0 && k >= 0
    ensures OccursAt(s[1..], pat, k) <==> OccursAt(s, pat, k + 1)
  {
    if 0 <= k && k + |pat| <= |s| - 1 {
      assert s[1..][k..k + |pat|] == s[k + 1..k + 1 + |pat|];
    }
  }

  /** strings.Index: the first occurrence of pat in s, or -1. */
  function Index(s: string, pat: string): (r: int)
    ensures -1 <= r <= |s| - |pat| || r == -1
    ensures r >= 0 ==> OccursAt(s, pat, r)
    ensures r >= 0 ==> forall k :: 0 <= k < r ==> !OccursAt(s, pat, k)
    ensures r == -1 ==> forall k :: !OccursAt(s, pat, k)
  {
    IndexAt(s, pat, 0)
  }

  /** The first occurrence of pat in s at or after i, or -1. */
  function IndexAt(s: string, pat: string, i: nat): (r: int)
    requires i <= |s|
    ensures r == -1 || i <= r <= |s| - |pat|
    ensures r >= 0 ==> OccursAt(s, pat, r) && forall k :: i <= k < r ==> !OccursAt(s, pat, k)
    ensures r == -1 ==> forall k :: i <= k ==> !OccursAt(s, pat, k)
    decreases |s| - i
  {
    if i + |pat| > |s| then -1
    else if OccursAt(s, pat, i) then i
    else IndexAt(s, pat, i + 1)
  }

  lemma OccursAtSuffix(s: string, from: nat, pat: string, k: int)
    requires from <= |s| && k >= 0
    ensures OccursAt(s[from..], pat, k) <==> OccursAt(s, pat, from + k)
  {
    if 0 <= k && k + |pat| <= |s| - from {
      assert s[from..][k..k + |pat|] == s[from + k..from + k + |pat|];
    }
  }

  /** Index(s[from..], pat) read back in s: the first occurrence at or after from. */
  lemma IndexFrom(s: string, from: nat, pat: string)
    requires from <= |s|
    ensures var i := Index(s[from..], pat);
            (i >= 0 ==> OccursAt(s, pat, from + i) && forall k :: from <= k < from + i ==> !OccursAt(s, pat, k))
            && (i < 0 ==> forall k :: from <= k ==> !OccursAt(s, pat, k))
  {
    var i := Index(s[from..], pat);
    forall k | from <= k ensures OccursAt(s[from..], pat, k - from) <==> OccursAt(s, pat, k) {
      OccursAtSuffix(s, from, pat, k - from);
    }
    if i >= 0 {
      OccursAtSuffix(s, from, pat, i);
    }
  }

  /** strings.Contains. */
  predicate Contains(s: string, pat: string) { Index(s, pat) >= 0 }

  lemma ContainsWitness(s: string, pat: string, k: int)
    requires OccursAt(s, pat, k)
    ensures Contains(s, pat)
  {
  }

  /** strings.IndexRune for a single character. */
  function IndexChar(s: string, c: char): (r: int)
    ensures -1 <= r < |s|
    ensures r >= 0 ==> s[r] == c && forall k :: 0 <= k < r ==> s[k] != c
    ensures r == -1 ==> forall k :: 0 <= k < |s| ==> s[k] != c
  {
    if |s| == 0 then -1
    else if s[0] == c then 0
    else var r := IndexChar(s[1..], c); if r == -1 then -1 else r + 1
  }

  /** strings.LastIndex: the last occurrence of pat in s, or -1. */
  function LastIndex(s: string, pat: string): (r: int)
    ensures -1 <= r <= |s| - |pat| || r == -1
    ensures r >= 0 ==> OccursAt(s, pat, r)
    ensures r >= 0 ==> forall k :: r < k ==> !OccursAt(s, pat, k)
    ensures r == -1 ==> forall k :: !OccursAt(s, pat, k)
    decreases |s|
  {
    if |s| < |pat| then -1
    else if s[|s| - |pat|..] == pat then |s| - |pat|
    else
      var r := LastIndex(s[..|s| - 1], pat);
      assert forall k :: k + |pat| <= |s| - 1 ==> (OccursAt(s[..|s| - 1], pat, k) <==> OccursAt(s, pat, k)) by {
        forall k | k + |pat| <= |s| - 1
          ensures OccursAt(s[..|s| - 1], pat, k) <==> OccursAt(s, pat, k)
        {
          if 0 <= k { assert s[..|s| - 1][k..k + |pat|] == s[k..k + |pat|]; }
        }
      }
      assert !OccursAt(s, pat, |s| - |pat|);
      r
  }

  // ---------------------------------------------------------------------------
  // Splitting and joining

  /** strings.Split for a non-empty separator: the pieces between successive first occurrences. */
  function Split(s: string, sep: string): (parts: seq<string>)
    requires |sep| > 0
    ensures |parts| >= 1
    decreases |s|
  {
    var k := Index(s, sep);
    if k < 0 then [s] else [s[..k]] + Split(s[k + |sep|..], sep)
  }

  /** Past the first separator, Split carries on with the rest: its last piece is the rest's last piece. */
  lemma SplitTail(s: string, sep: string, k: int)
    requires |sep| > 0 && k == Index(s, sep) && k >= 0
    ensures OccursAt(s, sep, k)
    ensures var p := Split(s[k + |sep|..], sep); var q := Split(s, sep);
            q == [s[..k]] + p && q[|q| - 1] == p[|p| - 1]
  {
  }

  /** Split yields a single piece exactly when the separator does not occur. */
  lemma SplitSingle(s: string, sep: string)
    requires |sep| > 0
    ensures (|Split(s, sep)| == 1) <==> !Contains(s, sep)
  {
  }

  /** strings.Join. */
  function Join(parts: seq<string>, sep: string): (r: string)
  {
    if |parts| == 0 then ""
    else if |parts| == 1 then parts[0]
    else parts[0] + sep + Join(parts[1..], sep)
  }

  /** Join undoes Split, whatever the text. */
  lemma {:induction false} JoinSplit(s: string, sep: string)
    requires |sep| > 0
    ensures Join(Split(s, sep), sep) == s
    decreases |s|
  {
    var k := Index(s, sep);
    if k >= 0 {
      var rest := s[k + |sep|..];
      JoinSplit(rest, sep);
      SplitTail(s, sep, k);
      JoinCons(s[..k], Split(rest, sep), sep);
      AroundOccurrence(s, sep, k);
    }
  }

  lemma JoinCons(a: string, tail: seq<string>, sep: string)
    requires |tail| >= 1
    ensures Join([a] + tail, sep) == a + sep + Join(tail, sep)
  {
    assert ([a] + tail)[1..] == tail;
  }

  /** A text is what comes before an occurrence, the occurrence, and what comes after it. */
  lemma AroundOccurrence(s: string, pat: string, k: int)
    requires OccursAt(s, pat, k)
    ensures s == s[..k] + pat + s[k + |pat|..]
  {
    assert s[k..k + |pat|] == pat;
    assert s == s[..k] + s[k..k + |pat|] + s[k + |pat|..];
  }

  /** No piece produced by Split contains the separator. */
  lemma {:induction false} SplitPiecesFree(s: string, sep: string, i: int)
    requires |sep| > 0
    requires 0 <= i < |Split(s, sep)|
    ensures !Contains(Split(s, sep)[i], sep)
    decreases |s|
  {
    var k := Index(s, sep);
    if k >= 0 {
      if i == 0 {
        BeforeFirstIsFree(s, sep);
      } else {
        SplitPiecesFree(s[k + |sep|..], sep, i - 1);
      }
    }
  }

  /** No piece produced by Split is longer than the text. */
  /** The first piece of a split is a prefix of the text. */
  lemma SplitFirstPrefix(s: string, sep: string)
    requires |sep| > 0
    ensures HasPrefix(s, Split(s, sep)[0])
  {
  }

  lemma {:induction false} SplitPieceShorter(s: string, sep: string, i: int)
    requires |sep| > 0
    requires 0 <= i < |Split(s, sep)|
    ensures |Split(s, sep)[i]| <= |s|
    decreases |s|
  {
    var k := Index(s, sep);
    if k >= 0 && i > 0 {
      SplitPieceShorter(s[k + |sep|..], sep, i - 1);
    }
  }

  /** strings.SplitN(s, sep, 2). */
  function SplitN2(s: string, sep: string): (parts: seq<string>)
    requires |sep| > 0
    ensures 1 <= |parts| <= 2
    ensures |parts| == 1 <==> !Contains(s, sep)
    ensures |parts| == 1 ==> parts[0] == s
    ensures |parts| == 2 ==> parts[0] + sep + parts[1] == s && !Contains(parts[0], sep)
  {
    var k := Index(s, sep);
    if k < 0 then [s]
    else
      assert s == s[..k] + sep + s[k + |sep|..];
      BeforeFirstIsFree(s, sep);
      [s[..k], s[k + |sep|..]]
  }

  /** The text before the first occurrence of a pattern does not contain it. */
  lemma BeforeFirstIsFree(s: string, sep: string)
    requires |sep| > 0 && Index(s, sep) >= 0
    ensures !Contains(s[..Index(s, sep)], sep)
  {
    var k := Index(s, sep);
    if Contains(s[..k], sep) {
      var j := Index(s[..k], sep);
      assert 0 <= j < k;
      assert s[..k][j..j + |sep|] == s[j..j + |sep|];
      assert OccursAt(s, sep, j);
    }
  }

  /** strings.Cut: the text before and after the first occurrence of sep, and whether it was found. */
  function Cut(s: string, sep: string): (r: (string, string, bool))
    requires |sep| > 0
    ensures r.2 == Contains(s, sep)
    ensures r.2 ==> r.0 + sep + r.1 == s && !Contains(r.0, sep)
    ensures !r.2 ==> r.0 == s && r.1 == ""
  {
    var p := SplitN2(s, sep);
    if |p| == 2 then (p[0], p[1], true) else (s, "", false)
  }

  // ---------------------------------------------------------------------------
  // Trimming and fields

  /** The length of the longest prefix whose characters all satisfy f. */
  function PrefixRun(s: string, f: char -> bool): (n: nat)
    ensures n <= |s|
  {
    if |s| == 0 || !f(s[0]) then 0 else 1 + PrefixRun(s[1..], f)
  }

  /** The run is maximal: every character in it satisfies f, the next one does not. */
  lemma {:induction false} PrefixRunFacts(s: string, f: char -> bool)
    ensures forall i :: 0 <= i < PrefixRun(s, f) ==> f(s[i])
    ensures PrefixRun(s, f) < |s| ==> !f(s[PrefixRun(s, f)])
  {
    if |s| > 0 && f(s[0]) {
      PrefixRunFacts(s[1..], f);
      assert forall i :: 1 <= i < PrefixRun(s, f) ==> s[i] == s[1..][i - 1];
    }
  }

  /** The length of the longest suffix whose characters all satisfy f. */
  function SuffixRun(s: string, f: char -> bool): (n: nat)
    ensures n <= |s|
  {
    if |s| == 0 || !f(s[|s| - 1]) then 0 else 1 + SuffixRun(s[..|s| - 1], f)
  }

  /** The run is maximal: every character in it satisfies f, the one before it does not. */
  lemma {:induction false} SuffixRunFacts(s: string, f: char -> bool)
    ensures forall i :: |s| - SuffixRun(s, f) <= i < |s| ==> f(s[i])
    ensures SuffixRun(s, f) < |s| ==> !f(s[|s| - SuffixRun(s, f) - 1])
  {
    if |s| > 0 && f(s[|s| - 1]) {
      SuffixRunFacts(s[..|s| - 1], f);
    }
  }

  /** The length of the longest run of characters satisfying f that ends just before s[k]. */
  function RunBefore(s: string, f: char -> bool, k: nat): (n: nat)
    requires k <= |s|
    ensures n <= k
  {
    if k == 0 || !f(s[k - 1]) then 0 else 1 + RunBefore(s, f, k - 1)
  }

  /** The run is maximal: every character in it satisfies f, the one before it does not. */
  lemma {:induction false} RunBeforeFacts(s: string, f: char -> bool, k: nat)
    requires k <= |s|
    ensures forall i :: k - RunBefore(s, f, k) <= i < k ==> f(s[i])
    ensures RunBefore(s, f, k) < k ==> !f(s[k - RunBefore(s, f, k) - 1])
  {
    if k > 0 && f(s[k - 1]) {
      RunBeforeFacts(s, f, k - 1);
    }
  }

  /** A maximal run ending before s[k] is what RunBefore measures. */
  lemma {:induction false} RunBeforeIs(s: string, f: char -> bool, k: nat, n: nat)
    requires n <= k <= |s| && forall i :: k - n <= i < k ==> f(s[i])
    requires n < k ==> !f(s[k - n - 1])
    ensures RunBefore(s, f, k) == n
    decreases n
  {
    if n > 0 {
      RunBeforeIs(s, f, k - 1, n - 1);
    }
  }

  function TrimLeftFunc(s: string, f: char -> bool): (r: string)
    ensures r == s[PrefixRun(s, f)..]
  {
    s[PrefixRun(s, f)..]
  }

  function TrimRightFunc(s: string, f: char -> bool): (r: string)
    ensures r == s[..|s| - SuffixRun(s, f)]
  {
    s[..|s| - SuffixRun(s, f)]
  }

  /** The number of white-space characters strings.TrimSpace cuts from the front. */
  function SpacePrefix(s: string): (n: nat)
    ensures n <= |s|
  {
    if |s| == 0 || !IsSpace(s[0]) then 0 else 1 + SpacePrefix(s[1..])
  }

  /** The number of white-space characters strings.TrimSpace cuts from the back. */
  function SpaceSuffix(s: string): (n: nat)
    ensures n <= |s|
  {
    if |s| == 0 || !IsSpace(s[|s| - 1]) then 0 else 1 + SpaceSuffix(s[..|s| - 1])
  }

  lemma {:induction false} SpacePrefixFacts(s: string)
    ensures AllSpace(s[..SpacePrefix(s)])
    ensures SpacePrefix(s) < |s| ==> !IsSpace(s[SpacePrefix(s)])
  {
    if |s| > 0 && IsSpace(s[0]) {
      SpacePrefixFacts(s[1..]);
      assert s[..SpacePrefix(s)] == [s[0]] + s[1..][..SpacePrefix(s[1..])];
    }
  }

  lemma {:induction false} SpaceSuffixFacts(s: string)
    ensures forall i :: |s| - SpaceSuffix(s) <= i < |s| ==> IsSpace(s[i])
    ensures SpaceSuffix(s) < |s| ==> !IsSpace(s[|s| - SpaceSuffix(s) - 1])
  {
    if |s| > 0 && IsSpace(s[|s| - 1]) {
      var t := s[..|s| - 1];
      SpaceSuffixFacts(t);
      assert forall i :: 0 <= i < |t| ==> t[i] == s[i];
    }
  }

  /** strings.TrimSpace: the text without its leading and trailing white space. */
  function TrimSpace(s: string): string
  {
    var t := s[SpacePrefix(s)..];
    t[..|t| - SpaceSuffix(t)]
  }

  /** TrimSpace gives s[a..b] with only white space outside and none at either end inside. */
  lemma TrimSpaceSpec(s: string)
    ensures exists a, b :: 0 <= a <= b <= |s| && TrimSpace(s) == s[a..b] && AllSpace(s[..a]) && AllSpace(s[b..])
    ensures var r := TrimSpace(s); |r| > 0 ==> !IsSpace(r[0]) && !IsSpace(r[|r| - 1])
  {
    var a := SpacePrefix(s);
    var t := s[a..];
    var n := SpaceSuffix(t);
    var b := a + |t| - n;
    SpacePrefixFacts(s);
    SpaceSuffixFacts(t);
    assert t[..|t| - n] == s[a..b];
    assert AllSpace(s[b..]) by {
      forall i | 0 <= i < |s| - b ensures IsSpace(s[b..][i]) { assert s[b..][i] == t[|t| - n + i]; }
    }
    if a < |s| && n < |t| {
      assert t[0] == s[a];
    }
  }

  lemma TrimSpaceNoNewline(s: string)
    requires NoNewline(s)
    ensures NoNewline(TrimSpace(s))
  {
    var a := SpacePrefix(s);
    var t := s[a..];
    NoNewlineSlice(s, a, |s|);
    NoNewlineSlice(t, 0, |t| - SpaceSuffix(t));
  }

  lemma TrimSpaceOfNonSpace(s: string)
    requires |s| > 0 && !IsSpace(s[0]) && !IsSpace(s[|s| - 1])
    ensures TrimSpace(s) == s
  {
    assert SpacePrefix(s) == 0;
    assert SpaceSuffix(s) == 0;
  }

  lemma TrimSpaceAllSpace(s: string)
    ensures TrimSpace(s) == "" <==> AllSpace(s)
  {
    var a := SpacePrefix(s);
    var t := s[a..];
    SpacePrefixAll(s);
    if !AllSpace(s) {
      SpacePrefixFacts(s);
      assert t[0] == s[a];
      SpaceSuffixStops(t);
    }
  }

  lemma {:induction false} SpacePrefixAll(s: string)
    ensures SpacePrefix(s) == |s| <==> AllSpace(s)
  {
    if |s| > 0 {
      SpacePrefixAll(s[1..]);
      assert forall i :: 1 <= i < |s| ==> s[i] == s[1..][i - 1];
    }
  }

  /** A text that does not start with white space keeps its first character under the back trim. */
  lemma SpaceSuffixStops(t: string)
    requires |t| > 0 && !IsSpace(t[0])
    ensures SpaceSuffix(t) < |t|
  {
    SpaceSuffixFacts(t);
  }

  /** strings.TrimRight(s, "\n"). */
  function TrimTrailingNewlines(s: string): (r: string)
    ensures HasPrefix(s, r)
    ensures |r| > 0 ==> r[|r| - 1] != '\n'
    ensures forall i :: |r| <= i < |s| ==> s[i] == '\n'
  {
    var f := c => c == '\n';
    SuffixRunFacts(s, f);
    TrimRightFunc(s, f)
  }

  /** A text that does not end in a line break keeps all of it. */
  lemma TrimTrailingNewlinesNone(s: string)
    requires |s| == 0 || s[|s| - 1] != '\n'
    ensures TrimTrailingNewlines(s) == s
  {
    var f := c => c == '\n';
    assert SuffixRun(s, f) == 0;
  }

  /** strings.FieldsFunc: the maximal non-empty runs of characters that do not satisfy f. */
  function FieldsFunc(s: string, f: char -> bool): (r: seq<string>)
    ensures forall i :: 0 <= i < |r| ==> |r[i]| > 0
    ensures forall i, j :: 0 <= i < |r| && 0 <= j < |r[i]| ==> !f(r[i][j])
    decreases |s|
  {
    if |s| == 0 then []
    else if f(s[0]) then FieldsFunc(s[1..], f)
    else
      var g := c => !f(c);
      var n := PrefixRun(s, g);
      PrefixRunFacts(s, g);
      [s[..n]] + FieldsFunc(s[n..], f)
  }

  /** Removes every character that satisfies f. */
  function Without(s: string, f: char -> bool): string
  {
    if |s| == 0 then "" else (if f(s[0]) then "" else [s[0]]) + Without(s[1..], f)
  }

  function Concat(parts: seq<string>): string
  {
    if |parts| == 0 then "" else parts[0] + Concat(parts[1..])
  }

  lemma {:induction false} WithoutAppend(a: string, b: string, f: char -> bool)
    ensures Without(a + b, f) == Without(a, f) + Without(b, f)
    decreases |a|
  {
    if |a| > 0 {
      assert (a + b)[1..] == a[1..] + b;
      WithoutAppend(a[1..], b, f);
    } else {
      assert a + b == b;
    }
  }

  lemma {:induction false} WithoutNone(a: string, f: char -> bool)
    requires forall i :: 0 <= i < |a| ==> !f(a[i])
    ensures Without(a, f) == a
    decreases |a|
  {
    if |a| > 0 {
      WithoutNone(a[1..], f);
    }
  }

  /** The fields hold exactly the characters of s that are not separators, in order. */
  lemma {:induction false} FieldsFuncKeepsContent(s: string, f: char -> bool)
    ensures Concat(FieldsFunc(s, f)) == Without(s, f)
    decreases |s|
  {
    if |s| == 0 {
    } else if f(s[0]) {
      FieldsFuncKeepsContent(s[1..], f);
    } else {
      var g := c => !f(c);
      var n := PrefixRun(s, g);
      PrefixRunFacts(s, g);
      FieldsFuncKeepsContent(s[n..], f);
      assert s == s[..n] + s[n..];
      WithoutAppend(s[..n], s[n..], f);
      WithoutNone(s[..n], f);
    }
  }

  /** strings.Fields. */
  function Fields(s: string): (r: seq<string>)
    ensures forall i :: 0 <= i < |r| ==> |r[i]| > 0
    ensures forall i, j :: 0 <= i < |r| && 0 <= j < |r[i]| ==> !IsSpace(r[i][j])
  {
    FieldsFunc(s, IsSpace)
  }

  /** strings.Repeat(" ", n). */
  function Spaces(n: nat): (r: string)
    ensures |r| == n && forall i :: 0 <= i < n ==> r[i] == ' '
  {
    seq(n, _ => ' ')
  }

  function Repeat(c: char, n: nat): (r: string)
    ensures |r| == n && forall i :: 0 <= i < n ==> r[i] == c
  {
    seq(n, _ => c)
  }

  // ---------------------------------------------------------------------------
  // Decimal integers

  function DigitsValue(s: string): (v: nat)
    requires AllDigits(s)
    decreases |s|
  {
    if |s| == 0 then 0 else 10 * DigitsValue(s[..|s| - 1]) + (s[|s| - 1] as int - '0' as int)
  }

  /** strconv.Atoi: an optional sign then at least one decimal digit; anything else is an error. */
  function Atoi(s: string): (r: Option<int>)
    ensures r.Some? <==> (|s| > 0 && ((s[0] == '+' || s[0] == '-') ==> |s| > 1)
                          && AllDigits(if s[0] == '+' || s[0] == '-' then s[1..] else s))
  {
    if |s| == 0 then None
    else if s[0] == '+' || s[0] == '-' then
      if |s| > 1 && AllDigits(s[1..]) then
        var v: int := DigitsValue(s[1..]);
        Some(if s[0] == '-' then -v else v)
      else None
    else if AllDigits(s) then Some(DigitsValue(s))
    else None
  }

  /** The decimal digits of a natural number, without leading zeros. */
  function NatToDigits(n: nat): (r: string)
    ensures |r| > 0 && AllDigits(r)
    decreases n
  {
    if n < 10 then [(n + '0' as int) as char] else NatToDigits(n / 10) + [(n % 10 + '0' as int) as char]
  }

  lemma {:induction false} NatToDigitsValue(n: nat)
    ensures DigitsValue(NatToDigits(n)) == n
    decreases n
  {
    var s := NatToDigits(n);
    if n >= 10 {
      NatToDigitsValue(n / 10);
      assert s[..|s| - 1] == NatToDigits(n / 10);
    }
  }

  /** strconv.Itoa. */
  function Itoa(n: int): (r: string)
    ensures |r| > 0
  {
    if n < 0 then "-" + NatToDigits(-n) else NatToDigits(n)
  }

  /** strconv.Atoi reads back what strconv.Itoa writes. */
  lemma ItoaAtoi(n: int)
    ensures Atoi(Itoa(n)) == Some(n)
  {
    if n < 0 {
      var d := NatToDigits(-n);
      NatToDigitsValue(-n);
      assert Itoa(n)[0] == '-' && Itoa(n)[1..] == d;
    } else {
      var d := NatToDigits(n);
      NatToDigitsValue(n);
      assert IsDigit(d[0]);
    }
  }
}
