// Roman numerals of org/table.go: the numeral of a row number and the number of a numeral.
module Roman {
  import opened Wrappers
  import opened Strs


  datatype RomanError = IntegerOutOfBounds | InvalidRomanNumeral

  /** The numerals from the largest to the smallest, subtractive pairs included. */
  const Nums: seq<(int, string)> :=
    [(1000, "M")] + Place(100, 'C', 'D', 'M') + Place(10, 'X', 'L', 'C') + Place(1, 'I', 'V', 'X')

  /** The numerals of one decimal place after its largest: 9u, 5u, 4u and u (CM D CD C for hundreds). */
  function Place(u: int, o: char, f: char, t: char): (p: seq<(int, string)>)
    ensures |p| == 4
  {
    [(9 * u, [o, t]), (5 * u, [f]), (4 * u, [o, f]), (u, [o])]
  }

  const R0: seq<string> := ["", "I", "II", "III", "IV", "V", "VI", "VII", "VIII", "IX"]
  const R1: seq<string> := ["", "X", "XX", "XXX", "XL", "L", "LX", "LXX", "LXXX", "XC"]
  const R2: seq<string> := ["", "C", "CC", "CCC", "CD", "D", "DC", "DCC", "DCCC", "CM"]
  const R3: seq<string> := ["", "M", "MM", "MMM"]

  predicate RomanOutOfBounds(n: int) { n < 1 || n > 3999 }

  /** romanIntToRoman: one table entry per decimal digit. */
  function RomanIntToRoman(n: int): string
    requires 0 <= n < 4000
  {
    R3[n % 10000 / 1000] + R2[n % 1000 / 100] + R1[n % 100 / 10] + R0[n % 10]
  }

  /** RomanIntToString: the numeral, or IntegerOutOfBounds outside 1..3999. */
  function RomanIntToString(n: int): (r: (string, Option<RomanError>))
    ensures RomanOutOfBounds(n) <==> r == ("", Some(IntegerOutOfBounds))
    ensures !RomanOutOfBounds(n) ==> r.1 == None
  {
    if RomanOutOfBounds(n) then ("", Some(IntegerOutOfBounds)) else (RomanIntToRoman(n), None)
  }

  /** The number of leading copies of sym in s, and what follows them. */
  function StripRun(s: string, sym: string): (r: (nat, string))
    ensures |r.1| <= |s|
    decreases |s|
  {
    if |sym| > 0 && HasPrefix(s, sym) then var t := StripRun(s[|sym|..], sym); (t.0 + 1, t.1) else (0, s)
  }

  /** The greedy reading of romanToInt over a list of numerals: the value read and the input left over. */
  function Scan(s: string, nums: seq<(int, string)>): (r: (int, string))
    decreases |nums|
  {
    if |nums| == 0 then (0, s)
    else
      var t := StripRun(s, nums[0].1);
      var u := Scan(t.1, nums[1..]);
      (t.0 * nums[0].0 + u.0, u.1)
  }

  /** romanToInt: strips each numeral as often as it leads the input, from the largest down. */
  method RomanToInt(input: string) returns (output: int, ok: bool)
    ensures output == Scan(input, Nums).0 && (ok <==> Scan(input, Nums).1 == "")
  {
    output := 0;
    var rest := input;
    var k := 0;
    assert Nums[0..] == Nums;
    while k < |Nums|
      invariant ScanInv(input, output, rest, k)
    {
      var (val, sym) := Nums[k];
      NumsSymbols(k);
      var added, rest' := StripAll(rest, sym, val);
      ScanInvStep(input, output, rest, k, added, rest');
      output, rest := output + added, rest';
      k := k + 1;
    }
    assert Nums[k..] == [];
    ok := |rest| == 0;
  }

  /** The inner loop of romanToInt: val once for each copy of sym stripped from the front. */
  method StripAll(rest: string, sym: string, val: int) returns (added: int, rest': string)
    requires |sym| > 0
    ensures added == StripRun(rest, sym).0 * val && rest' == StripRun(rest, sym).1
  {
    added, rest' := 0, rest;
    ghost var n := 0;
    while HasPrefix(rest', sym)
      invariant added == n * val && n + StripRun(rest', sym).0 == StripRun(rest, sym).0
      invariant StripRun(rest', sym).1 == StripRun(rest, sym).1
      decreases |rest'|
    {
      added := added + val;
      n := n + 1;
      rest' := rest'[|sym|..];
    }
  }

  /** The outer loop invariant of romanToInt: what is read so far plus the reading of the rest is the whole reading. */
  predicate ScanInv(input: string, output: int, rest: string, k: nat)
  {
    k <= |Nums|
    && output + Scan(rest, Nums[k..]).0 == Scan(input, Nums).0
    && Scan(rest, Nums[k..]).1 == Scan(input, Nums).1
  }

  lemma ScanInvStep(input: string, output: int, rest: string, k: nat, added: int, rest': string)
    requires ScanInv(input, output, rest, k) && k < |Nums|
    requires added == StripRun(rest, Nums[k].1).0 * Nums[k].0 && rest' == StripRun(rest, Nums[k].1).1
    ensures ScanInv(input, output + added, rest', k + 1)
  {
    var tail := Nums[k..];
    assert tail[0] == Nums[k] && tail[1..] == Nums[k + 1..];
  }

  lemma NumsSymbols(k: nat)
    requires k < |Nums|
    ensures |Nums[k].1| > 0
  {
  }

  /**
   * RomanStringToInt as written: 0 for the empty string, InvalidRomanNumeral when characters are
   * left over, and otherwise the value read, however large. The doc comment promises an error
   * outside 1 to 3999; the corrected reader is RomanStringToInt, and the two differ exactly on
   * the numerals the code reads as more than 3999.
   */
  function RomanStringToIntAsWritten(s: string): (r: (int, Option<RomanError>))
    ensures s == "" ==> r == (0, None)
    ensures s != "" && Scan(s, Nums).1 != "" ==> r == (0, Some(InvalidRomanNumeral))
    ensures s != "" && Scan(s, Nums).1 == "" ==> r == (Scan(s, Nums).0, None)
    ensures RomanStringToInt(s) != r <==> r.1 == None && r.0 > 3999
  {
    if |s| == 0 then (0, None)
    else if Scan(s, Nums).1 == "" then (Scan(s, Nums).0, None)
    else (0, Some(InvalidRomanNumeral))
  }

  /**
   * RomanStringToInt: 0 for the empty string, InvalidRomanNumeral when characters are left over,
   * IntegerOutOfBounds for a value above 3999, and otherwise the value read, which is then a
   * number from 1 to 3999.
   */
  function RomanStringToInt(s: string): (r: (int, Option<RomanError>))
    ensures s == "" ==> r == (0, None)
    ensures s != "" && Scan(s, Nums).1 != "" ==> r == (0, Some(InvalidRomanNumeral))
    ensures s != "" && Scan(s, Nums).1 == "" && Scan(s, Nums).0 > 3999 ==> r == (0, Some(IntegerOutOfBounds))
    ensures s != "" && r.1 == None ==> r.0 == Scan(s, Nums).0 && !RomanOutOfBounds(r.0)
  {
    if |s| == 0 then (0, None)
    else if Scan(s, Nums).1 != "" then (0, Some(InvalidRomanNumeral))
    else if Scan(s, Nums).0 > 3999 then (0, Some(IntegerOutOfBounds))
    else
      NumsPositive();
      ScanPositive(s, Nums);
      (Scan(s, Nums).0, None)
  }

  /** Every numeral of the table is non-empty and has a positive value. */
  lemma NumsPositive()
    ensures forall k :: 0 <= k < |Nums| ==> Nums[k].0 > 0 && |Nums[k].1| > 0
  {
  }

  /** Reading positive numerals never gives a negative value, and a positive one once anything is read. */
  lemma {:induction false} ScanPositive(s: string, nums: seq<(int, string)>)
    requires forall k :: 0 <= k < |nums| ==> nums[k].0 > 0 && |nums[k].1| > 0
    ensures Scan(s, nums).0 >= 0
    ensures Scan(s, nums).1 != s ==> Scan(s, nums).0 > 0
    decreases |nums|
  {
    if |nums| > 0 {
      var t := StripRun(s, nums[0].1);
      assert t.0 == 0 ==> t.1 == s;
      ScanPositive(t.1, nums[1..]);
    }
  }

  /** "MMMM" reads as 4000 without an error as written, and as out of bounds once corrected. */
  lemma FourThousandAccepted()
    ensures RomanStringToIntAsWritten("MMMM") == (4000, None)
    ensures RomanStringToInt("MMMM") == (0, Some(IntegerOutOfBounds))
  {
    var s := "MMMM";
    assert StripRun("", "M") == (0, "");
    assert StripRun(s[3..], "M") == (1, "") by { assert s[3..][1..] == ""; }
    assert StripRun(s[2..], "M") == (2, "") by { assert s[2..][1..] == s[3..]; }
    assert StripRun(s[1..], "M") == (3, "") by { assert s[1..][1..] == s[2..]; }
    assert StripRun(s, "M") == (4, "");
    ScanEmpty(Nums[1..]);
    assert Scan(s, Nums) == (4000, "");
  }

  /** ConvertRomanNumeral: the value, or 1 when the numeral is invalid. */
  function ConvertRomanNumeral(v: string): (r: int)
    ensures RomanStringToInt(v).1.None? ==> r == RomanStringToInt(v).0
    ensures RomanStringToInt(v).1.Some? ==> r == 1
  {
    var (n, e) := RomanStringToInt(v);
    if e.None? then n else 1
  }

  predicate Leads(s: string, cs: set<char>) { |s| > 0 && s[0] in cs }

  lemma StripOnce(sym: string, s: string)
    requires |sym| > 0 && !HasPrefix(s, sym)
    ensures StripRun(sym + s, sym) == (1, s)
  {
    assert (sym + s)[..|sym|] == sym;
    assert (sym + s)[|sym|..] == s;
  }

  lemma StripNone(s: string, sym: string)
    requires |sym| > 0 && !HasPrefix(s, sym)
    ensures StripRun(s, sym) == (0, s)
  {
  }

  /** The numeral of decimal digit d written with the symbols for one, five and ten of its place. */
  function DigitString(o: char, f: char, t: char, d: int): string
    requires 0 <= d < 10
  {
    if d < 4 then Repeat(o, d) else if d == 4 then [o, f] else if d < 9 then [f] + Repeat(o, d - 5) else [o, t]
  }

  lemma DigitTables(d: int)
    requires 0 <= d < 10
    ensures R0[d] == DigitString('I', 'V', 'X', d)
    ensures R1[d] == DigitString('X', 'L', 'C', d)
    ensures R2[d] == DigitString('C', 'D', 'M', d)
    ensures d < 4 ==> R3[d] == Repeat('M', d)
  {
  }

  lemma {:induction false} ScanConcat(s: string, a: seq<(int, string)>, b: seq<(int, string)>)
    ensures Scan(s, a + b) == (Scan(s, a).0 + Scan(Scan(s, a).1, b).0, Scan(Scan(s, a).1, b).1)
    decreases |a|
  {
    if |a| == 0 {
      assert a + b == b;
    } else {
      assert (a + b)[1..] == a[1..] + b;
      ScanConcat(StripRun(s, a[0].1).1, a[1..], b);
    }
  }

  /** Scan over the four numerals of a place, one strip after the other. */
  lemma {:induction false} ScanPlace(x: string, u: int, o: char, f: char, t: char)
    ensures var p := Place(u, o, f, t);
            var t1 := StripRun(x, [o, t]);
            var t2 := StripRun(t1.1, [f]);
            var t3 := StripRun(t2.1, [o, f]);
            var t4 := StripRun(t3.1, [o]);
            Scan(x, p) == (t1.0 * (9 * u) + (t2.0 * (5 * u) + (t3.0 * (4 * u) + (t4.0 * u + 0))), t4.1)
  {
    var p := Place(u, o, f, t);
    var t1 := StripRun(x, [o, t]);
    var t2 := StripRun(t1.1, [f]);
    var t3 := StripRun(t2.1, [o, f]);
    var t4 := StripRun(t3.1, [o]);
    assert p[1..][1..][1..][1..] == [];
    assert Scan(t4.1, []) == (0, t4.1);
    assert Scan(t3.1, p[1..][1..][1..]) == (t4.0 * u + 0, t4.1);
    assert Scan(t2.1, p[1..][1..]) == (t3.0 * (4 * u) + (t4.0 * u + 0), t4.1);
  }

  /**
   * Scan reads the numeral of one decimal digit with the numerals of its place, and stops
   * before a rest that starts with none of the place's symbols.
   */
  lemma Digit(o: char, f: char, t: char, u: int, d: int, rest: string)
    requires 0 <= d < 10 && o != f && o != t && f != t
    requires !Leads(rest, {o, f, t})
    ensures Scan(DigitString(o, f, t, d) + rest, Place(u, o, f, t)) == (d * u, rest)
  {
    var x := DigitString(o, f, t, d) + rest;
    ScanPlace(x, u, o, f, t);
    if d < 4 {
      DigitLow(o, f, t, d, rest);
      assert Scan(x, Place(u, o, f, t)) == (0 * (9 * u) + (0 * (5 * u) + (0 * (4 * u) + (d * u + 0))), rest);
    } else if d == 4 {
      DigitFour(o, f, t, rest);
      assert Scan(x, Place(u, o, f, t)) == (0 * (9 * u) + (0 * (5 * u) + (1 * (4 * u) + (0 * u + 0))), rest);
    } else if d < 9 {
      DigitHigh(o, f, t, d, rest);
      assert Scan(x, Place(u, o, f, t)) == (0 * (9 * u) + (1 * (5 * u) + (0 * (4 * u) + ((d - 5) * u + 0))), rest);
    } else {
      DigitNine(o, f, t, rest);
      assert Scan(x, Place(u, o, f, t)) == (1 * (9 * u) + (0 * (5 * u) + (0 * (4 * u) + (0 * u + 0))), rest);
    }
  }

  /** Digit 4: one, five. */
  lemma DigitFour(o: char, f: char, t: char, rest: string)
    requires o != f && o != t && f != t
    requires !Leads(rest, {o, f, t})
    ensures var x := DigitString(o, f, t, 4) + rest;
            StripRun(x, [o, t]) == (0, x) && StripRun(x, [f]) == (0, x) && StripRun(x, [o, f]) == (1, rest)
            && StripRun(rest, [o]) == (0, rest)
  {
    var x := [o, f] + rest;
    assert DigitString(o, f, t, 4) + rest == x && x[0] == o && x[1] == f;
    StripNone(x, [o, t]);
    StripNone(x, [f]);
    StripOnce([o, f], rest);
    StripNone(rest, [o]);
  }

  /** Digit 9: one, ten. */
  lemma DigitNine(o: char, f: char, t: char, rest: string)
    requires o != f && o != t && f != t
    requires !Leads(rest, {o, f, t})
    ensures var x := DigitString(o, f, t, 9) + rest;
            StripRun(x, [o, t]) == (1, rest) && StripRun(rest, [f]) == (0, rest) && StripRun(rest, [o, f]) == (0, rest)
            && StripRun(rest, [o]) == (0, rest)
  {
    var x := [o, t] + rest;
    assert DigitString(o, f, t, 9) + rest == x;
    StripOnce([o, t], rest);
    StripNone(rest, [f]);
    StripNone(rest, [o, f]);
    StripNone(rest, [o]);
  }

  /** Digits 0 to 3: a run of ones. */
  lemma {:induction false} DigitLow(o: char, f: char, t: char, d: int, rest: string)
    requires 0 <= d < 4 && o != f && o != t && f != t
    requires !Leads(rest, {o, f, t})
    ensures var x := DigitString(o, f, t, d) + rest;
            StripRun(x, [o, t]) == (0, x) && StripRun(x, [f]) == (0, x) && StripRun(x, [o, f]) == (0, x)
            && StripRun(x, [o]) == (d, rest)
  {
    var x := Repeat(o, d) + rest;
    RunOf(o, d, rest);
    if d > 0 { assert x[0] == o; }
    StripNone(x, [f]);
    if d > 1 {
      assert x[1] == o;
    } else if d == 1 {
      assert x[1..] == rest;
    } else {
      assert x == rest;
    }
    StripNone(x, [o, t]);
    StripNone(x, [o, f]);
  }

  /** Digits 5 to 8: a five and a run of ones. */
  lemma {:induction false} DigitHigh(o: char, f: char, t: char, d: int, rest: string)
    requires 5 <= d < 9 && o != f && o != t && f != t
    requires !Leads(rest, {o, f, t})
    ensures var x := DigitString(o, f, t, d) + rest;
            var y := Repeat(o, d - 5) + rest;
            StripRun(x, [o, t]) == (0, x) && StripRun(x, [f]) == (1, y) && StripRun(y, [o, f]) == (0, y)
            && StripRun(y, [o]) == (d - 5, rest)
  {
    var y := Repeat(o, d - 5) + rest;
    var x := [f] + y;
    assert DigitString(o, f, t, d) + rest == x;
    assert x[0] == f;
    StripNone(x, [o, t]);
    if d > 5 { assert y[0] == o; }
    StripOnce([f], y);
    if d > 6 {
      assert y[1] == o;
    } else if d == 6 {
      assert y[1..] == rest;
    } else {
      assert y == rest;
    }
    StripNone(y, [o, f]);
    RunOf(o, d - 5, rest);
  }

  /** A run of M's: the thousands place has no subtractive numerals. */
  lemma {:induction false} Thousands(a: int, rest: string)
    requires 0 <= a <= 3 && !Leads(rest, {'M'})
    ensures Scan(Repeat('M', a) + rest, [(1000, "M")]) == (1000 * a, rest)
  {
    RunOf('M', a, rest);
    assert [(1000, "M")][1..] == [];
  }

  /** Reading a run of one numeral that no competing numeral precedes. */
  lemma {:induction false} RunOf(c: char, n: nat, rest: string)
    requires n <= 3 && !Leads(rest, {c})
    ensures StripRun(Repeat(c, n) + rest, [c]) == (n, rest)
    decreases n
  {
    if n == 0 {
      assert Repeat(c, 0) + rest == rest;
    } else {
      assert Repeat(c, n) + rest == [c] + (Repeat(c, n - 1) + rest);
      RunOf(c, n - 1, rest);
      assert ([c] + (Repeat(c, n - 1) + rest))[..1] == [c];
      assert ([c] + (Repeat(c, n - 1) + rest))[1..] == Repeat(c, n - 1) + rest;
    }
  }

  lemma LeadsConcat(a: string, b: string, cs: set<char>)
    ensures Leads(a + b, cs) == if |a| > 0 then a[0] in cs else Leads(b, cs)
  {
    if |a| == 0 { assert a + b == b; }
  }

  lemma {:induction false} ScanEmpty(nums: seq<(int, string)>)
    ensures Scan("", nums) == (0, "")
    decreases |nums|
  {
    if |nums| > 0 {
      ScanEmpty(nums[1..]);
    }
  }

  /** What is left after the thousands starts with none of M, and likewise for the lower places. */
  lemma TableLeads(b: int, c: int, d: int)
    requires 0 <= b < 10 && 0 <= c < 10 && 0 <= d < 10
    ensures !Leads(R0[d], {'X', 'L', 'C'})
    ensures !Leads(R1[c] + R0[d], {'C', 'D', 'M'})
    ensures !Leads(R2[b] + (R1[c] + R0[d]), {'M'})
  {
    LeadsConcat(R1[c], R0[d], {'C', 'D', 'M'});
    LeadsConcat(R2[b], R1[c] + R0[d], {'M'});
    LeadsConcat(R1[c], R0[d], {'M'});
  }

  /** The four table entries of a number read back as its four digits. */
  lemma RomanDigits(a: int, b: int, c: int, d: int)
    requires 0 <= a < 4 && 0 <= b < 10 && 0 <= c < 10 && 0 <= d < 10
    ensures Scan(R3[a] + (R2[b] + (R1[c] + R0[d])), Nums) == (1000 * a + 100 * b + 10 * c + d, "")
  {
    var s1 := R0[d];
    var s2 := R1[c] + s1;
    var s3 := R2[b] + s2;
    ReadPlaces(a, b, c, d);
    ScanPlaces(R3[a] + s3, s3, s2, s1, 1000 * a, 100 * b, 10 * c, d);
  }

  /** Scan over all numerals is the scan of the thousands, then of each lower place in turn. */
  lemma ScanPlaces(s: string, s3: string, s2: string, s1: string, va: int, vb: int, vc: int, vd: int)
    requires Scan(s, [(1000, "M")]) == (va, s3)
    requires Scan(s3, Place(100, 'C', 'D', 'M')) == (vb, s2)
    requires Scan(s2, Place(10, 'X', 'L', 'C')) == (vc, s1)
    requires Scan(s1, Place(1, 'I', 'V', 'X')) == (vd, "")
    ensures Scan(s, Nums) == (va + vb + vc + vd, "")
  {
    var t := [(1000, "M")];
    var p2, p1, p0 := Place(100, 'C', 'D', 'M'), Place(10, 'X', 'L', 'C'), Place(1, 'I', 'V', 'X');
    var q1 := t + p2;
    ScanConcat(s, t, p2);
    assert Scan(s, q1) == (va + vb, s2);
    var q2 := q1 + p1;
    ScanConcat(s, q1, p1);
    assert Scan(s, q2) == (va + vb + vc, s1);
    ScanConcat(s, q2, p0);
    assert q2 + p0 == Nums;
  }

  /** Each place reads its own digit. */
  lemma ReadPlaces(a: int, b: int, c: int, d: int)
    requires 0 <= a < 4 && 0 <= b < 10 && 0 <= c < 10 && 0 <= d < 10
    ensures Scan(R0[d], Place(1, 'I', 'V', 'X')) == (d, "")
    ensures Scan(R1[c] + R0[d], Place(10, 'X', 'L', 'C')) == (10 * c, R0[d])
    ensures Scan(R2[b] + (R1[c] + R0[d]), Place(100, 'C', 'D', 'M')) == (100 * b, R1[c] + R0[d])
    ensures Scan(R3[a] + (R2[b] + (R1[c] + R0[d])), [(1000, "M")]) == (1000 * a, R2[b] + (R1[c] + R0[d]))
  {
    TableLeads(b, c, d);
    ReadOnes(d);
    ReadTens(c, R0[d]);
    ReadHundreds(b, R1[c] + R0[d]);
    DigitTables(a);
    Thousands(a, R2[b] + (R1[c] + R0[d]));
  }

  /** The ones table entry of d reads back as d. */
  lemma ReadOnes(d: int)
    requires 0 <= d < 10
    ensures Scan(R0[d], Place(1, 'I', 'V', 'X')) == (d, "")
  {
    DigitTables(d);
    assert R0[d] + "" == R0[d];
    Digit('I', 'V', 'X', 1, d, "");
  }

  /** The tens table entry of d reads back as d tens, before a rest without X, L or C in front. */
  lemma ReadTens(d: int, rest: string)
    requires 0 <= d < 10 && !Leads(rest, {'X', 'L', 'C'})
    ensures Scan(R1[d] + rest, Place(10, 'X', 'L', 'C')) == (10 * d, rest)
  {
    DigitTables(d);
    Digit('X', 'L', 'C', 10, d, rest);
  }

  /** The hundreds table entry of d reads back as d hundreds, before a rest without C, D or M in front. */
  lemma ReadHundreds(d: int, rest: string)
    requires 0 <= d < 10 && !Leads(rest, {'C', 'D', 'M'})
    ensures Scan(R2[d] + rest, Place(100, 'C', 'D', 'M')) == (100 * d, rest)
  {
    DigitTables(d);
    Digit('C', 'D', 'M', 100, d, rest);
  }

  /** The four digits romanIntToRoman looks up. */
  lemma PlaceDigits(n: int) returns (a: int, b: int, c: int, d: int)
    requires 0 <= n < 4000
    ensures a == n % 10000 / 1000 && b == n % 1000 / 100 && c == n % 100 / 10 && d == n % 10
    ensures 0 <= a < 4 && 0 <= b < 10 && 0 <= c < 10 && 0 <= d < 10
    ensures n == 1000 * a + 100 * b + 10 * c + d
  {
    a, b, c, d := n % 10000 / 1000, n % 1000 / 100, n % 100 / 10, n % 10;
    assert n % 10000 == n;
    var m := n % 1000;
    assert n == 1000 * a + m;
    var k := n % 100;
    assert m == 100 * b + k by {
      assert m % 100 == k;
    }
    assert k == 10 * c + d by {
      assert k % 10 == d;
    }
  }

  /** Every number from 1 to 3999 is written as a numeral that reads back as itself. */
  lemma RomanRoundTrip(n: int)
    requires 1 <= n <= 3999
    ensures RomanIntToString(n).1 == None
    ensures RomanStringToInt(RomanIntToString(n).0) == (n, None)
  {
    var a, b, c, d := PlaceDigits(n);
    RomanDigits(a, b, c, d);
    var s := RomanIntToRoman(n);
    assert s == R3[a] + (R2[b] + (R1[c] + R0[d]));
    if s == "" {
      ScanEmpty(Nums);
    }
  }
}
