/** The string routines the parsers use: splitting, cutting, trimming, decimal
    numbers. */
module Text {
  import opened Basics

  predicate IsSpace(c: char) {
    c in {' ', '\t', '\n', '\r'} || c == 11 as char || c == 12 as char
  }

  predicate IsDigit(c: char) {
    '0' <= c <= '9'
  }

  predicate IsLetter(c: char) {
    'a' <= c <= 'z' || 'A' <= c <= 'Z'
  }

  // --- Splitting and cutting --------------------------------------------------

  function Split(s: string, c: char): (r: seq<string>)
    ensures |r| >= 1
  {
    if s == "" then [""]
    else
      var r := Split(s[1..], c);
      if s[0] == c then [""] + r else [[s[0]] + r[0]] + r[1..]
  }

  function Join(parts: seq<string>, c: char): string {
    if parts == [] then ""
    else if |parts| == 1 then parts[0]
    else parts[0] + [c] + Join(parts[1..], c)
  }

  lemma {:induction false} SplitWhole(s: string, c: char)
    requires c !in s
    ensures Split(s, c) == [s]
  {
    if s != "" {
      SplitWhole(s[1..], c);
      assert [s[0]] + s[1..] == s;
    }
  }

  lemma {:induction false} SplitFirst(a: string, c: char, b: string)
    requires c !in a
    ensures Split(a + [c] + b, c) == [a] + Split(b, c)
  {
    var s := a + [c] + b;
    if a == "" {
      assert s[1..] == b;
    } else {
      assert s[1..] == a[1..] + [c] + b;
      SplitFirst(a[1..], c, b);
      assert [a[0]] + a[1..] == a;
    }
  }

  /** Splitting undoes joining. */
  lemma {:induction false} SplitJoin(parts: seq<string>, c: char)
    requires parts != [] && forall p | p in parts :: c !in p
    ensures Split(Join(parts, c), c) == parts
  {
    if |parts| == 1 {
      SplitWhole(parts[0], c);
    } else {
      SplitFirst(parts[0], c, Join(parts[1..], c));
      SplitJoin(parts[1..], c);
      assert parts == [parts[0]] + parts[1..];
    }
  }

  function Index(s: string, c: char): (i: int)
    ensures -1 <= i < |s|
    ensures i >= 0 ==> s[i] == c && c !in s[..i]
    ensures i < 0 ==> c !in s
  {
    if s == "" then -1
    else if s[0] == c then 0
    else
      var i := Index(s[1..], c);
      if i < 0 then -1 else i + 1
  }

  lemma IndexAt(a: string, c: char, b: string)
    requires c !in a
    ensures Index(a + [c] + b, c) == |a|
  {
    var s := a + [c] + b;
    assert s[|a|] == c;
  }

  datatype Halves = Whole | Parts(before: string, after: string)

  function Cut(s: string, c: char): Halves {
    var i := Index(s, c);
    if i < 0 then Whole else Parts(s[..i], s[i + 1..])
  }

  lemma CutAt(a: string, c: char, b: string)
    requires c !in a
    ensures Cut(a + [c] + b, c) == Parts(a, b)
  {
    var s := a + [c] + b;
    IndexAt(a, c, b);
    assert s[..|a|] == a && s[|a| + 1..] == b;
  }

  /** A text is cut at the first place of the character, and only if it has one. */
  lemma CutExactly(s: string, c: char, a: string, b: string)
    ensures Cut(s, c) == Parts(a, b) <==> c !in a && s == a + [c] + b
    ensures Cut(s, c) == Whole <==> c !in s
  {
    if c !in a && s == a + [c] + b {
      CutAt(a, c, b);
    }
    CutWhere(s, c);
  }

  lemma CutWhere(s: string, c: char)
    ensures if c !in s then Cut(s, c) == Whole
            else Cut(s, c).Parts? && c !in Cut(s, c).before && s == Cut(s, c).before + [c] + Cut(s, c).after
  {
    var i := Index(s, c);
    if i >= 0 {
      assert s == s[..i] + [s[i]] + s[i + 1..];
    }
  }

  // --- Trimming ---------------------------------------------------------------

  function TrimLeft(s: string): string {
    if s != "" && IsSpace(s[0]) then TrimLeft(s[1..]) else s
  }

  function TrimRight(s: string): string {
    if s != "" && IsSpace(s[|s| - 1]) then TrimRight(s[..|s| - 1]) else s
  }

  function Trim(s: string): string {
    TrimRight(TrimLeft(s))
  }

  /** A text that neither starts nor ends with white space. */
  ghost predicate Tight(s: string) {
    s != "" && !IsSpace(s[0]) && !IsSpace(s[|s| - 1])
  }

  lemma TrimTight(s: string)
    requires s == "" || Tight(s)
    ensures Trim(s) == s
  {
  }

  lemma {:induction false} TrimPadded(l: nat, s: string, r: nat)
    requires s == "" || Tight(s)
    ensures Trim(Spaces(l) + s + Spaces(r)) == s
  {
    if l > 0 {
      assert (Spaces(l) + s + Spaces(r))[1..] == Spaces(l - 1) + s + Spaces(r);
      TrimPadded(l - 1, s, r);
    } else if r > 0 {
      var t := Spaces(0) + s + Spaces(r);
      assert t == s + Spaces(r);
      if s == "" {
        assert t[1..] == Spaces(0) + s + Spaces(r - 1);
      } else {
        assert t[0] == s[0];
        assert t[..|t| - 1] == Spaces(0) + s + Spaces(r - 1);
        assert (Spaces(0) + s + Spaces(r - 1))[0] == s[0];
      }
      TrimPadded(0, s, r - 1);
    } else {
      assert Spaces(0) + s + Spaces(0) == s;
    }
  }

  ghost predicate White(s: string) {
    forall i :: 0 <= i < |s| ==> s[i] in {' ', '\t', '\n', '\r', 11 as char, 12 as char}
  }

  /** A text with no white space at either end. */
  ghost predicate Bare(s: string) {
    s == "" || (!White([s[0]]) && !White([s[|s| - 1]]))
  }

  lemma BareIsTight(s: string)
    ensures Bare(s) <==> s == "" || Tight(s)
  {
    if s != "" {
      WhiteIsSpace(s[0]);
      WhiteIsSpace(s[|s| - 1]);
    }
  }

  lemma WhiteIsSpace(c: char)
    ensures White([c]) <==> IsSpace(c)
  {
    assert [c][0] == c;
  }

  /** Trimming takes away all white space around a text, and nothing else. */
  lemma {:induction false} TrimAround(a: string, s: string, b: string)
    requires White(a) && White(b) && Bare(s)
    ensures Trim(a + s + b) == s
    decreases |a| + |b|
  {
    var t := a + s + b;
    if a != "" {
      assert t[1..] == a[1..] + s + b;
      TrimAround(a[1..], s, b);
    } else if s == "" {
      assert t == b;
      if b != "" {
        TrimAround(b[1..], "", "");
        assert b[1..] + "" + "" == b[1..];
      }
    } else {
      assert t == s + b && [s[0]][0] == s[0];
      TrimEnd(s, b);
    }
  }

  lemma {:induction false} TrimTakesNone(s: string, c: char)
    ensures c in Trim(s) ==> c in s
  {
    if s != "" && IsSpace(s[0]) {
      TrimTakesNone(s[1..], c);
    } else if s != "" && IsSpace(s[|s| - 1]) {
      assert s[..|s| - 1] != "" ==> s[..|s| - 1][0] == s[0];
      TrimTakesNone(s[..|s| - 1], c);
    }
  }

  lemma {:induction false} TrimEnd(s: string, b: string)
    requires White(b) && s != "" && !White([s[|s| - 1]])
    ensures TrimRight(s + b) == s
  {
    if b == "" {
      assert s + b == s;
    } else {
      assert (s + b)[..|s + b| - 1] == s + b[..|b| - 1];
      TrimEnd(s, b[..|b| - 1]);
    }
  }

  function Spaces(n: nat): (s: string)
    ensures |s| == n && forall i :: 0 <= i < n ==> s[i] == ' '
  {
    seq(n, i => ' ')
  }

  // --- Decimal numbers --------------------------------------------------------

  const MAX_INT := 0x7fff_ffff_ffff_ffff

  function Digit(d: nat): (c: char)
    requires d < 10
    ensures IsDigit(c)
  {
    ('0' as int + d) as char
  }

  function Itoa(n: nat): (s: string)
    ensures s != "" && forall i :: 0 <= i < |s| ==> IsDigit(s[i])
  {
    if n < 10 then [Digit(n)] else Itoa(n / 10) + [Digit(n % 10)]
  }

  function DigitValue(c: char): nat
    requires IsDigit(c)
  {
    c as int - '0' as int
  }

  function Value(s: string): nat
    requires forall i :: 0 <= i < |s| ==> IsDigit(s[i])
  {
    if s == "" then 0 else 10 * Value(s[..|s| - 1]) + DigitValue(s[|s| - 1])
  }

  lemma {:induction false} ValueOfItoa(n: nat)
    ensures Value(Itoa(n)) == n
  {
    if n < 10 {
      assert Itoa(n)[..0] == "";
    } else {
      ValueOfItoa(n / 10);
      assert Itoa(n)[..|Itoa(n)| - 1] == Itoa(n / 10);
    }
  }

  predicate AllDigits(s: string) {
    forall i :: 0 <= i < |s| ==> IsDigit(s[i])
  }

  /** A decimal integer with an optional sign, within 64 bits. */
  function Atoi(s: string): Option<int> {
    var negative := s != "" && s[0] == '-';
    var body := if s != "" && s[0] in {'-', '+'} then s[1..] else s;
    if body == "" || !AllDigits(body) then None
    else
      var v: int := if negative then -(Value(body) as int) else Value(body);
      if -MAX_INT - 1 <= v <= MAX_INT then Some(v) else None
  }

  /** The text is the number in decimal, leading zeros allowed. */
  ghost predicate Numeral(s: string, n: nat) {
    && s != ""
    && s[|s| - 1] == "0123456789"[n % 10]
    && if |s| == 1 then n < 10 else Numeral(s[..|s| - 1], n / 10)
  }

  /** The same with an optional sign, within 64 bits. */
  ghost predicate Integer(s: string, x: int) {
    && s != "" && -0x8000_0000_0000_0000 <= x <= 0x7fff_ffff_ffff_ffff
    && if s[0] == '-' then x <= 0 && Numeral(s[1..], -x)
       else x >= 0 && Numeral(if s[0] == '+' then s[1..] else s, x)
  }

  lemma {:induction false} NumeralExactly(s: string, n: nat)
    requires s != ""
    ensures Numeral(s, n) <==> AllDigits(s) && Value(s) == n
  {
    var init := s[..|s| - 1];
    assert AllDigits(s) <==> AllDigits(init) && IsDigit(s[|s| - 1]);
    DigitExactly(s[|s| - 1], n % 10);
    if |s| > 1 {
      NumeralExactly(init, n / 10);
    }
  }

  lemma DigitExactly(c: char, d: nat)
    requires d < 10
    ensures c == "0123456789"[d] <==> IsDigit(c) && DigitValue(c) == d
  {
    assert forall k :: 0 <= k < 10 ==> "0123456789"[k] == ('0' as int + k) as char;
  }

  /** The parser accepts exactly the texts of integers, and returns the integer. */
  lemma AtoiExactly(s: string, x: int)
    ensures Atoi(s) == Some(x) <==> Integer(s, x)
  {
    var body := if s != "" && s[0] in {'-', '+'} then s[1..] else s;
    if body != "" {
      NumeralExactly(body, if x < 0 then -x else x);
    }
  }

  lemma AtoiMeans(s: string)
    ensures forall x :: Integer(s, x) <==> Atoi(s) == Some(x)
  {
    forall x
      ensures Integer(s, x) <==> Atoi(s) == Some(x)
    {
      AtoiExactly(s, x);
    }
  }

  /** Reading undoes printing, for every number that fits. */
  lemma AtoiOfItoa(n: nat)
    requires n <= MAX_INT
    ensures Atoi(Itoa(n)) == Some(n)
  {
    ValueOfItoa(n);
  }

  lemma ItoaInjective(m: nat, n: nat)
    requires Itoa(m) == Itoa(n)
    ensures m == n
  {
    ValueOfItoa(m);
    ValueOfItoa(n);
  }
}
