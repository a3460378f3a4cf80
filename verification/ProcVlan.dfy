/** The /proc/vlan parser of the MS510TXUP exporter, and the file format it reads. */
module ProcVlan {
  import opened Basics
  import opened Text

  const UNTAGGED := 1
  const TAGGED := 2

  // --- Port lists -------------------------------------------------------------

  function SkipToDigit(s: string): string {
    if s != "" && !IsDigit(s[0]) then SkipToDigit(s[1..]) else s
  }

  function Label(n: int): string {
    if n < 0 then "-" + Itoa(-n) else Itoa(n)
  }

  function Range(a: int, b: int): (r: seq<string>)
    decreases b - a
  {
    if a > b then [] else [Label(a)] + Range(a + 1, b)
  }

  /** One token of a list: a number, or an inclusive range. */
  function ExpandToken(raw: string): seq<string> {
    var tok := Trim(raw);
    if tok == "" then []
    else
      var nums := SkipToDigit(tok);
      match Cut(nums, '-')
      case Parts(lo, hi) =>
        var a, b := Atoi(Trim(lo)), Atoi(Trim(hi));
        if a == None || b == None || a.value > b.value then [] else Range(a.value, b.value)
      case Whole => if Atoi(nums) == None then [] else [nums]
  }

  function ExpandTokens(toks: seq<string>): seq<string> {
    if toks == [] then [] else ExpandToken(toks[0]) + ExpandTokens(toks[1..])
  }

  function Expand(s: string): seq<string> {
    ExpandTokens(Split(s, ','))
  }

  lemma OneToken(tok: string, rest: seq<string>)
    ensures ExpandTokens([tok] + rest) == ExpandToken(tok) + ExpandTokens(rest)
    ensures ExpandTokens([tok]) == ExpandToken(tok)
  {
    assert ([tok] + rest)[1..] == rest;
  }

  lemma TokenFrom(toks: seq<string>, k: nat, out: seq<string>, ports: seq<string>)
    requires k < |toks| && ports == ExpandToken(toks[k])
    ensures out + ExpandTokens(toks[k..]) == (out + ports) + ExpandTokens(toks[k + 1..])
  {
    assert toks[k..] == [toks[k]] + toks[k + 1..];
    OneToken(toks[k], toks[k + 1..]);
  }

  method ExpandPortList(s: string) returns (out: seq<string>)
    ensures out == Expand(s)
  {
    out := [];
    var toks := Split(s, ',');
    for k := 0 to |toks|
      invariant out + ExpandTokens(toks[k..]) == Expand(s)
    {
      var ports := ExpandOne(toks[k]);
      TokenFrom(toks, k, out, ports);
      out := out + ports;
    }
  }

  method ExpandOne(raw: string) returns (out: seq<string>)
    ensures out == ExpandToken(raw)
  {
    var tok := Trim(raw);
    if tok == "" {
      return [];
    }
    var i := 0;
    while i < |tok| && !IsDigit(tok[i])
      invariant 0 <= i <= |tok| && SkipToDigit(tok) == SkipToDigit(tok[i..])
    {
      assert tok[i..][1..] == tok[i + 1..];
      i := i + 1;
    }
    var nums := tok[i..];
    var halves := Cut(nums, '-');
    if halves.Whole? {
      return if Atoi(nums) == None then [] else [nums];
    }
    var a, b := Atoi(Trim(halves.before)), Atoi(Trim(halves.after));
    if a == None || b == None || a.value > b.value {
      return [];
    }
    out := CountUp(a.value, b.value);
  }

  method CountUp(a: int, b: int) returns (out: seq<string>)
    requires a <= b
    ensures out == Range(a, b)
  {
    var n := a;
    out := [];
    while n <= b
      invariant a <= n <= b + 1
      invariant out + Range(n, b) == Range(a, b)
    {
      out, n := out + [Label(n)], n + 1;
    }
  }

  // --- Any token --------------------------------------------------------------

  predicate NoDigit(s: string) {
    forall i :: 0 <= i < |s| ==> !('0' <= s[i] <= '9')
  }

  lemma {:induction false} SkipName(name: string, nums: string)
    requires NoDigit(name) && (nums == "" || '0' <= nums[0] <= '9')
    ensures SkipToDigit(name + nums) == nums
  {
    if name == "" {
      assert name + nums == nums;
    } else {
      assert (name + nums)[1..] == name[1..] + nums;
      SkipName(name[1..], nums);
    }
  }

  /** A token without a digit is no port. */
  lemma TokenJunk(raw: string)
    requires NoDigit(raw)
    ensures ExpandToken(raw) == []
  {
    var tok := Trim(raw);
    forall i | 0 <= i < |tok|
      ensures !('0' <= tok[i] <= '9')
    {
      TrimTakesNone(raw, tok[i]);
    }
    SkipName(tok, "");
    assert tok + "" == tok;
    CutExactly("", '-', "", "");
  }

  /** What is left of a token after its padding and the name in front. */
  ghost predicate Token(raw: string, nums: string) {
    exists l, name, r :: White(l) && White(r) && NoDigit(name) && Bare(name + nums) && raw == l + (name + nums) + r
  }

  lemma TokenNums(raw: string, nums: string)
    requires Token(raw, nums) && nums != "" && '0' <= nums[0] <= '9'
    ensures Trim(raw) != "" && SkipToDigit(Trim(raw)) == nums
  {
    var l, name, r :| White(l) && White(r) && NoDigit(name) && Bare(name + nums) && raw == l + (name + nums) + r;
    TrimAround(l, name + nums, r);
    SkipName(name, nums);
  }

  /** A token without a dash is the port with that text if it is a number. */
  lemma TokenNumber(raw: string, nums: string)
    requires Token(raw, nums) && nums != "" && '0' <= nums[0] <= '9' && '-' !in nums
    ensures (exists x :: Integer(nums, x)) ==> ExpandToken(raw) == [nums]
    ensures (forall x :: !Integer(nums, x)) ==> ExpandToken(raw) == []
  {
    TokenNums(raw, nums);
    CutExactly(nums, '-', "", "");
    AtoiMeans(nums);
    if Atoi(nums).Some? {
      assert Integer(nums, Atoi(nums).value);
    }
  }

  /** A token with a dash is every port from the first number to the second, none if
      they are out of order. */
  lemma TokenRange(raw: string, lo: string, hi: string, a: int, b: int)
    requires Token(raw, lo + ['-'] + hi) && lo != "" && '0' <= lo[0] <= '9' && '-' !in lo
    requires Integer(Trim(lo), a) && Integer(Trim(hi), b)
    ensures |ExpandToken(raw)| == if a <= b then b - a + 1 else 0
    ensures forall k :: 0 <= k < |ExpandToken(raw)| ==> ExpandToken(raw)[k] == Label(a + k)
  {
    RangeText(raw, lo, hi);
    AtoiExactly(Trim(lo), a);
    AtoiExactly(Trim(hi), b);
    RangeIs(a, b);
  }

  /** If one of them is not a number, the token is no port. */
  lemma TokenBadRange(raw: string, lo: string, hi: string)
    requires Token(raw, lo + ['-'] + hi) && lo != "" && '0' <= lo[0] <= '9' && '-' !in lo
    requires (forall a :: !Integer(Trim(lo), a)) || (forall b :: !Integer(Trim(hi), b))
    ensures ExpandToken(raw) == []
  {
    RangeText(raw, lo, hi);
    AtoiMeans(Trim(lo));
    AtoiMeans(Trim(hi));
  }

  lemma RangeText(raw: string, lo: string, hi: string)
    requires Token(raw, lo + ['-'] + hi) && lo != "" && '0' <= lo[0] <= '9' && '-' !in lo
    ensures var x, y := Atoi(Trim(lo)), Atoi(Trim(hi));
            ExpandToken(raw) == if x.Some? && y.Some? then Range(x.value, y.value) else []
  {
    TokenNums(raw, lo + ['-'] + hi);
    CutAt(lo, '-', hi);
    CutRange(raw, lo, hi);
  }

  lemma CutRange(raw: string, lo: string, hi: string)
    requires Trim(raw) != "" && Cut(SkipToDigit(Trim(raw)), '-') == Parts(lo, hi)
    ensures var x, y := Atoi(Trim(lo)), Atoi(Trim(hi));
            ExpandToken(raw) == if x.Some? && y.Some? then Range(x.value, y.value) else []
  {
  }

  lemma {:induction false} RangeIs(a: int, b: int)
    ensures |Range(a, b)| == if a <= b then b - a + 1 else 0
    ensures forall k :: 0 <= k < |Range(a, b)| ==> Range(a, b)[k] == Label(a + k)
    decreases b - a
  {
    if a <= b {
      RangeIs(a + 1, b);
    }
  }

  /** A run of consecutive ports under one name prefix. */
  datatype Run = Run(prefix: string, lo: nat, hi: nat) {
    ghost predicate Valid() {
      lo <= hi <= MAX_INT && forall i :: 0 <= i < |prefix| ==> IsLetter(prefix[i])
    }

    function Text(): string {
      prefix + Itoa(lo) + (if lo < hi then "-" + Itoa(hi) else "")
    }
  }

  function RunsText(rs: seq<Run>): string {
    if rs == [] then ""
    else if |rs| == 1 then rs[0].Text()
    else rs[0].Text() + "," + RunsText(rs[1..])
  }

  function Labels(ports: seq<nat>): seq<string> {
    if ports == [] then [] else [Itoa(ports[0])] + Labels(ports[1..])
  }

  function RunsLabels(rs: seq<Run>): seq<string> {
    if rs == [] then [] else Range(rs[0].lo, rs[0].hi) + RunsLabels(rs[1..])
  }

  /** Range compression: neighbours under the same prefix join one run. */
  function Compress(ports: seq<nat>, prefix: nat -> string): seq<Run> {
    if ports == [] then []
    else
      var p, rest := ports[0], Compress(ports[1..], prefix);
      if rest != [] && rest[0].lo == p + 1 && rest[0].prefix == prefix(p)
      then [Run(prefix(p), p, rest[0].hi)] + rest[1..]
      else [Run(prefix(p), p, p)] + rest
  }

  ghost predicate AllValid(rs: seq<Run>) {
    forall i :: 0 <= i < |rs| ==> rs[i].Valid()
  }

  ghost predicate Names(prefix: nat -> string) {
    forall p :: forall i :: 0 <= i < |prefix(p)| ==> IsLetter(prefix(p)[i])
  }

  ghost predicate Fits(ports: seq<nat>) {
    forall i :: 0 <= i < |ports| ==> ports[i] <= MAX_INT
  }

  lemma {:induction false} CompressKeeps(ports: seq<nat>, prefix: nat -> string)
    requires Names(prefix) && Fits(ports)
    ensures RunsLabels(Compress(ports, prefix)) == Labels(ports)
    ensures AllValid(Compress(ports, prefix))
    ensures ports != [] ==> Compress(ports, prefix) != []
  {
    if ports != [] {
      CompressKeeps(ports[1..], prefix);
      var p, rest := ports[0], Compress(ports[1..], prefix);
      if rest != [] && rest[0].lo == p + 1 && rest[0].prefix == prefix(p) {
        AddJoined(p, prefix(p), rest);
      } else {
        AddAlone(p, prefix(p), rest);
      }
    }
  }

  /** One more port in front, in a run of its own. */
  lemma AddAlone(p: nat, prefix: string, rest: seq<Run>)
    requires Run(prefix, p, p).Valid() && AllValid(rest)
    ensures AllValid([Run(prefix, p, p)] + rest)
    ensures RunsLabels([Run(prefix, p, p)] + rest) == [Itoa(p)] + RunsLabels(rest)
  {
    RunInFront(Run(prefix, p, p), rest);
    RangeFrom(p, p);
    assert Range(p + 1, p) == [];
  }

  /** One more port in front, at the head of the first run. */
  lemma AddJoined(p: nat, prefix: string, rest: seq<Run>)
    requires rest != [] && rest[0].lo == p + 1 && AllValid(rest) && Run(prefix, p, p).Valid()
    ensures AllValid([Run(prefix, p, rest[0].hi)] + rest[1..])
    ensures RunsLabels([Run(prefix, p, rest[0].hi)] + rest[1..]) == [Itoa(p)] + RunsLabels(rest)
  {
    assert rest[0].Valid();
    RunInFront(Run(prefix, p, rest[0].hi), rest[1..]);
    Longer(p, rest[0].hi, RunsLabels(rest[1..]));
  }

  lemma Longer(p: nat, hi: nat, more: seq<string>)
    requires p <= hi
    ensures Range(p, hi) + more == [Itoa(p)] + (Range(p + 1, hi) + more)
  {
    RangeFrom(p, hi);
  }

  lemma RangeFrom(p: nat, hi: nat)
    requires p <= hi
    ensures Range(p, hi) == [Itoa(p)] + Range(p + 1, hi)
  {
  }

  lemma RunInFront(r: Run, rest: seq<Run>)
    ensures RunsLabels([r] + rest) == Range(r.lo, r.hi) + RunsLabels(rest)
    ensures r.Valid() && AllValid(rest) ==> AllValid([r] + rest)
  {
    assert ([r] + rest)[1..] == rest;
  }

  lemma {:induction false} SkipLetters(prefix: string, rest: string)
    requires forall i :: 0 <= i < |prefix| ==> IsLetter(prefix[i])
    requires rest != "" && IsDigit(rest[0])
    ensures SkipToDigit(prefix + rest) == rest
  {
    if prefix == "" {
      assert prefix + rest == rest;
    } else {
      assert (prefix + rest)[1..] == prefix[1..] + rest;
      SkipLetters(prefix[1..], rest);
    }
  }

  lemma RunTight(r: Run)
    requires r.Valid()
    ensures Tight(r.Text())
    ensures forall i :: 0 <= i < |r.Text()| ==> IsLetter(r.Text()[i]) || IsDigit(r.Text()[i]) || r.Text()[i] == '-'
  {
  }

  /** Any padding of a run's text expands to the run. */
  lemma TokenOfRun(r: Run, l: nat, k: nat)
    requires r.Valid()
    ensures ExpandToken(Spaces(l) + r.Text() + Spaces(k)) == Range(r.lo, r.hi)
  {
    RunTight(r);
    TrimPadded(l, r.Text(), k);
    NumbersOfRun(r);
    if r.lo < r.hi {
      TwoNumbers(Spaces(l) + r.Text() + Spaces(k), r.lo, r.hi);
    } else {
      OneNumber(Spaces(l) + r.Text() + Spaces(k), r.lo);
    }
  }

  lemma TwoNumbers(raw: string, lo: nat, hi: nat)
    requires lo < hi <= MAX_INT && Trim(raw) != ""
    requires Cut(SkipToDigit(Trim(raw)), '-') == Parts(Itoa(lo), Itoa(hi))
    ensures ExpandToken(raw) == Range(lo, hi)
  {
    CutRange(raw, Itoa(lo), Itoa(hi));
    Numbered(lo);
    Numbered(hi);
  }

  lemma Numbered(n: nat)
    requires n <= MAX_INT
    ensures Atoi(Trim(Itoa(n))) == Some(n)
  {
    AtoiOfItoa(n);
    TrimTight(Itoa(n));
  }

  lemma OneNumber(raw: string, n: nat)
    requires n <= MAX_INT && Trim(raw) != ""
    requires SkipToDigit(Trim(raw)) == Itoa(n) && Cut(Itoa(n), '-') == Whole
    ensures ExpandToken(raw) == Range(n, n)
  {
    AtoiOfItoa(n);
    RangeFrom(n, n);
    assert Range(n + 1, n) == [];
  }

  lemma NumbersOfRun(r: Run)
    requires r.Valid()
    ensures Cut(SkipToDigit(r.Text()), '-') == if r.lo < r.hi then Parts(Itoa(r.lo), Itoa(r.hi)) else Whole
    ensures r.lo == r.hi ==> SkipToDigit(r.Text()) == Itoa(r.lo)
  {
    var nums := Itoa(r.lo) + (if r.lo < r.hi then "-" + Itoa(r.hi) else "");
    assert r.Text() == r.prefix + nums;
    SkipLetters(r.prefix, nums);
    if r.lo < r.hi {
      assert nums == Itoa(r.lo) + ['-'] + Itoa(r.hi);
      CutAt(Itoa(r.lo), '-', Itoa(r.hi));
    } else {
      assert nums == Itoa(r.lo);
    }
  }

  lemma {:induction false} RunsChars(rs: seq<Run>)
    requires AllValid(rs)
    ensures forall i :: 0 <= i < |RunsText(rs)| ==>
              var c := RunsText(rs)[i]; IsLetter(c) || IsDigit(c) || c == '-' || c == ','
    ensures rs != [] ==> Tight(RunsText(rs))
  {
    if rs != [] {
      RunTight(rs[0]);
      RunsChars(rs[1..]);
    }
  }

  /** A padded list of runs expands to the ports of the runs, in order. */
  lemma {:induction false} ListOfRuns(rs: seq<Run>, l: nat, k: nat)
    requires rs != [] && AllValid(rs)
    ensures Expand(Spaces(l) + RunsText(rs) + Spaces(k)) == RunsLabels(rs)
  {
    var first := rs[0].Text();
    RunTight(rs[0]);
    if |rs| == 1 {
      TokenOfRun(rs[0], l, k);
      SplitWhole(Spaces(l) + first + Spaces(k), ',');
      OneToken(Spaces(l) + first + Spaces(k), []);
    } else {
      var a, b := Spaces(l) + first, Spaces(0) + RunsText(rs[1..]) + Spaces(k);
      assert Spaces(l) + RunsText(rs) + Spaces(k) == a + [','] + b;
      SplitFirst(a, ',', b);
      assert a == Spaces(l) + first + Spaces(0);
      TokenOfRun(rs[0], l, 0);
      ListOfRuns(rs[1..], 0, k);
      OneToken(a, Split(b, ','));
    }
  }

  /** Expanding undoes range compression, for every list of ports and whatever name
      prefix each port has. */
  lemma ExpandCompress(ports: seq<nat>, prefix: nat -> string, l: nat, k: nat)
    requires Names(prefix) && Fits(ports)
    ensures Expand(Spaces(l) + RunsText(Compress(ports, prefix)) + Spaces(k)) == Labels(ports)
  {
    CompressKeeps(ports, prefix);
    if ports == [] {
      var s := Spaces(l) + "" + Spaces(k);
      SplitWhole(s, ',');
      TrimPadded(l, "", k);
      OneToken(s, []);
    } else {
      ListOfRuns(Compress(ports, prefix), l, k);
    }
  }
}
