/** Password generation: one character of each class, a random fill, and a
    Fisher-Yates shuffle. The random source is a sequence of choices. */
module Password {
  const LOWERS := "abcdefghijklmnopqrstuvwxyz"
  const UPPERS := "ABCDEFGHIJKLMNOPQRSTUVWXYZ"
  const DIGITS := "0123456789"
  const SYMBOLS := "@#$%"
  const POOL := LOWERS + UPPERS + DIGITS + SYMBOLS

  function Swap<T>(s: seq<T>, i: nat, j: nat): (r: seq<T>)
    requires i < |s| && j < |s|
    ensures |r| == |s|
  {
    s[i := s[j]][j := s[i]]
  }

  /** A choice for each position from 1 up, of a position not after it; position 0
      has no choice. */
  ghost predicate IsChoice(js: seq<nat>, n: nat) {
    |js| == n && forall i :: 0 <= i < n ==> js[i] <= i
  }

  /** The shuffle of s that the choices js make, from the last position down. */
  function Shuffled<T>(s: seq<T>, js: seq<nat>): (r: seq<T>)
    requires IsChoice(js, |s|)
    ensures |r| == |s|
    decreases |s|
  {
    if |s| == 0 then []
    else
      var n := |s| - 1;
      var t := Swap(s, n, js[n]);
      Shuffled(t[..n], js[..n]) + [t[n]]
  }

  lemma SwapKeeps<T>(s: seq<T>, i: nat, j: nat)
    requires i < |s| && j < |s|
    ensures multiset(Swap(s, i, j)) == multiset(s)
  {
    var r := s[i := s[j]];
    assert multiset(r) == multiset(s)[s[i] := multiset(s)[s[i]] - 1] + multiset{s[j]};
    assert multiset(Swap(s, i, j)) == multiset(r)[r[j] := multiset(r)[r[j]] - 1] + multiset{s[i]};
  }

  lemma OneOff<T>(s: seq<T>, n: nat)
    requires |s| == n + 1
    ensures multiset(s) == multiset(s[..n]) + multiset{s[n]}
  {
    assert s == s[..n] + [s[n]];
  }

  /** The last position is settled by the last choice alone. */
  lemma Unfold<T>(s: seq<T>, js: seq<nat>)
    requires |s| > 0 && IsChoice(js, |s|)
    ensures var n := |s| - 1;
            && Shuffled(s, js)[n] == s[js[n]]
            && Shuffled(s, js)[..n] == Shuffled(Swap(s, n, js[n])[..n], js[..n])
  {
    var n := |s| - 1;
    var head := Shuffled(Swap(s, n, js[n])[..n], js[..n]);
    assert (head + [Swap(s, n, js[n])[n]])[..n] == head;
  }

  /** Nothing is lost, repeated or made up. */
  lemma {:induction false} Permutes<T>(s: seq<T>, js: seq<nat>)
    requires IsChoice(js, |s|)
    ensures multiset(Shuffled(s, js)) == multiset(s)
    decreases |s|
  {
    if |s| > 0 {
      var n := |s| - 1;
      var t := Swap(s, n, js[n]);
      SwapKeeps(s, n, js[n]);
      Permutes(t[..n], js[..n]);
      OneOff(t, n);
      Unfold(s, js);
      OneOff(Shuffled(s, js), n);
    }
  }

  ghost predicate Distinct<T>(s: seq<T>) {
    forall i, j :: 0 <= i < j < |s| ==> s[i] != s[j]
  }

  lemma SwapDistinct<T>(s: seq<T>, i: nat, j: nat)
    requires i < |s| && j < |s| && Distinct(s)
    ensures Distinct(Swap(s, i, j)[..i])
  {
    var t := Swap(s, i, j);
    forall a, b | 0 <= a < b < i
      ensures t[a] != t[b]
    {
      var a', b' := if a == j then i else a, if b == j then i else b;
      assert t[a] == s[a'] && t[b] == s[b'];
    }
  }

  lemma SameSeq(js: seq<nat>, ks: seq<nat>, n: nat)
    requires |js| == |ks| == n + 1 && js[..n] == ks[..n] && js[n] == ks[n]
    ensures js == ks
  {
    assert js == js[..n] + [js[n]];
    assert ks == ks[..n] + [ks[n]];
  }

  /** Two different choice sequences never give the same order. */
  lemma {:induction false} Injective<T>(s: seq<T>, js: seq<nat>, ks: seq<nat>)
    requires Distinct(s) && IsChoice(js, |s|) && IsChoice(ks, |s|)
    requires Shuffled(s, js) == Shuffled(s, ks)
    ensures js == ks
    decreases |s|
  {
    if |s| > 0 {
      var n := |s| - 1;
      Unfold(s, js);
      Unfold(s, ks);
      SamePlace(s, js[n], ks[n]);
      SwapDistinct(s, n, js[n]);
      Injective(Swap(s, n, js[n])[..n], js[..n], ks[..n]);
      SameSeq(js, ks, n);
    }
  }

  lemma SamePlace<T>(s: seq<T>, i: nat, j: nat)
    requires Distinct(s) && i < |s| && j < |s| && s[i] == s[j]
    ensures i == j
  {
    if i < j {
      assert false;
    } else if j < i {
      assert false;
    }
  }

  /** Every order of the elements is made by some choice sequence. */
  lemma {:induction false} Surjective<T>(s: seq<T>, target: seq<T>) returns (js: seq<nat>)
    requires multiset(target) == multiset(s)
    ensures IsChoice(js, |s|) && Shuffled(s, js) == target
    decreases |s|
  {
    SameLength(s, target);
    if |s| == 0 {
      js := [];
    } else {
      var n := |s| - 1;
      var j := PlaceLast(s, target);
      var rest := Surjective(Swap(s, n, j)[..n], target[..n]);
      js := rest + [j];
      assert js[..n] == rest;
      assert target == target[..n] + [target[n]];
    }
  }

  lemma SameLength<T>(s: seq<T>, t: seq<T>)
    requires multiset(s) == multiset(t)
    ensures |s| == |t|
  {
    assert |multiset(s)| == |s| && |multiset(t)| == |t|;
  }

  /** The choice that puts the last element in place, and leaves the rest an order
      of the rest. */
  lemma PlaceLast<T>(s: seq<T>, target: seq<T>) returns (j: nat)
    requires |s| == |target| > 0 && multiset(target) == multiset(s)
    ensures j < |s| && Swap(s, |s| - 1, j)[|s| - 1] == target[|s| - 1]
    ensures multiset(target[..|s| - 1]) == multiset(Swap(s, |s| - 1, j)[..|s| - 1])
  {
    var n := |s| - 1;
    assert target[n] in multiset(target);
    assert target[n] in s;
    j :| j < |s| && s[j] == target[n];
    SwapKeeps(s, n, j);
    SameLast(target, Swap(s, n, j), n);
  }

  lemma SameLast<T>(a: seq<T>, b: seq<T>, n: nat)
    requires |a| == |b| == n + 1 && a[n] == b[n] && multiset(a) == multiset(b)
    ensures multiset(a[..n]) == multiset(b[..n])
  {
    assert a == a[..n] + [a[n]];
    assert b == b[..n] + [a[n]];
    assert multiset(a[..n]) == multiset(a) - multiset{a[n]};
    assert multiset(b[..n]) == multiset(b) - multiset{a[n]};
  }

  /** The shuffle is a bijection between choice sequences and orders, so equally
      likely choices give equally likely orders. */
  lemma ExactlyOneChoice<T>(s: seq<T>, target: seq<T>)
    requires Distinct(s)
    ensures multiset(target) == multiset(s) <==>
            exists js: seq<nat> :: IsChoice(js, |s|) && Shuffled(s, js) == target
    ensures forall js: seq<nat>, ks: seq<nat> ::
              IsChoice(js, |s|) && IsChoice(ks, |s|) && Shuffled(s, js) == target && Shuffled(s, ks) == target ==> js == ks
  {
    if multiset(target) == multiset(s) {
      var js := Surjective(s, target);
    }
    forall js: seq<nat> | IsChoice(js, |s|) && Shuffled(s, js) == target
      ensures multiset(target) == multiset(s)
    {
      Permutes(s, js);
    }
    forall js: seq<nat>, ks: seq<nat>
      | IsChoice(js, |s|) && IsChoice(ks, |s|) && Shuffled(s, js) == target && Shuffled(s, ks) == target
      ensures js == ks
    {
      Injective(s, js, ks);
    }
  }

  /** The loop before position i is settled: `rest` is still to be shuffled, `tail` is done. */
  ghost predicate Doing<T>(now: seq<T>, i: nat, js: seq<nat>, target: seq<T>, rest: seq<T>, tail: seq<T>)
    requires i < |js| && IsChoice(js, |js|)
  {
    now == rest + tail && |rest| == i + 1 && Shuffled(rest, js[..i + 1]) + tail == target
  }

  lemma Settle<T>(now: seq<T>, i: nat, js: seq<nat>, target: seq<T>, rest: seq<T>, tail: seq<T>)
    requires 0 < i < |js| && IsChoice(js, |js|) && Doing(now, i, js, target, rest, tail)
    ensures var t := Swap(rest, i, js[i]);
            Doing(Swap(now, i, js[i]), i - 1, js, target, t[..i], [t[i]] + tail)
  {
    Peel(rest, js[..i + 1], tail);
    SwapHead(rest, tail, js[i]);
    assert js[..i + 1][..i] == js[..i];
  }

  lemma Settled<T>(now: seq<T>, js: seq<nat>, target: seq<T>, rest: seq<T>, tail: seq<T>)
    requires 0 < |js| && IsChoice(js, |js|) && Doing(now, 0, js, target, rest, tail)
    ensures now == target
  {
    Short(rest, js[..1]);
  }

  /** The in-place loop. */
  method Shuffle<T>(b: array<T>, js: seq<nat>)
    requires IsChoice(js, b.Length)
    modifies b
    ensures b[..] == Shuffled(old(b[..]), js)
  {
    var i := b.Length - 1;
    ghost var target, rest, tail := Shuffled(b[..], js), b[..], [];
    assert b.Length > 0 ==> js[..i + 1] == js && target + [] == target;
    while i > 0
      invariant -1 <= i < b.Length && (b.Length > 0 ==> i >= 0 && Doing(b[..], i, js, target, rest, tail))
      invariant b.Length == 0 ==> b[..] == target
      decreases i
    {
      var jj := js[i];
      Settle(b[..], i, js, target, rest, tail);
      ghost var now, t := Swap(b[..], i, jj), Swap(rest, i, jj);
      b[i], b[jj] := b[jj], b[i];
      assert b[..] == now;
      rest, tail := t[..i], [t[i]] + tail;
      i := i - 1;
    }
    if b.Length > 0 {
      Settled(b[..], js, target, rest, tail);
    }
  }

  lemma SwapHead<T>(s: seq<T>, tail: seq<T>, j: nat)
    requires j < |s|
    ensures var t := Swap(s, |s| - 1, j);
            Swap(s + tail, |s| - 1, j) == t[..|s| - 1] + ([t[|s| - 1]] + tail)
  {
  }

  lemma Peel<T>(s: seq<T>, js: seq<nat>, tail: seq<T>)
    requires |s| > 0 && IsChoice(js, |s|)
    ensures var n := |s| - 1;
            var t := Swap(s, n, js[n]);
            Shuffled(s, js) + tail == Shuffled(t[..n], js[..n]) + ([t[n]] + tail)
  {
  }

  lemma Short<T>(s: seq<T>, js: seq<nat>)
    requires |s| <= 1 && IsChoice(js, |s|)
    ensures Shuffled(s, js) == s
  {
    if |s| == 1 {
      Unfold(s, js);
      assert Shuffled(s, js)[0] == s[0];
    }
  }

  /** What the k-th character is picked from. */
  function Source(k: nat): string {
    if k == 0 then LOWERS else if k == 1 then UPPERS else if k == 2 then DIGITS else if k == 3 then SYMBOLS else POOL
  }

  /** The sources, character by character: a class each for the first four, and all of
      them together for the rest. */
  lemma SourceExactly(k: nat, c: char)
    ensures c in Source(k) <==>
            if 'a' <= c <= 'z' then k == 0 || k >= 4
            else if 'A' <= c <= 'Z' then k == 1 || k >= 4
            else if '0' <= c <= '9' then k == 2 || k >= 4
            else c in {'@', '#', '$', '%'} && k >= 3
  {
    LettersIn(c);
    assert c in POOL <==> c in LOWERS || c in UPPERS || c in DIGITS || c in SYMBOLS;
  }

  lemma LettersIn(c: char)
    ensures c in LOWERS <==> 'a' <= c <= 'z'
    ensures c in UPPERS <==> 'A' <= c <= 'Z'
    ensures c in DIGITS <==> '0' <= c <= '9'
    ensures c in SYMBOLS <==> c in {'@', '#', '$', '%'}
  {
    LettersAt();
    assert 'a' <= c <= 'z' ==> LOWERS[c as int - 'a' as int] == c;
    assert 'A' <= c <= 'Z' ==> UPPERS[c as int - 'A' as int] == c;
    assert '0' <= c <= '9' ==> DIGITS[c as int - '0' as int] == c;
    assert SYMBOLS == ['@', '#', '$', '%'];
  }

  lemma LettersAt()
    ensures |LOWERS| == |UPPERS| == 26 && |DIGITS| == 10
    ensures forall i :: 0 <= i < 26 ==> LOWERS[i] as int == 'a' as int + i && UPPERS[i] as int == 'A' as int + i
    ensures forall i :: 0 <= i < 10 ==> DIGITS[i] as int == '0' as int + i
  {
  }

  /** No character is twice in a source, so equally likely positions are equally likely
      characters. */
  lemma SourceDistinct(k: nat)
    ensures Distinct(Source(k))
  {
    LettersAt();
    assert Distinct(SYMBOLS) && (forall i :: 0 <= i < 4 ==> SYMBOLS[i] == '@' || SYMBOLS[i] < '0');
    forall i, j | 0 <= i < j < |POOL|
      ensures POOL[i] != POOL[j]
    {
      PoolAt(i);
      PoolAt(j);
    }
  }

  lemma PoolAt(i: nat)
    requires i < |POOL|
    ensures |POOL| == 66
    ensures POOL[i] == if i < 26 then LOWERS[i] else if i < 52 then UPPERS[i - 26]
                       else if i < 62 then DIGITS[i - 52] else SYMBOLS[i - 62]
  {
  }

  /** The characters before the shuffle. */
  ghost function Drawn(n: nat, picks: nat -> nat): (s: string)
    requires forall k :: picks(k) < |Source(k)|
    ensures |s| == n
  {
    seq(n, k requires 0 <= k => Source(k)[picks(k)])
  }

  /** Nothing but letters, digits and the four symbols, and at least one of each class. */
  ghost predicate Strong(s: seq<char>) {
    && (forall c | c in s :: 'a' <= c <= 'z' || 'A' <= c <= 'Z' || '0' <= c <= '9' || c in {'@', '#', '$', '%'})
    && (exists c :: c in s && 'a' <= c <= 'z')
    && (exists c :: c in s && 'A' <= c <= 'Z')
    && (exists c :: c in s && '0' <= c <= '9')
    && (exists c :: c in s && c in {'@', '#', '$', '%'})
  }

  lemma DrawnFour(picks: nat -> nat)
    requires forall k :: picks(k) < |Source(k)|
    ensures Drawn(4, picks) == [LOWERS[picks(0)], UPPERS[picks(1)], DIGITS[picks(2)], SYMBOLS[picks(3)]]
  {
    assert Source(0) == LOWERS && Source(1) == UPPERS && Source(2) == DIGITS && Source(3) == SYMBOLS;
  }

  lemma DrawnMore(n: nat, picks: nat -> nat)
    requires n >= 4 && forall k :: picks(k) < |Source(k)|
    ensures Drawn(n + 1, picks) == Drawn(n, picks) + [POOL[picks(n)]]
  {
    assert Source(n) == POOL;
    forall k | 0 <= k <= n
      ensures Drawn(n + 1, picks)[k] == (Drawn(n, picks) + [POOL[picks(n)]])[k]
    {
    }
  }

  /** One character of each class, then the rest from the pool. */
  method Draw(n: nat, picks: nat -> nat) returns (buf: string)
    requires n >= 4 && forall k :: picks(k) < |Source(k)|
    ensures buf == Drawn(n, picks)
  {
    buf := [LOWERS[picks(0)], UPPERS[picks(1)], DIGITS[picks(2)], SYMBOLS[picks(3)]];
    DrawnFour(picks);
    while |buf| < n
      invariant 4 <= |buf| <= n && buf == Drawn(|buf|, picks)
      decreases n - |buf|
    {
      DrawnMore(|buf|, picks);
      buf := buf + [POOL[picks(|buf|)]];
    }
  }

  /** The whole generator. `picks` are the character choices, as positions in the
      class or in the pool, and `js` the choices of the shuffle. */
  method GeneratePassword(length: int, picks: nat -> nat, js: seq<nat>) returns (password: string)
    requires forall k :: picks(k) < |Source(k)|
    requires IsChoice(js, if length < 8 then 20 else length)
    ensures |password| == if length < 8 then 20 else length
    ensures Strong(password)
    ensures password == Shuffled(Drawn(if length < 8 then 20 else length, picks), js)
  {
    var n := if length < 8 then 20 else length;
    var buf := Draw(n, picks);
    var a := new char[n](i requires 0 <= i < n && |buf| == n => buf[i]);
    assert a[..] == buf;
    Shuffle(a, js);
    password := a[..];
    ShuffledIsStrong(n, picks, js);
  }

  lemma ShuffledIsStrong(n: nat, picks: nat -> nat, js: seq<nat>)
    requires n >= 4 && (forall k :: picks(k) < |Source(k)|) && IsChoice(js, n)
    ensures Strong(Shuffled(Drawn(n, picks), js))
  {
    DrawnKinds(n, picks);
    Permutes(Drawn(n, picks), js);
    Classes(Drawn(n, picks), Shuffled(Drawn(n, picks), js));
  }

  lemma DrawnKinds(n: nat, picks: nat -> nat)
    requires n >= 4 && forall k :: picks(k) < |Source(k)|
    ensures var s := Drawn(n, picks);
            && FromPool(s)
            && s[0] in LOWERS && s[1] in UPPERS && s[2] in DIGITS && s[3] in SYMBOLS
  {
    var s := Drawn(n, picks);
    forall k | 0 <= k < n
      ensures s[k] in POOL
    {
      assert s[k] == Source(k)[picks(k)];
    }
  }

  ghost predicate FromPool(s: seq<char>) {
    forall c | c in s :: c in POOL
  }

  lemma SameMembers(s: seq<char>, t: seq<char>)
    requires multiset(s) == multiset(t)
    ensures forall c :: c in s <==> c in t
  {
    assert forall c :: c in s <==> c in multiset(s);
    assert forall c :: c in t <==> c in multiset(t);
  }

  lemma Classes(s: seq<char>, t: seq<char>)
    requires |s| >= 4 && s[0] in LOWERS && s[1] in UPPERS && s[2] in DIGITS && s[3] in SYMBOLS
    requires multiset(s) == multiset(t) && FromPool(s)
    ensures Strong(t)
  {
    SameMembers(s, t);
    forall c | c in t
      ensures 'a' <= c <= 'z' || 'A' <= c <= 'Z' || '0' <= c <= '9' || c in {'@', '#', '$', '%'}
    {
      SourceExactly(4, c);
    }
    forall k | 0 <= k < 4 {
      LettersIn(s[k]);
    }
    assert s[0] in t && s[1] in t && s[2] in t && s[3] in t;
  }
}
