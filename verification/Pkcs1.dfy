/** The session header: the login blob's fields, and PKCS#1 v1.5 type 2 padding of
    the session id (sections 7.2.1 and 7.2.2 of RFC 8017). */
module Pkcs1 {
  import opened Basics

  // --- Numbers ----------------------------------------------------------------

  function Pow2(n: nat): nat {
    if n == 0 then 1 else 2 * Pow2(n - 1)
  }

  function Pow256(n: nat): (p: nat)
    ensures p >= 1
  {
    if n == 0 then 1 else 256 * Pow256(n - 1)
  }

  lemma {:induction false} PowersAgree(n: nat)
    ensures Pow2(8 * n) == Pow256(n)
  {
    if n > 0 {
      PowersAgree(n - 1);
      Sixteen(8 * n - 4);
      Sixteen(8 * n - 8);
    }
  }

  lemma Sixteen(n: nat)
    ensures Pow2(n + 4) == 16 * Pow2(n)
  {
    assert Pow2(n + 2) == 4 * Pow2(n);
  }

  lemma {:induction false} Pow2Grows(m: nat, n: nat)
    requires m <= n
    ensures Pow2(m) <= Pow2(n)
    decreases n - m
  {
    if m < n {
      Pow2Grows(m + 1, n);
    }
  }

  function BitLength(m: nat): nat {
    if m == 0 then 0 else 1 + BitLength(m / 2)
  }

  lemma {:induction false} BitLengthBounds(m: nat)
    requires m > 0
    ensures BitLength(m) > 0 && Pow2(BitLength(m) - 1) <= m < Pow2(BitLength(m))
  {
    if m > 1 {
      BitLengthBounds(m / 2);
    } else {
      assert BitLength(0) == 0;
    }
  }

  /** The key length in octets. */
  function KeyLength(modulus: nat): nat {
    (BitLength(modulus) + 7) / 8
  }

  /** Octets as a big-endian number. */
  function Value(s: seq<byte>): nat {
    if s == [] then 0 else 256 * Value(s[..|s| - 1]) + s[|s| - 1]
  }

  function ToBytes(v: nat, k: nat): (s: seq<byte>)
    ensures |s| == k
  {
    if k == 0 then [] else ToBytes(v / 256, k - 1) + [v % 256]
  }

  lemma {:induction false} ValueBound(s: seq<byte>)
    ensures Value(s) < Pow256(|s|)
  {
    if s != [] {
      ValueBound(s[..|s| - 1]);
    }
  }

  lemma {:induction false} BytesOfValue(s: seq<byte>)
    ensures ToBytes(Value(s), |s|) == s
  {
    if s != [] {
      BytesOfValue(s[..|s| - 1]);
    }
  }

  lemma {:induction false} ValueOfBytes(v: nat, k: nat)
    requires v < Pow256(k)
    ensures Value(ToBytes(v, k)) == v
  {
    if k > 0 {
      ValueOfBytes(v / 256, k - 1);
      var s := ToBytes(v, k);
      assert s[..|s| - 1] == ToBytes(v / 256, k - 1);
    }
  }

  lemma {:induction false} LeadingBytes(a: seq<byte>, b: seq<byte>)
    ensures Value(a + b) == Value(a) * Pow256(|b|) + Value(b)
  {
    if b == [] {
      assert a + b == a;
    } else {
      var b' := b[..|b| - 1];
      LeadingBytes(a, b');
      assert (a + b)[..|a + b| - 1] == a + b';
      assert 256 * (Value(a) * Pow256(|b'|)) == Value(a) * (256 * Pow256(|b'|));
    }
  }

  /** The key length is the number of octets the modulus takes. */
  lemma KeyLengthExactly(modulus: nat, k: nat)
    requires modulus > 0
    ensures k == KeyLength(modulus) <==> k > 0 && Pow256(k - 1) <= modulus < Pow256(k)
  {
    BitLengthBounds(modulus);
    var exact := KeyLength(modulus);
    Pow2Grows(8 * (exact - 1), BitLength(modulus) - 1);
    Pow2Grows(BitLength(modulus), 8 * exact);
    PowersAgree(exact);
    PowersAgree(exact - 1);
    if k > exact {
      Pow256Grows(exact, k - 1);
    } else if 0 < k < exact {
      Pow256Grows(k, exact - 1);
    }
  }

  lemma {:induction false} Pow256Grows(m: nat, n: nat)
    requires m <= n
    ensures Pow256(m) <= Pow256(n)
    decreases n - m
  {
    if m < n {
      Pow256Grows(m + 1, n);
    }
  }

  // --- Padding ----------------------------------------------------------------

  function NonZero(noise: seq<byte>): seq<byte> {
    if noise == [] then []
    else if noise[0] != 0 then [noise[0]] + NonZero(noise[1..])
    else NonZero(noise[1..])
  }

  function Frame(ps: seq<byte>, message: seq<byte>): seq<byte> {
    [0, 2] + ps + [0] + message
  }

  lemma NoiseNext(noise: seq<byte>, i: nat, ps: seq<byte>)
    requires i < |noise|
    ensures ps + NonZero(noise[i..]) == (if noise[i] != 0 then ps + [noise[i]] else ps) + NonZero(noise[i + 1..])
  {
    assert noise[i..][1..] == noise[i + 1..];
    if noise[i] != 0 {
      assert ps + ([noise[i]] + NonZero(noise[i + 1..])) == (ps + [noise[i]]) + NonZero(noise[i + 1..]);
    }
  }

  /** The encoded message. `noise` is the random source, read octet by octet, zero
      octets skipped; None is the ValueError of a message too long for the key. */
  method Pad(message: seq<byte>, modulus: nat, noise: seq<byte>) returns (em: Option<seq<byte>>)
    requires |NonZero(noise)| >= KeyLength(modulus)
    ensures em.Some? <==> |message| + 11 <= KeyLength(modulus)
    ensures em.Some? ==> |em.value| == KeyLength(modulus)
    ensures em.Some? ==> em.value == [0, 2] + NonZero(noise)[..KeyLength(modulus) - |message| - 3] + [0] + message
  {
    var k := KeyLength(modulus);
    if |message| > k - 11 {
      return None;
    }
    var want := k - |message| - 3;
    var ps: seq<byte> := [];
    var i := 0;
    while |ps| < want
      invariant 0 <= i <= |noise| && |ps| <= want
      invariant NonZero(noise) == ps + NonZero(noise[i..])
      decreases |noise| - i
    {
      assert i < |noise|;
      NoiseNext(noise, i, ps);
      if noise[i] != 0 {
        ps := ps + [noise[i]];
      }
      i := i + 1;
    }
    assert ps == NonZero(noise)[..want];
    em := Some(Frame(ps, message));
  }

  function FirstZero(s: seq<byte>, i: nat): (r: nat)
    requires i <= |s|
    ensures i <= r <= |s| && (r < |s| ==> s[r] == 0) && forall j :: i <= j < r ==> s[j] != 0
    decreases |s| - i
  {
    if i == |s| || s[i] == 0 then i else FirstZero(s, i + 1)
  }

  /** The receiver's decoding. */
  function Unpad(em: seq<byte>): Option<seq<byte>> {
    if |em| < 11 || em[0] != 0 || em[1] != 2 then None
    else
      var z := FirstZero(em, 2);
      if z == |em| || z < 10 then None else Some(em[z + 1..])
  }

  ghost predicate AllNonZero(ps: seq<byte>) {
    forall i :: 0 <= i < |ps| ==> ps[i] != 0
  }

  /** Unpadding accepts exactly the framed messages, and returns the message. */
  lemma UnpadExactly(em: seq<byte>, message: seq<byte>)
    ensures Unpad(em) == Some(message) <==>
            exists ps: seq<byte> :: |ps| >= 8 && AllNonZero(ps) && em == [0, 2] + ps + [0] + message
  {
    if Unpad(em) == Some(message) {
      var z := FirstZero(em, 2);
      var ps := em[2..z];
      assert em == Frame(ps, message);
      assert AllNonZero(ps);
    }
    forall ps: seq<byte> | |ps| >= 8 && AllNonZero(ps) && em == [0, 2] + ps + [0] + message
      ensures Unpad(em) == Some(message)
    {
      FrameUnpads(ps, message);
    }
  }

  lemma FrameUnpads(ps: seq<byte>, message: seq<byte>)
    requires |ps| >= 8 && AllNonZero(ps)
    ensures Unpad(Frame(ps, message)) == Some(message)
  {
    var em, z := Frame(ps, message), FirstZero(Frame(ps, message), 2);
    assert em[2 + |ps|] == 0;
    assert forall i :: 2 <= i < 2 + |ps| ==> em[i] == ps[i - 2];
    assert z == 2 + |ps|;
    assert em[z + 1..] == message;
  }

  lemma {:induction false} NoiseIsNonZero(noise: seq<byte>)
    ensures AllNonZero(NonZero(noise))
  {
    if noise != [] {
      NoiseIsNonZero(noise[1..]);
    }
  }

  /** The leading 00 02 keeps every encoded message below every modulus of its
      length. */
  lemma BelowModulus(ps: seq<byte>, message: seq<byte>, modulus: nat)
    requires |Frame(ps, message)| == KeyLength(modulus)
    ensures Value(Frame(ps, message)) < modulus
  {
    var em, k := Frame(ps, message), KeyLength(modulus);
    var rest := ps + [0] + message;
    assert em == [0, 2] + rest;
    LeadingBytes([0, 2], rest);
    assert Value([0, 2]) == 2 by {
      assert [0, 2][..1] == [0] && [0][..0] == [];
      assert Value([0]) == 0;
    }
    ValueBound(rest);
    if modulus == 0 {
      assert false;
    }
    BitLengthBounds(modulus);
    Pow2Grows(8 * (k - 1), BitLength(modulus) - 1);
    PowersAgree(k - 1);
    assert Pow256(k - 1) == 256 * Pow256(k - 2);
  }

  /** The session id survives: encrypting the padded id, sending it as octets, and
      decrypting and unpadding on the other side gives the id back, for any pair of
      inverse maps on the numbers below the modulus. */
  lemma Survives(ps: seq<byte>, message: seq<byte>, modulus: nat, enc: nat -> nat, dec: nat -> nat)
    requires |ps| >= 8 && AllNonZero(ps) && |Frame(ps, message)| == KeyLength(modulus)
    requires Inverse(enc, dec, modulus)
    ensures var k := KeyLength(modulus);
            var sent := ToBytes(enc(Value(Frame(ps, message))), k);
            Unpad(ToBytes(dec(Value(sent)), k)) == Some(message)
  {
    var em, k := Frame(ps, message), KeyLength(modulus);
    BelowModulus(ps, message, modulus);
    BitLengthBounds(modulus);
    Pow2Grows(BitLength(modulus), 8 * k);
    PowersAgree(k);
    ValueOfBytes(enc(Value(em)), k);
    BytesOfValue(em);
    FrameUnpads(ps, message);
  }

  /** Two maps that undo each other on the numbers below the modulus. */
  ghost predicate Inverse(enc: nat -> nat, dec: nat -> nat, modulus: nat) {
    forall x: nat :: x < modulus ==> enc(x) < modulus && dec(enc(x)) == x
  }

  /** The whole encryption: pad, raise, send as octets. Whoever holds the inverse gets
      the message back by unpadding. */
  method Encrypt(message: seq<byte>, modulus: nat, noise: seq<byte>, enc: nat -> nat, ghost dec: nat -> nat)
    returns (c: Option<seq<byte>>)
    requires |NonZero(noise)| >= KeyLength(modulus) && Inverse(enc, dec, modulus)
    ensures c.Some? <==> |message| + 11 <= KeyLength(modulus)
    ensures c.Some? ==> |c.value| == KeyLength(modulus)
    ensures c.Some? ==> Unpad(ToBytes(dec(Value(c.value)), KeyLength(modulus))) == Some(message)
  {
    var em := Pad(message, modulus, noise);
    if em == None {
      return None;
    }
    c := Some(ToBytes(enc(Value(em.value)), KeyLength(modulus)));
    NoiseIsNonZero(noise);
    Survives(NonZero(noise)[..KeyLength(modulus) - |message| - 3], message, modulus, enc, dec);
  }

  // --- The login blob ---------------------------------------------------------

  const NUL := 0 as char

  function TrimNul(s: string): string {
    if s != "" && s[|s| - 1] == NUL then TrimNul(s[..|s| - 1]) else s
  }

  function HexDigit(c: char): (r: Option<nat>)
    ensures r.Some? ==> r.value < 16
  {
    if '0' <= c <= '9' then Some(c as int - '0' as int)
    else if 'a' <= c <= 'f' then Some(c as int - 'a' as int + 10)
    else if 'A' <= c <= 'F' then Some(c as int - 'A' as int + 10)
    else None
  }

  function HexDigits(s: string): Option<nat> {
    if s == "" then Some(0)
    else
      var high, low := HexDigits(s[..|s| - 1]), HexDigit(s[|s| - 1]);
      if high == None || low == None then None else Some(16 * high.value + low.value)
  }

  /** A hexadecimal integer with an optional sign. */
  function HexNumber(s: string): Option<int> {
    var body := if s != "" && s[0] in {'+', '-'} then s[1..] else s;
    if body == "" || HexDigits(body) == None then None
    else Some(if s[0] == '-' then -(HexDigits(body).value as int) else HexDigits(body).value)
  }

  /** Which characters are digits, and the value of each. */
  lemma HexDigitExactly(c: char, v: nat)
    ensures HexDigit(c) == Some(v) <==> v < 16 && c in ["0123456789abcdef"[v], "0123456789ABCDEF"[v]]
  {
    var small, capital := "0123456789abcdef", "0123456789ABCDEF";
    assert forall k :: 0 <= k < 10 ==> small[k] == '0' + k as char && capital[k] == small[k];
    assert forall k :: 10 <= k < 16 ==> small[k] == 'a' + (k - 10) as char && capital[k] == 'A' + (k - 10) as char;
    if HexDigit(c).Some? {
      var w := HexDigit(c).value;
      assert c == small[w] || c == capital[w];
      assert forall k :: 0 <= k < 16 && (c == small[k] || c == capital[k]) ==> k == w;
    }
  }

  /** The text is the number in hexadecimal: the last digit is its remainder by sixteen,
      the others are its quotient; leading zeros and both cases of letter are allowed. */
  ghost predicate Writes(s: string, n: nat) {
    && s != ""
    && s[|s| - 1] in ["0123456789abcdef"[n % 16], "0123456789ABCDEF"[n % 16]]
    && if |s| == 1 then n < 16 else Writes(s[..|s| - 1], n / 16)
  }

  /** The same with an optional sign. */
  ghost predicate Denotes(s: string, x: int) {
    && s != ""
    && if s[0] == '-' then x <= 0 && Writes(s[1..], -x)
       else x >= 0 && Writes(if s[0] == '+' then s[1..] else s, x)
  }

  lemma HexLast(s: string, n: nat)
    requires s != ""
    ensures HexDigits(s) == Some(n) <==> HexDigits(s[..|s| - 1]) == Some(n / 16) && HexDigit(s[|s| - 1]) == Some(n % 16)
  {
    var high, low := HexDigits(s[..|s| - 1]), HexDigit(s[|s| - 1]);
    if high.Some? && low.Some? {
      BySixteen(high.value, low.value, n);
    }
  }

  lemma BySixteen(high: nat, low: nat, n: nat)
    requires low < 16
    ensures 16 * high + low == n <==> high == n / 16 && low == n % 16
  {
  }

  lemma {:induction false} HexDigitsExactly(s: string, n: nat)
    requires s != ""
    ensures HexDigits(s) == Some(n) <==> Writes(s, n)
  {
    HexLast(s, n);
    HexDigitExactly(s[|s| - 1], n % 16);
    if |s| == 1 {
      assert s[..0] == "";
    } else {
      HexDigitsExactly(s[..|s| - 1], n / 16);
    }
  }

  /** The parser accepts exactly the texts of numbers, and returns the number. */
  lemma HexNumberExactly(s: string, x: int)
    ensures HexNumber(s) == Some(x) <==> Denotes(s, x)
  {
    var body := if s != "" && s[0] in {'+', '-'} then s[1..] else s;
    if body != "" {
      HexDigitsExactly(body, if x < 0 then -x else x);
    }
  }

  /** A number printed in hexadecimal, in capitals or small letters. */
  function ToHex(n: nat, capitals: bool): (s: string)
    ensures s != ""
  {
    (if n < 16 then "" else ToHex(n / 16, capitals)) + [Digit(n % 16, capitals)]
  }

  function Digit(d: nat, capitals: bool): (c: char)
    requires d < 16
    ensures c !in {'+', '-', '\0'}
  {
    if capitals then "0123456789ABCDEF"[d] else "0123456789abcdef"[d]
  }

  /** What is printed, in small letters or capitals and after any number of zeros, is
      the number that is read. */
  lemma {:induction false} ToHexBack(n: nat, capitals: bool, zeros: nat)
    ensures HexNumber(seq(zeros, _ => '0') + ToHex(n, capitals)) == Some(n)
  {
    ToHexWrites(n, capitals, zeros);
    var s := seq(zeros, _ => '0') + ToHex(n, capitals);
    ToHexFirst(n, capitals);
    assert s[0] !in {'+', '-'};
    HexNumberExactly(s, n);
  }

  lemma {:induction false} ToHexFirst(n: nat, capitals: bool)
    ensures ToHex(n, capitals)[0] !in {'+', '-', '\0'}
  {
    if n >= 16 {
      ToHexFirst(n / 16, capitals);
    }
  }

  lemma {:induction false} ToHexWrites(n: nat, capitals: bool, zeros: nat)
    ensures Writes(seq(zeros, _ => '0') + ToHex(n, capitals), n)
  {
    var lead, last := seq(zeros, _ => '0'), [Digit(n % 16, capitals)];
    if n >= 16 {
      ToHexWrites(n / 16, capitals, zeros);
      assert lead + ToHex(n, capitals) == (lead + ToHex(n / 16, capitals)) + last;
      WritesNext(lead + ToHex(n / 16, capitals), n, capitals);
    } else if zeros > 0 {
      ZerosWrite(zeros);
      WritesNext(lead, n, capitals);
    } else {
      assert lead + last == last;
    }
  }

  /** One more digit at the end. */
  lemma WritesNext(s: string, n: nat, capitals: bool)
    requires Writes(s, n / 16)
    ensures Writes(s + [Digit(n % 16, capitals)], n)
  {
    assert (s + [Digit(n % 16, capitals)])[..|s|] == s;
  }

  lemma {:induction false} ZerosWrite(zeros: nat)
    requires zeros > 0
    ensures Writes(seq(zeros, _ => '0'), 0)
  {
    if zeros > 1 {
      ZerosWrite(zeros - 1);
      assert seq(zeros, _ => '0')[..zeros - 1] == seq(zeros - 1, _ => '0');
    }
  }

  datatype Session = Session(tabid: string, exponent: int, modulus: int)

  /** The decoded blob: 32 characters of session id, 5 of exponent, the rest the
      modulus; NULs at the end are padding. */
  function ParseSess(raw: string): Option<Session> {
    var s := TrimNul(raw);
    if |s| < 38 then None
    else
      var e, n := HexNumber(s[32..37]), HexNumber(s[37..]);
      if e == None || n == None then None else Some(Session(s[..32], e.value, n.value))
  }

  lemma {:induction false} TrimPadding(s: string, n: nat)
    requires s == "" || s[|s| - 1] != '\0'
    ensures TrimNul(s + seq(n, _ => '\0')) == s
  {
    var t := s + seq(n, _ => '\0');
    if n == 0 {
      assert t == s;
    } else {
      assert t[..|t| - 1] == s + seq(n - 1, _ => '\0');
      TrimPadding(s, n - 1);
    }
  }

  /** A blob is accepted exactly if, without the NULs at its end, it is 32 characters
      of any kind, five that are a number in hexadecimal, and at least one more that
      are; and then the three fields are those. */
  lemma ParseSessExactly(tabid: string, e: string, n: string, pad: nat, session: Session)
    requires |tabid| == 32 && |e| == 5 && n != "" && n[|n| - 1] != '\0'
    ensures ParseSess(tabid + e + n + seq(pad, _ => '\0')) == Some(session) <==>
            session.tabid == tabid && Denotes(e, session.exponent) && Denotes(n, session.modulus)
  {
    var s := tabid + e + n;
    assert s[|s| - 1] == n[|n| - 1];
    TrimPadding(s, pad);
    assert s[..32] == tabid && s[32..37] == e && s[37..] == n;
    HexNumberExactly(e, session.exponent);
    HexNumberExactly(n, session.modulus);
  }

  /** A blob that is shorter than that is refused. */
  lemma ParseSessShort(s: string, pad: nat)
    requires |s| < 38 && (s == "" || s[|s| - 1] != '\0')
    ensures ParseSess(s + seq(pad, _ => '\0')) == None
  {
    TrimPadding(s, pad);
  }

  /** The blob the switch sends: the exponent printed in five capitals, the modulus in as
      many as it has. */
  lemma ParseSessBack(tabid: string, e: nat, n: nat, exponent: string, zeros: nat, capitals: bool, pad: nat)
    requires |tabid| == 32 && exponent == seq(zeros, _ => '0') + ToHex(e, capitals) && |exponent| == 5
    ensures ParseSess(tabid + exponent + ToHex(n, capitals) + seq(pad, _ => '\0')) == Some(Session(tabid, e, n))
  {
    var text := ToHex(n, capitals);
    ToHexBack(e, capitals, zeros);
    ToHexBack(n, capitals, 0);
    assert seq(0, _ => '0') + text == text;
    HexNumberExactly(exponent, e);
    HexNumberExactly(text, n);
    ToHexLast(n, capitals);
    ParseSessExactly(tabid, exponent, text, pad, Session(tabid, e, n));
  }

  lemma ToHexLast(n: nat, capitals: bool)
    ensures ToHex(n, capitals)[|ToHex(n, capitals)| - 1] != '\0'
  {
  }
}
