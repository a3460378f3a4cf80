/** The switch's password obfuscation: the characters in reverse at every seventh
    position of a random string, the length as two digits at fixed positions. */
module Obfuscation {
  import opened Basics

  const WIDTH := 320
  const STRIDE := 7
  const TENS_AT := 123
  const ONES_AT := 289

  /** The loop of the code: position i is 1-based, `pad` the random characters. */
  method Encode(p: seq<byte>, pad: nat -> byte) returns (out: seq<byte>)
    ensures out == Encoded(p, pad)
  {
    out := [];
    var remaining := |p|;
    var i := 1;
    while i <= WIDTH - |p|
      invariant 1 <= i && (i <= WIDTH - |p| + 1 || i == 1)
      invariant |out| == i - 1 && remaining == Remaining(|p|, i)
      invariant forall j :: 0 <= j < |out| ==> out[j] == At(p, pad, j + 1)
    {
      RemainingStep(|p|, i);
      if i % STRIDE == 0 && remaining > 0 {
        remaining := remaining - 1;
        out := out + [p[remaining]];
      } else if i == TENS_AT {
        out := out + [if |p| < 10 then '0' as int else ('0' as int + |p| / 10) % 256];
      } else if i == ONES_AT {
        out := out + ['0' as int + |p| % 10];
      } else {
        out := out + [pad(i)];
      }
      i := i + 1;
    }
  }

  /** Password characters not yet placed when the loop reaches position i. */
  function Remaining(n: nat, i: nat): nat
    requires 1 <= i
  {
    if (i - 1) / STRIDE <= n then n - (i - 1) / STRIDE else 0
  }

  lemma RemainingStep(n: nat, i: nat)
    requires 1 <= i
    ensures Remaining(n, i + 1) ==
            if i % STRIDE == 0 && Remaining(n, i) > 0 then Remaining(n, i) - 1 else Remaining(n, i)
  {
  }

  /** The character at 1-based position i. */
  function At(p: seq<byte>, pad: nat -> byte, i: nat): byte
    requires 1 <= i
  {
    var n := |p|;
    if i % STRIDE == 0 && i / STRIDE <= n then p[n - i / STRIDE]
    else if i == TENS_AT then (if n < 10 then '0' as int else ('0' as int + n / 10) % 256)
    else if i == ONES_AT then '0' as int + n % 10
    else pad(i)
  }

  function Encoded(p: seq<byte>, pad: nat -> byte): seq<byte> {
    seq(if |p| <= WIDTH then WIDTH - |p| else 0, j requires 0 <= j => At(p, pad, j + 1))
  }

  /** The receiver: the length from its two digits, then the characters. */
  function Decode(s: seq<byte>): Option<seq<byte>> {
    if |s| < ONES_AT then None
    else
      var n := 10 * (s[TENS_AT - 1] as int - '0' as int) + (s[ONES_AT - 1] as int - '0' as int);
      if 0 <= n && STRIDE * n <= |s| then Some(Pick(s, n)) else None
  }

  function Pick(s: seq<byte>, n: nat): (p: seq<byte>)
    requires STRIDE * n <= |s|
  {
    seq(n, j requires 0 <= j < n => s[STRIDE * (n - j) - 1])
  }

  /** Where everything is: for every password that fits the frame, k characters
      from the end sits at 0-based position 7k - 1 if that position exists, and the
      digits are where the receiver looks for them, whatever the padding. */
  lemma Layout(p: seq<byte>, pad: nat -> byte, k: nat)
    requires |p| <= WIDTH && 1 <= k <= |p|
    ensures var out := Encoded(p, pad);
            && |out| == 320 - |p|
            && (7 * k <= |out| ==> out[7 * k - 1] == p[|p| - k])
            && (122 < |out| && |p| < 100 ==> out[122] as int == '0' as int + |p| / 10)
            && (288 < |out| ==> out[288] as int == '0' as int + |p| % 10)
  {
    assert STRIDE * k % STRIDE == 0 && STRIDE * k / STRIDE == k;
  }

  /** Every other position is padding. */
  lemma PaddingElsewhere(p: seq<byte>, pad: nat -> byte, j: nat)
    requires |p| <= 320 && j < 320 - |p| && j !in {122, 288}
    requires forall k :: 1 <= k <= |p| ==> j != 7 * k - 1
    ensures Encoded(p, pad)[j] == pad(j + 1)
  {
    var k := (j + 1) / 7;
    assert (j + 1) % 7 == 0 ==> j == 7 * k - 1;
  }

  /** A receiver that knows the length reads back every password whose characters
      are all placed. */
  lemma PicksBack(p: seq<byte>, pad: nat -> byte)
    requires |p| <= 40
    ensures |Encoded(p, pad)| == WIDTH - |p| && Pick(Encoded(p, pad), |p|) == p
  {
    forall j | 0 <= j < |p|
      ensures Pick(Encoded(p, pad), |p|)[j] == p[j]
    {
      Layout(p, pad, |p| - j);
    }
  }

  /** The output tells passwords of one length apart exactly up to forty characters:
      from 41 on the first character is nowhere in it. */
  lemma AllPlacedExactly(p: seq<byte>, pad: nat -> byte)
    ensures (forall q: seq<byte> :: |q| == |p| && Encoded(q, pad) == Encoded(p, pad) ==> q == p) <==> |p| <= 40
  {
    if |p| <= 40 {
      forall q: seq<byte> | |q| == |p| && Encoded(q, pad) == Encoded(p, pad)
        ensures q == p
      {
        PicksBack(p, pad);
        PicksBack(q, pad);
      }
    } else {
      var q := p[0 := if p[0] == 0 then 1 else 0];
      FirstIsLost(p, q, pad);
      assert q[0] != p[0];
    }
  }

  lemma FirstIsLost(p: seq<byte>, q: seq<byte>, pad: nat -> byte)
    requires |q| == |p| > 40 && q[1..] == p[1..]
    ensures Encoded(q, pad) == Encoded(p, pad)
  {
    forall j | 0 <= j < |Encoded(p, pad)|
      ensures Encoded(q, pad)[j] == Encoded(p, pad)[j]
    {
      var k := |p| - (j + 1) / STRIDE;
      if k > 0 {
        assert k < |p| ==> p[k] == p[1..][k - 1] && q[k] == q[1..][k - 1];
      }
    }
  }

  lemma DigitsTell(p: seq<byte>, pad: nat -> byte)
    requires |p| <= 31
    ensures var out := Encoded(p, pad);
            && |out| >= ONES_AT
            && out[TENS_AT - 1] as int == '0' as int + |p| / 10
            && out[ONES_AT - 1] as int == '0' as int + |p| % 10
  {
    if |p| > 0 {
      Layout(p, pad, 1);
    }
  }

  /** The encoding can be read back by its own digits exactly up to 31 characters:
      from 32 on the frame ends before the ones digit. */
  lemma DecodesExactly(p: seq<byte>, pad: nat -> byte)
    ensures Decode(Encoded(p, pad)) == Some(p) <==> |p| <= 31
  {
    if |p| <= 31 {
      DigitsTell(p, pad);
      PicksBack(p, pad);
    }
  }
}
