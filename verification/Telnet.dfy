/** The telnet filter of the XS508TM exporter (RFC 854): option commands are taken
    out of the stream and refused, the rest is data. */
module Telnet {
  import opened Basics

  const IAC := 255
  const DONT := 254
  const DO := 253
  const WONT := 252
  const WILL := 251

  datatype Filtered = Filtered(plain: seq<byte>, reply: seq<byte>)

  function Refusal(cmd: byte, opt: byte): seq<byte> {
    if cmd == DO then [IAC, WONT, opt] else if cmd == WILL then [IAC, DONT, opt] else []
  }

  /** What one read comes to. */
  function Filter(data: seq<byte>): Filtered {
    if data == [] then Filtered([], [])
    else if data[0] == IAC && |data| > 2 then
      var f := Filter(data[3..]);
      f.(reply := Refusal(data[1], data[2]) + f.reply)
    else if data[0] == IAC && |data| > 1 && data[1] == IAC then
      var f := Filter(data[2..]);
      f.(plain := [IAC] + f.plain)
    else
      var f := Filter(data[1..]);
      f.(plain := [data[0]] + f.plain)
  }

  /** What is kept so far and what the rest of the read gives is the whole of it. */
  ghost predicate Reads(data: seq<byte>, i: nat, plain: seq<byte>, sent: seq<byte>, whole: Filtered)
    requires i <= |data|
  {
    whole == Filtered(plain + Filter(data[i..]).plain, sent + Filter(data[i..]).reply)
  }

  lemma CommandTurn(data: seq<byte>, i: nat, plain: seq<byte>, sent: seq<byte>, whole: Filtered)
    requires i + 2 < |data| && data[i] == IAC && Reads(data, i, plain, sent, whole)
    ensures var cmd, opt := data[i + 1], data[i + 2];
            var sent' := if cmd == DO then sent + [IAC, WONT, opt]
                         else if cmd == WILL then sent + [IAC, DONT, opt] else sent;
            Reads(data, i + 3, plain, sent', whole)
  {
    assert data[i..][3..] == data[i + 3..];
    assert sent + [] == sent;
    Assoc(sent, Refusal(data[i + 1], data[i + 2]), Filter(data[i + 3..]).reply);
  }

  lemma EscapeTurn(data: seq<byte>, i: nat, plain: seq<byte>, sent: seq<byte>, whole: Filtered)
    requires i + 2 == |data| && data[i] == data[i + 1] == IAC && Reads(data, i, plain, sent, whole)
    ensures Reads(data, i + 2, plain + [IAC], sent, whole)
  {
    assert data[i..][2..] == data[i + 2..];
    Assoc(plain, [IAC], Filter(data[i + 2..]).plain);
  }

  lemma DataTurn(data: seq<byte>, i: nat, plain: seq<byte>, sent: seq<byte>, whole: Filtered)
    requires i < |data| && Reads(data, i, plain, sent, whole)
    requires data[i] == IAC ==> i + 1 == |data| || (i + 2 == |data| && data[i + 1] != IAC)
    ensures Reads(data, i + 1, plain + [data[i]], sent, whole)
  {
    assert data[i..][1..] == data[i + 1..];
    Assoc(plain, [data[i]], Filter(data[i + 1..]).plain);
  }

  lemma NoneLeft(data: seq<byte>, plain: seq<byte>, sent: seq<byte>, whole: Filtered)
    requires Reads(data, |data|, plain, sent, whole)
    ensures whole == Filtered(plain, sent)
  {
    assert plain + [] == plain && sent + [] == sent;
  }

  lemma AllLeft(data: seq<byte>, plain: seq<byte>)
    ensures Reads(data, 0, plain, [], Filtered(plain + Filter(data).plain, Filter(data).reply))
  {
    assert data[0..] == data && [] + Filter(data).reply == Filter(data).reply;
  }

  lemma Assoc<T>(a: seq<T>, b: seq<T>, c: seq<T>)
    ensures (a + b) + c == a + (b + c)
  {
  }

  /** The loop of the code; `sent` is what it writes back. */
  method Negotiate(data: seq<byte>, plain: seq<byte>) returns (plain': seq<byte>, sent: seq<byte>)
    ensures plain' == plain + Filter(data).plain && sent == Filter(data).reply
  {
    plain', sent := plain, [];
    var i := 0;
    ghost var whole := Filtered(plain + Filter(data).plain, Filter(data).reply);
    AllLeft(data, plain);
    while i < |data|
      invariant 0 <= i <= |data| && Reads(data, i, plain', sent, whole)
    {
      var b := data[i];
      if b == IAC && i + 2 < |data| {
        CommandTurn(data, i, plain', sent, whole);
        var cmd, opt := data[i + 1], data[i + 2];
        if cmd == DO {
          sent := sent + [IAC, WONT, opt];
        } else if cmd == WILL {
          sent := sent + [IAC, DONT, opt];
        }
        i := i + 3;
        continue;
      }
      if b == IAC && i + 1 < |data| && data[i + 1] == IAC {
        EscapeTurn(data, i, plain', sent, whole);
        plain', i := plain' + [IAC], i + 2;
        continue;
      }
      DataTurn(data, i, plain', sent, whole);
      plain', i := plain' + [b], i + 1;
    }
    NoneLeft(data, plain', sent, whole);
  }

  // --- The stream as the server means it --------------------------------------

  /** A data byte other than IAC, or a three-byte option command. */
  datatype Item = Octet(b: byte) | Command(cmd: byte, opt: byte) {
    ghost predicate Valid() {
      if Octet? then b != IAC else cmd in {DO, DONT, WILL, WONT}
    }

    function Bytes(): seq<byte> {
      match this
      case Octet(b) => [b]
      case Command(cmd, opt) => [IAC, cmd, opt]
    }
  }

  ghost predicate AllValid(items: seq<Item>) {
    forall i :: 0 <= i < |items| ==> items[i].Valid()
  }

  function Wire(items: seq<Item>): seq<byte> {
    if items == [] then [] else items[0].Bytes() + Wire(items[1..])
  }

  function Octets(items: seq<Item>): seq<byte> {
    if items == [] then []
    else Octet1(items[0]) + Octets(items[1..])
  }

  function Octet1(item: Item): seq<byte> {
    if item.Octet? then [item.b] else []
  }

  /** A DO is refused by WONT, a WILL by DONT, and nothing else is answered. */
  function Refused(item: Item): seq<Item> {
    match item
    case Octet(_) => []
    case Command(cmd, opt) =>
      if cmd == DO then [Command(WONT, opt)] else if cmd == WILL then [Command(DONT, opt)] else []
  }

  /** One refusal for each request, in order. */
  function Refusals(items: seq<Item>): seq<Item> {
    if items == [] then [] else Refused(items[0]) + Refusals(items[1..])
  }

  lemma {:induction false} WireBoth(xs: seq<Item>, ys: seq<Item>)
    ensures Wire(xs + ys) == Wire(xs) + Wire(ys)
    decreases |xs|
  {
    if xs == [] {
      assert xs + ys == ys;
    } else {
      assert (xs + ys)[1..] == xs[1..] + ys;
      WireBoth(xs[1..], ys);
    }
  }

  lemma {:induction false} OctetsBoth(xs: seq<Item>, ys: seq<Item>)
    ensures Octets(xs + ys) == Octets(xs) + Octets(ys)
    decreases |xs|
  {
    if xs == [] {
      assert xs + ys == ys;
    } else {
      assert (xs + ys)[1..] == xs[1..] + ys;
      OctetsBoth(xs[1..], ys);
    }
  }

  lemma {:induction false} RefusalsBoth(xs: seq<Item>, ys: seq<Item>)
    ensures Refusals(xs + ys) == Refusals(xs) + Refusals(ys)
    decreases |xs|
  {
    if xs == [] {
      assert xs + ys == ys;
    } else {
      assert (xs + ys)[1..] == xs[1..] + ys;
      RefusalsBoth(xs[1..], ys);
    }
  }

  lemma FilterOne(item: Item, more: seq<byte>)
    requires item.Valid()
    ensures Filter(item.Bytes() + more) ==
            Filtered(Octet1(item) + Filter(more).plain, Wire(Refused(item)) + Filter(more).reply)
  {
    var data := item.Bytes() + more;
    if item.Octet? {
      assert data[1..] == more;
    } else {
      assert data[3..] == more;
      assert Wire(Refused(item)) == Refusal(item.cmd, item.opt) by {
        if Refused(item) != [] {
          assert Wire(Refused(item)) == Refused(item)[0].Bytes() + Wire([]);
        }
      }
    }
  }

  lemma Regroup(f: Filtered, g: Filtered, o: seq<byte>, w: seq<byte>, os: seq<byte>, ws: seq<byte>)
    requires f == Filtered(os + g.plain, ws + g.reply)
    ensures Filtered(o + f.plain, w + f.reply) == Filtered((o + os) + g.plain, (w + ws) + g.reply)
  {
    Assoc(o, os, g.plain);
    Assoc(w, ws, g.reply);
  }

  ghost predicate Filters(items: seq<Item>, rest: seq<byte>) {
    Filter(Wire(items) + rest) ==
      Filtered(Octets(items) + Filter(rest).plain, Wire(Refusals(items)) + Filter(rest).reply)
  }

  lemma Prepend(items: seq<Item>, rest: seq<byte>)
    requires items != [] && items[0].Valid() && Filters(items[1..], rest)
    ensures Filters(items, rest)
  {
    var first, tail := items[0], items[1..];
    var more := Wire(tail) + rest;
    FilterOne(first, more);
    WireBoth(Refused(first), Refusals(tail));
    Regroup(Filter(more), Filter(rest), Octet1(first), Wire(Refused(first)), Octets(tail), Wire(Refusals(tail)));
    Assoc(first.Bytes(), Wire(tail), rest);
  }

  /** In front of anything, whole items filter to their data and their refusals. */
  lemma {:induction false} FilterItems(items: seq<Item>, rest: seq<byte>)
    requires AllValid(items)
    ensures Filters(items, rest)
    decreases |items|
  {
    if items == [] {
      assert Wire(items) + rest == rest;
    } else {
      FilterItems(items[1..], rest);
      Prepend(items, rest);
    }
  }

  /** A read of whole items. */
  lemma FilterRead(items: seq<Item>)
    requires AllValid(items)
    ensures Filter(Wire(items)) == Filtered(Octets(items), Wire(Refusals(items)))
  {
    FilterItems(items, []);
    assert Wire(items) + [] == Wire(items);
  }

  lemma {:induction false} RefusalsValid(items: seq<Item>)
    ensures AllValid(Refusals(items)) && Refusals(Refusals(items)) == [] && Octets(Refusals(items)) == []
    decreases |items|
  {
    if items != [] {
      RefusalsValid(items[1..]);
      OctetsBoth(Refused(items[0]), Refusals(items[1..]));
      RefusalsBoth(Refused(items[0]), Refusals(items[1..]));
      if Refused(items[0]) != [] {
        assert Refused(items[0])[1..] == [];
      }
    }
  }

  /** Refusals never provoke an answer, from a peer that follows the same rules. */
  lemma RepliesAreFinal(items: seq<Item>)
    requires AllValid(items)
    ensures Filter(Filter(Wire(items)).reply) == Filtered([], [])
  {
    FilterRead(items);
    RefusalsValid(items);
    FilterRead(Refusals(items));
  }

  /** The codes of RFC 854: DO (253) is answered by WONT (252), WILL (251) by DONT (254),
      any other command by nothing; whatever follows, the command is taken out. */
  lemma Answers(cmd: byte, opt: byte, rest: seq<byte>)
    ensures Filter([255, cmd, opt] + rest).plain == Filter(rest).plain
    ensures Filter([255, cmd, opt] + rest).reply ==
            (if cmd == 253 then [255, 252, opt] else if cmd == 251 then [255, 254, opt] else []) + Filter(rest).reply
  {
    var data := [255, cmd, opt] + rest;
    assert data[3..] == rest && data[0] == 255 && data[1] == cmd && data[2] == opt;
    assert [] + Filter(rest).reply == Filter(rest).reply;
  }

  /** Any other byte is data; and so is a command cut short by the end of its read. */
  lemma Passes(b: byte, rest: seq<byte>)
    ensures b != 255 ==> Filter([b] + rest) == Filtered([b] + Filter(rest).plain, Filter(rest).reply)
    ensures Filter([255]) == Filtered([255], [])
    ensures Filter([255, b]) == Filtered(if b == 255 then [255] else [255, b], [])
  {
    assert ([b] + rest)[1..] == rest;
    assert [255][1..] == [] && [255, b][1..] == [b] && [255, b][2..] == [] && [b][1..] == [];
  }

  // --- Many reads --------------------------------------------------------------

  function PlainOf(inputs: seq<seq<byte>>): seq<byte> {
    if inputs == [] then [] else PlainOf(inputs[..|inputs| - 1]) + Filter(inputs[|inputs| - 1]).plain
  }

  function SentOf(inputs: seq<seq<byte>>): seq<byte> {
    if inputs == [] then [] else SentOf(inputs[..|inputs| - 1]) + Filter(inputs[|inputs| - 1]).reply
  }

  function ReadsOf(items: seq<seq<Item>>): seq<seq<byte>> {
    if items == [] then [] else ReadsOf(items[..|items| - 1]) + [Wire(items[|items| - 1])]
  }

  function Whole(items: seq<seq<Item>>): seq<Item> {
    if items == [] then [] else Whole(items[..|items| - 1]) + items[|items| - 1]
  }

  /** However a stream is split into reads between items, the text is the data of
      the whole stream and the answers are its refusals, in order. */
  lemma {:induction false} SplitAnywhere(items: seq<seq<Item>>)
    requires forall i :: 0 <= i < |items| ==> AllValid(items[i])
    ensures PlainOf(ReadsOf(items)) == Octets(Whole(items))
    ensures SentOf(ReadsOf(items)) == Wire(Refusals(Whole(items)))
    decreases |items|
  {
    if items != [] {
      var init, last := items[..|items| - 1], items[|items| - 1];
      SplitAnywhere(init);
      FilterRead(last);
      OctetsBoth(Whole(init), last);
      RefusalsBoth(Whole(init), last);
      WireBoth(Refusals(Whole(init)), Refusals(last));
      assert ReadsOf(items)[..|ReadsOf(items)| - 1] == ReadsOf(init);
    }
  }

  /** An escaped IAC that does not end its read is lost, and takes the byte after it
      along: with whole items before it and any bytes after. */
  lemma EscapeSwallowed(items: seq<Item>, x: byte, rest: seq<byte>)
    requires AllValid(items)
    ensures Filter(Wire(items) + [IAC, IAC]).plain == Octets(items) + [IAC]
    ensures Filter(Wire(items) + ([IAC, IAC, x] + rest)).plain == Octets(items) + Filter(rest).plain
  {
    FilterItems(items, [IAC, IAC]);
    LoneEscape();
    FilterItems(items, [IAC, IAC, x] + rest);
    EscapeThen(x, rest);
  }

  lemma LoneEscape()
    ensures Filter([IAC, IAC]).plain == [IAC]
  {
    assert [IAC, IAC][2..] == [];
  }

  lemma EscapeThen(x: byte, rest: seq<byte>)
    ensures Filter([IAC, IAC, x] + rest).plain == Filter(rest).plain
  {
    assert ([IAC, IAC, x] + rest)[3..] == rest;
  }

  predicate HasAt(text: seq<byte>, s: seq<byte>, i: nat) {
    i + |s| <= |text| && text[i..i + |s|] == s
  }

  predicate Contains(text: seq<byte>, sentinels: seq<seq<byte>>) {
    exists k, i :: 0 <= k < |sentinels| && 0 <= i <= |text| && HasAt(text, sentinels[k], i)
  }

  lemma ContainsExactly(text: seq<byte>, sentinels: seq<seq<byte>>)
    ensures Contains(text, sentinels) <==> exists s, a, b :: s in sentinels && text == a + s + b
  {
    if Contains(text, sentinels) {
      var k, i :| 0 <= k < |sentinels| && 0 <= i <= |text| && HasAt(text, sentinels[k], i);
      assert text == text[..i] + sentinels[k] + text[i + |sentinels[k]|..];
    }
    forall s, a, b | s in sentinels && text == a + s + b
      ensures Contains(text, sentinels)
    {
      var k :| 0 <= k < |sentinels| && sentinels[k] == s;
      assert HasAt(text, sentinels[k], |a|);
    }
  }

  /** No read so far left the text with a sentinel in it; empty reads are not looked at. */
  ghost predicate NotYet(inputs: seq<seq<byte>>, used: nat, sentinels: seq<seq<byte>>)
    requires used <= |inputs|
  {
    forall j :: 0 < j <= used && inputs[j - 1] != [] ==> !Contains(PlainOf(inputs[..j]), sentinels)
  }

  lemma OneMoreRead(inputs: seq<seq<byte>>, used: nat)
    requires used < |inputs|
    ensures PlainOf(inputs[..used + 1]) == PlainOf(inputs[..used]) + Filter(inputs[used]).plain
    ensures SentOf(inputs[..used + 1]) == SentOf(inputs[..used]) + Filter(inputs[used]).reply
  {
    assert inputs[..used + 1][..used] == inputs[..used];
  }

  /** The read loop: `inputs` are the reads up to the error that ends the connection,
      empty ones among them. It stops at the first read after which the text holds
      a sentinel, with the text up to there, all requests up to there answered; with
      an error only if there is none. */
  method ReadUntil(inputs: seq<seq<byte>>, sentinels: seq<seq<byte>>)
    returns (text: seq<byte>, sent: seq<byte>, ok: bool, used: nat)
    ensures used <= |inputs| && text == PlainOf(inputs[..used]) && sent == SentOf(inputs[..used])
    ensures ok ==> used > 0 && inputs[used - 1] != [] && Contains(text, sentinels) && NotYet(inputs, used - 1, sentinels)
    ensures !ok ==> used == |inputs| && NotYet(inputs, used, sentinels)
  {
    text, sent, ok, used := [], [], false, 0;
    while used < |inputs|
      invariant used <= |inputs| && text == PlainOf(inputs[..used]) && sent == SentOf(inputs[..used])
      invariant NotYet(inputs, used, sentinels)
    {
      OneMoreRead(inputs, used);
      var reply;
      text, reply := Negotiate(inputs[used], text);
      sent, used := sent + reply, used + 1;
      if inputs[used - 1] != [] {
        if Contains(text, sentinels) {
          ok := true;
          return;
        }
      }
    }
  }
}
