/** The exporter's shell batch: section markers, and the link-down reason ring. */
module SwitchShell {
  import opened Basics
  import opened Text
  import F = ProcVlanFile

  // --- Sections ---------------------------------------------------------------

  function TrimCR(s: string): string {
    if s != "" && s[|s| - 1] == '\r' then TrimCR(s[..|s| - 1]) else s
  }

  predicate IsMark(line: string) {
    |line| >= 2 && line[..2] == "@@"
  }

  /** The splitter between two lines: sections closed so far, the open one's name
      ("" for none) and text. */
  datatype Splitter = Splitter(done: map<string, string>, cur: string, text: string)

  function Close(st: Splitter): map<string, string> {
    if st.cur != "" then st.done[st.cur := st.text] else st.done
  }

  function TakeLine(st: Splitter, line: string): Splitter {
    var t := TrimCR(line);
    if IsMark(t) then Splitter(Close(st), Trim(t[2..]), "")
    else st.(text := st.text + t + "\n")
  }

  function TakeLines(st: Splitter, lines: seq<string>): Splitter
    decreases |lines|
  {
    if lines == [] then st else TakeLines(TakeLine(st, lines[0]), lines[1..])
  }

  method SplitSections(out: string) returns (sections: map<string, string>)
    ensures sections == Close(TakeLines(Splitter(map[], "", ""), Split(out, '\n')))
  {
    sections := map[];
    var cur, b := "", "";
    var lines := Split(out, '\n');
    for k := 0 to |lines|
      invariant TakeLines(Splitter(sections, cur, b), lines[k..]) == TakeLines(Splitter(map[], "", ""), lines)
    {
      assert lines[k..][1..] == lines[k + 1..];
      var t := TrimCR(lines[k]);
      if IsMark(t) {
        if cur != "" {
          sections := sections[cur := b];
        }
        b, cur := "", Trim(t[2..]);
        continue;
      }
      b := b + t + "\n";
    }
    if cur != "" {
      sections := sections[cur := b];
    }
  }

  /** A section as the batch prints it. */
  datatype Section = Section(name: string, lines: seq<string>) {
    ghost predicate Valid() {
      && Tight(name) && '\n' !in name
      && forall i :: 0 <= i < |lines| ==> PlainLine(lines[i])
    }
  }

  ghost predicate PlainLine(l: string) {
    !IsMark(l) && '\n' !in l && (l == "" || l[|l| - 1] != '\r')
  }

  function Printed(ss: seq<Section>): seq<string>
    decreases |ss|
  {
    if ss == [] then [] else ["@@" + ss[0].name] + ss[0].lines + Printed(ss[1..])
  }

  function TextOf(lines: seq<string>): string
    decreases |lines|
  {
    if lines == [] then "" else lines[0] + "\n" + TextOf(lines[1..])
  }

  ghost predicate AllSections(ss: seq<Section>) {
    && (forall i :: 0 <= i < |ss| ==> ss[i].Valid())
    && (forall i, j :: 0 <= i < j < |ss| ==> ss[i].name != ss[j].name)
  }

  lemma {:induction false} TakeBoth(st: Splitter, xs: seq<string>, ys: seq<string>)
    ensures TakeLines(st, xs + ys) == TakeLines(TakeLines(st, xs), ys)
    decreases |xs|
  {
    if xs == [] {
      assert xs + ys == ys;
    } else {
      assert (xs + ys)[1..] == xs[1..] + ys;
      TakeBoth(TakeLine(st, xs[0]), xs[1..], ys);
    }
  }

  lemma {:induction false} TakePlain(st: Splitter, lines: seq<string>)
    requires forall i :: 0 <= i < |lines| ==> PlainLine(lines[i])
    ensures TakeLines(st, lines) == st.(text := st.text + TextOf(lines))
    decreases |lines|
  {
    if lines == [] {
      assert st.text + "" == st.text;
    } else {
      TakeText(st, lines[0]);
      TakePlain(st.(text := st.text + lines[0] + "\n"), lines[1..]);
      assert st.text + lines[0] + "\n" + TextOf(lines[1..]) == st.text + (lines[0] + "\n" + TextOf(lines[1..]));
    }
  }

  lemma TakeText(st: Splitter, l: string)
    requires PlainLine(l)
    ensures TakeLine(st, l) == st.(text := st.text + l + "\n")
  {
  }

  lemma TakeMark(st: Splitter, name: string)
    requires Tight(name)
    ensures TakeLine(st, "@@" + name) == Splitter(Close(st), name, "")
  {
    var line := "@@" + name;
    assert line[|line| - 1] == name[|name| - 1] && line[2..] == name && line[..2] == "@@";
    TrimTight(name);
  }

  /** Filing sections one after the other. */
  function Filed(m: map<string, string>, ss: seq<Section>): map<string, string> {
    if ss == [] then m else Filed(m, ss[..|ss| - 1])[ss[|ss| - 1].name := TextOf(ss[|ss| - 1].lines)]
  }

  lemma {:induction false} FiledIs(ss: seq<Section>)
    requires AllSections(ss)
    ensures Holds(Filed(map[], ss), ss)
  {
    if ss != [] {
      FiledIs(ss[..|ss| - 1]);
      FiledMore(Filed(map[], ss[..|ss| - 1]), ss);
    }
  }

  ghost predicate Holds(m: map<string, string>, ss: seq<Section>) {
    m.Keys == Names(ss) && forall i :: 0 <= i < |ss| ==> m[ss[i].name] == TextOf(ss[i].lines)
  }

  lemma FiledMore(m: map<string, string>, ss: seq<Section>)
    requires AllSections(ss) && ss != [] && Holds(m, ss[..|ss| - 1])
    ensures Holds(m[ss[|ss| - 1].name := TextOf(ss[|ss| - 1].lines)], ss)
  {
    var init, last := ss[..|ss| - 1], ss[|ss| - 1];
    OneMore(ss);
    forall i | 0 <= i < |ss|
      ensures m[last.name := TextOf(last.lines)][ss[i].name] == TextOf(ss[i].lines)
    {
      assert i < |init| ==> init[i] == ss[i];
    }
  }

  lemma OneMore(ss: seq<Section>)
    requires ss != []
    ensures Names(ss) == Names(ss[..|ss| - 1]) + {ss[|ss| - 1].name}
  {
    assert forall i :: 0 <= i < |ss| - 1 ==> ss[..|ss| - 1][i] == ss[i];
  }

  function Names(ss: seq<Section>): set<string> {
    set i | 0 <= i < |ss| :: ss[i].name
  }

  /** With the last section open, all the earlier ones are filed. */
  ghost function AfterSections(m: map<string, string>, ss: seq<Section>): Splitter
    requires ss != []
  {
    var last := ss[|ss| - 1];
    Splitter(Filed(m, ss[..|ss| - 1]), last.name, TextOf(last.lines))
  }

  lemma FiledLast(m: map<string, string>, ss: seq<Section>)
    requires AllSections(ss) && ss != []
    ensures Close(AfterSections(m, ss)) == Filed(m, ss)
  {
    assert ss[|ss| - 1].Valid();
  }

  lemma {:induction false} TakeSections(st: Splitter, ss: seq<Section>)
    requires AllSections(ss) && ss != []
    ensures TakeLines(st, Printed(ss)) == AfterSections(Close(st), ss)
    decreases |ss|
  {
    var init, last := ss[..|ss| - 1], ss[|ss| - 1];
    PrintedBoth(init, last);
    assert ss == init + [last];
    TakeBoth(st, Printed(init), Printed([last]));
    assert Printed([last]) == ["@@" + last.name] + last.lines + [];
    if init == [] {
      OneSection(st, last, []);
      assert TakeLines(st, Printed(ss)) == TakeLines(Splitter(Close(st), last.name, TextOf(last.lines)), []);
    } else {
      TakeSections(st, init);
      FiledLast(Close(st), init);
      OneSection(AfterSections(Close(st), init), last, []);
    }
  }

  lemma {:induction false} PrintedBoth(init: seq<Section>, last: Section)
    ensures Printed(init + [last]) == Printed(init) + Printed([last])
    decreases |init|
  {
    if init == [] {
      assert init + [last] == [last];
    } else {
      assert (init + [last])[1..] == init[1..] + [last];
      PrintedBoth(init[1..], last);
    }
  }

  lemma OneSection(st: Splitter, s: Section, more: seq<string>)
    requires s.Valid()
    ensures TakeLines(st, ["@@" + s.name] + s.lines + more) ==
            TakeLines(Splitter(Close(st), s.name, TextOf(s.lines)), more)
  {
    var begun := Splitter(Close(st), s.name, "");
    TakeBoth(st, ["@@" + s.name] + s.lines, more);
    TakeBoth(st, ["@@" + s.name], s.lines);
    TakeMark(st, s.name);
    TakePlain(begun, s.lines);
    assert "" + TextOf(s.lines) == TextOf(s.lines);
  }

  lemma {:induction false} PrintedLines(ss: seq<Section>)
    requires AllSections(ss)
    ensures forall l | l in Printed(ss) :: '\n' !in l
    decreases |ss|
  {
    if ss != [] {
      PrintedLines(ss[1..]);
    }
  }

  /** Splitting the printed sections gives each of them back by name, line by line,
      whatever lines come before the first; the empty piece after the final newline is
      one more line of the last. */
  lemma SectionsBack(before: seq<string>, ss: seq<Section>)
    requires AllSections(ss) && ss != [] && forall i :: 0 <= i < |before| ==> PlainLine(before[i])
    ensures var m := Close(TakeLines(Splitter(map[], "", ""), Split(Join(before + Printed(ss) + [""], '\n'), '\n')));
            && m.Keys == Names(ss)
            && (forall i :: 0 <= i < |ss| - 1 ==> m[ss[i].name] == TextOf(ss[i].lines))
            && m[ss[|ss| - 1].name] == TextOf(ss[|ss| - 1].lines) + "\n"
  {
    var start, lines := Splitter(map[], "", ""), before + Printed(ss);
    LinesPlain(before, ss);
    SplitJoin(lines + [""], '\n');
    TakeBoth(start, lines, [""]);
    AfterBefore(before, ss);
    LastPiece(ss);
  }

  lemma LinesPlain(before: seq<string>, ss: seq<Section>)
    requires AllSections(ss) && forall i :: 0 <= i < |before| ==> PlainLine(before[i])
    ensures forall l | l in before + Printed(ss) + [""] :: '\n' !in l
  {
    PrintedLines(ss);
    assert forall l | l in before :: '\n' !in l;
  }

  /** What comes before the first section is in none. */
  lemma AfterBefore(before: seq<string>, ss: seq<Section>)
    requires AllSections(ss) && ss != [] && forall i :: 0 <= i < |before| ==> PlainLine(before[i])
    ensures TakeLines(Splitter(map[], "", ""), before + Printed(ss)) == AfterSections(map[], ss)
  {
    var start := Splitter(map[], "", "");
    TakeBoth(start, before, Printed(ss));
    TakePlain(start, before);
    TakeSections(start.(text := start.text + TextOf(before)), ss);
  }

  /** Carriage returns at the end of a line make no difference. */
  lemma {:induction false} ReturnsDropped(st: Splitter, line: string, n: nat)
    ensures TakeLine(st, line + seq(n, _ => '\r')) == TakeLine(st, line)
  {
    var s := line + seq(n, _ => '\r');
    if n == 0 {
      assert s == line;
    } else {
      assert s[..|s| - 1] == line + seq(n - 1, _ => '\r');
      ReturnsDropped(st, line, n - 1);
    }
  }

  lemma LastPiece(ss: seq<Section>)
    requires AllSections(ss) && ss != []
    ensures var m := Close(TakeLines(AfterSections(map[], ss), [""]));
            && m.Keys == Names(ss)
            && (forall i :: 0 <= i < |ss| - 1 ==> m[ss[i].name] == TextOf(ss[i].lines))
            && m[ss[|ss| - 1].name] == TextOf(ss[|ss| - 1].lines) + "\n"
  {
    var init, last := ss[..|ss| - 1], ss[|ss| - 1];
    var r := AfterSections(map[], ss);
    TakeText(r, "");
    assert TakeLines(r, [""]) == TakeLine(r, "");
    assert r.text + "" + "\n" == r.text + "\n";
    FiledIs(init);
    OneMore(ss);
    assert forall i :: 0 <= i < |init| ==> init[i] == ss[i];
  }

  // --- The link-down ring -----------------------------------------------------

  function Fields(s: string): seq<string>
    decreases |s|
  {
    if s == "" then []
    else if IsSpace(s[0]) then Fields(s[1..])
    else
      var w := FirstWord(s);
      [w] + Fields(s[|w|..])
  }

  function FirstWord(s: string): (w: string)
    ensures |w| <= |s| && (s != "" && !IsSpace(s[0]) ==> w != "")
  {
    if s == "" || IsSpace(s[0]) then "" else [s[0]] + FirstWord(s[1..])
  }

  function Lower(s: string): string {
    if s == "" then "" else [if 'A' <= s[0] <= 'Z' then (s[0] as int + 32) as char else s[0]] + Lower(s[1..])
  }

  predicate HasPrefix(s: string, p: string) {
    |p| <= |s| && s[..|p|] == p
  }

  predicate HasInside(s: string, p: string) {
    HasPrefix(s, p) || (s != "" && HasInside(s[1..], p))
  }

  lemma PrefixExactly(s: string, p: string)
    ensures HasPrefix(s, p) <==> exists b :: s == p + b
  {
    if HasPrefix(s, p) {
      assert s == p + s[|p|..];
    }
  }

  /** A text is inside another exactly if it stands somewhere in it. */
  lemma {:induction false} InsideExactly(s: string, p: string)
    ensures HasInside(s, p) <==> exists a, b :: s == a + p + b
  {
    if HasInside(s, p) {
      var a, b := InsideWhere(s, p);
    }
    forall a, b | s == a + p + b
      ensures HasInside(s, p)
    {
      InsideThere(a, p, b);
    }
  }

  lemma {:induction false} InsideThere(a: string, p: string, b: string)
    ensures HasInside(a + p + b, p)
  {
    var s := a + p + b;
    if a == "" {
      assert s[..|p|] == p;
    } else {
      assert s[1..] == a[1..] + p + b;
      InsideThere(a[1..], p, b);
    }
  }

  lemma {:induction false} InsideWhere(s: string, p: string) returns (a: string, b: string)
    requires HasInside(s, p)
    ensures s == a + p + b
  {
    if HasPrefix(s, p) {
      a, b := "", s[|p|..];
    } else {
      a, b := InsideWhere(s[1..], p);
      a := [s[0]] + a;
    }
  }

  /** Capitals become small letters, everything else stays. */
  lemma {:induction false} LowerExactly(s: string, i: nat)
    requires i < |s|
    ensures |Lower(s)| == |s|
    ensures forall k :: 0 <= k < 26 && s[i] == "ABCDEFGHIJKLMNOPQRSTUVWXYZ"[k] ==>
              Lower(s)[i] == "abcdefghijklmnopqrstuvwxyz"[k]
    ensures s[i] !in "ABCDEFGHIJKLMNOPQRSTUVWXYZ" ==> Lower(s)[i] == s[i]
  {
    LowerAt(s, i);
    Alphabets();
    if 'A' <= s[i] <= 'Z' {
      assert s[i] == "ABCDEFGHIJKLMNOPQRSTUVWXYZ"[s[i] as int - 'A' as int];
    }
  }

  lemma {:induction false} LowerAt(s: string, i: nat)
    requires i < |s|
    ensures |Lower(s)| == |s|
    ensures Lower(s)[i] == if 'A' <= s[i] <= 'Z' then (s[i] as int + 32) as char else s[i]
  {
    if |s| > 1 {
      LowerAt(s[1..], if i == 0 then 0 else i - 1);
    }
  }

  lemma Alphabets()
    ensures forall k :: 0 <= k < 26 ==> "ABCDEFGHIJKLMNOPQRSTUVWXYZ"[k] == ('A' as int + k) as char
    ensures forall k :: 0 <= k < 26 ==> "abcdefghijklmnopqrstuvwxyz"[k] == ('a' as int + k) as char
  {
  }

  /** The words of a text, whatever white space stands between them. */
  lemma {:induction false} FieldsFirst(a: string, w: string, b: string)
    requires White(a) && w != "" && (forall i :: 0 <= i < |w| ==> !White([w[i]])) && (b == "" || White([b[0]]))
    ensures Fields(a + w + b) == [w] + Fields(b)
  {
    var s := a + w + b;
    if a != "" {
      WhiteIsSpace(a[0]);
      assert [a[0]][0] == a[0] && s[1..] == a[1..] + w + b;
      FieldsFirst(a[1..], w, b);
    } else {
      assert s == w + b;
      WhiteIsSpace(w[0]);
      WordFirst(w, b);
    }
  }

  lemma {:induction false} WordFirst(w: string, b: string)
    requires (forall i :: 0 <= i < |w| ==> !White([w[i]])) && (b == "" || White([b[0]]))
    ensures FirstWord(w + b) == w
  {
    if w == "" {
      assert w + b == b;
      if b != "" {
        WhiteIsSpace(b[0]);
      }
    } else {
      WhiteIsSpace(w[0]);
      assert (w + b)[1..] == w[1..] + b;
      WordFirst(w[1..], b);
    }
  }

  lemma {:induction false} FieldsNone(a: string)
    requires White(a)
    ensures Fields(a) == []
  {
    if a != "" {
      assert [a[0]][0] == a[0];
      WhiteIsSpace(a[0]);
      FieldsNone(a[1..]);
    }
  }

  /** How the number parser reads a timestamp. */
  type ParseFloat = string -> Option<real>

  datatype Reason = Reason(text: string, ts: real)

  /** One ring entry, "<ts> (<code>)<reason>"; None for an empty slot. */
  function ParseReasonEntry(s: string, float: ParseFloat): (r: Option<Reason>)
    ensures r.Some? ==> r.value.text != ""
  {
    var fields := Fields(s);
    if |fields| < 2 || HasPrefix(fields[0], "0.000000000") || float(fields[0]) == None then None
    else
      var rest := Trim(Join(fields[1..], ' '));
      var close := Index(rest, ')');
      var text := Trim(if close >= 0 && HasPrefix(rest, "(") then rest[close + 1..] else rest);
      if text == "" || Lower(text) == "unknown" then None else Some(Reason(text, float(fields[0]).value))
  }

  /** What a line of the file is. */
  datatype Kind = PortHeader(port: string) | LogHeader | TmpHeader | Entry(reason: Option<Reason>) | Blank

  function Classify(raw: string, float: ParseFloat): (k: Kind)
    ensures k.Entry? && k.reason.Some? ==> k.reason.value.text != ""
  {
    var line := Trim(raw);
    if HasPrefix(line, "port ") && HasInside(line, "(cur:") then PortHeader(F.PortNumFromName(line))
    else if HasPrefix(line, "reason log") then LogHeader
    else if HasPrefix(line, "tmp reason") then TmpHeader
    else if line == "" then Blank
    else Entry(ParseReasonEntry(line, float))
  }

  /** The three gauges: entries per port, the reasons shown, the last timestamp. */
  datatype Ring = Ring(events: map<string, nat>, reasons: set<(string, string)>, lastTs: map<string, real>)

  function Counted(r: Option<Reason>, inLog: bool): seq<Reason> {
    if inLog && r.Some? then [r.value] else []
  }

  /** One port's part of the file, by definition: the real entries of its reason log,
      newest first. */
  function LogEntries(kinds: seq<Kind>, inLog: bool): seq<Reason>
    decreases |kinds|
  {
    if kinds == [] then []
    else
      match kinds[0]
      case LogHeader => LogEntries(kinds[1..], true)
      case TmpHeader => LogEntries(kinds[1..], false)
      case Entry(r) => Counted(r, inLog) + LogEntries(kinds[1..], inLog)
      case _ => LogEntries(kinds[1..], inLog)
  }

  /** A port shows how many real entries its log has, and of the newest the reason
      and time; "none" and 0 if there is none. A block without a name shows nothing. */
  function Publish(ring: Ring, port: string, log: seq<Reason>): Ring {
    if port == "" then ring
    else
      var reason := if log == [] then "none" else log[0].text;
      var ts := if log == [] then 0.0 else log[0].ts;
      Ring(ring.events[port := |log|], ring.reasons + {(port, reason)}, ring.lastTs[port := ts])
  }

  /** The length of the block in front: everything before the next port header. */
  function BlockLength(kinds: seq<Kind>): (n: nat)
    ensures n <= |kinds|
    ensures forall i :: 0 <= i < n ==> !kinds[i].PortHeader?
    ensures n < |kinds| ==> kinds[n].PortHeader?
  {
    if kinds == [] || kinds[0].PortHeader? then 0 else 1 + BlockLength(kinds[1..])
  }

  /** The whole file, block by block; lines before the first header belong to none. */
  function PublishAll(ring: Ring, kinds: seq<Kind>): Ring
    decreases |kinds|
  {
    if kinds == [] then ring
    else if !kinds[0].PortHeader? then PublishAll(ring, kinds[1..])
    else
      var n := BlockLength(kinds[1..]);
      PublishAll(Publish(ring, kinds[0].port, LogEntries(kinds[1..][..n], false)), kinds[1..][n..])
  }

  // --- What the gauges say ----------------------------------------------------

  /** One port's block of the file. */
  datatype Block = Block(port: string, body: seq<Kind>) {
    ghost predicate Valid() {
      port != "" && forall i :: 0 <= i < |body| ==> !body[i].PortHeader?
    }

    function Log(): seq<Reason> {
      LogEntries(body, false)
    }

    function Label(): (string, string) {
      (port, if Log() == [] then "none" else Log()[0].text)
    }

    ghost predicate ShownBy(r: Ring) {
      && port in r.events && r.events[port] == |Log()|
      && port in r.lastTs && r.lastTs[port] == (if Log() == [] then 0.0 else Log()[0].ts)
      && Label() in r.reasons
    }
  }

  function Flat(bs: seq<Block>): seq<Kind>
    decreases |bs|
  {
    if bs == [] then [] else [PortHeader(bs[0].port)] + (bs[0].body + Flat(bs[1..]))
  }

  ghost predicate AllBlocks(bs: seq<Block>) {
    && (forall i :: 0 <= i < |bs| ==> bs[i].Valid())
    && (forall i, j :: 0 <= i < j < |bs| ==> bs[i].port != bs[j].port)
  }

  lemma {:induction false} BodyLength(body: seq<Kind>, rest: seq<Kind>)
    requires (forall i :: 0 <= i < |body| ==> !body[i].PortHeader?) && (rest != [] ==> rest[0].PortHeader?)
    ensures BlockLength(body + rest) == |body|
  {
    if body == [] {
      assert body + rest == rest;
    } else {
      assert (body + rest)[1..] == body[1..] + rest;
      BodyLength(body[1..], rest);
    }
  }

  lemma BlockInFront(ring: Ring, b: Block, rest: seq<Kind>)
    requires b.Valid() && (rest != [] ==> rest[0].PortHeader?)
    ensures PublishAll(ring, [PortHeader(b.port)] + (b.body + rest)) == PublishAll(Publish(ring, b.port, b.Log()), rest)
  {
    var kinds := [PortHeader(b.port)] + (b.body + rest);
    var more := kinds[1..];
    assert more == b.body + rest;
    BodyLength(b.body, rest);
    var n := |b.body|;
    assert more[..n] == b.body && more[n..] == rest;
  }

  /** Ports the file does not mention keep what they show. */
  ghost predicate Others(before: Ring, after: Ring, bs: seq<Block>) {
    && (forall p | p in before.events && (forall i :: 0 <= i < |bs| ==> bs[i].port != p) ::
          p in after.events && after.events[p] == before.events[p])
    && (forall p | p in before.lastTs && (forall i :: 0 <= i < |bs| ==> bs[i].port != p) ::
          p in after.lastTs && after.lastTs[p] == before.lastTs[p])
    && before.reasons <= after.reasons
  }

  /** Nothing is shown that is neither old nor from the file. */
  ghost predicate NothingElse(before: Ring, after: Ring, bs: seq<Block>) {
    && (forall p | p in after.events :: p in before.events || exists i :: 0 <= i < |bs| && bs[i].port == p)
    && (forall p | p in after.lastTs :: p in before.lastTs || exists i :: 0 <= i < |bs| && bs[i].port == p)
    && (forall x | x in after.reasons :: x in before.reasons || exists i :: 0 <= i < |bs| && bs[i].Label() == x)
  }

  /** A file of blocks for different ports: every port shows its own block, with one
      reason, and nothing else is shown. */
  lemma {:induction false} ShowsEachPort(ring: Ring, bs: seq<Block>)
    requires AllBlocks(bs)
    ensures var r := PublishAll(ring, Flat(bs));
            && (forall i :: 0 <= i < |bs| ==> bs[i].ShownBy(r))
            && Others(ring, r, bs) && NothingElse(ring, r, bs)
    decreases |bs|
  {
    if bs != [] {
      var b, rest := bs[0], bs[1..];
      var next, r := Publish(ring, b.port, b.Log()), PublishAll(ring, Flat(bs));
      BlockInFront(ring, b, Flat(rest));
      ShowsEachPort(next, rest);
      FirstShown(ring, next, r, bs);
      FirstOnly(ring, next, r, bs);
    }
  }

  lemma FirstShown(ring: Ring, next: Ring, r: Ring, bs: seq<Block>)
    requires AllBlocks(bs) && bs != [] && next == Publish(ring, bs[0].port, bs[0].Log())
    requires forall i :: 0 <= i < |bs[1..]| ==> bs[1..][i].ShownBy(r)
    requires Others(next, r, bs[1..])
    ensures forall i :: 0 <= i < |bs| ==> bs[i].ShownBy(r)
    ensures Others(ring, r, bs)
  {
    assert forall i :: 0 <= i < |bs[1..]| ==> bs[1..][i] == bs[i + 1];
    assert bs[0].ShownBy(next);
    forall i | 0 <= i < |bs|
      ensures bs[i].ShownBy(r)
    {
      assert i > 0 ==> bs[i] == bs[1..][i - 1];
    }
  }

  lemma FirstOnly(ring: Ring, next: Ring, r: Ring, bs: seq<Block>)
    requires bs != [] && next == Publish(ring, bs[0].port, bs[0].Log()) && NothingElse(next, r, bs[1..])
    ensures NothingElse(ring, r, bs)
  {
    var rest := bs[1..];
    forall x | x in r.reasons && x !in ring.reasons
      ensures exists i :: 0 <= i < |bs| && bs[i].Label() == x
    {
      if x != bs[0].Label() {
        var i :| 0 <= i < |rest| && rest[i].Label() == x;
        assert bs[i + 1].Label() == x;
      }
    }
    forall p | (p in r.events && p !in ring.events) || (p in r.lastTs && p !in ring.lastTs)
      ensures exists i :: 0 <= i < |bs| && bs[i].port == p
    {
      if p != bs[0].port {
        var i :| 0 <= i < |rest| && rest[i].port == p;
        assert bs[i + 1].port == p;
      }
    }
  }

  // --- The single pass --------------------------------------------------------

  /** The rest of an open block, and then the rest of the file. */
  ghost function Finish(ring: Ring, port: string, inLog: bool, log: seq<Reason>, kinds: seq<Kind>): Ring {
    var n := BlockLength(kinds);
    PublishAll(Publish(ring, port, log + LogEntries(kinds[..n], inLog)), kinds[n..])
  }

  /** Before the first port header nothing is shown. */
  lemma {:induction false} Start(ring: Ring, kinds: seq<Kind>)
    ensures Finish(ring, "", false, [], kinds) == PublishAll(ring, kinds)
    decreases |kinds|
  {
    if kinds != [] && !kinds[0].PortHeader? {
      var n := BlockLength(kinds);
      assert kinds[n..] == kinds[1..][n - 1..];
      Start(ring, kinds[1..]);
    } else {
      assert kinds[0..] == kinds;
    }
  }

  /** One line further into an open block. */
  lemma Further(ring: Ring, port: string, inLog: bool, log: seq<Reason>, kinds: seq<Kind>)
    requires kinds != [] && !kinds[0].PortHeader?
    ensures var k := kinds[0];
            var inLog' := if k.LogHeader? then true else if k.TmpHeader? then false else inLog;
            var log' := if k.Entry? && inLog && k.reason.Some? then log + [k.reason.value] else log;
            Finish(ring, port, inLog, log, kinds) == Finish(ring, port, inLog', log', kinds[1..])
  {
    var n := BlockLength(kinds);
    assert kinds[n..] == kinds[1..][n - 1..];
    assert kinds[..n][1..] == kinds[1..][..n - 1];
    if kinds[0].Entry? {
      CountedFirst(log, Counted(kinds[0].reason, inLog), LogEntries(kinds[1..][..n - 1], inLog));
    }
  }

  lemma CountedFirst(log: seq<Reason>, one: seq<Reason>, more: seq<Reason>)
    ensures log + (one + more) == (log + one) + more
    ensures log + [] == log
  {
  }

  /** A port header closes the open block and opens its own. */
  lemma NextBlock(ring: Ring, port: string, inLog: bool, log: seq<Reason>, kinds: seq<Kind>)
    requires kinds != [] && kinds[0].PortHeader?
    ensures Finish(ring, port, inLog, log, kinds) ==
            Finish(Publish(ring, port, log), kinds[0].port, false, [], kinds[1..])
  {
    assert kinds[0..] == kinds && kinds[..0] == [];
    assert log + [] == log;
    var n := BlockLength(kinds[1..]);
    assert [] + LogEntries(kinds[1..][..n], false) == LogEntries(kinds[1..][..n], false);
  }

  /** At the end of the file the open block is closed. */
  lemma LastBlock(ring: Ring, port: string, inLog: bool, log: seq<Reason>)
    ensures Finish(ring, port, inLog, log, []) == Publish(ring, port, log)
  {
    assert log + [] == log;
  }

  function Kinds(lines: seq<string>, float: ParseFloat): (r: seq<Kind>)
    ensures |r| == |lines| && forall i :: 0 <= i < |lines| ==> r[i] == Classify(lines[i], float)
  {
    if lines == [] then [] else [Classify(lines[0], float)] + Kinds(lines[1..], float)
  }

  /** The lines a scanner yields: no empty one after the last newline. */
  function ScanLines(s: string): seq<string> {
    var parts := Split(s, '\n');
    if parts[|parts| - 1] == "" then parts[..|parts| - 1] else parts
  }

  const EMPTY := Ring(map[], {}, map[])

  /** What the single pass keeps of the log it has read so far. */
  ghost predicate Tracks(log: seq<Reason>, count: nat, last: string, lastTs: real) {
    && count == |log|
    && (if log == [] then last == "" && lastTs == 0.0 else last == log[0].text && lastTs == log[0].ts && last != "")
  }

  lemma Shown(ring: Ring, port: string, log: seq<Reason>, count: nat, last: string, lastTs: real)
    requires Tracks(log, count, last, lastTs) && port != ""
    ensures Publish(ring, port, log) ==
            Ring(ring.events[port := count], ring.reasons + {(port, if last == "" then "none" else last)},
                 ring.lastTs[port := lastTs])
  {
  }

  /** The exporter's link-down gauges, kept between polls. */
  class Poller {
    var ring: Ring

    method Flush(port: string, count: nat, last: string, lastTs: real, ghost log: seq<Reason>)
      requires Tracks(log, count, last, lastTs)
      modifies this
      ensures ring == Publish(old(ring), port, log)
    {
      if port == "" {
        return;
      }
      Shown(ring, port, log, count, last, lastTs);
      ring := Ring(ring.events[port := count], ring.reasons + {(port, if last == "" then "none" else last)},
                   ring.lastTs[port := lastTs]);
    }

    /** The single pass shows what the definition block by block shows. */
    method ParseLinkdown(s: string, float: ParseFloat)
      modifies this
      ensures ring == if s == "" then old(ring) else PublishAll(EMPTY, Kinds(ScanLines(s), float))
    {
      if s == "" {
        return;
      }
      ring := EMPTY;
      var port, inLog, count: nat, last, lastTs := "", false, 0, "", 0.0;
      ghost var log: seq<Reason> := [];
      var lines := ScanLines(s);
      ghost var kinds := Kinds(lines, float);
      Start(ring, kinds);
      for i := 0 to |lines|
        invariant Tracks(log, count, last, lastTs)
        invariant Finish(ring, port, inLog, log, kinds[i..]) == Finish(EMPTY, "", false, [], kinds)
      {
        var k := Classify(lines[i], float);
        assert kinds[i..][0] == k && kinds[i..][1..] == kinds[i + 1..];
        if k.PortHeader? {
          NextBlock(ring, port, inLog, log, kinds[i..]);
          Flush(port, count, last, lastTs, log);
          port, inLog, count, last, lastTs, log := k.port, false, 0, "", 0.0, [];
          continue;
        }
        Further(ring, port, inLog, log, kinds[i..]);
        if k.LogHeader? {
          inLog := true;
        } else if k.TmpHeader? {
          inLog := false;
        } else if k.Entry? && inLog && k.reason.Some? {
          count := count + 1;
          if last == "" {
            last, lastTs := k.reason.value.text, k.reason.value.ts;
          }
          log := log + [k.reason.value];
        }
      }
      assert kinds[|lines|..] == [];
      LastBlock(ring, port, inLog, log);
      Flush(port, count, last, lastTs, log);
    }
  }
}
