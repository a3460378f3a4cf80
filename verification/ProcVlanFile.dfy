/** The whole /proc/vlan file: a membership table, then the PVID of each port. */
module ProcVlanFile {
  import opened Basics
  import opened Text
  import opened ProcVlan

  // --- The parser -------------------------------------------------------------

  function LastWord(s: string): string {
    if s == "" || IsSpace(s[|s| - 1]) then "" else LastWord(s[..|s| - 1]) + [s[|s| - 1]]
  }

  function TrailingDigits(s: string): string {
    if s == "" || !IsDigit(s[|s| - 1]) then "" else TrailingDigits(s[..|s| - 1]) + [s[|s| - 1]]
  }

  /** The trailing number of an interface name, or the name itself. */
  function PortNumFromName(name: string): string {
    var s0 := Trim(name);
    var s1 := if s0 != "" && s0[|s0| - 1] == ':' then s0[..|s0| - 1] else s0;
    var i := Index(s1, '(');
    var s2 := if i >= 0 then Trim(s1[..i]) else s1;
    var word := LastWord(TrimRight(s2));
    var s3 := if word != "" then word else s2;
    var digits := TrailingDigits(s3);
    if digits == "" then s3 else digits
  }

  type Members = map<(string, string), int>

  datatype Scan = Scan(inPvid: bool, member: Members, pvid: map<string, int>)

  function Assign(m: Members, vid: string, ports: seq<string>, mode: int): Members
    decreases |ports|
  {
    if ports == [] then m else Assign(m[(vid, ports[0]) := mode], vid, ports[1..], mode)
  }

  function HeadVid(head: string): string {
    var i := Index(head, '(');
    Trim(if i >= 0 then head[..i] else head)
  }

  function IsPvidMark(line: string): bool {
    |line| >= 4 && line[..4] == "PVID"
  }

  function PvidRow(sc: Scan, head: string, rest: string): Scan {
    var port, v := PortNumFromName(Trim(head)), Atoi(Trim(rest));
    if v == None || port == "" then sc else sc.(pvid := sc.pvid[port := v.value])
  }

  function VlanRow(sc: Scan, head: string, rest: string): Scan {
    var vid := HeadVid(head);
    if Atoi(vid) == None then sc
    else
      var halves := Cut(rest, '|');
      var untag := if halves.Whole? then rest else halves.before;
      var tag := if halves.Whole? then "" else halves.after;
      sc.(member := Assign(Assign(sc.member, vid, Expand(untag), UNTAGGED), vid, Expand(tag), TAGGED))
  }

  function ParseLine(sc: Scan, raw: string): Scan {
    var line := Trim(raw);
    if line == "" then sc
    else if IsPvidMark(line) then sc.(inPvid := true)
    else
      match Cut(line, ':')
      case Whole => sc
      case Parts(head, rest) =>
        if sc.inPvid then PvidRow(sc, head, rest) else VlanRow(sc, head, rest)
  }

  function ParseLines(sc: Scan, lines: seq<string>): Scan
    decreases |lines|
  {
    if lines == [] then sc else ParseLines(ParseLine(sc, lines[0]), lines[1..])
  }

  function Parse(s: string): Scan {
    ParseLines(Scan(false, map[], map[]), Split(s, '\n'))
  }

  /** The exporter's gauges, kept between polls. */
  class Poller {
    var member: Members
    var pvid: map<string, int>

    /** No output leaves the gauges alone; any output replaces them all. */
    method ParseVLAN(s: string)
      modifies this
      ensures s == "" ==> member == old(member) && pvid == old(pvid)
      ensures s != "" ==> member == Parse(s).member && pvid == Parse(s).pvid
    {
      if s == "" {
        return;
      }
      member, pvid := map[], map[];
      var inPvid := false;
      var lines := Split(s, '\n');
      for k := 0 to |lines|
        invariant ParseLines(Scan(inPvid, member, pvid), lines[k..]) == Parse(s)
      {
        assert lines[k..][1..] == lines[k + 1..];
        ghost var next := ParseLine(Scan(inPvid, member, pvid), lines[k]);
        var line := Trim(lines[k]);
        if line == "" {
          continue;
        }
        if IsPvidMark(line) {
          inPvid := true;
          continue;
        }
        var parts := Cut(line, ':');
        if parts.Whole? {
          continue;
        }
        if inPvid {
          var port, v := PortNumFromName(Trim(parts.before)), Atoi(Trim(parts.after));
          if v != None && port != "" {
            pvid := pvid[port := v.value];
          }
          continue;
        }
        var vid := HeadVid(parts.before);
        if Atoi(vid) == None {
          continue;
        }
        var halves := Cut(parts.after, '|');
        var untag := ExpandPortList(if halves.Whole? then parts.after else halves.before);
        SetAll(vid, untag, UNTAGGED);
        var tag := ExpandPortList(if halves.Whole? then "" else halves.after);
        SetAll(vid, tag, TAGGED);
      }
    }

    method SetAll(vid: string, ports: seq<string>, mode: int)
      modifies this`member
      ensures member == Assign(old(member), vid, ports, mode)
    {
      for k := 0 to |ports|
        invariant Assign(member, vid, ports[k..], mode) == Assign(old(member), vid, ports, mode)
      {
        assert ports[k..][1..] == ports[k + 1..];
        member := member[(vid, ports[k]) := mode];
      }
    }
  }

  // --- The file ---------------------------------------------------------------

  /** One VLAN: every member port is either untagged or tagged. */
  datatype Vlan = Vlan(vid: nat, group: nat, untagged: seq<nat>, tagged: seq<nat>) {
    ghost predicate Valid() {
      && vid <= MAX_INT && Fits(untagged) && Fits(tagged)
      && forall i, j :: 0 <= i < |untagged| && 0 <= j < |tagged| ==> untagged[i] != tagged[j]
    }
  }

  /** One line of the PVID block: an interface name, its number, its PVID. */
  datatype Pvid = Pvid(name: string, port: nat, vid: nat) {
    ghost predicate Valid() {
      && vid <= MAX_INT && name != "" && !IsPvidMark(name)
      && forall i :: 0 <= i < |name| ==> IsLetter(name[i])
    }
  }

  const HEADER := "vid" + "(" + "group id)" + ":" + " utagged member| tagged member"

  function Tail(ports: seq<nat>, prefix: nat -> string): string {
    if ports == [] then "" else " " + RunsText(Compress(ports, prefix))
  }

  function Head(v: Vlan): string {
    Itoa(v.vid) + "(" + Itoa(v.group) + ")"
  }

  function VlanLine(v: Vlan, prefix: nat -> string): string {
    Head(v) + ":" + (" " + RunsText(Compress(v.untagged, prefix)) + " " + "|" + Tail(v.tagged, prefix))
  }

  function PvidLine(e: Pvid): string {
    e.name + Itoa(e.port) + ":" + (" " + Itoa(e.vid))
  }

  function VlanLines(vs: seq<Vlan>, prefix: nat -> string): seq<string> {
    if vs == [] then [] else [VlanLine(vs[0], prefix)] + VlanLines(vs[1..], prefix)
  }

  function PvidLines(es: seq<Pvid>): seq<string> {
    if es == [] then [] else [PvidLine(es[0])] + PvidLines(es[1..])
  }

  function Render(vs: seq<Vlan>, es: seq<Pvid>, prefix: nat -> string): string {
    Join([HEADER] + VlanLines(vs, prefix) + ["PVID"] + PvidLines(es) + [""], '\n')
  }

  // --- One line back ----------------------------------------------------------

  lemma HeadChars(v: Vlan)
    ensures ':' !in Head(v) && '\n' !in Head(v)
    ensures Atoi(HeadVid(Head(v))) == Atoi(Itoa(v.vid)) && HeadVid(Head(v)) == Itoa(v.vid)
  {
    assert Head(v) == Itoa(v.vid) + ['('] + (Itoa(v.group) + ")");
    IndexAt(Itoa(v.vid), '(', Itoa(v.group) + ")");
    assert Head(v)[..|Itoa(v.vid)|] == Itoa(v.vid);
    TrimTight(Itoa(v.vid));
  }

  lemma ListChars(ports: seq<nat>, prefix: nat -> string)
    requires Names(prefix) && Fits(ports)
    ensures var t := RunsText(Compress(ports, prefix)); '|' !in t && '\n' !in t && (ports != [] ==> Tight(t))
  {
    CompressKeeps(ports, prefix);
    RunsChars(Compress(ports, prefix));
  }

  lemma VlanLineShape(v: Vlan, prefix: nat -> string)
    requires v.Valid() && Names(prefix)
    ensures Tight(VlanLine(v, prefix)) && '\n' !in VlanLine(v, prefix)
    ensures IsDigit(VlanLine(v, prefix)[0])
  {
    HeadChars(v);
    ListChars(v.untagged, prefix);
    ListChars(v.tagged, prefix);
    assert IsDigit(Head(v)[0]);
    RowShape(Head(v), RunsText(Compress(v.untagged, prefix)), Tail(v.tagged, prefix));
  }

  lemma RowShape(head: string, untagged: string, tail: string)
    requires head != "" && IsDigit(head[0]) && '\n' !in head && '\n' !in untagged && '\n' !in tail
    requires tail == "" || !IsSpace(tail[|tail| - 1])
    ensures var line := head + ":" + (" " + untagged + " " + "|" + tail);
            Tight(line) && '\n' !in line && IsDigit(line[0])
  {
  }

  lemma MemberLists(v: Vlan, prefix: nat -> string)
    requires v.Valid() && Names(prefix)
    ensures var rest := " " + RunsText(Compress(v.untagged, prefix)) + " " + "|" + Tail(v.tagged, prefix);
            && Cut(rest, '|').Parts?
            && Expand(Cut(rest, '|').before) == Labels(v.untagged)
            && Expand(Cut(rest, '|').after) == Labels(v.tagged)
  {
    ListChars(v.untagged, prefix);
    CutMembers(RunsText(Compress(v.untagged, prefix)), Tail(v.tagged, prefix));
    UntaggedList(v.untagged, prefix);
    TailList(v.tagged, prefix);
  }

  lemma CutMembers(untagged: string, tail: string)
    requires '|' !in untagged
    ensures Cut(" " + untagged + " " + "|" + tail, '|') == Parts(" " + untagged + " ", tail)
  {
    CutAt(" " + untagged + " ", '|', tail);
  }

  lemma UntaggedList(untagged: seq<nat>, prefix: nat -> string)
    requires Names(prefix) && Fits(untagged)
    ensures Expand(" " + RunsText(Compress(untagged, prefix)) + " ") == Labels(untagged)
  {
    ExpandCompress(untagged, prefix, 1, 1);
    OneSpace();
  }

  lemma OneSpace()
    ensures " " == Spaces(1)
  {
  }

  lemma TailList(tagged: seq<nat>, prefix: nat -> string)
    requires Names(prefix) && Fits(tagged)
    ensures Expand(Tail(tagged, prefix)) == Labels(tagged)
  {
    var l := if tagged == [] then 0 else 1;
    TailPadded(tagged, prefix);
    ExpandCompress(tagged, prefix, l, 0);
  }

  lemma TailPadded(tagged: seq<nat>, prefix: nat -> string)
    ensures Tail(tagged, prefix) ==
            Spaces(if tagged == [] then 0 else 1) + RunsText(Compress(tagged, prefix)) + Spaces(0)
  {
  }

  function AddVlan(m: Members, v: Vlan): Members {
    Assign(Assign(m, Itoa(v.vid), Labels(v.untagged), UNTAGGED), Itoa(v.vid), Labels(v.tagged), TAGGED)
  }

  lemma VlanLineBack(sc: Scan, v: Vlan, prefix: nat -> string)
    requires v.Valid() && Names(prefix) && !sc.inPvid
    ensures ParseLine(sc, VlanLine(v, prefix)) == sc.(member := AddVlan(sc.member, v))
  {
    var line := VlanLine(v, prefix);
    var rest := " " + RunsText(Compress(v.untagged, prefix)) + " " + "|" + Tail(v.tagged, prefix);
    VlanLineShape(v, prefix);
    TrimTight(line);
    HeadChars(v);
    assert line == Head(v) + [':'] + rest;
    CutAt(Head(v), ':', rest);
    AtoiOfItoa(v.vid);
    MemberLists(v, prefix);
    assert !IsPvidMark(line) by {
      assert "PVID"[0] == 'P';
    }
  }

  lemma {:induction false} TrailingOf(letters: string, digits: string)
    requires AllDigits(digits) && (letters == "" || !IsDigit(letters[|letters| - 1]))
    ensures TrailingDigits(letters + digits) == digits
  {
    var s := letters + digits;
    if digits == "" {
      assert s == letters;
    } else {
      var d := digits[..|digits| - 1];
      assert s[..|s| - 1] == letters + d && s[|s| - 1] == digits[|digits| - 1];
      TrailingOf(letters, d);
      assert digits == d + [digits[|digits| - 1]];
    }
  }

  lemma {:induction false} WordOf(s: string)
    requires forall i :: 0 <= i < |s| ==> !IsSpace(s[i])
    ensures LastWord(s) == s
  {
    if s != "" {
      WordOf(s[..|s| - 1]);
      assert s == s[..|s| - 1] + [s[|s| - 1]];
    }
  }

  /** The port number comes back from a name ending in it. */
  lemma PortOfName(e: Pvid)
    requires e.Valid()
    ensures PortNumFromName(e.name + Itoa(e.port)) == Itoa(e.port)
  {
    var s := e.name + Itoa(e.port);
    assert forall i :: 0 <= i < |s| ==> !IsSpace(s[i]) && s[i] != ':' && s[i] != '(';
    TrimTight(s);
    assert Index(s, '(') < 0;
    WordOf(s);
    TrailingOf(e.name, Itoa(e.port));
  }

  lemma MarkIsLetters(line: string)
    requires IsPvidMark(line)
    ensures forall i :: 0 <= i < 4 ==> IsLetter(line[i])
  {
    assert forall i :: 0 <= i < 4 ==> line[i] == line[..4][i];
  }

  lemma PvidLineShape(e: Pvid)
    requires e.Valid()
    ensures Tight(PvidLine(e)) && '\n' !in PvidLine(e) && !IsPvidMark(PvidLine(e))
  {
    var line, n := PvidLine(e), |e.name|;
    assert n >= 4 ==> line[..4] == e.name[..4];
    assert n < 4 ==> IsDigit(line[n]);
    if IsPvidMark(line) {
      MarkIsLetters(line);
    }
  }

  lemma PvidLineCut(e: Pvid)
    requires e.Valid()
    ensures Trim(PvidLine(e)) == PvidLine(e) != "" && !IsPvidMark(PvidLine(e))
    ensures Cut(PvidLine(e), ':') == Parts(e.name + Itoa(e.port), " " + Itoa(e.vid))
  {
    var name := e.name + Itoa(e.port);
    PvidLineShape(e);
    TrimTight(PvidLine(e));
    assert PvidLine(e) == name + [':'] + (" " + Itoa(e.vid));
    CutAt(name, ':', " " + Itoa(e.vid));
  }

  lemma PvidNumber(vid: nat)
    requires vid <= MAX_INT
    ensures Atoi(Trim(" " + Itoa(vid))) == Some(vid)
  {
    TrimPadded(1, Itoa(vid), 0);
    assert " " + Itoa(vid) == Spaces(1) + Itoa(vid) + Spaces(0);
    AtoiOfItoa(vid);
  }

  lemma PvidName(e: Pvid)
    requires e.Valid()
    ensures Trim(e.name + Itoa(e.port)) == e.name + Itoa(e.port)
  {
    PvidLineShape(e);
    TrimTight(e.name + Itoa(e.port));
  }

  lemma PvidRowBack(sc: Scan, e: Pvid)
    requires e.Valid()
    ensures PvidRow(sc, e.name + Itoa(e.port), " " + Itoa(e.vid)) == sc.(pvid := sc.pvid[Itoa(e.port) := e.vid])
  {
    PvidName(e);
    PortOfName(e);
    PvidNumber(e.vid);
  }

  lemma PvidLineBack(sc: Scan, e: Pvid)
    requires e.Valid() && sc.inPvid
    ensures ParseLine(sc, PvidLine(e)) == sc.(pvid := sc.pvid[Itoa(e.port) := e.vid])
  {
    PvidLineCut(e);
    PvidRowBack(sc, e);
  }

  /** A line whose head is not a number before its first parenthesis is skipped. */
  lemma NotARow(sc: Scan, word: string, more: string, rest: string)
    requires !sc.inPvid && Tight(word) && Atoi(word) == None
    requires '(' !in word && ':' !in word && ':' !in more
    requires Tight(word + "(" + more + ":" + rest) && !IsPvidMark(word + "(" + more + ":" + rest)
    ensures ParseLine(sc, word + "(" + more + ":" + rest) == sc
  {
    var head := word + "(" + more;
    TrimTight(head + ":" + rest);
    CutAt(head, ':', rest);
    IndexAt(word, '(', more);
    assert head[..|word|] == word;
    TrimTight(word);
  }

  lemma HeaderSkipped(sc: Scan)
    requires !sc.inPvid
    ensures ParseLine(sc, HEADER) == sc
  {
    assert !IsDigit("vid"[0]) && HEADER[0] == 'v' && HEADER[|HEADER| - 1] == 'r';
    NotARow(sc, "vid", "group id)", " utagged member| tagged member");
  }

  // --- Any other line ---------------------------------------------------------

  /** Blank lines, and lines without a colon, are skipped. */
  lemma NoRow(sc: Scan, l: string, line: string, r: string)
    requires White(l) && White(r) && Bare(line) && ':' !in line && !("PVID" <= line)
    ensures ParseLine(sc, l + line + r) == sc
  {
    TrimAround(l, line, r);
    CutExactly(line, ':', "", "");
    MarkIs(line);
  }

  /** Any line that starts with PVID starts the second block. */
  lemma MarkAnyhow(sc: Scan, l: string, more: string, r: string)
    requires White(l) && White(r) && Bare("PVID" + more)
    ensures ParseLine(sc, l + ("PVID" + more) + r) == sc.(inPvid := true)
  {
    TrimAround(l, "PVID" + more, r);
    assert ("PVID" + more)[..4] == "PVID";
  }

  /** A row of the second block whose PVID is not a number is skipped. */
  lemma NotAPvid(sc: Scan, head: string, rest: string)
    requires sc.inPvid && ':' !in head && Bare(head + [':'] + rest) && !("PVID" <= head + [':'] + rest)
    requires forall v :: !Integer(Trim(rest), v)
    ensures ParseLine(sc, head + [':'] + rest) == sc
  {
    var line := head + [':'] + rest;
    TrimAround("", line, "");
    assert "" + line + "" == line;
    CutExactly(line, ':', head, rest);
    AtoiMeans(Trim(rest));
    MarkIs(line);
  }

  /** A membership row without a bar has untagged ports only. */
  lemma NoBar(sc: Scan, vid: nat, rest: string)
    requires !sc.inPvid && vid <= MAX_INT && '|' !in rest && Bare([':'] + rest)
    ensures ParseLine(sc, Itoa(vid) + [':'] + rest) == sc.(member := Assign(sc.member, Itoa(vid), Expand(rest), 1))
  {
    RowFor(sc, vid, rest);
    CutExactly(rest, '|', "", "");
    HeadDigits(vid);
    AtoiOfItoa(vid);
    EmptyList();
  }

  lemma RowFor(sc: Scan, vid: nat, rest: string)
    requires !sc.inPvid && Bare([':'] + rest)
    ensures ParseLine(sc, Itoa(vid) + [':'] + rest) == VlanRow(sc, Itoa(vid), rest)
  {
    var line := Itoa(vid) + [':'] + rest;
    assert line[|line| - 1] == ([':'] + rest)[|rest|];
    BareIsTight([':'] + rest);
    TrimTight(line);
    CutAt(Itoa(vid), ':', rest);
    MarkIs(line);
    assert "PVID"[0] == 'P';
  }

  lemma HeadDigits(vid: nat)
    ensures HeadVid(Itoa(vid)) == Itoa(vid)
  {
    TrimTight(Itoa(vid));
  }

  lemma MarkIs(line: string)
    ensures IsPvidMark(line) <==> "PVID" <= line
  {
  }

  lemma EmptyList()
    ensures Expand("") == []
  {
    OneToken("", []);
    TokenJunk("");
  }

  // --- The whole file back ----------------------------------------------------

  function AddVlans(m: Members, vs: seq<Vlan>): Members
    decreases |vs|
  {
    if vs == [] then m else AddVlans(AddVlan(m, vs[0]), vs[1..])
  }

  function AddPvids(m: map<string, int>, es: seq<Pvid>): map<string, int>
    decreases |es|
  {
    if es == [] then m else AddPvids(m[Itoa(es[0].port) := es[0].vid], es[1..])
  }

  ghost predicate AllVlans(vs: seq<Vlan>) {
    forall i :: 0 <= i < |vs| ==> vs[i].Valid()
  }

  ghost predicate AllPvids(es: seq<Pvid>) {
    forall i :: 0 <= i < |es| ==> es[i].Valid()
  }

  lemma {:induction false} ParseBoth(sc: Scan, a: seq<string>, b: seq<string>)
    ensures ParseLines(sc, a + b) == ParseLines(ParseLines(sc, a), b)
    decreases |a|
  {
    if a == [] {
      assert a + b == b;
    } else {
      assert (a + b)[1..] == a[1..] + b;
      ParseBoth(ParseLine(sc, a[0]), a[1..], b);
    }
  }

  lemma {:induction false} VlanLinesBack(sc: Scan, vs: seq<Vlan>, prefix: nat -> string)
    requires AllVlans(vs) && Names(prefix) && !sc.inPvid
    ensures ParseLines(sc, VlanLines(vs, prefix)) == sc.(member := AddVlans(sc.member, vs))
    ensures forall l | l in VlanLines(vs, prefix) :: '\n' !in l
    decreases |vs|
  {
    if vs != [] {
      var lines := VlanLines(vs, prefix);
      VlanLineBack(sc, vs[0], prefix);
      VlanLineShape(vs[0], prefix);
      VlanLinesBack(sc.(member := AddVlan(sc.member, vs[0])), vs[1..], prefix);
      assert lines[1..] == VlanLines(vs[1..], prefix);
    }
  }

  lemma {:induction false} PvidLinesBack(sc: Scan, es: seq<Pvid>)
    requires AllPvids(es) && sc.inPvid
    ensures ParseLines(sc, PvidLines(es)) == sc.(pvid := AddPvids(sc.pvid, es))
    ensures forall l | l in PvidLines(es) :: '\n' !in l
    decreases |es|
  {
    if es != [] {
      PvidLineBack(sc, es[0]);
      PvidLineShape(es[0]);
      PvidLinesBack(sc.(pvid := sc.pvid[Itoa(es[0].port) := es[0].vid]), es[1..]);
      assert PvidLines(es)[1..] == PvidLines(es[1..]);
    }
  }

  lemma ParseFive(sc: Scan, a: seq<string>, b: seq<string>, c: seq<string>, d: seq<string>, e: seq<string>)
    ensures ParseLines(sc, a + b + c + d + e) ==
            ParseLines(ParseLines(ParseLines(ParseLines(ParseLines(sc, a), b), c), d), e)
  {
    ParseBoth(sc, a + b + c + d, e);
    ParseBoth(sc, a + b + c, d);
    ParseBoth(sc, a + b, c);
    ParseBoth(sc, a, b);
  }

  lemma MarkAndEnd(sc: Scan)
    ensures ParseLine(sc, "PVID") == sc.(inPvid := true)
    ensures ParseLine(sc, "") == sc
  {
    TrimTight("PVID");
  }

  lemma RenderedBack(vs: seq<Vlan>, es: seq<Pvid>, prefix: nat -> string)
    requires AllVlans(vs) && AllPvids(es) && Names(prefix)
    ensures Parse(Render(vs, es, prefix)) == Scan(true, AddVlans(map[], vs), AddPvids(map[], es))
  {
    var v, p := VlanLines(vs, prefix), PvidLines(es);
    var start := Scan(false, map[], map[]);
    var mid := Scan(false, AddVlans(map[], vs), map[]);
    var end := Scan(true, AddVlans(map[], vs), AddPvids(map[], es));
    VlanLinesBack(start, vs, prefix);
    PvidLinesBack(mid.(inPvid := true), es);
    NoNewline(v, p);
    SplitJoin([HEADER] + v + ["PVID"] + p + [""], '\n');
    ParseFive(start, [HEADER], v, ["PVID"], p, [""]);
    HeaderSkipped(start);
    OneLine(start, HEADER);
    OneLine(mid, "PVID");
    MarkAndEnd(mid);
    OneLine(end, "");
    MarkAndEnd(end);
  }

  lemma OneLine(sc: Scan, l: string)
    ensures ParseLines(sc, [l]) == ParseLine(sc, l)
  {
  }

  lemma NoNewline(v: seq<string>, p: seq<string>)
    requires (forall l | l in v :: '\n' !in l) && (forall l | l in p :: '\n' !in l)
    ensures forall l | l in [HEADER] + v + ["PVID"] + p + [""] :: '\n' !in l
  {
  }

  // --- What the gauges say ----------------------------------------------------

  /** The gauges show a port of a VLAN exactly if it is a member, as untagged or
      tagged, and the PVID of exactly the listed ports. */
  ghost predicate Shows(m: Members, vs: seq<Vlan>) {
    && (forall i :: 0 <= i < |vs| ==> ShowsVlan(m, vs[i]))
    && (forall k | k in m :: exists i :: 0 <= i < |vs| && IsMember(vs[i], k))
  }

  ghost predicate ShowsVlan(m: Members, v: Vlan) {
    && (forall j :: 0 <= j < |v.untagged| ==> Gauge(m, v.vid, v.untagged[j], 1))
    && (forall j :: 0 <= j < |v.tagged| ==> Gauge(m, v.vid, v.tagged[j], 2))
  }

  ghost predicate Gauge(m: Members, vid: nat, port: nat, mode: int) {
    (Itoa(vid), Itoa(port)) in m && m[(Itoa(vid), Itoa(port))] == mode
  }

  ghost predicate IsMember(v: Vlan, k: (string, string)) {
    k.0 == Itoa(v.vid) && (k.1 in Labels(v.untagged) || k.1 in Labels(v.tagged))
  }

  ghost predicate ShowsPvids(m: map<string, int>, es: seq<Pvid>) {
    && (forall i :: 0 <= i < |es| ==> Itoa(es[i].port) in m && m[Itoa(es[i].port)] == es[i].vid)
    && (forall k | k in m :: exists i :: 0 <= i < |es| && k == Itoa(es[i].port))
  }

  lemma {:induction false} AssignIs(m: Members, vid: string, ports: seq<string>, mode: int)
    ensures var m' := Assign(m, vid, ports, mode);
            && (forall k :: k in m' <==> k in m || (k.0 == vid && k.1 in ports))
            && (forall k | k in m' :: m'[k] == if k.0 == vid && k.1 in ports then mode else m[k])
    decreases |ports|
  {
    if ports != [] {
      AssignIs(m[(vid, ports[0]) := mode], vid, ports[1..], mode);
    }
  }

  lemma {:induction false} LabelsAre(ports: seq<nat>)
    ensures |Labels(ports)| == |ports| && forall j :: 0 <= j < |ports| ==> Labels(ports)[j] == Itoa(ports[j])
  {
    if ports != [] {
      LabelsAre(ports[1..]);
    }
  }

  lemma AddVlanShows(m: Members, v: Vlan)
    requires v.Valid()
    ensures ShowsVlan(AddVlan(m, v), v)
    ensures forall k :: k in AddVlan(m, v) <==> k in m || IsMember(v, k)
    ensures forall k | k in m && k.0 != Itoa(v.vid) :: AddVlan(m, v)[k] == m[k]
  {
    var vid, u, t := Itoa(v.vid), Labels(v.untagged), Labels(v.tagged);
    AssignIs(m, vid, u, UNTAGGED);
    AssignIs(Assign(m, vid, u, UNTAGGED), vid, t, TAGGED);
    LabelsAre(v.untagged);
    LabelsAre(v.tagged);
    forall j | 0 <= j < |v.untagged|
      ensures Gauge(AddVlan(m, v), v.vid, v.untagged[j], UNTAGGED)
    {
      assert u[j] in u;
      if u[j] in t {
        var i :| 0 <= i < |t| && t[i] == u[j];
        ItoaInjective(v.untagged[j], v.tagged[i]);
        assert false;
      }
    }
    forall j | 0 <= j < |v.tagged|
      ensures Gauge(AddVlan(m, v), v.vid, v.tagged[j], TAGGED)
    {
      assert t[j] in t;
    }
  }

  ghost predicate DistinctVids(vs: seq<Vlan>) {
    forall i, j :: 0 <= i < j < |vs| ==> vs[i].vid != vs[j].vid
  }

  ghost predicate DistinctPorts(es: seq<Pvid>) {
    forall i, j :: 0 <= i < j < |es| ==> es[i].port != es[j].port
  }

  lemma {:induction false} AddVlansShow(vs: seq<Vlan>, m: Members)
    requires AllVlans(vs) && DistinctVids(vs)
    ensures forall i :: 0 <= i < |vs| ==> ShowsVlan(AddVlans(m, vs), vs[i])
    ensures forall k | k in AddVlans(m, vs) :: k in m || exists i :: 0 <= i < |vs| && IsMember(vs[i], k)
    ensures forall k | k in m && (forall i :: 0 <= i < |vs| ==> k.0 != Itoa(vs[i].vid)) ::
              k in AddVlans(m, vs) && AddVlans(m, vs)[k] == m[k]
    decreases |vs|
  {
    if vs != [] {
      var m1, rest := AddVlan(m, vs[0]), vs[1..];
      AddVlanShows(m, vs[0]);
      AddVlansShow(rest, m1);
      FirstKept(vs, m1);
      forall i | 0 <= i < |vs|
        ensures ShowsVlan(AddVlans(m, vs), vs[i])
      {
        assert i > 0 ==> vs[i] == rest[i - 1];
      }
      forall k | k in AddVlans(m, vs)
        ensures k in m || exists i :: 0 <= i < |vs| && IsMember(vs[i], k)
      {
        if k !in m1 {
          var i :| 0 <= i < |rest| && IsMember(rest[i], k);
          assert IsMember(vs[i + 1], k);
        }
      }
      forall k | k in m && (forall i :: 0 <= i < |vs| ==> k.0 != Itoa(vs[i].vid))
        ensures k in AddVlans(m, vs) && AddVlans(m, vs)[k] == m[k]
      {
        assert forall i :: 0 <= i < |rest| ==> rest[i] == vs[i + 1];
      }
    }
  }

  /** Later VLANs do not touch the gauges of the first. */
  lemma FirstKept(vs: seq<Vlan>, m: Members)
    requires vs != [] && AllVlans(vs) && DistinctVids(vs) && ShowsVlan(m, vs[0])
    requires forall k | k in m && (forall i :: 0 <= i < |vs[1..]| ==> k.0 != Itoa(vs[1..][i].vid)) ::
               k in AddVlans(m, vs[1..]) && AddVlans(m, vs[1..])[k] == m[k]
    ensures ShowsVlan(AddVlans(m, vs[1..]), vs[0])
  {
    forall i | 0 <= i < |vs[1..]|
      ensures Itoa(vs[0].vid) != Itoa(vs[1..][i].vid)
    {
      if Itoa(vs[0].vid) == Itoa(vs[1..][i].vid) {
        ItoaInjective(vs[0].vid, vs[i + 1].vid);
      }
    }
  }

  lemma {:induction false} AddPvidsShow(es: seq<Pvid>, m: map<string, int>)
    requires DistinctPorts(es)
    ensures var m' := AddPvids(m, es);
            && (forall i :: 0 <= i < |es| ==> Itoa(es[i].port) in m' && m'[Itoa(es[i].port)] == es[i].vid)
            && (forall k | k in m' :: k in m || exists i :: 0 <= i < |es| && k == Itoa(es[i].port))
            && (forall k | k in m && (forall i :: 0 <= i < |es| ==> k != Itoa(es[i].port)) :: k in m' && m'[k] == m[k])
    decreases |es|
  {
    if es != [] {
      var m1 := m[Itoa(es[0].port) := es[0].vid];
      AddPvidsShow(es[1..], m1);
      forall i | 0 <= i < |es[1..]|
        ensures Itoa(es[0].port) != Itoa(es[1..][i].port)
      {
        if Itoa(es[0].port) == Itoa(es[1..][i].port) {
          ItoaInjective(es[0].port, es[i + 1].port);
        }
      }
      assert forall i :: 1 <= i < |es| ==> es[i] == es[1..][i - 1];
    }
  }

  /** Whatever the VLANs, their member ports, the names the ports have and their
      PVIDs: parsing the rendered file gives back exactly that configuration. */
  lemma RoundTrip(vs: seq<Vlan>, es: seq<Pvid>, prefix: nat -> string)
    requires AllVlans(vs) && DistinctVids(vs) && AllPvids(es) && DistinctPorts(es) && Names(prefix)
    ensures var sc := Parse(Render(vs, es, prefix));
            Shows(sc.member, vs) && ShowsPvids(sc.pvid, es)
  {
    RenderedBack(vs, es, prefix);
    AddVlansShow(vs, map[]);
    AddPvidsShow(es, map[]);
  }
}
