/** The /proc/linkdown file as the driver prints it, and what the exporter makes of
    it: per port a temporary reason and a ring of logged ones, newest first. */
module LinkdownFile {
  import opened Basics
  import opened Text
  import opened SwitchShell
  import F = ProcVlanFile

  // --- The file ---------------------------------------------------------------

  ghost predicate NoSpace(s: string) {
    forall i :: 0 <= i < |s| ==> !IsSpace(s[i])
  }

  ghost predicate AllWords(words: seq<string>) {
    forall i :: 0 <= i < |words| ==> words[i] != "" && NoSpace(words[i])
  }

  /** One ring slot: a timestamp, a code, a reason of one or more words. */
  datatype Slot = Slot(ts: string, code: string, words: seq<string>) {
    ghost predicate Valid() {
      && ts != "" && NoSpace(ts) && IsDigit(ts[0])
      && NoSpace(code) && ')' !in code
      && words != [] && AllWords(words)
    }

    function Text(): string {
      ts + " (" + code + ")" + Join(words, ' ')
    }

    /** Whether the slot holds a recorded reason. */
    predicate Real(float: ParseFloat) {
      !HasPrefix(ts, "0.000000000") && float(ts) != None && Lower(Join(words, ' ')) != "unknown"
    }

    function Recorded(float: ParseFloat): Option<Reason> {
      if Real(float) then Some(Reason(Join(words, ' '), float(ts).value)) else None
    }
  }

  datatype PortLog = PortLog(name: string, port: nat, cur: nat, tmp: seq<Slot>, log: seq<Slot>) {
    ghost predicate Valid() {
      && name != "" && (forall i :: 0 <= i < |name| ==> IsLetter(name[i]))
      && AllSlots(tmp) && AllSlots(log)
    }

    function Header(): string {
      "port " + (name + Itoa(port)) + " " + ("(cur:" + " " + Itoa(cur) + ")") + ":"
    }
  }

  ghost predicate AllSlots(slots: seq<Slot>) {
    forall i :: 0 <= i < |slots| ==> slots[i].Valid()
  }

  function SlotLines(slots: seq<Slot>): (r: seq<string>)
    ensures |r| == |slots| && forall i :: 0 <= i < |slots| ==> r[i] == Spaces(4) + slots[i].Text() + Spaces(0)
  {
    if slots == [] then [] else [Spaces(4) + slots[0].Text() + Spaces(0)] + SlotLines(slots[1..])
  }

  const TMP_LINE := Spaces(2) + "tmp reason:" + Spaces(0)
  const LOG_LINE := Spaces(2) + "reason log:" + Spaces(0)

  function Lines(p: PortLog): seq<string> {
    [p.Header()] + ([TMP_LINE] + SlotLines(p.tmp) + ([LOG_LINE] + SlotLines(p.log)))
  }

  function FileLines(ps: seq<PortLog>): seq<string>
    decreases |ps|
  {
    if ps == [] then [] else Lines(ps[0]) + FileLines(ps[1..])
  }

  // --- One slot back ----------------------------------------------------------

  lemma {:induction false} FirstWordOf(w: string, rest: string)
    requires NoSpace(w) && (rest == "" || IsSpace(rest[0]))
    ensures FirstWord(w + rest) == w
  {
    if w == "" {
      assert w + rest == rest;
    } else {
      assert (w + rest)[1..] == w[1..] + rest;
      FirstWordOf(w[1..], rest);
    }
  }

  lemma {:induction false} FieldsOfJoin(words: seq<string>)
    requires words != [] && AllWords(words)
    ensures Fields(Join(words, ' ')) == words
    decreases |words|
  {
    var w := words[0];
    if |words| == 1 {
      FirstWordOf(w, "");
      assert w + "" == w;
    } else {
      var rest := Join(words[1..], ' ');
      FirstWordOf(w, [' '] + rest);
      FieldsOfJoin(words[1..]);
      assert Join(words, ' ') == w + ([' '] + rest);
      assert (w + ([' '] + rest))[|w|..] == [' '] + rest;
      assert ([' '] + rest)[1..] == rest;
    }
  }

  lemma {:induction false} JoinTight(words: seq<string>)
    requires words != [] && AllWords(words)
    ensures Tight(Join(words, ' ')) && '\n' !in Join(words, ' ')
    decreases |words|
  {
    if |words| > 1 {
      JoinTight(words[1..]);
    }
  }

  /** Gluing a text to the first word. */
  lemma GlueFirst(front: string, words: seq<string>)
    requires words != []
    ensures Join([front + words[0]] + words[1..], ' ') == front + Join(words, ' ')
  {
    assert ([front + words[0]] + words[1..])[1..] == words[1..];
    if |words| > 1 {
      assert front + (words[0] + [' '] + Join(words[1..], ' ')) == (front + words[0]) + [' '] + Join(words[1..], ' ');
    }
  }

  lemma SlotFields(s: Slot)
    requires s.Valid()
    ensures Fields(s.Text()) == [s.ts] + ([("(" + s.code + ")") + s.words[0]] + s.words[1..])
  {
    var front := "(" + s.code + ")";
    var later := [front + s.words[0]] + s.words[1..];
    GlueFirst(front, s.words);
    assert Join([s.ts] + later, ' ') == s.ts + [' '] + Join(later, ' ') by {
      assert ([s.ts] + later)[1..] == later;
    }
    assert s.Text() == s.ts + [' '] + (front + Join(s.words, ' '));
    FieldsOfJoin([s.ts] + later);
  }

  lemma ReasonOf(s: Slot)
    requires s.Valid()
    ensures var rest := ("(" + s.code + ")") + Join(s.words, ' ');
            && Trim(rest) == rest && HasPrefix(rest, "(")
            && Index(rest, ')') >= 0 && rest[Index(rest, ')') + 1..] == Join(s.words, ' ')
            && Trim(Join(s.words, ' ')) == Join(s.words, ' ') != ""
  {
    var reason := Join(s.words, ' ');
    var rest := ("(" + s.code + ")") + reason;
    JoinTight(s.words);
    TrimTight(reason);
    assert rest == ("(" + s.code) + [')'] + reason;
    IndexAt("(" + s.code, ')', reason);
    assert rest[0] == '(' && rest[..1] == "(" && rest[|rest| - 1] == reason[|reason| - 1];
    TrimTight(rest);
  }

  /** A slot's text reads as its reason and time if it is real, otherwise as nothing. */
  lemma EntryBack(s: Slot, float: ParseFloat)
    requires s.Valid()
    ensures ParseReasonEntry(s.Text(), float) == s.Recorded(float)
  {
    var fields := Fields(s.Text());
    SlotFields(s);
    GlueFirst("(" + s.code + ")", s.words);
    assert fields[1..] == [("(" + s.code + ")") + s.words[0]] + s.words[1..];
    ReasonOf(s);
  }

  /** A reason without a code in parentheses is taken as it is. */
  lemma PlainEntry(ts: string, words: seq<string>, float: ParseFloat)
    requires words != [] && AllWords(words) && AllWords([ts])
    requires words[0][0] != '(' || ')' !in Join(words, ' ')
    ensures ParseReasonEntry(Join([ts] + words, ' '), float) ==
            if "0.000000000" <= ts || float(ts) == None || Lower(Join(words, ' ')) == "unknown" then None
            else Some(Reason(Join(words, ' '), float(ts).value))
  {
    assert ([ts] + words)[1..] == words;
    FieldsOfJoin([ts] + words);
    JoinTight(words);
    TrimTight(Join(words, ' '));
    assert Join(words, ' ')[0] == words[0][0];
    assert HasPrefix(Join(words, ' '), "(") ==> Join(words, ' ')[..1][0] == '(';
  }

  /** A timestamp alone, and a code without a reason, are no entries. */
  lemma NoEntry(ts: string, code: string, float: ParseFloat)
    requires AllWords([ts]) && NoSpace(code) && ')' !in code
    ensures ParseReasonEntry(ts, float) == None && ParseReasonEntry("", float) == None
    ensures ParseReasonEntry(Join([ts, "(" + code + ")"], ' '), float) == None
  {
    FieldsOfJoin([ts]);
    CodeAlone(code);
    assert [ts, "(" + code + ")"][1..] == ["(" + code + ")"];
    FieldsOfJoin([ts, "(" + code + ")"]);
  }

  lemma CodeAlone(code: string)
    requires NoSpace(code) && ')' !in code
    ensures var word := "(" + code + ")";
            && AllWords([word]) && Trim(Join([word], ' ')) == word && HasPrefix(word, "(")
            && Index(word, ')') == |word| - 1 && Trim(word[|word|..]) == ""
  {
    var word := "(" + code + ")";
    TrimTight(word);
    assert word == "(" + code + [')'] + "" && word[..1] == "(";
    IndexAt("(" + code, ')', "");
  }

  // --- One line back ----------------------------------------------------------

  lemma SlotText(s: Slot)
    requires s.Valid()
    ensures Tight(s.Text()) && '\n' !in s.Text() && IsDigit(s.Text()[0])
  {
    JoinTight(s.words);
  }

  lemma SlotLine(s: Slot, float: ParseFloat)
    requires s.Valid()
    ensures Classify(Spaces(4) + s.Text() + Spaces(0), float) == Entry(s.Recorded(float))
  {
    SlotText(s);
    TrimPadded(4, s.Text(), 0);
    EntryBack(s, float);
    NotAMark(s.Text());
  }

  lemma NotAMark(line: string)
    requires line != "" && IsDigit(line[0])
    ensures !HasPrefix(line, "port ") && !HasPrefix(line, "reason log") && !HasPrefix(line, "tmp reason")
  {
    PrefixFirst(line, "port ");
    PrefixFirst(line, "reason log");
    PrefixFirst(line, "tmp reason");
  }

  lemma PrefixFirst(s: string, p: string)
    requires p != ""
    ensures HasPrefix(s, p) ==> s != "" && s[0] == p[0]
  {
    if HasPrefix(s, p) {
      assert s[0] == s[..|p|][0];
    }
  }

  lemma MarkLines(float: ParseFloat)
    ensures Classify(TMP_LINE, float) == TmpHeader && Classify(LOG_LINE, float) == LogHeader
    ensures '\n' !in TMP_LINE && '\n' !in LOG_LINE
  {
    TrimPadded(2, "tmp reason:", 0);
    TrimPadded(2, "reason log:", 0);
    assert "tmp reason:"[..10] == "tmp reason" && "reason log:"[..10] == "reason log";
    PrefixFirst("tmp reason:", "port ");
    PrefixFirst("tmp reason:", "reason log");
    PrefixFirst("reason log:", "port ");
  }

  lemma {:induction false} LastWordOf(front: string, w: string)
    requires NoSpace(w) && (front == "" || IsSpace(front[|front| - 1]))
    ensures F.LastWord(front + w) == w
  {
    var s := front + w;
    if w == "" {
      assert s == front;
    } else {
      assert s[..|s| - 1] == front + w[..|w| - 1] && s[|s| - 1] == w[|w| - 1];
      LastWordOf(front, w[..|w| - 1]);
      assert w == w[..|w| - 1] + [w[|w| - 1]];
    }
  }

  /** The port number of a header line. */
  lemma HeaderPort(p: PortLog)
    requires p.Valid()
    ensures F.PortNumFromName(p.Header()) == Itoa(p.port)
  {
    var word := p.name + Itoa(p.port);
    var front := "port " + word;
    var line := p.Header();
    HeaderShape(p);
    TrimTight(line);
    var open := front + " " + ("(cur:" + " " + Itoa(p.cur) + ")");
    assert line[..|line| - 1] == open;
    assert open == (front + " ") + ['('] + ("cur:" + " " + Itoa(p.cur) + ")");
    assert '(' !in front + " " by {
      FrontChars(p);
    }
    IndexAt(front + " ", '(', "cur:" + " " + Itoa(p.cur) + ")");
    assert open[..|front| + 1] == Spaces(0) + front + Spaces(1);
    FrontChars(p);
    TrimPadded(0, front, 1);
    LastWordOf("port ", word);
    F.TrailingOf(p.name, Itoa(p.port));
  }

  lemma FrontChars(p: PortLog)
    requires p.Valid()
    ensures var front := "port " + (p.name + Itoa(p.port));
            Tight(front) && '(' !in front && '\n' !in front && NoSpace(p.name + Itoa(p.port))
  {
  }

  lemma HeaderShape(p: PortLog)
    requires p.Valid()
    ensures Tight(p.Header()) && '\n' !in p.Header() && p.Header()[|p.Header()| - 1] == ':'
  {
    FrontChars(p);
  }

  lemma HeaderLine(p: PortLog, float: ParseFloat)
    requires p.Valid()
    ensures Classify(p.Header(), float) == PortHeader(Itoa(p.port))
  {
    var line := p.Header();
    HeaderShape(p);
    TrimTight(line);
    assert line[..5] == "port ";
    var a, b := "port " + (p.name + Itoa(p.port)) + " ", " " + Itoa(p.cur) + ")" + ":";
    assert line == a + "(cur:" + b;
    InsideThere(a, "(cur:", b);
    HeaderPort(p);
  }

  // --- The whole file back ----------------------------------------------------

  function Entries(slots: seq<Slot>, float: ParseFloat): (r: seq<Kind>)
    ensures |r| == |slots| && forall i :: 0 <= i < |slots| ==> r[i] == Entry(slots[i].Recorded(float))
  {
    if slots == [] then [] else [Entry(slots[0].Recorded(float))] + Entries(slots[1..], float)
  }

  /** The recorded reasons of a ring, newest first. */
  function Reals(slots: seq<Slot>, float: ParseFloat): seq<Reason> {
    if slots == [] then []
    else Counted(slots[0].Recorded(float), true) + Reals(slots[1..], float)
  }

  function BlockOf(p: PortLog, float: ParseFloat): Block {
    Block(Itoa(p.port), [TmpHeader] + Entries(p.tmp, float) + ([LogHeader] + Entries(p.log, float)))
  }

  function BlocksOf(ps: seq<PortLog>, float: ParseFloat): (r: seq<Block>)
    ensures |r| == |ps| && forall i :: 0 <= i < |ps| ==> r[i] == BlockOf(ps[i], float)
  {
    seq(|ps|, i requires 0 <= i < |ps| => BlockOf(ps[i], float))
  }

  lemma KindsBoth(a: seq<string>, b: seq<string>, float: ParseFloat)
    ensures Kinds(a + b, float) == Kinds(a, float) + Kinds(b, float)
  {
    var k := Kinds(a + b, float);
    forall i | 0 <= i < |k|
      ensures k[i] == (Kinds(a, float) + Kinds(b, float))[i]
    {
    }
  }

  lemma SlotsPlain(slots: seq<Slot>)
    requires AllSlots(slots)
    ensures forall l | l in SlotLines(slots) :: '\n' !in l
  {
    forall i | 0 <= i < |slots|
      ensures '\n' !in SlotLines(slots)[i]
    {
      SlotText(slots[i]);
    }
  }

  lemma {:induction false} SlotsBack(slots: seq<Slot>, float: ParseFloat)
    requires AllSlots(slots)
    ensures Kinds(SlotLines(slots), float) == Entries(slots, float)
    decreases |slots|
  {
    if slots != [] {
      SlotLine(slots[0], float);
      SlotsBack(slots[1..], float);
      assert SlotLines(slots)[1..] == SlotLines(slots[1..]);
    }
  }

  lemma RingBack(mark: string, slots: seq<Slot>, float: ParseFloat)
    requires AllSlots(slots) && '\n' !in mark
    ensures Kinds([mark] + SlotLines(slots), float) == [Classify(mark, float)] + Entries(slots, float)
    ensures forall l | l in [mark] + SlotLines(slots) :: '\n' !in l
  {
    KindsBoth([mark], SlotLines(slots), float);
    SlotsBack(slots, float);
    SlotsPlain(slots);
  }

  lemma LinesBack(p: PortLog, float: ParseFloat)
    requires p.Valid()
    ensures Kinds(Lines(p), float) == [PortHeader(Itoa(p.port))] + BlockOf(p, float).body
    ensures forall l | l in Lines(p) :: '\n' !in l
  {
    var t, l := SlotLines(p.tmp), SlotLines(p.log);
    KindsBoth([p.Header()], [TMP_LINE] + t + ([LOG_LINE] + l), float);
    KindsBoth([TMP_LINE] + t, [LOG_LINE] + l, float);
    MarkLines(float);
    RingBack(TMP_LINE, p.tmp, float);
    RingBack(LOG_LINE, p.log, float);
    HeaderLine(p, float);
    HeaderShape(p);
  }

  ghost predicate AllPorts(ps: seq<PortLog>) {
    && (forall i :: 0 <= i < |ps| ==> ps[i].Valid())
    && (forall i, j :: 0 <= i < j < |ps| ==> ps[i].port != ps[j].port)
  }

  lemma {:induction false} FileBack(ps: seq<PortLog>, float: ParseFloat)
    requires AllPorts(ps)
    ensures Kinds(FileLines(ps), float) == Flat(BlocksOf(ps, float))
    ensures forall l | l in FileLines(ps) :: '\n' !in l
    decreases |ps|
  {
    if ps != [] {
      LinesBack(ps[0], float);
      FileBack(ps[1..], float);
      KindsBoth(Lines(ps[0]), FileLines(ps[1..]), float);
      FlatFirst(ps, float);
    }
  }

  lemma FlatFirst(ps: seq<PortLog>, float: ParseFloat)
    requires ps != []
    ensures Flat(BlocksOf(ps, float)) ==
            ([PortHeader(Itoa(ps[0].port))] + BlockOf(ps[0], float).body) + Flat(BlocksOf(ps[1..], float))
  {
    var bs := BlocksOf(ps, float);
    assert bs[1..] == BlocksOf(ps[1..], float);
    var first := [PortHeader(bs[0].port)];
    assert first + (bs[0].body + Flat(bs[1..])) == (first + bs[0].body) + Flat(bs[1..]);
  }

  lemma {:induction false} EntriesIn(slots: seq<Slot>, inLog: bool, rest: seq<Kind>, float: ParseFloat)
    ensures LogEntries(Entries(slots, float) + rest, inLog) ==
            (if inLog then Reals(slots, float) else []) + LogEntries(rest, inLog)
    decreases |slots|
  {
    if slots == [] {
      assert Entries(slots, float) + rest == rest;
    } else {
      var r, later := slots[0].Recorded(float), Entries(slots[1..], float) + rest;
      assert Entries(slots, float) + rest == [Entry(r)] + later;
      EntryFirst(r, later, inLog);
      EntriesIn(slots[1..], inLog, rest, float);
      CountedFirst(Counted(r, inLog), Reals(slots[1..], float), LogEntries(rest, inLog));
    }
  }

  lemma EntryFirst(r: Option<Reason>, rest: seq<Kind>, inLog: bool)
    ensures LogEntries([Entry(r)] + rest, inLog) == Counted(r, inLog) + LogEntries(rest, inLog)
  {
    assert ([Entry(r)] + rest)[1..] == rest;
  }

  lemma MarkFirst(rest: seq<Kind>)
    ensures LogEntries([TmpHeader] + rest, false) == LogEntries(rest, false)
    ensures LogEntries([LogHeader] + rest, false) == LogEntries(rest, true)
  {
    assert ([TmpHeader] + rest)[1..] == rest && ([LogHeader] + rest)[1..] == rest;
  }

  lemma LogOf(p: PortLog, float: ParseFloat)
    ensures BlockOf(p, float).Log() == Reals(p.log, float)
  {
    var tmp, log := Entries(p.tmp, float), Entries(p.log, float);
    EntriesIn(p.tmp, false, [LogHeader] + log, float);
    EntriesOnly(p.log, float);
    LogOfBody(tmp, log);
  }

  lemma EntriesOnly(slots: seq<Slot>, float: ParseFloat)
    ensures LogEntries(Entries(slots, float), true) == Reals(slots, float)
  {
    EntriesIn(slots, true, [], float);
    assert Entries(slots, float) + [] == Entries(slots, float);
  }

  /** Of a block only what follows the log's header counts. */
  lemma LogOfBody(tmp: seq<Kind>, log: seq<Kind>)
    requires LogEntries(tmp + ([LogHeader] + log), false) == [] + LogEntries([LogHeader] + log, false)
    ensures LogEntries([TmpHeader] + tmp + ([LogHeader] + log), false) == LogEntries(log, true)
  {
    assert [TmpHeader] + tmp + ([LogHeader] + log) == [TmpHeader] + (tmp + ([LogHeader] + log));
    MarkFirst(tmp + ([LogHeader] + log));
    MarkFirst(log);
  }

  /** A port shows how many reasons its log holds, and the newest one and its time. */
  ghost predicate Shows(r: Ring, p: PortLog, float: ParseFloat) {
    var reals, port := Reals(p.log, float), Itoa(p.port);
    && port in r.events && r.events[port] == |reals|
    && port in r.lastTs && r.lastTs[port] == (if reals == [] then 0.0 else reals[0].ts)
    && ReasonOfPort(p, float) in r.reasons
  }

  ghost function ReasonOfPort(p: PortLog, float: ParseFloat): (string, string) {
    var reals := Reals(p.log, float);
    (Itoa(p.port), if reals == [] then "none" else reals[0].text)
  }

  /** Every port of the file shows its own log, with one reason, and no other port
      or reason is shown. */
  ghost predicate ShowsExactly(r: Ring, ps: seq<PortLog>, float: ParseFloat) {
    && (forall i :: 0 <= i < |ps| ==> Shows(r, ps[i], float))
    && (forall x | x in r.events :: exists i :: 0 <= i < |ps| && Itoa(ps[i].port) == x)
    && (forall x | x in r.lastTs :: exists i :: 0 <= i < |ps| && Itoa(ps[i].port) == x)
    && (forall x | x in r.reasons :: exists i :: 0 <= i < |ps| && ReasonOfPort(ps[i], float) == x)
  }

  /** Parsing the printed file of any ports shows exactly those ports, each with the
      count of its recorded reasons and the newest one; temporary reasons and empty
      slots count for nothing. */
  lemma RoundTrip(ps: seq<PortLog>, float: ParseFloat)
    requires AllPorts(ps)
    ensures ShowsExactly(PublishAll(EMPTY, Kinds(ScanLines(Join(FileLines(ps) + [""], '\n')), float)), ps, float)
  {
    FileBack(ps, float);
    SplitJoin(FileLines(ps) + [""], '\n');
    assert (FileLines(ps) + [""])[..|FileLines(ps)|] == FileLines(ps);
    BlocksShown(ps, float);
  }

  lemma BlocksShown(ps: seq<PortLog>, float: ParseFloat)
    requires AllPorts(ps)
    ensures ShowsExactly(PublishAll(EMPTY, Flat(BlocksOf(ps, float))), ps, float)
  {
    var bs := BlocksOf(ps, float);
    BlocksGood(ps, float);
    ShowsEachPort(EMPTY, bs);
    forall i | 0 <= i < |ps|
      ensures Matches(bs[i], ps[i], float)
    {
      LogOf(ps[i], float);
    }
    var r := PublishAll(EMPTY, Flat(bs));
    PortsShown(bs, ps, r, float);
    EventsOnly(bs, ps, r, float);
    ReasonsOnly(bs, ps, r, float);
  }

  ghost predicate Matches(b: Block, p: PortLog, float: ParseFloat) {
    b.port == Itoa(p.port) && b.Log() == Reals(p.log, float)
  }

  ghost predicate AllMatch(bs: seq<Block>, ps: seq<PortLog>, float: ParseFloat) {
    |bs| == |ps| && forall i :: 0 <= i < |ps| ==> Matches(bs[i], ps[i], float)
  }

  lemma PortsShown(bs: seq<Block>, ps: seq<PortLog>, r: Ring, float: ParseFloat)
    requires AllMatch(bs, ps, float) && forall i :: 0 <= i < |bs| ==> bs[i].ShownBy(r)
    ensures forall i :: 0 <= i < |ps| ==> Shows(r, ps[i], float)
  {
    forall i | 0 <= i < |ps|
      ensures Shows(r, ps[i], float)
    {
      assert Matches(bs[i], ps[i], float) && bs[i].ShownBy(r);
    }
  }

  lemma EventsOnly(bs: seq<Block>, ps: seq<PortLog>, r: Ring, float: ParseFloat)
    requires AllMatch(bs, ps, float) && NothingElse(EMPTY, r, bs)
    ensures forall x | x in r.events || x in r.lastTs :: exists i :: 0 <= i < |ps| && Itoa(ps[i].port) == x
  {
    forall x | x in r.events || x in r.lastTs
      ensures exists i :: 0 <= i < |ps| && Itoa(ps[i].port) == x
    {
      var i :| 0 <= i < |bs| && bs[i].port == x;
      assert Matches(bs[i], ps[i], float);
    }
  }

  lemma ReasonsOnly(bs: seq<Block>, ps: seq<PortLog>, r: Ring, float: ParseFloat)
    requires AllMatch(bs, ps, float) && NothingElse(EMPTY, r, bs)
    ensures forall x | x in r.reasons :: exists i :: 0 <= i < |ps| && ReasonOfPort(ps[i], float) == x
  {
    forall x | x in r.reasons
      ensures exists i :: 0 <= i < |ps| && ReasonOfPort(ps[i], float) == x
    {
      var i :| 0 <= i < |bs| && bs[i].Label() == x;
      assert Matches(bs[i], ps[i], float);
    }
  }

  lemma BlockGood(p: PortLog, float: ParseFloat)
    ensures BlockOf(p, float).Valid()
  {
  }

  lemma BlocksGood(ps: seq<PortLog>, float: ParseFloat)
    requires AllPorts(ps)
    ensures AllBlocks(BlocksOf(ps, float))
  {
    var bs := BlocksOf(ps, float);
    forall i | 0 <= i < |bs|
      ensures bs[i].Valid()
    {
      BlockGood(ps[i], float);
    }
    forall i, j | 0 <= i < j < |bs|
      ensures bs[i].port != bs[j].port
    {
      if bs[i].port == bs[j].port {
        ItoaInjective(ps[i].port, ps[j].port);
      }
    }
  }
}
