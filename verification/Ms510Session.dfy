/** The MS510TXUP client's session handling against a switch with four session
    slots. The switch answers from a script that is universally quantified: at
    every request it may expire sessions, restart its web server, let somebody
    else in, lose the request or the reply, and pick its answer. */
module Ms510Session {
  import opened Basics

  const SLOTS := 4
  const LOGIN_POLLS := 15

  /** A write token: the session it was issued in, and a serial number. */
  datatype Token = Token(session: nat, serial: nat)

  /** How a login poll, a read and a write go when they reach the switch. */
  datatype Poll = Pending | Grant | Garble | Refuse
  datatype Reading = Answered | HttpError | Empty | NotJson
  datatype Writing = Applied | Discarded | Rejected | LoggedOut | FalseLogout | WriteHttpError | WriteNotJson

  datatype Event = Event(
    expire: set<nat>, restart: set<nat>, foreign: bool,
    arrives: bool, answers: bool, release: bool,
    auth: bool, poll: Poll, reading: Reading, writing: Writing, token: bool)

  type Script = nat -> Event

  /** What the client sees. `Failed` is a transport error or a status other than
      200; `Blank` is 200 with an empty body. */
  datatype Reply =
    | Failed
    | Blank
    | Garbage
    | Page
    | Auth(accepted: bool)
    | Status(poll: Poll, blob: Option<nat>)
    | Content(cmd: string, version: nat, xsrf: Option<Token>, home: Option<Token>)
    | Done(ok: bool, logout: bool, xsrf: Option<Token>)

  datatype Sent = Sent(session: nat, token: Token)

  /** The switch: its session table, the cookies its web server has forgotten, the
      version of its configuration; and, for the record, the sessions opened for
      our client, how often the outside world broke an assumption the client's
      slot accounting rests on, the requests seen, and the tokens handed out. */
  datatype Switch = Switch(
    clock: nat, live: set<nat>, nextSession: nat, stale: set<nat>, nextCookie: nat, version: nat, serial: nat,
    ours: set<nat>, faults: nat, logins: nat, commands: nat, writes: seq<Sent>, issued: set<Token>)
  {
    ghost predicate Valid() {
      && (forall s | s in live :: s < nextSession)
      && (forall s | s in ours :: s < nextSession)
      && (forall k | k in stale :: k < nextCookie)
      && |live| <= 4
      && (forall w | w in writes :: w.token.session == w.session && w.token in issued)
    }

    /** The slots taken by sessions of our client. */
    function Owned(): set<nat> {
      live * ours
    }

    /** How many slots are taken by sessions of our client other than the one it holds. */
    ghost function Lost(held: Option<nat>): nat {
      |Owned() - (if held.Some? then {held.value} else {})|
    }

    /** Nothing our client sent counts as seen between the two. */
    ghost predicate Silent(later: Switch) {
      later.logins == logins && later.commands == commands && later.writes == writes && later.version == version &&
      later.issued == issued
    }

    /** What every request leaves intact. */
    ghost predicate Before(later: Switch) {
      && later.Valid()
      && later.clock == clock + 1
      && nextSession <= later.nextSession && nextCookie <= later.nextCookie
      && ours <= later.ours && faults <= later.faults
    }
  }

  /** An event of a switch that is well: it takes and answers the request, nothing
      expires, nothing restarts, nobody else comes in. */
  ghost predicate Calm(e: Event) {
    && e.expire == {} && e.restart == {} && !e.foreign
    && e.arrives && e.answers && e.release && e.auth
    && e.poll in {Pending, Grant}
    && e.reading == Answered
  }

  /** An event that keeps what the client's slot accounting relies on: cookies stay
      good, a logout arrives, a grant that takes a slot is answered with a readable
      blob, an empty body means a dead session, and a `logout` reply frees the slot.
      Sessions may expire, somebody else may come in, any other request or reply may
      be lost, and answers are free. */
  ghost predicate KeptAt(e: Event) {
    && e.restart == {} && e.release
    && e.poll != Garble && (e.poll == Grant && e.arrives ==> e.answers)
    && e.reading != Empty && e.writing != FalseLogout
  }

  ghost predicate Kept(script: Script) {
    forall k: nat :: KeptAt(script(k))
  }

  /** From request t on, writes are applied and replies carry a write token. */
  ghost predicate Eager(script: Script, t: nat) {
    forall k: nat :: t <= k ==> script(k).writing == Applied && script(k).token
  }

  /** Whether a slot is free once the event's other doings are over. */
  ghost predicate FreeSlot(w: Switch, e: Event) {
    |w.live - e.expire| + (if e.foreign then 1 else 0) < 4
  }

  /** Time passes: sessions expire, cookies go stale, somebody else logs in. */
  method Tick(script: Script, w: Switch) returns (w': Switch, e: Event)
    requires w.Valid()
    ensures w.Before(w') && w.Silent(w') && e == script(w.clock)
    ensures w'.ours == w.ours && w'.faults == w.faults && w'.nextCookie == w.nextCookie
    ensures w'.Owned() <= w.Owned()
    ensures Calm(e) ==> w'.live == w.live
    ensures e.restart == {} ==> w'.stale == w.stale
    ensures |w'.live| < SLOTS <==> FreeSlot(w, e)
    ensures forall sid :: sid < w.nextSession ==> (sid in w'.live <==> sid in w.live && sid !in e.expire)
    ensures forall k :: k in w'.stale <==> k in w.stale || (k in e.restart && k < w.nextCookie)
  {
    e := script(w.clock);
    w' := Pass(w, e);
    if e.foreign {
      w' := Foreign(w');
    }
  }

  /** Sessions expire and cookies go stale. */
  method Pass(w: Switch, e: Event) returns (w': Switch)
    requires w.Valid()
    ensures w'.Valid() && w' == w.(clock := w.clock + 1, live := w.live - e.expire, stale := w'.stale)
    ensures forall k :: k in w'.stale <==> k in w.stale || (k in e.restart && k < w.nextCookie)
    ensures e.restart == {} ==> w'.stale == w.stale
  {
    Subset(w.live - e.expire, w.live);
    w' := w.(clock := w.clock + 1, live := w.live - e.expire,
             stale := w.stale + (set k | k in e.restart && k < w.nextCookie));
  }

  /** Somebody else logs in, if there is a free slot. */
  method Foreign(w: Switch) returns (w': Switch)
    requires w.Valid()
    ensures w'.Valid() && w' == w.(nextSession := w'.nextSession, live := w'.live) && w.nextSession <= w'.nextSession
    ensures forall sid :: sid < w.nextSession ==> (sid in w'.live <==> sid in w.live)
    ensures w'.Owned() == w.Owned()
    ensures |w'.live| == if |w.live| < SLOTS then |w.live| + 1 else |w.live|
  {
    w' := w;
    if |w.live| < SLOTS {
      w' := w.(live := w.live + {w.nextSession}, nextSession := w.nextSession + 1);
    }
  }

  /** Any first answer hands out a cookie to a client that sends none. */
  method Cookie(w: Switch, jar: Option<nat>, answered: bool) returns (w': Switch, jar': Option<nat>)
    requires w.Valid() && (jar.Some? ==> jar.value < w.nextCookie)
    ensures w'.Valid() && w' == w.(nextCookie := w'.nextCookie) && w.nextCookie <= w'.nextCookie
    ensures jar'.Some? ==> jar'.value < w'.nextCookie
    ensures jar.Some? || !answered ==> jar' == jar
    ensures jar.None? && answered ==> jar'.Some? && jar'.value !in w'.stale
    ensures Fresh(jar, w.stale) ==> Fresh(jar', w'.stale)
  {
    w', jar' := w, jar;
    if jar.None? && answered {
      w', jar' := w.(nextCookie := w.nextCookie + 1), Some(w.nextCookie);
    }
  }

  method LoginPage(script: Script, w: Switch, jar: Option<nat>) returns (w': Switch, r: Reply, jar': Option<nat>)
    requires w.Valid() && (jar.Some? ==> jar.value < w.nextCookie)
    ensures w.Before(w') && w'.logins == w.logins + 1 && w.Silent(w'.(logins := w.logins))
    ensures w'.faults == w.faults && w'.ours == w.ours && w'.Owned() <= w.Owned()
    ensures jar'.Some? ==> jar'.value < w'.nextCookie
    ensures script(w.clock).restart == {} ==> w'.stale == w.stale && (Fresh(jar, w.stale) ==> Fresh(jar', w'.stale))
    ensures r == if Heard(script(w.clock)) then Page else Failed
    ensures Calm(script(w.clock)) ==>
      w'.live == w.live && w'.stale == w.stale && r == Page && jar'.Some? &&
      (if jar.Some? then jar' == jar else jar'.value !in w'.stale)
  {
    var e;
    w', e := Tick(script, w.(logins := w.logins + 1));
    r := if e.arrives && e.answers then Page else Failed;
    w', jar' := Cookie(w', jar, r == Page);
  }

  method LoginAuth(script: Script, w: Switch) returns (w': Switch, r: Reply)
    requires w.Valid()
    ensures w.Before(w') && w.Silent(w') && w'.faults == w.faults && w'.ours == w.ours && w'.Owned() <= w.Owned()
    ensures w'.nextCookie == w.nextCookie
    ensures r == if Heard(script(w.clock)) then Auth(script(w.clock).auth) else Failed
    ensures script(w.clock).restart == {} ==> w'.stale == w.stale
    ensures Calm(script(w.clock)) ==> w'.live == w.live && w'.stale == w.stale && r == Auth(true)
  {
    var e;
    w', e := Tick(script, w);
    r := if e.arrives && e.answers then Auth(e.auth) else Failed;
  }

  /** A new session for the client takes a free slot. */
  method Open(w: Switch) returns (w': Switch, sid: nat)
    requires w.Valid() && |w.live| < SLOTS
    ensures w'.Valid() && w' == w.(nextSession := w'.nextSession, live := w'.live, ours := w'.ours)
    ensures w.nextSession < w'.nextSession && w.ours <= w'.ours
    ensures Took(w, w', Some(sid))
  {
    sid := w.nextSession;
    w' := w.(nextSession := sid + 1, live := w.live + {sid}, ours := w.ours + {sid});
  }

  /** One poll. A grant takes a slot, when there is one. If the reply is lost or its
      blob cannot be read the slot is taken all the same: a fault. */
  method LoginStatus(script: Script, w: Switch) returns (w': Switch, r: Reply, ghost lost: set<nat>)
    requires w.Valid()
    ensures w.Before(w') && w.Silent(w') && w'.nextCookie == w.nextCookie
    ensures r == Failed || (r.Status? && r.poll != Garble)
    ensures r.Status? && r.poll == Pending <==> SaysPending(script, w.clock)
    ensures r.Status? && r.blob.Some? ==> r.poll == Grant && r.blob.value in w'.Owned() && lost == {}
    ensures w'.Owned() <= w.Owned() + lost + (if r.Status? && r.blob.Some? then {r.blob.value} else {})
    ensures w'.faults == w.faults + |lost| && |lost| <= 1
    ensures var e := script(w.clock);
            && (r.Status? && r.blob.Some? <==> e.arrives && e.answers && e.poll == Grant && FreeSlot(w, e))
            && (lost != {} <==> e.arrives && FreeSlot(w, e) && (e.poll == Garble || (e.poll == Grant && !e.answers)))
    ensures script(w.clock).restart == {} ==> w'.stale == w.stale
    ensures Calm(script(w.clock)) ==> CalmPoll(script(w.clock).poll, w, w', r)
  {
    lost := {};
    var e;
    w', e := Tick(script, w);
    r := Failed;
    var p := if e.poll in {Grant, Garble} && |w'.live| >= SLOTS then Refuse else e.poll;
    if e.arrives && p in {Grant, Garble} {
      var sid;
      w', sid := Open(w');
      if p == Grant && e.answers {
        r := Status(Grant, Some(sid));
      } else {
        w', lost := w'.(faults := w'.faults + 1), {sid};
        if e.answers {
          r := Status(Grant, None);
        }
      }
    } else if e.arrives && e.answers {
      r := Status(p, None);
    }
  }

  ghost predicate CalmPoll(p: Poll, w: Switch, w': Switch, r: Reply) {
    && w'.stale == w.stale
    && match p
       case Pending => r == Status(Pending, None) && Took(w, w', None)
       case Grant =>
         if |w.live| < SLOTS then r.Status? && r.blob.Some? && Took(w, w', r.blob)
         else r == Status(Refuse, None) && Took(w, w', None)
       case _ => true
  }

  /** The slots are the same, but for a new session of the client's if there is one. */
  ghost predicate Took(w: Switch, w': Switch, granted: Option<nat>) {
    var new_: set<nat> := if granted.Some? then {granted.value} else {};
    new_ !! w.live && w'.live == w.live + new_ && w'.Owned() == w.Owned() + new_
  }

  /** A request and its reply both come through. */
  ghost predicate Heard(e: Event) {
    e.arrives && e.answers
  }

  /** A poll that says to ask again. */
  ghost predicate SaysPending(script: Script, k: nat) {
    Heard(script(k)) && script(k).poll == Pending
  }

  /** All polls in between do. */
  ghost predicate PendingFor(script: Script, from: nat, upTo: nat)
    decreases upTo
  {
    from < upTo ==> SaysPending(script, upTo - 1) && PendingFor(script, from, upTo - 1)
  }

  /** A request for a session reaches the switch, and the switch knows both the session
      and the cookie. */
  ghost predicate LetIn(w: Switch, e: Event, sid: nat, jar: Option<nat>) {
    && e.arrives
    && sid in w.live && sid !in e.expire
    && (jar.Some? ==> jar.value !in w.stale && jar.value !in e.restart)
  }

  /** A read that answers, and one that comes back empty. */
  ghost predicate ReadAnswers(w: Switch, e: Event, sid: nat, jar: Option<nat>) {
    LetIn(w, e, sid, jar) && e.answers && e.reading == Answered
  }

  ghost predicate ReadBlank(w: Switch, e: Event, sid: nat, jar: Option<nat>) {
    e.arrives && e.answers && (e.reading == Empty || (!LetIn(w, e, sid, jar) && e.reading != HttpError))
  }

  /** A read. A dead session, or a cookie the web server has forgotten, gets an
      empty body; an empty body for a live session is a fault. */
  method Read(script: Script, w: Switch, cmd: string, sid: nat, jar: Option<nat>)
    returns (w': Switch, r: Reply, jar': Option<nat>)
    requires w.Valid() && (jar.Some? ==> jar.value < w.nextCookie) && sid in w.ours
    ensures w.Before(w') && w'.commands == w.commands + 1 && w.Silent(w'.(commands := w.commands, issued := w.issued))
    ensures Issues(w, w', sid)
    ensures w'.ours == w.ours && w'.Owned() <= w.Owned()
    ensures jar'.Some? ==> jar'.value < w'.nextCookie
    ensures r in {Failed, Blank, Garbage} || r.Content?
    ensures w'.faults <= w.faults + 1
    ensures w'.Lost(Some(sid)) <= w.Lost(Some(sid)) && (r == Blank ==> LostBy(w, sid, w', None))
    ensures KeptAt(script(w.clock)) && Fresh(jar, w.stale) ==>
      w'.faults == w.faults && w'.stale == w.stale && Fresh(jar', w'.stale)
    ensures r.Content? ==> FromSession(r, Some(sid), w') && r.cmd == cmd && r.version == w'.version
    ensures r.Content? <==> ReadAnswers(w, script(w.clock), sid, jar)
    ensures r == Blank <==> ReadBlank(w, script(w.clock), sid, jar)
    ensures Calm(script(w.clock)) ==>
      w'.live == w.live && w'.stale == w.stale && jar'.Some? &&
      (if jar.Some? then jar' == jar else jar'.value !in w'.stale) &&
      if sid in w.live && jar'.value !in w'.stale
      then r.Content? && r.cmd == cmd && r.version == w.version && (script(w.clock).token ==> r.home.Some?)
      else r == Blank
    ensures Calm(script(w.clock)) ==>
      w'.Lost(Some(sid)) == w.Lost(Some(sid)) && w'.Lost(None) == w.Lost(Some(sid)) + (if sid in w.live then 1 else 0)
  {
    var e;
    w', e := Tick(script, w.(commands := w.commands + 1));
    w', jar' := Cookie(w', jar, e.arrives && e.answers);
    r := Failed;
    if e.arrives && e.answers {
      w', r := Tell(w', e, cmd, sid, jar'.value in w'.stale);
    }
    LostLess(w, w', sid);
    LostSame(w, w', sid);
  }

  /** What the switch tells a read that has come through. */
  method Tell(w: Switch, e: Event, cmd: string, sid: nat, stale: bool) returns (w': Switch, r: Reply)
    requires w.Valid()
    ensures w'.Valid() && w' == w.(serial := w'.serial, faults := w'.faults, issued := w'.issued) && Issues(w, w', sid)
    ensures w'.faults == w.faults + (if r == Blank && sid in w.live then 1 else 0)
    ensures r in {Failed, Blank, Garbage} || r.Content?
    ensures r.Content? <==> sid in w.live && !stale && e.reading == Answered
    ensures r == Blank <==> e.reading == Empty || ((sid !in w.live || stale) && e.reading != HttpError)
    ensures r.Content? ==> FromSession(r, Some(sid), w') && r.cmd == cmd && r.version == w.version
    ensures r.Content? && e.token ==> r.home.Some?
  {
    w', r := w, Failed;
    if sid !in w.live || stale || e.reading == Empty {
      r := if e.reading == HttpError then Failed else Blank;
      if r == Blank && sid in w.live {
        w' := w.(faults := w.faults + 1);
      }
    } else if e.reading == NotJson {
      r := Garbage;
    } else if e.reading == Answered {
      var t := if e.token then Some(Token(sid, w.serial)) else None;
      w' := w.(serial := w.serial + 1, issued := w.issued + (if t.Some? then {t.value} else {}));
      r := Content(cmd, w.version, t, t);
    }
  }

  /** A request hands out tokens of its own session only. */
  ghost predicate Issues(w: Switch, w': Switch, sid: nat) {
    w.issued <= w'.issued && forall t | t in w'.issued :: t in w.issued || t.session == sid
  }

  /** Holding `held` after holding sid, every further slot lost is paid for by a fault. */
  ghost predicate LostBy(w: Switch, sid: nat, w': Switch, held: Option<nat>) {
    w'.Lost(held) - w.Lost(Some(sid)) <= w'.faults - w.faults
  }

  lemma LostLess(w: Switch, w': Switch, sid: nat)
    requires w'.Owned() <= w.Owned()
    ensures w'.Lost(Some(sid)) <= w.Lost(Some(sid))
    ensures w'.Lost(None) <= w.Lost(Some(sid)) + (if sid in w'.live then 1 else 0)
  {
    Subset(w'.Owned() - {sid}, w.Owned() - {sid});
    LetGo(w'.Owned() - {}, w.Owned() - {sid}, sid, w'.live);
  }

  lemma LostSame(w: Switch, w': Switch, sid: nat)
    ensures w'.live == w.live && w'.ours == w.ours && sid in w.ours ==>
      w'.Lost(Some(sid)) == w.Lost(Some(sid)) &&
      w'.Lost(None) == w.Lost(Some(sid)) + (if sid in w.live then 1 else 0)
  {
    if w'.live == w.live && w'.ours == w.ours && sid in w.ours {
      if sid in w.live {
        assert w.Owned() - {} == (w.Owned() - {sid}) + {sid};
      } else {
        assert w.Owned() - {} == w.Owned() - {sid};
      }
    }
  }

  /** A login: slots lost while polling are paid for. */
  lemma LostLogin(w: Switch, w': Switch, granted: Option<nat>, lost: set<nat>)
    requires w'.Owned() <= w.Owned() + lost + (if granted.Some? then {granted.value} else {})
    ensures w'.Lost(granted) <= w.Lost(None) + |lost|
    ensures CalmGrant(w, w', granted) ==>
      (granted.Some? <==> |w.live| < SLOTS) && (granted.Some? ==> granted.value in w'.live) &&
      w'.Lost(granted) == w.Lost(None) && |w'.live| == |w.live| + (if granted.Some? then 1 else 0) && w'.stale == w.stale
  {
    Fewer(w'.Owned() - (if granted.Some? then {granted.value} else {}), w.Owned() - {}, lost);
    if CalmGrant(w, w', granted) {
      LostTook(w, w', granted);
      TookOne(w, w', granted);
    }
  }

  lemma TookOne(w: Switch, w': Switch, granted: Option<nat>)
    requires Took(w, w', granted)
    ensures |w'.live| == |w.live| + (if granted.Some? then 1 else 0)
  {
  }

  /** A logout: if it does not free the slot, that is paid for. */
  lemma LostRelease(w: Switch, w': Switch, sid: nat)
    requires w'.Owned() <= w.Owned() && w.faults <= w'.faults && (sid in w'.live ==> w'.faults > w.faults)
    ensures LostBy(w, sid, w', None)
    ensures w'.live == w.live - {sid} && w'.ours == w.ours ==> w'.Lost(None) == w.Lost(Some(sid))
  {
    LostLess(w, w', sid);
    if w'.live == w.live - {sid} && w'.ours == w.ours {
      assert w'.Owned() - {} == w.Owned() - {sid};
    }
  }

  /** A write: the session is kept unless the reply says it is gone. */
  lemma LostWrite(w: Switch, w': Switch, sid: nat, gone: bool)
    requires w'.Owned() <= w.Owned() && w.faults <= w'.faults && (gone && sid in w'.live ==> w'.faults > w.faults)
    ensures LostBy(w, sid, w', if gone then None else Some(sid))
    ensures w'.live == w.live && w'.ours == w.ours && sid in w.ours ==> w'.Lost(Some(sid)) == w.Lost(Some(sid))
  {
    LostLess(w, w', sid);
    LostSame(w, w', sid);
  }

  /** A new session that is held at once loses nothing. */
  lemma LostTook(w: Switch, w': Switch, granted: Option<nat>)
    requires Took(w, w', granted)
    ensures w'.Lost(granted) == w.Lost(None)
  {
    assert w'.Owned() - (if granted.Some? then {granted.value} else {}) == w.Owned() - {};
  }

  /** A write. `LoggedOut` frees the slot and says so; `FalseLogout` says so while
      the slot stays taken: a fault. */
  method Write(script: Script, w: Switch, sid: nat, token: Token, jar: Option<nat>)
    returns (w': Switch, r: Reply, jar': Option<nat>)
    requires w.Valid() && (jar.Some? ==> jar.value < w.nextCookie) && sid in w.ours
    requires token.session == sid && token in w.issued
    ensures Issues(w, w', sid)
    ensures w.Before(w') && w'.commands == w.commands + 1 && w'.logins == w.logins
    ensures var e := script(w.clock);
            && (r.Done? && r.ok && !r.logout <==>
                  LetIn(w, e, sid, jar) && e.answers && e.writing in {Applied, Discarded})
            && (r.Done? && r.logout <==> LetIn(w, e, sid, jar) && e.answers && e.writing in {LoggedOut, FalseLogout})
            && w'.version == w.version + (if LetIn(w, e, sid, jar) && e.writing == Applied then 1 else 0)
    ensures w'.ours == w.ours && w'.Owned() <= w.Owned()
    ensures jar'.Some? ==> jar'.value < w'.nextCookie
    ensures r in {Failed, Blank, Garbage} || r.Done?
    ensures r.Done? && r.logout && sid in w'.live ==> w'.faults > w.faults
    ensures w'.faults <= w.faults + 1
    ensures KeptAt(script(w.clock)) && Fresh(jar, w.stale) ==>
      w'.faults == w.faults && w'.stale == w.stale && Fresh(jar', w'.stale)
    ensures r.Done? && r.xsrf.Some? ==> r.xsrf.value.session == sid && r.xsrf.value in w'.issued
    ensures w'.writes == w.writes + [Sent(sid, token)]
    ensures Calm(script(w.clock)) && script(w.clock).writing == Applied ==> CalmWrite(w, w', sid, jar, jar', r)
  {
    var e;
    w', e := Tick(script, w.(commands := w.commands + 1, writes := w.writes + [Sent(sid, token)]));
    w', jar' := Cookie(w', jar, e.arrives && e.answers);
    r := Blank;
    if e.arrives && sid in w'.live && (jar'.None? || jar'.value !in w'.stale) {
      w', r := Obey(w', sid, e);
    }
    if !e.arrives || !e.answers {
      r := Failed;
    }
  }

  /** What a write that is let in does. */
  method Obey(w: Switch, sid: nat, e: Event) returns (w': Switch, r: Reply)
    requires w.Valid() && sid in w.live
    ensures w'.Valid() && Issues(w, w', sid)
    ensures w' == w.(serial := w'.serial, version := w'.version, live := w'.live, faults := w'.faults, issued := w'.issued)
    ensures w'.live == (if e.writing == LoggedOut then w.live - {sid} else w.live)
    ensures w'.faults == w.faults + (if e.writing == FalseLogout then 1 else 0)
    ensures r in {Failed, Garbage} || r.Done?
    ensures r.Done? && r.logout <==> e.writing in {LoggedOut, FalseLogout}
    ensures r.Done? && r.ok && !r.logout <==> e.writing in {Applied, Discarded}
    ensures w'.version == w.version + (if e.writing == Applied then 1 else 0)
    ensures r.Done? && r.xsrf.Some? ==> r.xsrf.value.session == sid && r.xsrf.value in w'.issued
  {
    var t := if e.token then Some(Token(sid, w.serial)) else None;
    w' := w.(serial := w.serial + 1, issued := w.issued + (if t.Some? then {t.value} else {}));
    r := Done(true, false, t);
    match e.writing {
      case Applied => w' := w'.(version := w.version + 1);
      case Discarded =>
      case Rejected => r := Done(false, false, t);
      case LoggedOut =>
        Subset(w.live - {sid}, w.live);
        w', r := w'.(live := w.live - {sid}), Done(false, true, t);
      case FalseLogout => w', r := w'.(faults := w.faults + 1), Done(false, true, t);
      case WriteHttpError => r := Failed;
      case WriteNotJson => r := Garbage;
    }
  }

  /** The answer to a write that is let in: success, whether applied or not, and the
      end of the session. */
  ghost predicate Confirms(script: Script, k: nat) {
    script(k).arrives && script(k).answers && script(k).writing in {Applied, Discarded}
  }

  ghost predicate LogsOut(script: Script, k: nat) {
    script(k).arrives && script(k).answers && script(k).writing in {LoggedOut, FalseLogout}
  }

  /** On a switch that is well: applied if the session is live and the cookie taken,
      otherwise an empty body. */
  ghost predicate CalmWrite(w: Switch, w': Switch, sid: nat, jar: Option<nat>, jar': Option<nat>, r: Reply) {
    && w'.live == w.live && w'.stale == w.stale && (Fresh(jar, w.stale) <==> Fresh(jar', w'.stale))
    && if sid in w.live && Fresh(jar, w.stale) then r.Done? && r.ok && !r.logout && w'.version == w.version + 1
       else r == Blank && w'.version == w.version
  }

  /** A logout that does not arrive leaves the slot taken: a fault. */
  method Release(script: Script, w: Switch, sid: nat) returns (w': Switch, r: Reply)
    requires w.Valid()
    ensures w.Before(w') && w.Silent(w') && w'.ours == w.ours && w'.Owned() <= w.Owned() && w'.nextCookie == w.nextCookie
    ensures sid in w'.live ==> w'.faults > w.faults
    ensures w'.faults <= w.faults + 1
    ensures script(w.clock).restart == {} ==> w'.stale == w.stale
    ensures script(w.clock).release ==> w'.faults == w.faults
    ensures Calm(script(w.clock)) ==> w'.live == w.live - {sid}
  {
    var e;
    w', e := Tick(script, w);
    if e.release {
      Subset(w'.live - {sid}, w'.live);
      w' := w'.(live := w'.live - {sid});
    } else {
      w' := w'.(faults := w'.faults + 1);
    }
    r := if e.release && e.answers then Page else Failed;
  }

  lemma Subset(a: set<nat>, b: set<nat>)
    requires a <= b
    ensures |a| <= |b|
  {
    assert b == a + (b - a);
    assert |a + (b - a)| == |a| + |b - a|;
  }

  /** Letting go of one session loses at most its own slot. */
  lemma LetGo(owned: set<nat>, before: set<nat>, sid: nat, live: set<nat>)
    requires owned <= before + {sid} && owned <= live
    ensures |owned| <= |before| + (if sid in live then 1 else 0)
  {
    if sid in live {
      Fewer(owned, before, {sid});
    } else {
      Subset(owned, before);
    }
  }

  lemma Fewer(a: set<nat>, b: set<nat>, c: set<nat>)
    requires a <= b + c
    ensures |a| <= |b| + |c|
  {
    Subset(a, b + c);
    assert |b + c| + |b * c| == |b| + |c|;
  }

  /** A switch that stays well from request number t on, and grants a login within
      any run of fifteen polls. */
  ghost predicate CalmFrom(script: Script, t: nat) {
    && (forall k: nat :: t <= k ==> Calm(script(k)))
    && (forall k: nat :: t <= k ==> GrantWithin(script, k, 15))
  }

  ghost predicate GrantWithin(script: Script, k: nat, n: nat) {
    exists i: nat :: k <= i < k + n && GrantAt(script, i)
  }

  ghost predicate GrantAt(script: Script, i: nat) {
    script(i).poll == Grant
  }

  /** Whether the web server will take the cookie: it hands out a new one to a
      client that has none. */
  ghost predicate Fresh(jar: Option<nat>, stale: set<nat>) {
    jar.Some? ==> jar.value !in stale
  }

  /** A calm wait: nothing has changed after n polls, and none of them granted. */
  ghost predicate StillWaiting(script: Script, w0: Switch, w: Switch, n: nat) {
    && Took(w0, w, None) && w.stale == w0.stale
    && NoGrants(script, w0.clock, w0.clock + n)
  }

  ghost predicate NoGrants(script: Script, from: nat, upTo: nat)
    decreases upTo
  {
    from < upTo ==> !GrantAt(script, upTo - 1) && NoGrants(script, from, upTo - 1)
  }

  lemma {:induction false} NoGrantsAt(script: Script, from: nat, upTo: nat, i: nat)
    requires NoGrants(script, from, upTo) && from <= i < upTo
    ensures !GrantAt(script, i)
    decreases upTo
  {
    if i < upTo - 1 {
      NoGrantsAt(script, from, upTo - 1, i);
    }
  }

  /** Polling so far: nothing but the clock and the session table has moved, and
      every session taken and lost on the way is paid for by a fault. */
  ghost predicate Polled(w: Switch, w': Switch, n: nat, lost: set<nat>, got: set<nat>) {
    && w'.Valid() && w.Silent(w') && w'.nextCookie == w.nextCookie
    && w'.clock == w.clock + n && w.ours <= w'.ours
    && w'.Owned() <= w.Owned() + lost + got
    && w.faults <= w'.faults && |lost| <= w'.faults - w.faults
  }

  method PollOnce(script: Script, ghost w0: Switch, w: Switch, ghost n: nat, ghost lost: set<nat>)
    returns (w': Switch, r: Reply, ghost lost': set<nat>)
    requires w0.Valid() && Polled(w0, w, n, lost, {})
    ensures r == Failed || r.Status?
    ensures r.Status? && r.poll == Pending <==> SaysPending(script, w.clock)
    ensures r.Status? ==> r.poll != Garble
    ensures r.Status? && r.blob.Some? ==> r.poll == Grant && r.blob.value in w'.Owned()
    ensures Polled(w0, w', n + 1, lost', if r.Status? && r.blob.Some? then {r.blob.value} else {})
    ensures CalmFrom(script, w0.clock) && StillWaiting(script, w0, w, n) ==> CalmReply(script, w0, w, w', r, n)
    ensures KeptAt(script(w.clock)) ==> w'.faults == w.faults && w'.stale == w.stale
  {
    ghost var one;
    w', r, one := LoginStatus(script, w);
    lost' := lost + one;
    Fewer(lost', lost, one);
    if CalmFrom(script, w0.clock) && StillWaiting(script, w0, w, n) {
      CalmAnswer(script, w0, w, w', r, n);
    }
  }

  /** On a switch that is well: a new session if there is a free slot, and only then. */
  ghost predicate CalmGrant(w: Switch, w': Switch, granted: Option<nat>) {
    w'.stale == w.stale && (granted.Some? <==> |w.live| < SLOTS) && Took(w, w', granted)
  }

  /** It asks again exactly as long as it is told to, fifteen times at most. */
  ghost predicate Polls(script: Script, t: nat, n: nat) {
    && 1 <= n <= 15 && PendingFor(script, t, t + n - 1)
    && (n < 15 ==> !SaysPending(script, t + n - 1))
  }

  lemma PollsOn(script: Script, t: nat, n: nat)
    requires 1 <= n <= 15 && PendingFor(script, t, t + n - 1)
    ensures SaysPending(script, t + n - 1) ==> PendingFor(script, t, t + n) && (n == 15 ==> Polls(script, t, n))
    ensures !SaysPending(script, t + n - 1) ==> Polls(script, t, n)
  {
  }

  lemma CalmSettled(script: Script, w0: Switch, w: Switch, w': Switch, r: Reply, n: nat)
    requires CalmReply(script, w0, w, w', r, n) && (r.Status? && r.blob.Some? ==> r.poll == Grant)
    ensures if r.Status? && r.poll == Pending then StillWaiting(script, w0, w', n + 1)
            else r.Status? && CalmGrant(w0, w', r.blob) && (r.blob.Some? || r.poll == Refuse)
  {
  }

  lemma GrantedInTime(script: Script, w0: Switch, w: Switch, n: nat)
    requires CalmFrom(script, w0.clock) && StillWaiting(script, w0, w, n)
    ensures n < LOGIN_POLLS
  {
    assert GrantWithin(script, w0.clock, 15);
    var i: nat :| w0.clock <= i < w0.clock + 15 && GrantAt(script, i);
    if i < w0.clock + n {
      NoGrantsAt(script, w0.clock, w0.clock + n, i);
    }
  }

  /** The polls of one login: a grant, a refusal, or fifteen times nothing. */
  method AwaitGrant(script: Script, w: Switch)
    returns (w': Switch, granted: Option<nat>, ghost n: nat, ghost lost: set<nat>)
    requires w.Valid()
    ensures Polled(w, w', n, lost, if granted.Some? then {granted.value} else {})
    ensures granted.Some? ==> granted.value in w'.Owned()
    ensures Settled(script, w, w', granted, n)
  {
    w', granted, n, lost := w, None, 0, {};
    var attempt, again := 0, true;
    while attempt < LOGIN_POLLS && again
      invariant 0 <= attempt <= LOGIN_POLLS && n == attempt && (again ==> granted == None)
      invariant granted.Some? ==> granted.value in w'.Owned()
      invariant Polled(w, w', n, lost, if granted.Some? then {granted.value} else {})
      invariant again ==> Waiting(script, w, w', n)
      invariant !again || n == LOGIN_POLLS ==> Settled(script, w, w', granted, n)
    {
      w', again, granted, lost := PollNext(script, w, w', n, lost);
      attempt, n := attempt + 1, n + 1;
    }
  }

  /** Polls so far, every one told to ask again. */
  ghost predicate Waiting(script: Script, w: Switch, w': Switch, n: nat) {
    && PendingFor(script, w.clock, w.clock + n)
    && (CalmFrom(script, w.clock) ==> StillWaiting(script, w, w', n))
    && (Kept(script) ==> w'.faults == w.faults && w'.stale == w.stale)
  }

  /** The end of the polls: a session or none. */
  ghost predicate Settled(script: Script, w: Switch, w': Switch, granted: Option<nat>, n: nat) {
    && Polls(script, w.clock, n) && (granted.Some? ==> !SaysPending(script, w.clock + n - 1))
    && (CalmFrom(script, w.clock) ==> CalmGrant(w, w', granted))
    && (Kept(script) ==> w'.faults == w.faults && w'.stale == w.stale)
  }

  lemma WaitNext(script: Script, w: Switch, before: Switch, w': Switch, r: Reply, n: nat)
    requires n < 15 && Waiting(script, w, before, n) && before.clock == w.clock + n
    requires r == Failed || (r.Status? && (r.blob.Some? ==> r.poll == Grant))
    requires r.Status? && r.poll == Pending <==> SaysPending(script, before.clock)
    requires CalmFrom(script, w.clock) ==> CalmReply(script, w, before, w', r, n)
    requires Kept(script) ==> w'.faults == before.faults && w'.stale == before.stale
    ensures if r.Status? && r.poll == Pending
            then Waiting(script, w, w', n + 1) && (n + 1 == 15 ==> Settled(script, w, w', None, n + 1))
            else Settled(script, w, w', if r.Status? then r.blob else None, n + 1)
  {
    PollsOn(script, w.clock, n + 1);
    if CalmFrom(script, w.clock) {
      CalmSettled(script, w, before, w', r, n);
      if r.Status? && r.poll == Pending && n + 1 == 15 {
        GrantedInTime(script, w, w', n + 1);
      }
    }
  }

  /** One more poll. An error, a refusal, or a grant, whose blob may be unreadable,
      ends the login. */
  method PollNext(script: Script, ghost w0: Switch, w: Switch, ghost n: nat, ghost lost: set<nat>)
    returns (w': Switch, again: bool, granted: Option<nat>, ghost lost': set<nat>)
    requires w0.Valid() && n < 15 && Polled(w0, w, n, lost, {}) && Waiting(script, w0, w, n)
    ensures granted.Some? ==> !again && granted.value in w'.Owned()
    ensures Polled(w0, w', n + 1, lost', if granted.Some? then {granted.value} else {})
    ensures again ==> Waiting(script, w0, w', n + 1)
    ensures !again || n + 1 == 15 ==> Settled(script, w0, w', granted, n + 1)
  {
    var r;
    w', r, lost' := PollOnce(script, w0, w, n, lost);
    WaitNext(script, w0, w, w', r, n);
    again := r.Status? && r.poll == Pending;
    granted := if r.Status? then r.blob else None;
  }

  /** A whole login: the page, the password, the polls. */
  method Handshake(script: Script, w: Switch, jar: Option<nat>)
    returns (w': Switch, granted: Option<nat>, jar': Option<nat>, ghost lost: set<nat>)
    requires w.Valid() && (jar.Some? ==> jar.value < w.nextCookie)
    ensures w'.Valid() && w.clock < w'.clock && w.ours <= w'.ours && w.faults <= w'.faults && w'.logins == w.logins + 1
    ensures w.Silent(w'.(logins := w.logins))
    ensures jar'.Some? ==> jar'.value < w'.nextCookie
    ensures granted.Some? ==> granted.value in w'.Owned()
    // The password goes out only after the page, the polls only after the password.
    ensures !Heard(script(w.clock)) ==> granted == None && w'.clock == w.clock + 1
    ensures Heard(script(w.clock)) ==>
      if Heard(script(w.clock + 1)) && script(w.clock + 1).auth then w'.clock >= w.clock + 3
      else granted == None && w'.clock == w.clock + 2
    ensures w'.Owned() <= w.Owned() + lost + (if granted.Some? then {granted.value} else {})
    ensures |lost| <= w'.faults - w.faults
    ensures Kept(script) && Fresh(jar, w.stale) ==> w'.faults == w.faults && Fresh(jar', w'.stale)
    ensures CalmFrom(script, w.clock) ==>
      CalmGrant(w, w', granted) && (Fresh(jar', w'.stale) <==> Fresh(jar, w.stale))
  {
    granted, lost := None, {};
    ghost var calm := CalmFrom(script, w.clock);
    assert calm ==> Calm(script(w.clock)) && Calm(script(w.clock + 1));
    var r;
    w', r, jar' := LoginPage(script, w, jar);
    if r == Page {
      w', r := LoginAuth(script, w');
    }
    if r != Auth(true) {
      return;
    }
    if calm {
      CalmLater(script, w.clock, w'.clock);
    }
    ghost var n;
    w', granted, n, lost := AwaitGrant(script, w');
  }

  /** The login again, with the slots lost instead of the sessions. */
  method Counted(script: Script, w: Switch, jar: Option<nat>)
    returns (w': Switch, granted: Option<nat>, jar': Option<nat>)
    requires w.Valid() && (jar.Some? ==> jar.value < w.nextCookie)
    ensures w'.Valid() && w.clock < w'.clock && w.ours <= w'.ours && w.faults <= w'.faults && w'.logins == w.logins + 1
    ensures w.Silent(w'.(logins := w.logins))
    ensures jar'.Some? ==> jar'.value < w'.nextCookie
    ensures granted.Some? ==> granted.value in w'.Owned()
    ensures w'.Lost(granted) - w.Lost(None) <= w'.faults - w.faults
    ensures Kept(script) && Fresh(jar, w.stale) ==> w'.faults == w.faults && Fresh(jar', w'.stale)
    ensures CalmFrom(script, w.clock) ==>
      && (granted.Some? <==> |w.live| < SLOTS) && (granted.Some? ==> granted.value in w'.live)
      && w'.Lost(granted) == w.Lost(None) && |w'.live| == |w.live| + (if granted.Some? then 1 else 0)
      && w'.stale == w.stale && (Fresh(jar', w'.stale) <==> Fresh(jar, w.stale))
  {
    ghost var lost;
    w', granted, jar', lost := Handshake(script, w, jar);
    LostLogin(w, w', granted, lost);
  }

  ghost predicate CalmReply(script: Script, w0: Switch, w: Switch, w': Switch, r: Reply, n: nat) {
    && w'.stale == w0.stale
    && if !GrantAt(script, w.clock) then r == Status(Pending, None) && StillWaiting(script, w0, w', n + 1)
       else if |w0.live| < SLOTS then r.Status? && r.blob.Some? && Took(w0, w', r.blob)
       else r == Status(Refuse, None) && Took(w0, w', None)
  }

  lemma CalmAnswer(script: Script, w0: Switch, w: Switch, w': Switch, r: Reply, n: nat)
    requires CalmFrom(script, w0.clock) && w.clock == w0.clock + n
    requires StillWaiting(script, w0, w, n)
    requires CalmPoll(script(w.clock).poll, w, w', r)
    ensures CalmReply(script, w0, w, w', r, n)
  {
    assert Calm(script(w.clock));
    TookNext(w0, w, w', if r.Status? then r.blob else None);
  }

  lemma TookNext(w0: Switch, w: Switch, w': Switch, granted: Option<nat>)
    requires Took(w0, w, None) && Took(w, w', granted)
    ensures Took(w0, w', granted) && w.live == w0.live
  {
  }

  datatype Op = DoGet(cmd: string) | DoSet | DoLogout

  /** The client. `tabid` stands for the session id and its public key, which the
      code always sets and clears together; `device` is the switch it talks to. */
  class Client {
    const script: Script
    const releasePerCall: bool
    var device: Switch
    var tabid: Option<nat>
    var xsrf: Option<Token>
    var jar: Option<nat>

    constructor (script: Script, releasePerCall: bool, device: Switch)
      requires device.Valid() && device.ours == {}
      ensures Valid() && this.device == device && Lost() == 0
      ensures this.script == script && this.releasePerCall == releasePerCall
    {
      this.script, this.releasePerCall, this.device := script, releasePerCall, device;
      assert device.Owned() - {} == {};
      tabid, xsrf, jar := None, None, None;
    }

    /** A held token belongs to the held session. */
    ghost predicate Valid()
      reads this
    {
      && device.Valid()
      && (tabid.Some? ==> tabid.value in device.ours)
      && (xsrf.Some? ==> tabid == Some(xsrf.value.session) && xsrf.value in device.issued)
      && (jar.Some? ==> jar.value < device.nextCookie)
    }

    /** How many slots are taken by sessions of this client that it no longer holds. */
    ghost function Lost(): nat
      reads this
    {
      device.Lost(tabid)
    }

    /** The free slots one read takes on a switch that is well: none with a live
        session, one to log in, and one more when the first login is wasted
        because it is made with a cookie the web server has forgotten. */
    ghost function SlotsNeeded(): nat
      reads this
    {
      if tabid.Some? then (if tabid.value in device.live && Fresh(jar, device.stale) then 0 else 1)
      else if Fresh(jar, device.stale) then 1
      else 2
    }

    /** The session is held, live, and the web server takes the cookie. */
    ghost predicate Alive()
      reads this
    {
      tabid.Some? && tabid.value in device.live && Fresh(jar, device.stale)
    }

    /** A current answer to a read, with the session alive; t is the time of the call. */
    ghost predicate Current(r: Reply, cmd: string, t: nat)
      reads this
    {
      && r.Content? && r.cmd == cmd && r.version == device.version && Alive() && jar.Some?
      && (Eager(script, t) ==> r.home.Some?)
    }

    /** When a write succeeds on a switch that is well: with a token held it goes out
        unchecked, so the session must be alive; otherwise a read comes first. */
    ghost predicate WriteReady()
      reads this
    {
      if tabid.Some? && xsrf.Some? then Alive() else |device.live| + SlotsNeeded() <= SLOTS
    }

    /** The web server takes the cookie, or gives one. */
    ghost predicate CookieGood()
      reads this
    {
      Fresh(jar, device.stale)
    }

    /** Whether a read on a switch that is well loses a slot: the web server has
        forgotten the cookie, so the empty body comes although the session, the held
        one or the one a login takes, is live. */
    ghost predicate Strands()
      reads this
    {
      !CookieGood() && (if tabid.Some? then tabid.value in device.live else |device.live| < SLOTS)
    }

    method Login() returns (ok: bool)
      requires Valid() && tabid == None
      modifies this
      ensures Valid() && xsrf == None && (ok <==> tabid.Some?)
      ensures old(device.faults) <= device.faults
      ensures Lost() - old(Lost()) <= device.faults - old(device.faults)
      ensures Kept(script) && old(CookieGood()) ==> CookieGood() && device.faults == old(device.faults)
      ensures device.logins == old(device.logins) + 1 && device.commands == old(device.commands)
      ensures device.writes == old(device.writes) && device.version == old(device.version)
      ensures old(device.clock) <= device.clock
      ensures CalmFrom(script, old(device.clock)) ==>
        (ok <==> |old(device.live)| < SLOTS) && (ok ==> tabid.value in device.live) &&
        |device.live| == |old(device.live)| + (if ok then 1 else 0) && Lost() == old(Lost()) &&
        device.stale == old(device.stale) && (Fresh(jar, device.stale) <==> Fresh(old(jar), device.stale))
    {
      xsrf := None;
      device, tabid, jar := Counted(script, device, jar);
      ok := tabid.Some?;
    }

    /** Forgets the session and the cookie. */
    method DropSession()
      requires Valid()
      modifies this
      ensures Valid() && tabid == None && xsrf == None && jar == None && device == old(device)
      ensures Lost() <= old(Lost()) + (if old(tabid).Some? && old(tabid).value in device.live then 1 else 0)
    {
      if tabid.Some? {
        LostLess(device, device, tabid.value);
      }
      tabid, xsrf, jar := None, None, None;
    }

    /** Logs in unless there is a session. */
    method Ensure() returns (ok: bool)
      requires Valid()
      modifies this
      ensures Valid() && (ok <==> tabid.Some?)
      ensures old(tabid).Some? ==> tabid == old(tabid) && xsrf == old(xsrf) && jar == old(jar) && device == old(device)
      ensures old(tabid).None? ==> xsrf == None
      ensures old(device.faults) <= device.faults && old(device.clock) <= device.clock
      ensures Lost() - old(Lost()) <= device.faults - old(device.faults)
      ensures Kept(script) && old(CookieGood()) ==> CookieGood() && device.faults == old(device.faults)
      ensures device.logins <= old(device.logins) + 1 && device.commands == old(device.commands)
      ensures device.writes == old(device.writes) && device.version == old(device.version)
      ensures CalmFrom(script, old(device.clock)) ==>
        (if |old(device.live)| + old(SlotsNeeded()) <= SLOTS then ok && |device.live| + RereadSlots() <= SLOTS
         else ok ==> |device.live| + RereadSlots() > SLOTS) &&
        Lost() == old(Lost()) && (old(Strands()) <==> ok && Strands())
    {
      ok := true;
      if tabid == None {
        ok := Login();
      }
    }

    /** The free slots a read takes on a switch that is well, with a session held. */
    ghost function RereadSlots(): nat
      requires tabid.Some?
      reads this
    {
      if tabid.value in device.live && Fresh(jar, device.stale) then 0 else 1
    }

    /** One read, logging in first if need be, and once more if the session turns
        out to be dead. */
    method GetLocked(cmd: string) returns (r: Reply)
      requires Valid()
      modifies this
      ensures Valid()
      ensures old(device.faults) <= device.faults && old(device.clock) <= device.clock
      ensures Lost() - old(Lost()) <= device.faults - old(device.faults)
      ensures Kept(script) && old(CookieGood()) ==> CookieGood() && device.faults == old(device.faults)
      ensures device.logins <= old(device.logins) + 2 && device.commands <= old(device.commands) + 2
      ensures device.writes == old(device.writes) && device.version == old(device.version)
      ensures r in {Failed, Garbage, Blank} || r.Content?
      ensures r.Content? ==> FromSession(r, tabid, device) && r.cmd == cmd && r.version == device.version
      ensures r.Content? && r.xsrf.Some? ==> xsrf == r.xsrf
      ensures CalmFrom(script, old(device.clock)) ==>
        if |old(device.live)| + old(SlotsNeeded()) <= SLOTS
        then Current(r, cmd, old(device.clock))
        else r == Failed
      ensures CalmFrom(script, old(device.clock)) ==>
        Lost() == old(Lost()) + (if old(Strands()) then 1 else 0)
    {
      var ok := Ensure();
      if !ok {
        return Failed;
      }
      if CalmFrom(script, old(device.clock)) {
        CalmLater(script, old(device.clock), device.clock);
      }
      r := ReadTwice(cmd);
      if r.Content? && r.xsrf.Some? {
        xsrf := r.xsrf;
      }
    }

    /** The read with a session held, and its retry. */
    method ReadTwice(cmd: string) returns (r: Reply)
      requires Valid() && tabid.Some?
      modifies this
      ensures Valid()
      ensures old(device.faults) <= device.faults && old(device.clock) <= device.clock
      ensures Lost() - old(Lost()) <= device.faults - old(device.faults)
      ensures Kept(script) && old(CookieGood()) ==> CookieGood() && device.faults == old(device.faults)
      ensures device.commands <= old(device.commands) + 2
      ensures device.writes == old(device.writes) && device.version == old(device.version)
      ensures r in {Failed, Garbage, Blank} || r.Content?
      ensures r.Content? ==> FromSession(r, tabid, device) && r.cmd == cmd && r.version == device.version
      // The retry is made exactly after an empty body, and its login is the only one.
      ensures device.logins == old(device.logins) +
                (if ReadBlank(old(device), script(old(device.clock)), old(tabid).value, old(jar)) then 1 else 0)
      ensures !ReadBlank(old(device), script(old(device.clock)), old(tabid).value, old(jar)) ==>
        device.commands == old(device.commands) + 1 &&
        (r.Content? <==> ReadAnswers(old(device), script(old(device.clock)), old(tabid).value, old(jar)))
      ensures CalmFrom(script, old(device.clock)) ==>
        if |old(device.live)| + old(RereadSlots()) <= SLOTS
        then Current(r, cmd, old(device.clock))
        else r == Failed
      ensures CalmFrom(script, old(device.clock)) ==>
        Lost() == old(Lost()) + (if old(Strands()) then 1 else 0)
    {
      r := ReadOnce(cmd);
      if r == Blank {
        if CalmFrom(script, old(device.clock)) {
          CalmLater(script, old(device.clock), device.clock);
        }
        r := LoginAndRead(cmd);
      }
    }

    /** The retry: a fresh login without a cookie, and the read again. */
    method LoginAndRead(cmd: string) returns (r: Reply)
      requires Valid() && tabid == None && jar == None
      modifies this
      ensures Valid()
      ensures old(device.faults) <= device.faults && old(device.clock) <= device.clock
      ensures Lost() - old(Lost()) <= device.faults - old(device.faults)
      ensures Kept(script) && old(CookieGood()) ==> CookieGood() && device.faults == old(device.faults)
      ensures device.logins == old(device.logins) + 1 && device.commands <= old(device.commands) + 1
      ensures device.writes == old(device.writes) && device.version == old(device.version)
      ensures r in {Failed, Garbage, Blank} || r.Content?
      ensures r.Content? ==> FromSession(r, tabid, device) && r.cmd == cmd && r.version == device.version
      ensures CalmFrom(script, old(device.clock)) ==>
        (if |old(device.live)| < SLOTS then Current(r, cmd, old(device.clock)) else r == Failed) &&
        Lost() == old(Lost())
    {
      var ok := Login();
      if !ok {
        return Failed;
      }
      if CalmFrom(script, old(device.clock)) {
        CalmLater(script, old(device.clock), device.clock);
      }
      r := Reread(cmd);
    }

    /** The first read of a call; an empty body drops the session. */
    method ReadOnce(cmd: string) returns (r: Reply)
      requires Valid() && tabid.Some?
      modifies this
      ensures Valid() && (r == Blank ==> tabid == None && jar == None) && (r != Blank ==> tabid == old(tabid))
      ensures old(device.faults) <= device.faults && old(device.clock) < device.clock
      ensures Lost() - old(Lost()) <= device.faults - old(device.faults)
      ensures Kept(script) && old(CookieGood()) ==> CookieGood() && device.faults == old(device.faults)
      ensures device.commands == old(device.commands) + 1 && device.logins == old(device.logins)
      ensures device.writes == old(device.writes) && device.version == old(device.version)
      ensures r in {Failed, Garbage, Blank} || r.Content?
      ensures r.Content? ==> FromSession(r, tabid, device) && r.cmd == cmd && r.version == device.version
      ensures r.Content? <==> ReadAnswers(old(device), script(old(device.clock)), old(tabid).value, old(jar))
      ensures r == Blank <==> ReadBlank(old(device), script(old(device.clock)), old(tabid).value, old(jar))
      ensures Calm(script(old(device.clock))) ==>
        device.live == old(device.live) && device.stale == old(device.stale) &&
        (if old(Alive()) then Current(r, cmd, old(device.clock)) else r == Blank) &&
        Lost() == old(Lost()) + (if old(Strands()) then 1 else 0)
    {
      device, r, jar := Read(script, device, cmd, tabid.value, jar);
      if r == Blank {
        DropSession();
      }
    }

    /** The second read of a call: nothing is dropped whatever it answers. */
    method Reread(cmd: string) returns (r: Reply)
      requires Valid() && tabid.Some?
      modifies this`device, this`jar
      ensures Valid() && old(device.faults) <= device.faults && old(device.clock) < device.clock
      ensures Lost() - old(Lost()) <= device.faults - old(device.faults)
      ensures Kept(script) && old(CookieGood()) ==> CookieGood() && device.faults == old(device.faults)
      ensures device.commands == old(device.commands) + 1 && device.logins == old(device.logins)
      ensures device.writes == old(device.writes) && device.version == old(device.version)
      ensures r in {Failed, Garbage, Blank} || r.Content?
      ensures r.Content? ==> FromSession(r, tabid, device) && r.cmd == cmd && r.version == device.version
      ensures Calm(script(old(device.clock))) && old(Alive()) ==> Current(r, cmd, old(device.clock))
      ensures Calm(script(old(device.clock))) ==> Lost() == old(Lost())
    {
      device, r, jar := Read(script, device, cmd, tabid.value, jar);
    }

    /** The public read: the session goes back before the call returns if the
        client is in per-call mode, whatever the read came to. */
    method Get(cmd: string) returns (r: Reply)
      requires Valid()
      modifies this
      ensures Valid() && (releasePerCall ==> tabid == None) && (!releasePerCall && r.Content? ==> tabid.Some?)
      ensures old(device.faults) <= device.faults
      ensures Lost() - old(Lost()) <= device.faults - old(device.faults)
      ensures Kept(script) && old(CookieGood()) ==> CookieGood() && device.faults == old(device.faults)
      ensures device.logins <= old(device.logins) + 2 && device.commands <= old(device.commands) + 2
      ensures device.writes == old(device.writes) && device.version == old(device.version)
      ensures r.Content? ==> r.cmd == cmd && r.version == device.version
      ensures CalmFrom(script, old(device.clock)) ==>
        if |old(device.live)| + old(SlotsNeeded()) <= SLOTS
        then r.Content? && r.cmd == cmd && r.version == device.version && jar.Some?
        else r == Failed
      ensures CalmFrom(script, old(device.clock)) ==>
        Lost() == old(Lost()) + (if old(Strands()) then 1 else 0)
    {
      r := GetLocked(cmd);
      if releasePerCall {
        if CalmFrom(script, old(device.clock)) {
          CalmLater(script, old(device.clock), device.clock);
        }
        LogoutLocked();
      }
    }

    /** The switch restarts its web server between two calls of a client that holds no
        session but still has its cookie: the next read gets its answer, and strands
        the session of the login it wastes. */
    method GetAfterRestart(cmd: string) returns (r: Reply)
      requires Valid() && tabid == None && jar.Some?
      requires CalmFrom(script, device.clock) && |device.live| + 2 <= SLOTS
      modifies this
      ensures Valid() && r.Content? && r.cmd == cmd && Lost() == old(Lost()) + 1
    {
      Restart();
      r := Get(cmd);
    }

    /** The web server forgets the client's cookie. */
    method Restart()
      requires Valid() && jar.Some?
      modifies this`device
      ensures Valid() && device == old(device).(stale := device.stale) && !CookieGood()
    {
      device := device.(stale := device.stale + {jar.value});
    }

    method Logout()
      requires Valid()
      modifies this
      ensures Valid() && tabid == None
      ensures old(device.faults) <= device.faults
      ensures Lost() - old(Lost()) <= device.faults - old(device.faults)
      ensures Kept(script) && old(CookieGood()) ==> CookieGood() && device.faults == old(device.faults)
    {
      LogoutLocked();
    }

    method LogoutLocked()
      requires Valid()
      modifies this`device, this`tabid, this`xsrf
      ensures Valid() && tabid == None
      ensures old(device.faults) <= device.faults && old(device.clock) <= device.clock
      ensures Lost() - old(Lost()) <= device.faults - old(device.faults)
      ensures Kept(script) && old(CookieGood()) ==> CookieGood() && device.faults == old(device.faults)
      ensures device.logins == old(device.logins) && device.commands == old(device.commands)
      ensures device.writes == old(device.writes) && device.version == old(device.version)
      ensures if old(tabid) == None then device == old(device) else device.clock == old(device.clock) + 1
      ensures Calm(script(old(device.clock))) ==> Lost() == old(Lost())
    {
      if tabid == None {
        return;
      }
      var sid, r := tabid.value, Failed;
      device, r := Release(script, device, sid);
      LostRelease(old(device), device, sid);
      tabid, xsrf := None, None;
    }

    method RefreshXsrf() returns (ok: bool, ghost answer: Reply)
      requires Valid()
      modifies this
      ensures Valid() && (ok ==> xsrf.Some?)
      ensures ok ==> answer.Content? && answer.cmd == "home_home" && xsrf == answer.home
      ensures old(device.faults) <= device.faults
      ensures Lost() - old(Lost()) <= device.faults - old(device.faults)
      ensures Kept(script) && old(CookieGood()) ==> CookieGood() && device.faults == old(device.faults)
      ensures device.writes == old(device.writes) && device.version == old(device.version)
      ensures old(device.clock) <= device.clock
      ensures CalmFrom(script, old(device.clock)) && Eager(script, old(device.clock)) ==>
        if |old(device.live)| + old(SlotsNeeded()) <= SLOTS then ok && Alive() else !ok
      ensures CalmFrom(script, old(device.clock)) ==> Lost() == old(Lost()) + (if old(Strands()) then 1 else 0)
    {
      var r := GetLocked("home_home");
      answer := r;
      ok := r.Content? && r.home.Some?;
      if ok {
        xsrf := r.home;
      }
    }

    /** The public write. At most one write goes out, and its token was issued in
        the very session whose id goes with it. On a switch that is well it succeeds
        exactly if the client is ready to write; a client that holds a token for a
        dead session is not, and unless it is in per-call mode it stays that way. */
    method Set() returns (ok: bool)
      requires Valid()
      modifies this
      ensures Valid() && (releasePerCall ==> tabid == None) && (!releasePerCall && ok ==> tabid.Some?)
      ensures old(device.faults) <= device.faults
      ensures Lost() - old(Lost()) <= device.faults - old(device.faults)
      ensures Kept(script) && old(CookieGood()) ==> CookieGood() && device.faults == old(device.faults)
      ensures old(device.writes) <= device.writes && |device.writes| <= |old(device.writes)| + 1
      ensures ok ==> |device.writes| == |old(device.writes)| + 1
      ensures ok ==> exists k: nat :: old(device.clock) <= k < device.clock && Confirms(script, k)
      ensures forall w | w in device.writes :: w.token.session == w.session && w.token in device.issued
      ensures CalmFrom(script, old(device.clock)) && Eager(script, old(device.clock)) ==>
        (ok <==> old(WriteReady())) && device.version == old(device.version) + (if ok then 1 else 0) &&
        (!ok && old(tabid).Some? && old(xsrf).Some? && !releasePerCall ==> !WriteReady())
      ensures CalmFrom(script, old(device.clock)) && Eager(script, old(device.clock)) ==>
        Lost() == old(Lost()) + (if old(Strands()) && (old(tabid).None? || old(xsrf).None?) then 1 else 0)
    {
      ok := SetLocked();
      if releasePerCall {
        if CalmFrom(script, old(device.clock)) {
          CalmLater(script, old(device.clock), device.clock);
        }
        LogoutLocked();
      }
    }

    /** The session of a client that reuses it expires between two calls: the next
        write is not applied, and neither is any later one before a read. */
    method SetAfterExpiry() returns (ok: bool)
      requires Valid() && tabid.Some? && xsrf.Some? && !releasePerCall
      requires CalmFrom(script, device.clock) && Eager(script, device.clock)
      modifies this
      ensures Valid() && !ok && !WriteReady() && device.version == old(device.version)
    {
      Subset(device.live - {tabid.value}, device.live);
      device := device.(live := device.live - {tabid.value});
      ok := Set();
    }

    method SetLocked() returns (ok: bool)
      requires Valid()
      modifies this
      ensures Valid() && (ok ==> tabid.Some?)
      ensures old(device.faults) <= device.faults && old(device.clock) <= device.clock
      ensures Lost() - old(Lost()) <= device.faults - old(device.faults)
      ensures Kept(script) && old(CookieGood()) ==> CookieGood() && device.faults == old(device.faults)
      ensures old(device.writes) <= device.writes && |device.writes| <= |old(device.writes)| + 1
      ensures ok ==> |device.writes| == |old(device.writes)| + 1
      ensures ok ==> exists k: nat :: old(device.clock) <= k < device.clock && Confirms(script, k)
      ensures CalmFrom(script, old(device.clock)) && Eager(script, old(device.clock)) ==>
        (ok <==> old(WriteReady())) && device.version == old(device.version) + (if ok then 1 else 0) &&
        (!ok && old(tabid).Some? && old(xsrf).Some? ==> tabid.Some? && xsrf.Some? && !Alive())
      ensures CalmFrom(script, old(device.clock)) && Eager(script, old(device.clock)) ==>
        Lost() == old(Lost()) + (if old(Strands()) && (old(tabid).None? || old(xsrf).None?) then 1 else 0)
    {
      ok := Prepare();
      if !ok {
        return;
      }
      if CalmFrom(script, old(device.clock)) {
        CalmLater(script, old(device.clock), device.clock);
      }
      ok := Post();
    }

    /** What comes before a write: a session, and a token fetched unless one is held. */
    method Prepare() returns (ok: bool)
      requires Valid()
      modifies this
      ensures Valid() && (ok ==> tabid.Some? && xsrf.Some?)
      ensures old(device.faults) <= device.faults && old(device.clock) <= device.clock
      ensures Lost() - old(Lost()) <= device.faults - old(device.faults)
      ensures Kept(script) && old(CookieGood()) ==> CookieGood() && device.faults == old(device.faults)
      ensures device.writes == old(device.writes) && device.version == old(device.version)
      ensures old(tabid).Some? && old(xsrf).Some? ==>
        ok && tabid == old(tabid) && xsrf == old(xsrf) && jar == old(jar) && device == old(device)
      ensures CalmFrom(script, old(device.clock)) && Eager(script, old(device.clock)) ==>
        (ok <==> (old(tabid).Some? && old(xsrf).Some?) || |old(device.live)| + old(SlotsNeeded()) <= SLOTS) &&
        (ok && (old(tabid).None? || old(xsrf).None?) ==> Alive())
      ensures CalmFrom(script, old(device.clock)) && Eager(script, old(device.clock)) ==>
        Lost() == old(Lost()) + (if old(Strands()) && (old(tabid).None? || old(xsrf).None?) then 1 else 0)
    {
      ok := Ensure();
      if !ok {
        return;
      }
      if xsrf == None {
        if CalmFrom(script, old(device.clock)) {
          CalmLater(script, old(device.clock), device.clock);
        }
        ghost var answer;
        ok, answer := RefreshXsrf();
      }
    }

    /** The write itself. A logout reply makes the client forget the session, but
        not the cookie. */
    method Post() returns (ok: bool)
      requires Valid() && tabid.Some? && xsrf.Some?
      modifies this
      ensures Valid() && (ok ==> tabid == old(tabid))
      ensures old(device.faults) <= device.faults && old(device.clock) <= device.clock
      ensures Lost() - old(Lost()) <= device.faults - old(device.faults)
      ensures Kept(script) && old(CookieGood()) ==> CookieGood() && device.faults == old(device.faults)
      ensures device.writes == old(device.writes) + [Sent(old(tabid).value, old(xsrf).value)]
      ensures device.clock == old(device.clock) + 1
      ensures ok <==>
        LetIn(old(device), script(old(device.clock)), old(tabid).value, old(jar)) && Confirms(script, old(device.clock))
      ensures
        LogsOut(script, old(device.clock)) &&
        LetIn(old(device), script(old(device.clock)), old(tabid).value, old(jar)) ==>
          tabid == None
      ensures !LogsOut(script, old(device.clock)) ==> tabid == old(tabid) && xsrf.Some?
      ensures Calm(script(old(device.clock))) && Eager(script, old(device.clock)) ==>
        Lost() == old(Lost()) && (ok <==> old(Alive())) && (Alive() <==> old(Alive())) &&
        tabid == old(tabid) && xsrf.Some? &&
        device.version == old(device.version) + (if ok then 1 else 0)
    {
      var r;
      device, r, jar := Write(script, device, tabid.value, xsrf.value, jar);
      LostWrite(old(device), device, tabid.value, r.Done? && r.logout);
      Heed(r);
      ok := r.Done? && r.ok && !r.logout;
    }

    /** What a write's reply says about token and session. */
    method Heed(r: Reply)
      requires Valid() && tabid.Some? && xsrf.Some?
      requires r.Done? && r.xsrf.Some? ==> r.xsrf.value.session == tabid.value && r.xsrf.value in device.issued
      modifies this`tabid, this`xsrf
      ensures Valid()
      ensures if r.Done? && r.logout then tabid == None && xsrf == None
              else tabid == old(tabid) && xsrf == if r.Done? && r.xsrf.Some? then r.xsrf else old(xsrf)
    {
      if r.Done? && r.xsrf.Some? {
        xsrf := r.xsrf;
      }
      if r.Done? && r.logout {
        tabid, xsrf := None, None;
      }
    }

    /** Any run of calls. The slots the client has lost are at most as many as the
        faults it met; and on a switch that keeps the assumptions there are none, so
        that it never takes more than the one slot it holds, and none at all after a
        call in per-call mode. */
    method Run(ops: seq<Op>)
      requires Valid() && Lost() == 0
      modifies this
      ensures Valid()
      ensures Lost() <= device.faults - old(device.faults)
      ensures Kept(script) && old(CookieGood()) ==> CookieGood() && device.faults == old(device.faults)
      ensures Kept(script) && old(CookieGood()) ==>
        |device.Owned()| <= 1 && (releasePerCall && ops != [] ==> device.Owned() == {})
    {
      for i := 0 to |ops|
        invariant Valid() && old(device.faults) <= device.faults
        invariant Lost() <= device.faults - old(device.faults)
        invariant Kept(script) && old(CookieGood()) ==> CookieGood() && device.faults == old(device.faults)
        invariant releasePerCall && i > 0 ==> tabid == None
      {
        match ops[i] {
          case DoGet(cmd) => var _ := Get(cmd);
          case DoSet => var _ := Set();
          case DoLogout => Logout();
        }
      }
      if tabid.Some? {
        Fewer(device.Owned(), device.Owned() - {tabid.value}, {tabid.value});
      } else {
        assert device.Owned() - {} == device.Owned();
      }
    }
  }

  lemma CalmLater(script: Script, t: nat, t': nat)
    requires CalmFrom(script, t) && t <= t'
    ensures CalmFrom(script, t') && Calm(script(t'))
  {
  }

  /** Tokens of a reply have been handed out, to the session that asked. */
  ghost predicate FromSession(r: Reply, tabid: Option<nat>, w: Switch)
    requires r.Content?
  {
    && tabid.Some?
    && (r.xsrf.Some? ==> r.xsrf.value.session == tabid.value && r.xsrf.value in w.issued)
    && (r.home.Some? ==> r.home.value.session == tabid.value && r.home.value in w.issued)
  }
}
