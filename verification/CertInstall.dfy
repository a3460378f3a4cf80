/** Certificate installation on the MS510TXUP: two uploads, then an HTTPS off-on
    edge, which is what makes the switch rebuild the pair it serves. */
module CertInstall {
  const UPLOAD_POLLS := 30

  datatype Pair = Pair(cert: string, key: string)

  /** The stored files, the HTTPS flag, and the pair being served. */
  datatype Switch = Switch(files: Pair, admin: bool, served: Pair, present: bool)

  /** What the status endpoint answers to one poll. */
  datatype Poll = Uploading | Success | Rejected | PollError

  /** One upload: whether the file is stored, whether the POST is answered, and the
      polls that follow. */
  datatype Upload = Upload(stored: bool, answered: bool, polls: nat -> Poll)

  /** One write of the HTTPS row. `Discarded` answers ok and does nothing;
      `Unheard` applies it and reports an error. */
  datatype WriteFate = Applied | Refused | Discarded | Unheard

  datatype World = World(cert: Upload, key: Upload, readable: bool, off: WriteFate, on: WriteFate)

  /** The switch rebuilds what it serves only when HTTPS goes from off to on. */
  function SetAdmin(sw: Switch, on: bool, fate: WriteFate): (Switch, bool) {
    var ok := fate == Applied || fate == Discarded;
    if fate == Refused || fate == Discarded then (sw, ok)
    else (sw.(admin := on, served := if on && !sw.admin then sw.files else sw.served), ok)
  }

  /** The polls end in success: some poll says so and all before it say nothing. */
  ghost predicate Succeeds(polls: nat -> Poll) {
    exists k: nat :: k < 30 && polls(k) == Success && forall j: nat :: j < k ==> polls(j) == Uploading
  }

  /** The status endpoint reports on the last POST: success only for a stored file. */
  ghost predicate Truthful(u: Upload) {
    Succeeds(u.polls) ==> u.stored
  }

  method AwaitUpload(polls: nat -> Poll) returns (ok: bool)
    ensures ok <==> Succeeds(polls)
  {
    ok := false;
    var attempt: nat := 0;
    while attempt < UPLOAD_POLLS
      invariant attempt <= UPLOAD_POLLS
      invariant forall j: nat :: j < attempt ==> polls(j) == Uploading
    {
      if polls(attempt) == Success {
        return true;
      }
      if polls(attempt) == Rejected || polls(attempt) == PollError {
        assert polls(attempt) != Uploading;
        return;
      }
      attempt := attempt + 1;
    }
  }

  // --- What an installation passes through ------------------------------------

  /** One effect on the switch, or none. */
  ghost predicate Effect(want: Pair, s: Switch, t: Switch) {
    || t == s
    || t == s.(files := s.files.(cert := want.cert))
    || t == s.(files := s.files.(key := want.key))
    || t == s.(admin := false)
    || t == s.(admin := true, served := if s.admin then s.served else s.files)
  }

  /** Every state from one to the other, one effect at a time. */
  ghost predicate Passes(want: Pair, trace: seq<Switch>, first: Switch, last: Switch) {
    && trace != [] && trace[0] == first && trace[|trace| - 1] == last
    && forall i :: 0 <= i < |trace| - 1 ==> Effect(want, trace[i], trace[i + 1])
  }

  lemma PassesOn(want: Pair, trace: seq<Switch>, first: Switch, last: Switch, next: Switch)
    requires Passes(want, trace, first, last) && Effect(want, last, next)
    ensures Passes(want, trace + [next], first, next)
  {
    var more := trace + [next];
    forall i | 0 <= i < |more| - 1
      ensures Effect(want, more[i], more[i + 1])
    {
      assert i < |trace| - 1 ==> Effect(want, trace[i], trace[i + 1]);
    }
  }

  lemma SetIsEffect(want: Pair, s: Switch, on: bool, fate: WriteFate)
    ensures Effect(want, s, SetAdmin(s, on, fate).0)
  {
  }

  // --- Spooling ---------------------------------------------------------------

  /** The certificate is accepted, so that the key is sent; and the key is, too. */
  ghost predicate CertAccepted(w: World) {
    w.cert.answered && Succeeds(w.cert.polls)
  }

  ghost predicate BothAccepted(w: World) {
    CertAccepted(w) && w.key.answered && Succeeds(w.key.polls)
  }

  /** The switch after spooling: each file is the wanted one if it was sent and stored. */
  ghost function Spooled(sw: Switch, want: Pair, w: World): Switch {
    sw.(files := Pair(if w.cert.stored then want.cert else sw.files.cert,
                      if w.key.stored && CertAccepted(w) then want.key else sw.files.key))
  }

  /** Spooling never touches the HTTPS flag or the served pair; it succeeds exactly
      with both uploads accepted. */
  method SpoolFiles(sw: Switch, want: Pair, w: World) returns (sw': Switch, ok: bool, ghost trace: seq<Switch>)
    ensures sw' == Spooled(sw, want, w)
    ensures ok <==> BothAccepted(w)
    ensures Passes(want, trace, sw, sw')
    ensures forall s | s in trace :: s.admin == sw.admin && s.served == sw.served
  {
    sw', ok, trace := sw, false, [sw];
    if w.cert.stored {
      PassesOn(want, trace, sw, sw', sw'.(files := sw'.files.(cert := want.cert)));
      sw' := sw'.(files := sw'.files.(cert := want.cert));
      trace := trace + [sw'];
    }
    if !w.cert.answered {
      return;
    }
    ok := AwaitUpload(w.cert.polls);
    if !ok {
      return;
    }
    if w.key.stored {
      PassesOn(want, trace, sw, sw', sw'.(files := sw'.files.(key := want.key)));
      sw' := sw'.(files := sw'.files.(key := want.key));
      trace := trace + [sw'];
    }
    if !w.key.answered {
      return sw', false, trace;
    }
    ok := AwaitUpload(w.key.polls);
  }

  // --- The installation -------------------------------------------------------

  /** Both files are accepted and the HTTPS row is read and shows a certificate, so
      that the edge is tried. */
  ghost predicate TriesEdge(sw: Switch, w: World) {
    BothAccepted(w) && w.readable && sw.present
  }

  predicate Answered(fate: WriteFate) {
    fate == Applied || fate == Discarded
  }

  /** A whole installation from any state at all, a half-finished earlier run
      included. `trace` is every state it passes through. */
  method UploadCertificate(sw: Switch, want: Pair, w: World)
    returns (sw': Switch, ok: bool, spooled: bool, ghost trace: seq<Switch>)
    ensures spooled <==> BothAccepted(w)
    ensures ok <==> TriesEdge(sw, w) && Answered(w.off) && Answered(w.on)
    // Nothing but the old pair or the wanted pair is ever served.
    ensures Passes(want, trace, sw, sw')
    ensures Truthful(w.cert) && Truthful(w.key) ==> forall s | s in trace :: s.served == sw.served || s.served == want
    // A run that gets no further than spooling leaves the listener alone.
    ensures !TriesEdge(sw, w) ==> sw' == Spooled(sw, want, w)
    // The edge: a write that fails ends the run, an unheard one still does its work.
    ensures TriesEdge(sw, w) && !Answered(w.off) ==>
      sw' == Spooled(sw, want, w).(admin := sw.admin && w.off == Refused)
    ensures TriesEdge(sw, w) && Answered(w.off) ==>
      sw' == Spooled(sw, want, w).(
        admin := w.on in {Applied, Unheard} || (sw.admin && w.off == Discarded),
        served := if w.on in {Applied, Unheard} && (w.off == Applied || !sw.admin) then sw'.files else sw.served)
    // Success means the wanted pair is served, exactly unless a write that answered
    // ok was discarded where it mattered.
    ensures ok && Truthful(w.cert) && Truthful(w.key) && sw.served != want ==>
      (sw'.served == want <==> w.on == Applied && (w.off == Applied || !sw.admin))
    ensures ok && Truthful(w.cert) && Truthful(w.key) ==> sw'.files == want
  {
    sw', ok, trace := SpoolFiles(sw, want, w);
    spooled := ok;
    if !ok {
      return;
    }
    if !w.readable || !sw'.present {
      return sw', false, true, trace;
    }
    var off := SetAdmin(sw', false, w.off);
    SetIsEffect(want, sw', false, w.off);
    PassesOn(want, trace, sw, sw', off.0);
    sw', ok := off.0, off.1;
    trace := trace + [sw'];
    if !ok {
      return;
    }
    var on := SetAdmin(sw', true, w.on);
    SetIsEffect(want, sw', true, w.on);
    PassesOn(want, trace, sw, sw', on.0);
    sw', ok := on.0, on.1;
    trace := trace + [sw'];
  }

  /** A success that installs nothing: both files arrive, HTTPS goes off, and the
      write that turns it on again is answered ok and discarded. */
  method DiscardedOn(sw: Switch, want: Pair) returns (w: World, sw': Switch, ok: bool)
    requires sw.present && sw.served != want
    ensures w.on == Discarded && w.off == Applied && w.readable && BothAccepted(w) && Truthful(w.cert) && Truthful(w.key)
    ensures ok && sw'.files == want && sw'.served != want && !sw'.admin
  {
    var good := Upload(true, true, _ => Success);
    w := World(good, good, true, Applied, Discarded);
    var first: nat := 0;
    assert good.polls(first) == Success;
    ghost var trace;
    var spooled;
    sw', ok, spooled, trace := UploadCertificate(sw, want, w);
  }

  /** From whatever is left of an earlier attempt, one installation in which
      everything is applied serves the wanted pair. */
  method Rerun(sw: Switch, want: Pair, w: World) returns (sw': Switch, ok: bool)
    requires TriesEdge(sw, w) && Truthful(w.cert) && Truthful(w.key) && w.off == w.on == Applied
    ensures ok && sw'.files == sw'.served == want && sw'.admin
  {
    ghost var trace;
    var spooled;
    sw', ok, spooled, trace := UploadCertificate(sw, want, w);
  }
}
