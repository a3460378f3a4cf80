/** Admin-password rotation: Vault first, then the router, with a typed outcome. */
module RotateAdmin {
  import opened Basics
  import Pr60x = Pr60xClient

  type Secret = map<string, string>

  /** What becomes of a Vault write. `Unheard` stored the data and reported an
      error all the same. */
  datatype WriteFate = Stored | Refused | Unheard

  /** How Vault behaves during one rotation. */
  datatype Vault = Vault(readable: bool, first: WriteFate, rollback: WriteFate)

  datatype Outcome = Success | Precondition | RolledBack | ChangedVerifyFlaky | Diverged

  /** Everything durable: what a crash leaves behind. */
  datatype World = World(secret: Secret, router: Pr60x.Router)

  function Field(m: Secret, field: string): string {
    if field in m then m[field] else ""
  }

  /** A copy of m with one field set, m itself untouched. */
  method CloneWith(m: Secret, key: string, val: string) returns (out: Secret)
    ensures out == m[key := val]
  {
    out := map[];
    var rest := m.Keys;
    while rest != {}
      invariant rest <= m.Keys && out.Keys == m.Keys - rest
      invariant forall k | k in out :: out[k] == m[k]
      decreases |rest|
    {
      var k :| k in rest;
      out, rest := out[k := m[k]], rest - {k};
    }
    out := out[key := val];
  }

  method Write(w: World, data: Secret, fate: WriteFate) returns (w': World, ok: bool)
    ensures w' == if fate == Refused then w else w.(secret := data)
    ensures ok <==> fate == Stored
  {
    w', ok := if fate == Refused then w else w.(secret := data), fate == Stored;
  }

  /** A point of a rotation from w with new password n: only the one field of the
      secret and the router's password have moved, each to n or not at all. */
  ghost predicate Within(w: World, field: string, n: string, t: World) {
    && (t.secret == w.secret || t.secret == w.secret[field := n])
    && Pr60x.Step(w.router, t.router, Pr60x.SetAdmin(Field(w.secret, field), n))
  }

  /** A router on the new password has it in Vault. A router still on the old one may
      not: between the first write and the change, Vault already holds the new. */
  ghost predicate NewIsInVault(w: World, field: string, t: World) {
    t.router.applied > w.router.applied ==> Field(t.secret, field) == t.router.password
  }

  ghost predicate Agree(w: World, field: string) {
    Field(w.secret, field) == w.router.password
  }

  /** What each outcome is documented to leave behind. */
  ghost predicate Documented(o: Outcome, w: World, field: string, n: string, t: World) {
    match o
    case Success => t.secret == w.secret[field := n] && t.router.password == n
    case Precondition => t.secret == w.secret && t.router.password == w.router.password
    case RolledBack => t.secret == w.secret && t.router.password == w.router.password
    case ChangedVerifyFlaky => t.secret == w.secret[field := n] && t.router.password == n
    case Diverged => t.secret == w.secret[field := n] && t.router.password == w.router.password
  }

  /** The rotation gets as far as the first Vault write. */
  ghost predicate Begins(w: World, field: string, gen: Option<string>, v: Vault) {
    v.readable && field in w.secret && w.secret[field] != "" && gen.Some?
  }

  /** The change on the router is reached and meets this fate. */
  ghost predicate ChangeMeets(script: Pr60x.Script, w: World, field: string, gen: Option<string>, v: Vault,
                              fate: Pr60x.Fate) {
    && Begins(w, field, gen, v) && v.first == Stored
    && Pr60x.Admits(w.router, Field(w.secret, field), gen.value)
    && Pr60x.Reaches(script, w.router.clock, w.router.next, fate)
  }

  /** Which effects will be carried out although they are reported as failed. */
  datatype Mishap = Mishap(write: bool, change: bool, rollback: bool) {
    predicate Clean() {
      !write && !change && !rollback
    }
  }

  /** An effect goes wrong in this way if it is reached and its reply is lost. */
  ghost function MishapOf(script: Pr60x.Script, w: World, field: string, gen: Option<string>, v: Vault): Mishap {
    Mishap(
      Begins(w, field, gen, v) && v.first == Unheard,
      ChangeMeets(script, w, field, gen, v, Pr60x.Unheard),
      Begins(w, field, gen, v) && v.first == Stored
      && !ChangeMeets(script, w, field, gen, v, Pr60x.Served) && v.rollback == Unheard)
  }

  /** The contract the rotation is written for: an error means no effect. */
  ghost predicate Honest(script: Pr60x.Script, t: nat, v: Vault) {
    Pr60x.Heard(script, t) && v.first != Unheard && v.rollback != Unheard
  }

  lemma HonestIsClean(script: Pr60x.Script, w: World, field: string, gen: Option<string>, v: Vault)
    requires Honest(script, w.router.clock, v)
    ensures MishapOf(script, w, field, gen, v).Clean()
  {
    Pr60x.HeardMeansNone(script, w.router.clock, w.router.next);
  }

  /** A generated password that is in use nowhere yet. */
  ghost predicate IsNew(w: World, field: string, gen: Option<string>) {
    gen.Some? && gen.value != Field(w.secret, field) && gen.value != w.router.password
  }

  /** At every point of a rotation from a state in which both sides agree, they agree
      exactly where both have moved or neither has: not between the first write and
      the change, and not where a rollback or its absence leaves only one moved. */
  lemma AgreesWhere(w: World, field: string, gen: Option<string>, s: World)
    requires Agree(w, field) && IsNew(w, field, gen) && Within(w, field, gen.value, s)
    ensures Agree(s, field) <==> (s.router.applied > w.router.applied <==> s.secret != w.secret)
  {
    assert Field(w.secret[field := gen.value], field) == gen.value;
  }

  /** Exactly one rotation. `crash` holds every point at which the process could
      have died, the last one included. */
  method Rotate(script: Pr60x.Script, w: World, field: string, gen: Option<string>, v: Vault)
    returns (t: World, outcome: Outcome, ghost crash: seq<World>)
    ensures crash != [] && crash[|crash| - 1] == t
    ensures forall s | s in crash :: Within(w, field, gen.GetOr(""), s)
    ensures Within(w, field, gen.GetOr(""), t)
    // The points: the start, the first write, the change, and the last effect.
    ensures |crash| == if !Begins(w, field, gen, v) then 1 else if v.first != Stored then 2 else 4
    ensures crash[0] == w
    ensures Begins(w, field, gen, v) ==>
      crash[1] == if v.first == Refused then w else w.(secret := w.secret[field := gen.value])
    ensures |crash| == 4 ==>
      && crash[2].secret == crash[1].secret && crash[3].router.applied == crash[2].router.applied
      && crash[2].router.applied == w.router.applied +
           (if ChangeMeets(script, w, field, gen, v, Pr60x.Served) || ChangeMeets(script, w, field, gen, v, Pr60x.Unheard)
            then 1 else 0)
    // A router on the new password has it in Vault at all of them, exactly unless the
    // reply to the change is lost and the rollback is stored.
    ensures !ChangeMeets(script, w, field, gen, v, Pr60x.Unheard) || v.rollback == Refused ==>
      forall s | s in crash :: NewIsInVault(w, field, s)
    ensures ChangeMeets(script, w, field, gen, v, Pr60x.Unheard) && v.rollback != Refused && IsNew(w, field, gen) ==>
      !NewIsInVault(w, field, t)
    // The outcome, and what it leaves behind, whatever the fates.
    ensures outcome == Precondition <==> !Begins(w, field, gen, v) || v.first != Stored
    ensures outcome in {Success, ChangedVerifyFlaky} <==> ChangeMeets(script, w, field, gen, v, Pr60x.Served)
    ensures outcome == Diverged ==> v.rollback != Stored
    ensures outcome == RolledBack ==> v.rollback == Stored && t.secret == w.secret
    ensures t.router.applied == w.router.applied +
              (if outcome in {Success, ChangedVerifyFlaky} || MishapOf(script, w, field, gen, v).change then 1 else 0)
    // The documented table.
    ensures MishapOf(script, w, field, gen, v).Clean() ==> Documented(outcome, w, field, gen.GetOr(""), t)
    ensures IsNew(w, field, gen) ==>
      (Documented(outcome, w, field, gen.value, t) <==> MishapOf(script, w, field, gen, v).Clean())
    ensures outcome == Success <==>
              ChangeMeets(script, w, field, gen, v, Pr60x.Served) &&
              Pr60x.Reaches(script, crash[2].router.clock, crash[2].router.next, Pr60x.Served)
    ensures Pr60x.Well(script, w.router.clock) && v.readable && v.first == Stored && gen.Some? && gen.value != "" ==>
      (outcome == Success <==> field in w.secret && w.secret[field] == w.router.password != "")
    ensures field !in w.secret || w.secret[field] == "" ==> outcome == Precondition && t == w
    ensures gen == None ==> t == w
    ensures w.router.clock <= t.router.clock
  {
    t, outcome, crash := w, Precondition, [w];
    if !v.readable {
      return;
    }
    var secret := w.secret;
    var oldPassword := Field(secret, field);
    if oldPassword == "" {
      return;
    }
    if gen == None {
      return;
    }
    var newPassword := gen.value;
    var newSecret := CloneWith(secret, field, newPassword);
    var ok;
    t, ok := Write(t, newSecret, v.first);
    crash := crash + [t];
    if !ok {
      return;
    }
    ghost var changed;
    t, outcome, changed := ChangeDevice(script, w, t, field, gen, v);
    crash := crash + [changed, t];
  }

  /** From the first write on: the change, once, and then the rollback or the check.
      `changed` is the point in between. */
  method ChangeDevice(script: Pr60x.Script, w: World, held: World, field: string, gen: Option<string>, v: Vault)
    returns (t: World, outcome: Outcome, ghost changed: World)
    requires Begins(w, field, gen, v) && v.first == Stored && held == w.(secret := w.secret[field := gen.value])
    ensures changed.secret == held.secret
    ensures Pr60x.Step(w.router, changed.router, Pr60x.SetAdmin(Field(w.secret, field), gen.value))
    ensures changed.router.applied > w.router.applied <==>
              ChangeMeets(script, w, field, gen, v, Pr60x.Served) || ChangeMeets(script, w, field, gen, v, Pr60x.Unheard)
    ensures outcome in {Success, ChangedVerifyFlaky} <==> ChangeMeets(script, w, field, gen, v, Pr60x.Served)
    ensures outcome == Success <==>
              ChangeMeets(script, w, field, gen, v, Pr60x.Served) &&
              Pr60x.Reaches(script, changed.router.clock, changed.router.next, Pr60x.Served)
    ensures outcome in {Success, ChangedVerifyFlaky} ==> t.secret == held.secret && t.router.applied > w.router.applied
    ensures outcome == RolledBack ==> v.rollback == Stored
    ensures outcome == Diverged ==> v.rollback != Stored
    ensures outcome in {RolledBack, Diverged} ==> t.secret == if v.rollback == Refused then held.secret else w.secret
    ensures outcome != Precondition
    ensures t.router.password == changed.router.password && t.router.applied == changed.router.applied
    ensures w.router.clock <= t.router.clock
    ensures Pr60x.Well(script, w.router.clock) && gen.value != "" ==>
      (outcome == Success <==> Field(w.secret, field) == w.router.password)
  {
    var ok, router;
    router, ok := Pr60x.SetPassword(script, held.router, Field(w.secret, field), gen.value);
    t := held.(router := router);
    changed := t;
    if !ok {
      t, ok := Write(t, w.secret, v.rollback);
      outcome := if ok then RolledBack else Diverged;
      return;
    }
    router, ok := Pr60x.Verify(script, t.router, gen.value);
    t := t.(router := router);
    outcome := if ok then Success else ChangedVerifyFlaky;
  }

  /** A run through these points: the i-th rotation leads from one to the next. */
  ghost predicate Linked(at: seq<World>, field: string, gens: seq<Option<string>>)
    requires |at| <= |gens| + 1
  {
    forall i :: 0 <= i < |at| - 1 ==> Within(at[i], field, gens[i].GetOr(""), at[i + 1])
  }

  /** No rotation of the run meets a mishap. */
  ghost predicate AllClean(script: Pr60x.Script, at: seq<World>, field: string, gens: seq<Option<string>>,
                           vaults: seq<Vault>)
    requires |at| <= |gens| + 1 == |vaults| + 1
  {
    forall i :: 0 <= i < |at| - 1 ==> MishapOf(script, at[i], field, gens[i], vaults[i]).Clean()
  }

  lemma OneMore(script: Pr60x.Script, at: seq<World>, t: World, field: string, gens: seq<Option<string>>,
                vaults: seq<Vault>)
    requires 0 < |at| <= |gens| == |vaults| && Linked(at, field, gens)
    requires Within(at[|at| - 1], field, gens[|at| - 1].GetOr(""), t)
    ensures Linked(at + [t], field, gens)
    ensures AllClean(script, at + [t], field, gens, vaults) <==>
            AllClean(script, at, field, gens, vaults) &&
            MishapOf(script, at[|at| - 1], field, gens[|at| - 1], vaults[|at| - 1]).Clean()
  {
    var more, last := at + [t], |at| - 1;
    assert forall i :: 0 <= i < |at| ==> more[i] == at[i];
    if AllClean(script, more, field, gens, vaults) {
      assert MishapOf(script, more[last], field, gens[last], vaults[last]).Clean();
      forall i | 0 <= i < last
        ensures MishapOf(script, at[i], field, gens[i], vaults[i]).Clean()
      {
        assert MishapOf(script, more[i], field, gens[i], vaults[i]).Clean();
      }
    }
  }

  /** A run in which every device and Vault keeps the contract. */
  ghost predicate AllHonest(script: Pr60x.Script, t: nat, vaults: seq<Vault>) {
    Pr60x.Heard(script, t) && forall i :: 0 <= i < |vaults| ==> vaults[i].first != Unheard && vaults[i].rollback != Unheard
  }

  /** Fresh passwords: each differs from the two in use at the start and from every
      other one generated. */
  ghost predicate AllFresh(gens: seq<Option<string>>, w: World, field: string) {
    && (forall i :: 0 <= i < |gens| && gens[i].Some? ==>
          gens[i].value != w.router.password && gens[i].value != Field(w.secret, field) && gens[i].value != "")
    && (forall i, j :: 0 <= i < j < |gens| && gens[i].Some? ==> gens[i] != gens[j])
  }

  /** The outcomes tell whether Vault and the router agree: without a Diverged they do;
      with one they do not, if the passwords were fresh, and no later rotation got as
      far as changing the router. */
  ghost predicate Told(outcomes: seq<Outcome>, areFresh: bool, agree: bool) {
    if Diverged !in outcomes then agree
    else areFresh ==> !agree && outcomes[|outcomes| - 1] !in {Success, ChangedVerifyFlaky}
  }

  lemma ToldNext(outcomes: seq<Outcome>, areFresh: bool, w: World, field: string, gen: Option<string>, outcome: Outcome,
                 t: World)
    requires Told(outcomes, areFresh, Agree(w, field)) && (areFresh && gen.Some? ==> IsNew(w, field, gen))
    requires Documented(outcome, w, field, gen.GetOr(""), t) && (gen == None ==> outcome == Precondition)
    requires !Agree(w, field) ==> outcome !in {Success, ChangedVerifyFlaky}
    ensures Told(outcomes + [outcome], areFresh, Agree(t, field))
  {
  }

  /** Any number of rotations, one after the other, from a state where Vault and the
      router agree; `at` holds the points between them. As long as none of them meets
      a mishap, which is so if device and Vault keep their contract, Vault and router
      agree at the end unless some rotation ended Diverged, and with fresh passwords
      only then. Every other field of the secret is what it was, and the router has
      executed at most one change for each rotation. */
  method RotateMany(script: Pr60x.Script, w: World, field: string, gens: seq<Option<string>>, vaults: seq<Vault>)
    returns (t: World, outcomes: seq<Outcome>, ghost at: seq<World>)
    requires |vaults| == |gens| && Agree(w, field)
    ensures |outcomes| == |gens| && |at| == |gens| + 1 && at[0] == w && at[|gens|] == t && Linked(at, field, gens)
    ensures AllHonest(script, w.router.clock, vaults) ==> AllClean(script, at, field, gens, vaults)
    ensures AllClean(script, at, field, gens, vaults) ==> Told(outcomes, AllFresh(gens, w, field), Agree(t, field))
    ensures t.secret - {field} == w.secret - {field}
    ensures t.router.applied <= w.router.applied + |gens|
  {
    t, outcomes, at := w, [], [w];
    for i := 0 to |gens|
      invariant RunSoFar(script, w, field, gens, vaults, i, outcomes, at) && at[i] == t
    {
      ghost var before := t;
      var outcome;
      ghost var crash;
      t, outcome, crash := Rotate(script, t, field, gens[i], vaults[i]);
      RunNext(script, w, field, gens, vaults, i, outcomes, at, outcome, t);
      outcomes, at := outcomes + [outcome], at + [t];
    }
  }

  /** A run of i rotations. */
  ghost predicate RunSoFar(script: Pr60x.Script, w: World, field: string, gens: seq<Option<string>>, vaults: seq<Vault>,
                           i: nat, outcomes: seq<Outcome>, at: seq<World>)
    requires i <= |gens| == |vaults|
  {
    && |outcomes| == i && |at| == i + 1 && at[0] == w && Linked(at, field, gens)
    && (AllHonest(script, w.router.clock, vaults) ==> AllClean(script, at, field, gens, vaults))
    && (AllClean(script, at, field, gens, vaults) ==> Told(outcomes, AllFresh(gens, w, field), Agree(at[i], field)))
    && BothKnown(gens, i, w, field, at[i])
    && w.router.clock <= at[i].router.clock
    && at[i].secret - {field} == w.secret - {field}
    && at[i].router.applied <= w.router.applied + i
  }

  /** One more rotation, of which nothing is used but what is documented. */
  lemma RunNext(script: Pr60x.Script, w: World, field: string, gens: seq<Option<string>>, vaults: seq<Vault>,
                i: nat, outcomes: seq<Outcome>, at: seq<World>, outcome: Outcome, t: World)
    requires i < |gens| == |vaults| && RunSoFar(script, w, field, gens, vaults, i, outcomes, at)
    requires Within(at[i], field, gens[i].GetOr(""), t) && at[i].router.clock <= t.router.clock
    requires MishapOf(script, at[i], field, gens[i], vaults[i]).Clean() ==>
               Documented(outcome, at[i], field, gens[i].GetOr(""), t)
    requires !Agree(at[i], field) ==> outcome !in {Success, ChangedVerifyFlaky}
    requires gens[i] == None ==> t == at[i] && outcome == Precondition
    ensures RunSoFar(script, w, field, gens, vaults, i + 1, outcomes + [outcome], at + [t])
  {
    var before := at[i];
    if AllFresh(gens, w, field) {
      NewIsNew(gens, w, field, i, before);
    }
    if AllHonest(script, w.router.clock, vaults) {
      HonestIsClean(script, before, field, gens[i], vaults[i]);
    }
    StillKnown(gens, w, field, i, before, t, gens[i].GetOr(""));
    OneMore(script, at, t, field, gens, vaults);
    if AllClean(script, at + [t], field, gens, vaults) {
      ToldNext(outcomes, AllFresh(gens, w, field), before, field, gens[i], outcome, t);
    }
  }

  /** Outcome 2 is documented to leave both sides on the old password. From any state
      in which they agree, losing the one reply to the change makes it leave Vault on
      the old password and the router on the new one. */
  method RolledBackLocksOut(w: World, field: string, new_: string)
    returns (script: Pr60x.Script, v: Vault, t: World, outcome: Outcome)
    requires Agree(w, field) && Field(w.secret, field) != "" && new_ != "" && new_ != w.router.password
    ensures outcome == RolledBack && t.secret == w.secret && t.router.password == new_
    ensures !Agree(t, field) && !Documented(outcome, w, field, new_, t)
    ensures v == Vault(true, Stored, Stored)
    ensures forall k: nat :: script(k) == Pr60x.Event({}, if k == w.router.clock + 2 then Pr60x.Unheard else Pr60x.Served)
  {
    script := k => Pr60x.Event({}, if k == w.router.clock + 2 then Pr60x.Unheard else Pr60x.Served);
    v := Vault(true, Stored, Stored);
    assert Pr60x.Reaches(script, w.router.clock, w.router.next, Pr60x.Unheard);
    ghost var crash;
    t, outcome, crash := Rotate(script, w, field, Some(new_), v);
  }

  /** A password in use after some rotations: one of the first two, or generated. */
  ghost predicate Known(gens: seq<Option<string>>, w: World, field: string, p: string) {
    p == w.router.password || p == Field(w.secret, field) || Some(p) in gens
  }

  ghost predicate BothKnown(gens: seq<Option<string>>, i: nat, w: World, field: string, t: World)
    requires i <= |gens|
  {
    Known(gens[..i], w, field, t.router.password) && Known(gens[..i], w, field, Field(t.secret, field))
  }

  lemma NewIsNew(gens: seq<Option<string>>, w: World, field: string, i: nat, t: World)
    requires i < |gens| && AllFresh(gens, w, field)
    requires BothKnown(gens, i, w, field, t)
    ensures gens[i].Some? ==> IsNew(t, field, gens[i])
  {
  }

  lemma StillKnown(gens: seq<Option<string>>, w: World, field: string, i: nat, t: World, t': World, n: string)
    requires i < |gens| && (gens[i].Some? ==> n == gens[i].value)
    requires BothKnown(gens, i, w, field, t)
    requires Within(t, field, n, t')
    requires gens[i] == None ==> t' == t
    ensures BothKnown(gens, i + 1, w, field, t')
  {
    assert gens[..i + 1] == gens[..i] + [gens[i]];
  }
}
