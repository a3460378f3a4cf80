/** Port-forwarding rules on a router that numbers them by position: deleting one
    moves every later id down. The resource keeps hold of its rule by natural key. */
module PortForwarding {
  import opened Basics

  /** The natural key: external service, internal service, destination, WAN side. */
  datatype Key = Key(ext: string, internal: string, dest: string, wan: string)

  /** A row of the router's table. `tag` is the rule's identity, given at creation
      and never reused; neither the router nor the provider can see it. */
  datatype Row = Row(id: int, key: Key, settings: string, tag: nat)

  type Table = seq<Row>

  /** Ids and identities are unique. */
  ghost predicate Sound(t: Table, born: nat) {
    && (forall i, j :: 0 <= i < j < |t| ==> t[i].id != t[j].id && t[i].tag != t[j].tag)
    && (forall i :: 0 <= i < |t| ==> t[i].tag < born)
  }

  /** No two rules have one natural key. */
  ghost predicate OneEach(t: Table) {
    forall i, j :: 0 <= i < j < |t| ==> t[i].key != t[j].key
  }

  // --- The router -------------------------------------------------------------

  function IndexOf(t: Table, id: int): (i: int)
    ensures -1 <= i < |t|
    ensures i >= 0 ==> t[i].id == id
    ensures i == -1 ==> forall k :: 0 <= k < |t| ==> t[k].id != id
  {
    FirstAt(Ids(t), id, 0)
  }

  function Ids(t: Table): (r: seq<int>)
    ensures |r| == |t| && forall k :: 0 <= k < |t| ==> r[k] == t[k].id
  {
    seq(|t|, k requires 0 <= k < |t| => t[k].id)
  }

  /** The first place of x, from some place on; -1 if there is none. */
  function FirstAt(s: seq<int>, x: int, from: nat): (i: int)
    requires from <= |s|
    ensures i == -1 || from <= i < |s|
    ensures i >= 0 ==> s[i] == x
    ensures i == -1 ==> forall k :: from <= k < |s| ==> s[k] != x
    decreases |s| - from
  {
    if from == |s| then -1 else if s[from] == x then from else FirstAt(s, x, from + 1)
  }

  function Lowered(r: Row, id: int): Row {
    if r.id > id then r.(id := r.id - 1) else r
  }

  /** Deleting a row moves the ids above it down by one. */
  function Remove(t: Table, id: int): (t': Table)
    ensures |t'| == if IndexOf(t, id) < 0 then |t| else |t| - 1
  {
    var i := IndexOf(t, id);
    if i < 0 then t
    else LowerAll(t[..i] + t[i + 1..], id)
  }

  function LowerAll(t: Table, id: int): (r: Table)
    ensures |r| == |t| && forall k :: 0 <= k < |t| ==> r[k] == Lowered(t[k], id)
  {
    seq(|t|, k requires 0 <= k < |t| => Lowered(t[k], id))
  }

  lemma RemoveAt(t: Table, id: int, k: nat)
    requires IndexOf(t, id) >= 0 && k < |t| - 1
    ensures Remove(t, id)[k] == Lowered(t[if k < IndexOf(t, id) then k else k + 1], id)
  {
    var i := IndexOf(t, id);
    assert (t[..i] + t[i + 1..])[k] == t[if k < i then k else k + 1];
  }

  function Edit(t: Table, id: int, key: Key, settings: string): Table {
    var i := IndexOf(t, id);
    if i < 0 then t else t[i := t[i].(key := key, settings := settings)]
  }

  // --- The client's helpers ---------------------------------------------------

  method NextRuleId(t: Table) returns (next: int)
    ensures next >= 0 && forall r | r in t :: r.id < next
    ensures next == 0 || exists r :: r in t && r.id == next - 1
  {
    var max := -1;
    for i := 0 to |t|
      invariant max >= -1
      invariant forall k :: 0 <= k < i ==> t[k].id <= max
      invariant max == -1 || exists r :: r in t && r.id == max
    {
      if t[i].id > max {
        max := t[i].id;
      }
    }
    next := max + 1;
  }

  // --- The resource -----------------------------------------------------------

  /** What Terraform remembers; no key yet right after an import, and a key without
      an external service does not count as one. */
  datatype State = State(id: int, key: Option<Key>, settings: string) {
    predicate Keyed() {
      key.Some? && key.value.ext != ""
    }
  }

  ghost predicate Describes(s: State, r: Row) {
    s == State(r.id, Some(r.key), r.settings)
  }

  ghost predicate HasKey(t: Table, key: Key) {
    exists i :: 0 <= i < |t| && t[i].key == key
  }

  /** The row that a search by id stops at. */
  ghost predicate HasId(t: Table, i: int, id: int) {
    0 <= i < |t| && t[i].id == id && forall k :: 0 <= k < i ==> t[k].id != id
  }

  /** Create refuses a key that is taken; otherwise it adds one row, numbered after
      every other, and remembers that very row. */
  method Create(t: Table, born: nat, profilesExist: bool, key: Key, settings: string)
    returns (t': Table, s: Option<State>)
    requires Sound(t, born)
    ensures Sound(t', born + 1) && (OneEach(t) ==> OneEach(t'))
    ensures s.Some? <==> profilesExist && !HasKey(t, key)
    ensures s.None? ==> t' == t
    ensures s.Some? ==> |t'| == |t| + 1 && t'[..|t|] == t && t'[|t|].tag == born &&
                        t'[|t|].key == key && t'[|t|].settings == settings && Describes(s.value, t'[|t|])
    ensures profilesExist ==> t' == Apply(t, born, Add(key, settings))
  {
    t', s := t, None;
    if !profilesExist {
      return;
    }
    for i := 0 to |t|
      invariant forall k :: 0 <= k < i ==> t[k].key != key
    {
      if t[i].key == key {
        return;
      }
    }
    var id := NextRuleId(t);
    NextIdIs(t, id);
    t' := t + [Row(id, key, settings, born)];
    var i := 0;
    while t'[i].key != key
      invariant 0 <= i < |t'| && forall k :: 0 <= k < i ==> t'[k].key != key
      decreases |t'| - i
    {
      i := i + 1;
    }
    s := Some(State(t'[i].id, Some(t'[i].key), t'[i].settings));
  }

  /** Read: the id is a hint, the natural key the truth. Whatever the remembered id,
      the result describes the row with the remembered key if there is one, and
      drops the resource exactly when there is none. */
  method Read(t: Table, s: State) returns (s': Option<State>, ghost row: nat)
    ensures s'.Some? ==> row < |t| && Describes(s'.value, t[row])
    ensures s.key.Some? && s.key.value.ext != "" ==>
      (s'.Some? <==> HasKey(t, s.key.value)) && (s'.Some? ==> t[row].key == s.key.value)
    // The hint: the row with the remembered id is preferred, if it has the key.
    ensures s.key.Some? && s.key.value.ext != "" && s'.Some? ==>
      if exists h :: HasId(t, h, s.id) && t[h].key == s.key.value then HasId(t, row, s.id)
      else forall k :: 0 <= k < row ==> t[k].key != s.key.value
    ensures s.key.None? || s.key.value.ext == "" ==>
      if s'.Some? then HasId(t, row, s.id) else forall k :: 0 <= k < |t| ==> t[k].id != s.id
  {
    s', row := None, 0;
    var byIdOnly := !s.Keyed();
    var found, i := -1, 0;
    while i < |t|
      invariant 0 <= i <= |t| && found == -1
      invariant forall k :: 0 <= k < i ==> t[k].id != s.id
    {
      if t[i].id == s.id {
        if byIdOnly || t[i].key == s.key.value {
          found := i;
        }
        break;
      }
      i := i + 1;
    }
    if found < 0 && !byIdOnly {
      i := 0;
      while i < |t|
        invariant 0 <= i <= |t| && found == -1
        invariant forall k :: 0 <= k < i ==> t[k].key != s.key.value
      {
        if t[i].key == s.key.value {
          found := i;
          break;
        }
        i := i + 1;
      }
    }
    if found >= 0 {
      row := found;
      s' := Some(State(t[found].id, Some(t[found].key), t[found].settings));
    }
  }

  // --- Histories --------------------------------------------------------------

  /** What anybody may do to the table, one caller at a time. A create refuses a key
      that is taken; an update is sent whatever its key. */
  datatype Op = Add(key: Key, settings: string) | Delete(id: int) | Change(id: int, key: Key, settings: string)

  function NextId(t: Table): int {
    if t == [] then 0
    else
      var n := NextId(t[1..]);
      if t[0].id >= n then t[0].id + 1 else n
  }

  lemma {:induction false} NextIdAbove(t: Table)
    ensures forall i :: 0 <= i < |t| ==> t[i].id < NextId(t)
  {
    if t != [] {
      NextIdAbove(t[1..]);
      assert forall i :: 1 <= i < |t| ==> t[i] == t[1..][i - 1];
    }
  }

  /** What NextRuleId computes. */
  lemma {:induction false} NextIdIs(t: Table, n: int)
    requires (forall r | r in t :: r.id < n) && (n == 0 || exists r :: r in t && r.id == n - 1)
    requires n >= 0
    ensures NextId(t) == n
  {
    NextIdAbove(t);
    NextIdUsed(t);
    if n > 0 {
      var r :| r in t && r.id == n - 1;
    }
  }

  lemma {:induction false} NextIdUsed(t: Table)
    ensures NextId(t) == 0 || (NextId(t) > 0 && exists r :: r in t && r.id == NextId(t) - 1)
  {
    if t != [] {
      NextIdUsed(t[1..]);
      assert t[0] in t;
    }
  }

  predicate Free(t: Table, key: Key, id: int) {
    forall i :: 0 <= i < |t| && t[i].id != id ==> t[i].key != key
  }

  function Apply(t: Table, born: nat, op: Op): Table {
    match op
    case Add(key, settings) =>
      if exists i :: 0 <= i < |t| && t[i].key == key then t else t + [Row(NextId(t), key, settings, born)]
    case Delete(id) => Remove(t, id)
    case Change(id, key, settings) => Edit(t, id, key, settings)
  }

  function Exec(t: Table, born: nat, ops: seq<Op>): Table
    decreases ops
  {
    if ops == [] then t else Exec(Apply(t, born, ops[0]), born + 1, ops[1..])
  }

  lemma ApplySound(t: Table, born: nat, op: Op)
    requires Sound(t, born)
    ensures Sound(Apply(t, born, op), born + 1)
  {
    match op
    case Add(_, _) => NextIdAbove(t);
    case Delete(id) => RemoveSound(t, born, id);
    case Change(id, key, settings) =>
  }

  /** An update of a present rule keeps natural keys unique exactly if no other rule
      has the key. */
  lemma EditKeys(t: Table, id: int, key: Key, settings: string)
    requires OneEach(t) && IndexOf(t, id) >= 0
    requires forall i :: 0 <= i < |t| && t[i].id == id ==> i == IndexOf(t, id)
    ensures OneEach(Edit(t, id, key, settings)) <==> Free(t, key, id)
  {
    var x, t' := IndexOf(t, id), Edit(t, id, key, settings);
    if !Free(t, key, id) {
      var i :| 0 <= i < |t| && t[i].id != id && t[i].key == key;
      assert t'[i].key == t'[x].key;
    }
  }

  /** Whether some update of a history is to a key that another rule holds. */
  predicate Contested(t: Table, born: nat, ops: seq<Op>)
    decreases ops
  {
    ops != [] &&
    ((ops[0].Change? && IndexOf(t, ops[0].id) >= 0 && !Free(t, ops[0].key, ops[0].id)) ||
     Contested(Apply(t, born, ops[0]), born + 1, ops[1..]))
  }

  lemma ApplyKeys(t: Table, born: nat, op: Op)
    requires Sound(t, born) && OneEach(t)
    requires op.Change? && IndexOf(t, op.id) >= 0 ==> Free(t, op.key, op.id)
    ensures OneEach(Apply(t, born, op))
  {
    match op
    case Add(_, _) =>
    case Delete(id) =>
      if IndexOf(t, id) >= 0 {
        forall i, j | 0 <= i < j < |Remove(t, id)|
          ensures Remove(t, id)[i].key != Remove(t, id)[j].key
        {
          RemoveAt(t, id, i);
          RemoveAt(t, id, j);
        }
      }
    case Change(id, key, settings) =>
      if IndexOf(t, id) >= 0 {
        EditKeys(t, id, key, settings);
      }
  }

  /** Natural keys stay unique over any history without such an update. */
  lemma {:induction false} ExecKeys(t: Table, born: nat, ops: seq<Op>)
    requires Sound(t, born) && OneEach(t) && !Contested(t, born, ops)
    ensures OneEach(Exec(t, born, ops))
    decreases ops
  {
    if ops != [] {
      ApplySound(t, born, ops[0]);
      ApplyKeys(t, born, ops[0]);
      ExecKeys(Apply(t, born, ops[0]), born + 1, ops[1..]);
    }
  }

  lemma RemoveSound(t: Table, born: nat, id: int)
    requires Sound(t, born)
    ensures Sound(Remove(t, id), born)
  {
    var x, t' := IndexOf(t, id), Remove(t, id);
    if x >= 0 {
      forall i | 0 <= i < |t'|
        ensures t'[i].tag < born
      {
        RemoveAt(t, id, i);
      }
      forall i, j | 0 <= i < j < |t'|
        ensures t'[i].id != t'[j].id && t'[i].tag != t'[j].tag
      {
        RemoveAt(t, id, i);
        RemoveAt(t, id, j);
        var a, b := if i < x then i else i + 1, if j < x then j else j + 1;
        assert t[a].id != t[b].id && t[a].id != t[x].id && t[b].id != t[x].id;
      }
    }
  }

  /** Ids and identities stay unique over any history at all. */
  lemma {:induction false} ExecSound(t: Table, born: nat, ops: seq<Op>)
    requires Sound(t, born)
    ensures Sound(Exec(t, born, ops), born + |ops|)
    decreases ops
  {
    if ops != [] {
      ApplySound(t, born, ops[0]);
      ExecSound(Apply(t, born, ops[0]), born + 1, ops[1..]);
    }
  }

  /** Where the rule with a given identity is. */
  function Find(t: Table, tag: nat): (i: int)
    ensures -1 <= i < |t|
    ensures i >= 0 ==> t[i].tag == tag
    ensures i == -1 ==> forall k :: 0 <= k < |t| ==> t[k].tag != tag
  {
    FirstAt(Tags(t), tag, 0)
  }

  function Tags(t: Table): (r: seq<int>)
    ensures |r| == |t| && forall k :: 0 <= k < |t| ==> r[k] == t[k].tag
  {
    seq(|t|, k requires 0 <= k < |t| => t[k].tag)
  }

  /** Whether an operation deletes a row below the tracked one. */
  predicate Lowers(t: Table, op: Op, tag: nat) {
    op.Delete? && IndexOf(t, op.id) >= 0 && Find(t, tag) >= 0 && op.id < t[Find(t, tag)].id
  }

  /** How many deletes below the tracked rule a history makes. */
  function Drift(t: Table, born: nat, ops: seq<Op>, tag: nat): nat
    decreases ops
  {
    if ops == [] then 0
    else (if Lowers(t, ops[0], tag) then 1 else 0) + Drift(Apply(t, born, ops[0]), born + 1, ops[1..], tag)
  }

  lemma FindIs(t: Table, born: nat, i: nat)
    requires Sound(t, born) && i < |t|
    ensures Find(t, t[i].tag) == i && IndexOf(t, t[i].id) == i
  {
  }

  /** The row a table has after an operation, where it was before. */
  lemma WhereBefore(t: Table, born: nat, op: Op, i': nat) returns (i: nat)
    requires Sound(t, born) && i' < |Apply(t, born, op)| && Apply(t, born, op)[i'].tag < born
    ensures i < |t| && t[i].tag == Apply(t, born, op)[i'].tag
    ensures Apply(t, born, op)[i'].id ==
            t[i].id - (if op.Delete? && IndexOf(t, op.id) >= 0 && op.id < t[i].id then 1 else 0)
  {
    i := i';
    if op.Delete? && IndexOf(t, op.id) >= 0 {
      RemoveAt(t, op.id, i');
      if i' >= IndexOf(t, op.id) {
        i := i' + 1;
      }
    }
  }

  lemma ApplyMoves(t: Table, born: nat, op: Op, tag: nat)
    requires Sound(t, born) && tag < born && Find(Apply(t, born, op), tag) >= 0
    ensures Find(t, tag) >= 0
    ensures Apply(t, born, op)[Find(Apply(t, born, op), tag)].id ==
            t[Find(t, tag)].id - (if Lowers(t, op, tag) then 1 else 0)
  {
    var i := WhereBefore(t, born, op, Find(Apply(t, born, op), tag));
    FindIs(t, born, i);
  }

  /** The tracked rule's id has moved by exactly the number of deletes below it. */
  lemma {:induction false} IdDrifts(t: Table, born: nat, ops: seq<Op>, tag: nat)
    requires Sound(t, born) && tag < born && Find(Exec(t, born, ops), tag) >= 0
    ensures Find(t, tag) >= 0
    ensures var t' := Exec(t, born, ops);
            t'[Find(t', tag)].id == t[Find(t, tag)].id - Drift(t, born, ops, tag)
    decreases ops
  {
    if ops != [] {
      var u := Apply(t, born, ops[0]);
      ApplySound(t, born, ops[0]);
      IdDrifts(u, born + 1, ops[1..], tag);
      ApplyMoves(t, born, ops[0], tag);
    }
  }

  /** What a delete does to the rest of the table: the other rules all stay, with
      their keys and settings. */
  ghost predicate OnlyGone(t: Table, t': Table, tag: nat) {
    && Find(t', tag) < 0
    && (forall x: nat :: x != tag ==> SameRule(t, t', x))
  }

  ghost predicate SameRule(t: Table, t': Table, x: nat) {
    var i, j := Find(t, x), Find(t', x);
    && (i < 0 <==> j < 0)
    && (i >= 0 ==> t[i].key == t'[j].key && t[i].settings == t'[j].settings)
  }

  lemma RemoveGone(t: Table, born: nat, id: int)
    requires Sound(t, born) && IndexOf(t, id) >= 0
    ensures OnlyGone(t, Remove(t, id), t[IndexOf(t, id)].tag)
  {
    var i, t' := IndexOf(t, id), Remove(t, id);
    forall k | 0 <= k < |t'|
      ensures t'[k].tag != t[i].tag
    {
      RemoveAt(t, id, k);
    }
    forall x: nat | x != t[i].tag
      ensures SameRule(t, t', x)
    {
      SameAfter(t, born, id, x);
    }
  }

  lemma SameAfter(t: Table, born: nat, id: int, x: nat)
    requires Sound(t, born) && IndexOf(t, id) >= 0 && x != t[IndexOf(t, id)].tag
    ensures SameRule(t, Remove(t, id), x)
  {
    var t', b := Remove(t, id), Find(Remove(t, id), x);
    if b >= 0 {
      RemoveAt(t, id, b);
      FindIs(t, born, if b < IndexOf(t, id) then b else b + 1);
    } else {
      StillThere(t, id, x);
    }
  }

  lemma StillThere(t: Table, id: int, x: nat)
    requires IndexOf(t, id) >= 0 && x != t[IndexOf(t, id)].tag && Find(Remove(t, id), x) < 0
    ensures Find(t, x) < 0
  {
    var i, a := IndexOf(t, id), Find(t, x);
    if a >= 0 {
      RemoveAt(t, id, if a < i then a else a - 1);
      assert false;
    }
  }

  /** A delete hits the rule that has the id, if any. */
  lemma DeleteHits(t: Table, born: nat, id: int, tag: nat)
    requires Sound(t, born) && Find(t, tag) >= 0
    ensures OnlyGone(t, Remove(t, id), tag) <==> t[Find(t, tag)].id == id
    ensures t[Find(t, tag)].id != id ==> Find(Remove(t, id), tag) >= 0
    ensures t[Find(t, tag)].id != id && IndexOf(t, id) >= 0 ==>
              t[IndexOf(t, id)].tag != tag && OnlyGone(t, Remove(t, id), t[IndexOf(t, id)].tag)
  {
    FindIs(t, born, Find(t, tag));
    var i := IndexOf(t, id);
    if i >= 0 {
      FindIs(t, born, i);
      RemoveGone(t, born, id);
      if t[i].tag != tag {
        assert SameRule(t, Remove(t, id), tag);
      }
    }
  }

  /** A delete by remembered id, any history after the read that remembered it: it
      removes the tracked rule, and only that one, exactly when nothing below it has
      been deleted since. Otherwise the tracked rule survives, and if the stale id
      is in use it is some other rule that goes. */
  lemma StaleDelete(t: Table, born: nat, ops: seq<Op>, tag: nat)
    requires Sound(t, born) && tag < born && Find(Exec(t, born, ops), tag) >= 0
    ensures Find(t, tag) >= 0
    ensures var t' := Exec(t, born, ops);
            var id := t[Find(t, tag)].id;
            && (OnlyGone(t', Remove(t', id), tag) <==> Drift(t, born, ops, tag) == 0)
            && (Drift(t, born, ops, tag) > 0 ==> Find(Remove(t', id), tag) >= 0)
            && (Drift(t, born, ops, tag) > 0 && IndexOf(t', id) >= 0 ==>
                  t'[IndexOf(t', id)].tag != tag && OnlyGone(t', Remove(t', id), t'[IndexOf(t', id)].tag))
  {
    IdDrifts(t, born, ops, tag);
    ExecSound(t, born, ops);
    DeleteHits(Exec(t, born, ops), born + |ops|, t[Find(t, tag)].id, tag);
  }

  /** An update by remembered id, likewise: it rewrites the tracked rule's row, and
      only that row, exactly when nothing below it has been deleted since; otherwise
      it rewrites the row of another rule, the one that has the id now, or none. */
  lemma StaleUpdate(t: Table, born: nat, ops: seq<Op>, tag: nat, key: Key, settings: string)
    requires Sound(t, born) && tag < born && Find(Exec(t, born, ops), tag) >= 0
    ensures Find(t, tag) >= 0
    ensures var t' := Exec(t, born, ops);
            var id := t[Find(t, tag)].id;
            var i := Find(t', tag);
            && (Drift(t, born, ops, tag) == 0 ==>
                  Edit(t', id, key, settings) == t'[i := t'[i].(key := key, settings := settings)])
            && (Drift(t, born, ops, tag) > 0 ==>
                  var x := IndexOf(t', id);
                  if x < 0 then Edit(t', id, key, settings) == t'
                  else t'[x].tag != tag && Edit(t', id, key, settings) == t'[x := t'[x].(key := key, settings := settings)])
  {
    IdDrifts(t, born, ops, tag);
    ExecSound(t, born, ops);
  }

  /** Read after any history in which no key is given twice, and whatever id is
      remembered: the row it picks by key is the tracked rule exactly when that rule
      is still there under its key. */
  lemma KeyFollowsRule(t: Table, born: nat, ops: seq<Op>, tag: nat, row: nat)
    requires Sound(t, born) && OneEach(t) && !Contested(t, born, ops) && tag < born && Find(t, tag) >= 0
    requires var t' := Exec(t, born, ops); row < |t'| && t'[row].key == t[Find(t, tag)].key
    ensures var t' := Exec(t, born, ops);
            t'[row].tag == tag <==> Find(t', tag) >= 0 && t'[Find(t', tag)].key == t[Find(t, tag)].key
  {
    ExecSound(t, born, ops);
    ExecKeys(t, born, ops);
    OneRow(Exec(t, born, ops), born + |ops|, row, tag);
  }

  lemma OneRow(t: Table, born: nat, row: nat, tag: nat)
    requires Sound(t, born) && OneEach(t) && row < |t|
    ensures t[row].tag == tag <==> Find(t, tag) >= 0 && t[Find(t, tag)].key == t[row].key
  {
    if t[row].tag == tag {
      FindIs(t, born, row);
    }
  }

  /** Whether an operation gives a key to another rule than the tracked one. */
  predicate Takes(t: Table, op: Op, key: Key, tag: nat) {
    match op
    case Add(k, _) => k == key
    case Change(id, k, _) => k == key && IndexOf(t, id) >= 0 && t[IndexOf(t, id)].tag != tag
    case Delete(_) => false
  }

  predicate Taken(t: Table, born: nat, ops: seq<Op>, key: Key, tag: nat)
    decreases ops
  {
    ops != [] && (Takes(t, ops[0], key, tag) || Taken(Apply(t, born, ops[0]), born + 1, ops[1..], key, tag))
  }

  ghost predicate HeldOnlyBy(t: Table, key: Key, tag: nat) {
    forall i :: 0 <= i < |t| && t[i].key == key ==> t[i].tag == tag
  }

  /** As long as no other rule is given the key, Read finds the tracked rule or
      nothing: it never adopts another. */
  lemma {:induction false} NeverAnother(t: Table, born: nat, ops: seq<Op>, key: Key, tag: nat)
    requires HeldOnlyBy(t, key, tag) && !Taken(t, born, ops, key, tag)
    ensures HeldOnlyBy(Exec(t, born, ops), key, tag)
    decreases ops
  {
    if ops != [] {
      ApplyHolds(t, born, ops[0], key, tag);
      NeverAnother(Apply(t, born, ops[0]), born + 1, ops[1..], key, tag);
    }
  }

  lemma ApplyHolds(t: Table, born: nat, op: Op, key: Key, tag: nat)
    requires HeldOnlyBy(t, key, tag) && !Takes(t, op, key, tag)
    ensures HeldOnlyBy(Apply(t, born, op), key, tag)
  {
    if op.Delete? && IndexOf(t, op.id) >= 0 {
      forall i | 0 <= i < |Remove(t, op.id)| && Remove(t, op.id)[i].key == key
        ensures Remove(t, op.id)[i].tag == tag
      {
        RemoveAt(t, op.id, i);
      }
    }
  }

  /** A refresh after any history in which no other rule is given the key: it finds the
      tracked rule, wherever that is by now, or drops the resource, and it does so
      exactly if that rule is gone or has another key. */
  method ReadLater(t: Table, born: nat, ops: seq<Op>, s: State, ghost was: nat)
    returns (s': Option<State>, ghost row: nat)
    requires Sound(t, born) && was < |t| && Describes(s, t[was]) && t[was].key.ext != ""
    requires HeldOnlyBy(t, t[was].key, t[was].tag) && !Taken(t, born, ops, t[was].key, t[was].tag)
    ensures var t' := Exec(t, born, ops);
            && (s'.Some? ==> row < |t'| && t'[row].tag == t[was].tag && Describes(s'.value, t'[row]))
            && (s'.Some? <==> exists i :: 0 <= i < |t'| && t'[i].tag == t[was].tag && t'[i].key == t[was].key)
  {
    NeverAnother(t, born, ops, t[was].key, t[was].tag);
    s', row := Read(Exec(t, born, ops), s);
  }

  /** After one delete, a delete by the id another rule had before it. */
  lemma SecondDelete(t: Table, born: nat, a: nat, b: nat)
    requires Sound(t, born) && a < |t| && b < |t| && t[a].id != t[b].id
    ensures var t' := Remove(t, t[a].id);
            && OnlyGone(t, t', t[a].tag)
            && (t[a].id < t[b].id ==> Find(Remove(t', t[b].id), t[b].tag) >= 0)
            && (t[b].id < t[a].id ==> OnlyGone(t', Remove(t', t[b].id), t[b].tag))
  {
    var op := Delete(t[a].id);
    var t' := Remove(t, t[a].id);
    FindIs(t, born, a);
    FindIs(t, born, b);
    RemoveGone(t, born, t[a].id);
    assert SameRule(t, t', t[b].tag);
    assert Exec(t', born + 1, []) == t' && Drift(t', born + 1, [], t[b].tag) == 0;
    assert [op][0] == op && [op][1..] == [];
    StaleDelete(t, born, [op], t[b].tag);
  }

  /** Destroying two rules after one refresh: in ascending order the second delete
      always misses its rule; in descending order both go and nothing else. */
  lemma DestroyTwo(t: Table, born: nat, a: nat, b: nat)
    requires Sound(t, born) && a < |t| && b < |t| && t[a].id < t[b].id
    ensures Find(Remove(Remove(t, t[a].id), t[b].id), t[b].tag) >= 0
    ensures OnlyGone(t, Remove(t, t[b].id), t[b].tag)
    ensures OnlyGone(Remove(t, t[b].id), Remove(Remove(t, t[b].id), t[a].id), t[a].tag)
  {
    SecondDelete(t, born, a, b);
    SecondDelete(t, born, b, a);
  }
}
