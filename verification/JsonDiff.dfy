/** The deep diff that guards a VLAN profile edit, and the edits it guards. */
module JsonDiff {
  import opened Basics

  /** JSON values as Python compares them: `Scalar` is a number, string or boolean
      up to Python's ==, and `Null` is None. */
  datatype Json = Null | Scalar(text: string) | Array(items: seq<Json>) | Dict(fields: map<string, Json>)

  type Path = seq<string>

  datatype Change = Change(path: Path, before: Json, after: Json)

  /** The order keys are visited in: any enumeration of a set of keys will do. */
  type Order = set<string> -> seq<string>

  ghost predicate Enumerates(order: Order) {
    forall s: set<string> :: Lists(order(s), s)
  }

  ghost predicate Lists(ks: seq<string>, s: set<string>) {
    && (forall k :: k in ks <==> k in s)
    && (forall i, j :: 0 <= i < j < |ks| ==> ks[i] != ks[j])
  }

  /** dict.get: a missing key reads as None. */
  function Get(d: map<string, Json>, k: string): Json {
    if k in d then d[k] else Null
  }

  /** Equal up to a missing key being the same as a null one, in nested objects;
      arrays and scalars compare strictly. */
  ghost predicate Same(a: Json, b: Json)
    decreases a.Dict? && b.Dict?, a
  {
    if a.Dict? && b.Dict?
    then forall k | k in a.fields.Keys + b.fields.Keys :: Same(Get(a.fields, k), Get(b.fields, k))
    else a == b
  }

  /** The reported changes, with paths as lists of keys. Each level puts its own key
      in front of the paths its values report. */
  function Diff(a: Json, b: Json, order: Order): seq<Change>
    decreases a.Dict? && b.Dict?, a, 1, 0
  {
    if a.Dict? && b.Dict? then DiffKeys(a, b, order(a.fields.Keys + b.fields.Keys), order)
    else if a != b then [Change([], a, b)]
    else []
  }

  function DiffKeys(a: Json, b: Json, ks: seq<string>, order: Order): seq<Change>
    requires a.Dict? && b.Dict?
    decreases true, a, 0, |ks|
  {
    if ks == [] then []
    else Under(ks[0], Diff(Get(a.fields, ks[0]), Get(b.fields, ks[0]), order)) + DiffKeys(a, b, ks[1..], order)
  }

  function Under(k: string, cs: seq<Change>): (r: seq<Change>)
    ensures |r| == |cs|
    ensures forall i :: 0 <= i < |cs| ==> r[i] == cs[i].(path := [k] + cs[i].path)
  {
    if cs == [] then [] else [cs[0].(path := [k] + cs[0].path)] + Under(k, cs[1..])
  }

  // --- Nothing reported, nothing different ------------------------------------

  /** The diff is empty exactly when the two agree up to missing keys. */
  lemma {:induction false} EmptyExactly(a: Json, b: Json, order: Order)
    requires Enumerates(order)
    ensures Diff(a, b, order) == [] <==> Same(a, b)
    decreases a.Dict? && b.Dict?, a, 1, 0
  {
    if a.Dict? && b.Dict? {
      var keys := a.fields.Keys + b.fields.Keys;
      assert Lists(order(keys), keys);
      KeysEmptyExactly(a, b, order(keys), order);
    }
  }

  lemma {:induction false} KeysEmptyExactly(a: Json, b: Json, ks: seq<string>, order: Order)
    requires Enumerates(order) && a.Dict? && b.Dict?
    ensures DiffKeys(a, b, ks, order) == [] <==> forall k | k in ks :: Same(Get(a.fields, k), Get(b.fields, k))
    decreases true, a, 0, |ks|
  {
    if ks != [] {
      EmptyExactly(Get(a.fields, ks[0]), Get(b.fields, ks[0]), order);
      KeysEmptyExactly(a, b, ks[1..], order);
      assert forall k :: k in ks <==> k == ks[0] || k in ks[1..];
    }
  }

  // --- No overlaps ------------------------------------------------------------

  ghost predicate Apart(cs: seq<Change>) {
    forall i, j :: 0 <= i < |cs| && 0 <= j < |cs| && i != j ==> !(cs[i].path <= cs[j].path)
  }

  ghost predicate StartsIn(cs: seq<Change>, ks: seq<string>) {
    forall i :: 0 <= i < |cs| ==> cs[i].path != [] && cs[i].path[0] in ks
  }

  /** No reported path is a prefix of another, or equal to it. */
  lemma {:induction false} NoOverlap(a: Json, b: Json, order: Order)
    requires Enumerates(order)
    ensures Apart(Diff(a, b, order))
    decreases a.Dict? && b.Dict?, a, 1, 0
  {
    if a.Dict? && b.Dict? {
      var keys := a.fields.Keys + b.fields.Keys;
      assert Lists(order(keys), keys);
      KeysApart(a, b, order(keys), order);
    }
  }

  lemma {:induction false} KeysApart(a: Json, b: Json, ks: seq<string>, order: Order)
    requires Enumerates(order) && a.Dict? && b.Dict?
    requires forall i, j :: 0 <= i < j < |ks| ==> ks[i] != ks[j]
    ensures Apart(DiffKeys(a, b, ks, order)) && StartsIn(DiffKeys(a, b, ks, order), ks)
    decreases true, a, 0, |ks|
  {
    if ks != [] {
      var first := Diff(Get(a.fields, ks[0]), Get(b.fields, ks[0]), order);
      NoOverlap(Get(a.fields, ks[0]), Get(b.fields, ks[0]), order);
      KeysApart(a, b, ks[1..], order);
      assert ks[0] !in ks[1..];
      UnderApart(ks[0], first);
      Together(Under(ks[0], first), DiffKeys(a, b, ks[1..], order), ks[0], ks[1..]);
      assert ks == [ks[0]] + ks[1..];
    }
  }

  lemma UnderApart(k: string, cs: seq<Change>)
    requires Apart(cs)
    ensures Apart(Under(k, cs)) && StartsIn(Under(k, cs), [k])
  {
    var r := Under(k, cs);
    forall i, j | 0 <= i < |r| && 0 <= j < |r| && i != j
      ensures !(r[i].path <= r[j].path)
    {
      PrefixUnder(k, cs[i].path, cs[j].path);
    }
  }

  lemma PrefixUnder(k: string, p: Path, q: Path)
    ensures [k] + p <= [k] + q <==> p <= q
  {
    assert ([k] + p)[1..] == p && ([k] + q)[1..] == q;
    if p <= q {
      assert q == p + q[|p|..];
      assert [k] + q == ([k] + p) + q[|p|..];
    }
  }

  lemma Together(xs: seq<Change>, ys: seq<Change>, k: string, ks: seq<string>)
    requires Apart(xs) && Apart(ys) && StartsIn(xs, [k]) && StartsIn(ys, ks) && k !in ks
    ensures Apart(xs + ys) && StartsIn(xs + ys, [k] + ks)
  {
  }

  // --- The report is true -----------------------------------------------------

  /** The value at a path; a path that leads nowhere has null. */
  function At(a: Json, path: Path): Json
    decreases |path|
  {
    if path == [] then a else if a.Dict? then At(Get(a.fields, path[0]), path[1..]) else Null
  }

  ghost predicate Reports(a: Json, b: Json, c: Change) {
    c.before == At(a, c.path) && c.after == At(b, c.path) && c.before != c.after && !(c.before.Dict? && c.after.Dict?)
  }

  /** Every reported change has the old value at its path in a and the new one in b;
      they differ, and are not both objects. */
  lemma {:induction false} ReportsTrue(a: Json, b: Json, order: Order)
    ensures forall i :: 0 <= i < |Diff(a, b, order)| ==> Reports(a, b, Diff(a, b, order)[i])
    decreases a.Dict? && b.Dict?, a, 1, 0
  {
    if a.Dict? && b.Dict? {
      KeysReportTrue(a, b, order(a.fields.Keys + b.fields.Keys), order);
    }
  }

  lemma {:induction false} KeysReportTrue(a: Json, b: Json, ks: seq<string>, order: Order)
    requires a.Dict? && b.Dict?
    ensures forall i :: 0 <= i < |DiffKeys(a, b, ks, order)| ==> Reports(a, b, DiffKeys(a, b, ks, order)[i])
    decreases true, a, 0, |ks|
  {
    if ks != [] {
      var x, y := Get(a.fields, ks[0]), Get(b.fields, ks[0]);
      ReportsTrue(x, y, order);
      KeysReportTrue(a, b, ks[1..], order);
      var first := Diff(x, y, order);
      forall i | 0 <= i < |first|
        ensures Reports(a, b, Under(ks[0], first)[i])
      {
        var path := Under(ks[0], first)[i].path;
        assert path[0] == ks[0] && path[1..] == first[i].path;
      }
    }
  }

  // --- The report is complete -------------------------------------------------

  /** Setting the value at a path, the objects on the way being there. */
  function Update(a: Json, path: Path, v: Json): Json
    decreases |path|
  {
    if path == [] then v
    else if a.Dict? then Dict(a.fields[path[0] := Update(Get(a.fields, path[0]), path[1..], v)])
    else a
  }

  function ApplyAll(a: Json, cs: seq<Change>): Json
    decreases |cs|
  {
    if cs == [] then a else ApplyAll(Update(a, cs[0].path, cs[0].after), cs[1..])
  }

  lemma {:induction false} ApplyBoth(a: Json, xs: seq<Change>, ys: seq<Change>)
    ensures ApplyAll(a, xs + ys) == ApplyAll(ApplyAll(a, xs), ys)
    decreases |xs|
  {
    if xs == [] {
      assert xs + ys == ys;
    } else {
      assert (xs + ys)[1..] == xs[1..] + ys;
      ApplyBoth(Update(a, xs[0].path, xs[0].after), xs[1..], ys);
    }
  }

  lemma {:induction false} ApplyUnder(f: map<string, Json>, k: string, cs: seq<Change>)
    ensures ApplyAll(Dict(f), Under(k, cs)) == if cs == [] then Dict(f) else Dict(f[k := ApplyAll(Get(f, k), cs)])
    decreases |cs|
  {
    if cs != [] {
      var u := Under(k, cs);
      assert u[0].path[1..] == cs[0].path;
      var v := Update(Get(f, k), cs[0].path, cs[0].after);
      assert Update(Dict(f), u[0].path, u[0].after) == Dict(f[k := v]);
      ApplyUnder(f[k := v], k, cs[1..]);
      assert u[1..] == Under(k, cs[1..]);
      assert f[k := v][k := ApplyAll(v, cs[1..])] == f[k := ApplyAll(v, cs[1..])];
    }
  }

  /** Applying the reported new values to a gives b, up to missing keys. */
  lemma {:induction false} Complete(a: Json, b: Json, order: Order)
    requires Enumerates(order)
    ensures Same(ApplyAll(a, Diff(a, b, order)), b)
    decreases a.Dict? && b.Dict?, a, 1, 0
  {
    if a.Dict? && b.Dict? {
      var keys := a.fields.Keys + b.fields.Keys;
      assert Lists(order(keys), keys);
      KeysComplete(a, b, a.fields, order(keys), order);
    } else if a != b {
      assert ApplyAll(a, [Change([], a, b)]) == b;
      Reflexive(b);
    } else {
      Reflexive(b);
    }
  }

  lemma {:induction false} Reflexive(a: Json)
    ensures Same(a, a)
  {
    if a.Dict? {
      forall k | k in a.fields
        ensures Same(a.fields[k], a.fields[k])
      {
        Reflexive(a.fields[k]);
      }
    }
  }

  /** Working through some of the keys, from any object that still has a's values at
      those keys: they come out as b has them, the others stay. */
  lemma {:induction false} KeysComplete(a: Json, b: Json, f: map<string, Json>, ks: seq<string>, order: Order)
    requires Enumerates(order) && a.Dict? && b.Dict?
    requires forall i, j :: 0 <= i < j < |ks| ==> ks[i] != ks[j]
    requires forall k | k in ks :: Get(f, k) == Get(a.fields, k)
    ensures var r := ApplyAll(Dict(f), DiffKeys(a, b, ks, order));
            && r.Dict? && r.fields.Keys <= f.Keys + (set k | k in ks)
            && (forall k | k in ks :: Same(Get(r.fields, k), Get(b.fields, k)))
            && (forall k | k !in ks :: Get(r.fields, k) == Get(f, k))
    decreases true, a, 0, |ks|
  {
    if ks != [] {
      var k, rest := ks[0], ks[1..];
      var cs := Diff(Get(a.fields, k), Get(b.fields, k), order);
      Complete(Get(a.fields, k), Get(b.fields, k), order);
      ApplyBoth(Dict(f), Under(k, cs), DiffKeys(a, b, rest, order));
      ApplyUnder(f, k, cs);
      var f' := if cs == [] then f else f[k := ApplyAll(Get(f, k), cs)];
      assert k !in rest;
      assert Get(f', k) == ApplyAll(Get(a.fields, k), cs);
      KeysComplete(a, b, f', rest, order);
      assert forall x :: x in ks <==> x == k || x in rest;
    }
  }

  // --- The edits --------------------------------------------------------------

  const IPV4 := "ipv4Settings"
  const DNS_ADDR := "dhcpDnsAddr"
  const DNS_TYPE := "dhcpDnsType"

  /** Where a path can be set: every step but the last is an object. */
  ghost predicate Settable(a: Json, path: Path)
    decreases |path|
  {
    path != [] ==> a.Dict? && (|path| > 1 ==> Settable(Get(a.fields, path[0]), path[1..]))
  }

  /** Setting one path to something that is no object changes that path at most. */
  lemma {:induction false} OnlyThere(a: Json, b: Json, path: Path, v: Json, order: Order)
    requires Enumerates(order) && Settable(a, path) && !v.Dict? && Same(b, Update(a, path, v))
    ensures forall i :: 0 <= i < |Diff(a, b, order)| ==> Diff(a, b, order)[i].path == path
    decreases |path|
  {
    if path != [] {
      SameIsDict(b, Update(a, path, v));
      OnlyThereKeys(a, b, path, v, order(a.fields.Keys + b.fields.Keys), order);
    }
  }

  lemma SameIsDict(a: Json, b: Json)
    requires Same(a, b)
    ensures a.Dict? <==> b.Dict?
  {
  }

  lemma {:induction false} OnlyThereKeys(a: Json, b: Json, path: Path, v: Json, ks: seq<string>, order: Order)
    requires Enumerates(order) && path != [] && Settable(a, path) && a.Dict? && b.Dict?
    requires !v.Dict? && Same(b, Update(a, path, v))
    ensures forall i :: 0 <= i < |DiffKeys(a, b, ks, order)| ==> DiffKeys(a, b, ks, order)[i].path == path
    decreases |path|, |ks|
  {
    if ks != [] {
      var k := ks[0];
      var a', b' := Get(a.fields, k), Get(b.fields, k);
      SameAt(b, Update(a, path, v), k);
      OnlyThereKeys(a, b, path, v, ks[1..], order);
      if k == path[0] {
        OnlyThere(a', b', path[1..], v, order);
        assert path == [k] + path[1..];
      } else {
        Symmetric(b', a');
        EmptyExactly(a', b', order);
      }
    }
  }

  /** Agreement of two objects is agreement at every key, present or not. */
  lemma SameAt(a: Json, b: Json, k: string)
    requires Same(a, b) && a.Dict? && b.Dict?
    ensures Same(Get(a.fields, k), Get(b.fields, k))
  {
  }

  lemma {:induction false} Symmetric(a: Json, b: Json)
    requires Same(a, b)
    ensures Same(b, a)
    decreases a
  {
    if a.Dict? && b.Dict? {
      forall k | k in a.fields.Keys + b.fields.Keys
        ensures Same(Get(b.fields, k), Get(a.fields, k))
      {
        SameAt(a, b, k);
        if k in a.fields {
          Symmetric(a.fields[k], Get(b.fields, k));
        }
      }
    }
  }

  /** The script's verdict on the profile it reads back: nothing reported outside
      the one path, and the requested list at it. */
  ghost predicate Accepted(target: Json, after: Json, servers: seq<Json>, order: Order) {
    && (forall i :: 0 <= i < |Diff(target, after, order)| ==> Diff(target, after, order)[i].path == [IPV4, DNS_ADDR])
    && after.Dict? && Get(after.fields, IPV4).Dict?
    && Get(Get(after.fields, IPV4).fields, DNS_ADDR) == Array(servers)
  }

  lemma UpdateTwo(target: Json, v: Json)
    requires target.Dict? && Get(target.fields, IPV4).Dict?
    ensures Update(target, [IPV4, DNS_ADDR], v) ==
            Dict(target.fields[IPV4 := Dict(Get(target.fields, IPV4).fields[DNS_ADDR := v])])
  {
    var path, inner := [IPV4, DNS_ADDR], Get(target.fields, IPV4);
    assert path[1..] == [DNS_ADDR] && path[1..][1..] == [];
    assert Update(Get(inner.fields, DNS_ADDR), [], v) == v;
    assert Update(inner, [DNS_ADDR], v) == Dict(inner.fields[DNS_ADDR := v]);
  }

  /** The script accepts an edit exactly when the profile afterwards is the profile
      before with the one list replaced by the requested one, up to missing keys. */
  lemma AcceptedExactly(target: Json, after: Json, servers: seq<Json>, order: Order)
    requires Enumerates(order) && target.Dict? && Get(target.fields, IPV4).Dict?
    ensures Accepted(target, after, servers, order) <==>
            Same(after, Update(target, [IPV4, DNS_ADDR], Array(servers)))
  {
    var path := [IPV4, DNS_ADDR];
    if Same(after, Update(target, path, Array(servers))) {
      UpdateTwo(target, Array(servers));
      assert path[1..] == [DNS_ADDR] && path[1..][1..] == [];
      OnlyThere(target, after, path, Array(servers), order);
      SameAt(after, Update(target, path, Array(servers)), IPV4);
      var x, y := Get(after.fields, IPV4), Get(Update(target, path, Array(servers)).fields, IPV4);
      SameAt(x, y, DNS_ADDR);
    }
    if Accepted(target, after, servers, order) {
      NoOverlap(target, after, order);
      Complete(target, after, order);
      AcceptedIsEdit(target, after, servers, Diff(target, after, order));
      Symmetric(ApplyAll(target, Diff(target, after, order)), after);
      LeafKept(target, after, servers, Diff(target, after, order));
    }
  }

  /** Reported changes that are all at one path are at most one change. */
  lemma AcceptedIsEdit(target: Json, after: Json, servers: seq<Json>, cs: seq<Change>)
    requires Apart(cs) && forall i :: 0 <= i < |cs| ==> cs[i].path == [IPV4, DNS_ADDR]
    ensures ApplyAll(target, cs) == if cs == [] then target else Update(target, [IPV4, DNS_ADDR], cs[0].after)
  {
    var path := [IPV4, DNS_ADDR];
    assert path <= path;
    if |cs| == 1 {
      assert cs[1..] == [];
    }
  }

  lemma LeafKept(target: Json, after: Json, servers: seq<Json>, cs: seq<Change>)
    requires target.Dict? && Get(target.fields, IPV4).Dict?
    requires after.Dict? && Get(after.fields, IPV4).Dict?
    requires Get(Get(after.fields, IPV4).fields, DNS_ADDR) == Array(servers)
    requires Same(after, if cs == [] then target else Update(target, [IPV4, DNS_ADDR], cs[0].after))
    ensures Same(after, Update(target, [IPV4, DNS_ADDR], Array(servers)))
  {
    var path := [IPV4, DNS_ADDR];
    UpdateTwo(target, Array(servers));
    if cs != [] {
      UpdateTwo(target, cs[0].after);
    }
    var now := if cs == [] then target else Update(target, path, cs[0].after);
    SameAt(after, now, IPV4);
    SameAt(Get(after.fields, IPV4), Get(now.fields, IPV4), DNS_ADDR);
    var inner := Get(now.fields, IPV4);
    assert Get(inner.fields, DNS_ADDR) == Array(servers);
    var edited := Update(target, path, Array(servers));
    forall k | k in after.fields.Keys + edited.fields.Keys
      ensures Same(Get(after.fields, k), Get(edited.fields, k))
    {
      SameAt(after, now, k);
      if k == IPV4 {
        InnerKept(Get(after.fields, IPV4), inner, Get(edited.fields, IPV4));
      }
    }
  }

  lemma InnerKept(x: Json, y: Json, z: Json)
    requires x.Dict? && y.Dict? && z.Dict? && Same(x, y)
    requires forall k :: Get(y.fields, k) == Get(z.fields, k)
    ensures Same(x, z)
  {
    forall k | k in x.fields.Keys + z.fields.Keys
      ensures Same(Get(x.fields, k), Get(z.fields, k))
    {
      SameAt(x, y, k);
    }
  }

  /** A path as the script writes it. */
  function Dotted(path: Path): string {
    if path == [] then "" else "." + path[0] + Dotted(path[1..])
  }

  const DOTTED := IPV4 + "." + DNS_ADDR

  lemma OneDot(s: string, rest: string)
    requires s + "." + rest == DOTTED
    ensures s == IPV4 && rest == DNS_ADDR
  {
    assert (s + "." + rest)[|s|] == '.';
    assert forall k :: 0 <= k < |IPV4| ==> IPV4[k] != '.';
    assert forall k :: 0 <= k < |DNS_ADDR| ==> DNS_ADDR[k] != '.';
    assert forall k :: 0 <= k < |DOTTED| && k != |IPV4| ==> DOTTED[k] != '.';
    assert (s + "." + rest)[..|s|] == s && DOTTED[..|IPV4|] == IPV4;
    assert (s + "." + rest)[|s| + 1..] == rest && DOTTED[|IPV4| + 1..] == DNS_ADDR;
  }

  /** Exactly two paths are written like the expected one. */
  lemma TwoPaths(path: Path)
    ensures Dotted(path) == "." + DOTTED <==> path == [IPV4, DNS_ADDR] || path == [DOTTED]
  {
    assert Dotted([]) == "";
    if path != [] {
      var rest := Dotted(path[1..]);
      assert ("." + path[0] + rest)[1..] == path[0] + rest && ("." + DOTTED)[1..] == DOTTED;
      if |path| == 1 {
        assert path[0] + rest == path[0];
        assert path == [path[0]];
      } else {
        var last := Dotted(path[2..]);
        assert path[1..][1..] == path[2..];
        assert rest == "." + path[1] + last;
        assert path[0] + rest == path[0] + "." + (path[1] + last);
        TwoKeys(path, last);
      }
    }
  }

  lemma DotInside(p: string, last: string)
    requires last != "" && last[0] == '.'
    ensures '.' in p + last
  {
    assert (p + last)[|p|] == '.';
  }

  lemma TwoKeys(path: Path, last: string)
    requires |path| >= 2 && last == Dotted(path[2..])
    ensures path[0] + "." + (path[1] + last) == DOTTED <==> path == [IPV4, DNS_ADDR]
  {
    if path[0] + "." + (path[1] + last) == DOTTED {
      OneDot(path[0], path[1] + last);
      if |path| > 2 {
        assert path[2..] != [] && last[0] == '.';
        DotInside(path[1], last);
        assert false;
      }
      assert last == "" && path[1] + last == path[1];
      assert path == [path[0], path[1]];
    }
    if path == [IPV4, DNS_ADDR] {
      assert path[2..] == [] && path[1] + last == path[1];
    }
  }

  /** The script's verdict as it is computed, on paths written with dots. */
  ghost predicate ScriptAccepts(target: Json, after: Json, servers: seq<Json>, order: Order) {
    && (forall i :: 0 <= i < |Diff(target, after, order)| ==> Dotted(Diff(target, after, order)[i].path) == "." + DOTTED)
    && after.Dict? && Get(after.fields, IPV4).Dict?
    && Get(Get(after.fields, IPV4).fields, DNS_ADDR) == Array(servers)
  }

  /** The script accepts the intended edit; and what it accepts is the intended edit
      exactly if one field of the profile, the one whose own name is written with a
      dot like the expected path, has not changed. */
  lemma ScriptAcceptsExactly(target: Json, after: Json, servers: seq<Json>, order: Order)
    requires Enumerates(order) && target.Dict? && Get(target.fields, IPV4).Dict?
    ensures ScriptAccepts(target, after, servers, order) && Same(Get(target.fields, DOTTED), Get(after.fields, DOTTED)) <==>
            Same(after, Update(target, [IPV4, DNS_ADDR], Array(servers)))
  {
    AcceptedExactly(target, after, servers, order);
    var edited := Update(target, [IPV4, DNS_ADDR], Array(servers));
    UpdateTwo(target, Array(servers));
    assert |DOTTED| != |IPV4|;
    if Same(after, edited) {
      TwoPaths([IPV4, DNS_ADDR]);
      SameAt(after, edited, DOTTED);
      Symmetric(Get(after.fields, DOTTED), Get(target.fields, DOTTED));
    }
    if ScriptAccepts(target, after, servers, order) && Same(Get(target.fields, DOTTED), Get(after.fields, DOTTED)) {
      var cs := Diff(target, after, order);
      ReportsTrue(target, after, order);
      forall i | 0 <= i < |cs|
        ensures cs[i].path == [IPV4, DNS_ADDR]
      {
        TwoPaths(cs[i].path);
        AtKey(target, DOTTED);
        AtKey(after, DOTTED);
        assert Reports(target, after, cs[i]);
      }
    }
  }

  lemma AtKey(a: Json, k: string)
    requires a.Dict?
    ensures At(a, [k]) == Get(a.fields, k)
  {
    assert [k][1..] == [] && [k][0] == k;
  }

  /** A change of that field goes unnoticed. */
  lemma DottedKeyHides(target: Json, v: Json, servers: seq<Json>, order: Order)
    requires Enumerates(order) && target.Dict? && Get(target.fields, IPV4).Dict?
    requires !Get(Get(target.fields, IPV4).fields, DNS_ADDR).Dict? && !Get(target.fields, DOTTED).Dict?
    requires !v.Dict? && v != Get(target.fields, DOTTED)
    ensures var edited := Update(target, [IPV4, DNS_ADDR], Array(servers));
            && edited.Dict?
            && var after := Dict(edited.fields[DOTTED := v]);
            ScriptAccepts(target, after, servers, order) && !Same(after, edited)
  {
    var edited := Update(target, [IPV4, DNS_ADDR], Array(servers));
    UpdateTwo(target, Array(servers));
    var after := Dict(edited.fields[DOTTED := v]);
    assert |DOTTED| != |IPV4|;
    if Same(after, edited) {
      SameAt(after, edited, DOTTED);
      assert false;
    }
    var cs := Diff(target, after, order);
    ReportsTrue(target, after, order);
    forall i | 0 <= i < |cs|
      ensures Dotted(cs[i].path) == "." + DOTTED
    {
      assert Reports(target, after, cs[i]);
      OnlyTwoDiffer(target, after, cs[i].path, v, servers);
      TwoPaths(cs[i].path);
    }
  }

  lemma OnlyTwoDiffer(target: Json, after: Json, path: Path, v: Json, servers: seq<Json>)
    requires target.Dict? && Get(target.fields, IPV4).Dict? && !v.Dict?
    requires !Get(Get(target.fields, IPV4).fields, DNS_ADDR).Dict? && !Get(target.fields, DOTTED).Dict?
    requires var inner := Get(target.fields, IPV4).fields[DNS_ADDR := Array(servers)];
             after == Dict(target.fields[IPV4 := Dict(inner)][DOTTED := v])
    requires At(target, path) != At(after, path) && !(At(target, path).Dict? && At(after, path).Dict?)
    ensures path == [IPV4, DNS_ADDR] || path == [DOTTED]
  {
    assert |DOTTED| != |IPV4|;
    if path != [] {
      var k, rest := path[0], path[1..];
      assert path == [k] + rest;
      var a, b := Get(target.fields, k), Get(after.fields, k);
      assert At(target, path) == At(a, rest) && At(after, path) == At(b, rest);
      if k == IPV4 && rest != [] {
        var field, last := rest[0], rest[1..];
        assert rest == [field] + last;
        assert At(a, rest) == At(Get(a.fields, field), last) && At(b, rest) == At(Get(b.fields, field), last);
        assert field == DNS_ADDR && last == [];
      }
    }
  }

  /** What the Go client sends: the list, the type when the list is not empty, and
      the action. None when the profile has no ipv4Settings object. */
  function EditProfile(p: map<string, Json>, servers: seq<string>): Option<map<string, Json>> {
    if !Get(p, IPV4).Dict? then None
    else
      var ipv4 := p[IPV4].fields[DNS_ADDR := Array(seq(|servers|, i requires 0 <= i < |servers| => Scalar(servers[i])))];
      var ipv4' := if |servers| > 0 then ipv4[DNS_TYPE := Scalar("custom")] else ipv4;
      Some(p[IPV4 := Dict(ipv4')]["action" := Scalar("edit")])
  }

  /** Two objects have the same field k, or both lack it. */
  ghost predicate SameField(a: map<string, Json>, b: map<string, Json>, k: string) {
    (k in a <==> k in b) && (k in a ==> a[k] == b[k])
  }

  /** What is sent: the servers in their order, the type if there are any, the action,
      and every other key as read; nothing exactly without an ipv4Settings object. */
  lemma EditSends(p: map<string, Json>, servers: seq<string>)
    ensures EditProfile(p, servers).Some? <==> "ipv4Settings" in p && p["ipv4Settings"].Dict?
    ensures EditProfile(p, servers).Some? ==>
      var q := EditProfile(p, servers).value;
      && "ipv4Settings" in q && q["ipv4Settings"].Dict?
      && Addresses(q["ipv4Settings"].fields, servers)
      && (servers != [] ==> Get(q["ipv4Settings"].fields, "dhcpDnsType") == Scalar("custom"))
      && (servers == [] ==> SameField(p["ipv4Settings"].fields, q["ipv4Settings"].fields, "dhcpDnsType"))
      && (forall k :: k !in ["dhcpDnsAddr", "dhcpDnsType"] ==>
            SameField(p["ipv4Settings"].fields, q["ipv4Settings"].fields, k))
      && Get(q, "action") == Scalar("edit")
      && (forall k :: k !in ["ipv4Settings", "action"] ==> SameField(p, q, k))
  {
    assert "dhcpDnsAddr"[7] != "dhcpDnsType"[7] && |"ipv4Settings"| != |"action"|;
  }

  ghost predicate Addresses(ipv4: map<string, Json>, servers: seq<string>) {
    && "dhcpDnsAddr" in ipv4 && ipv4["dhcpDnsAddr"].Array?
    && |ipv4["dhcpDnsAddr"].items| == |servers|
    && forall i :: 0 <= i < |servers| ==> ipv4["dhcpDnsAddr"].items[i] == Scalar(servers[i])
  }

  /** Everything else in the profile is sent back as read. */
  lemma EditTouches(p: map<string, Json>, servers: seq<string>, order: Order)
    requires Enumerates(order) && EditProfile(p, servers).Some?
    ensures forall i :: 0 <= i < |Diff(Dict(p), Dict(EditProfile(p, servers).value), order)| ==>
              var path := Diff(Dict(p), Dict(EditProfile(p, servers).value), order)[i].path;
              path == [IPV4, DNS_ADDR] || path == ["action"] || (path == [IPV4, DNS_TYPE] && servers != [])
  {
    var q := EditProfile(p, servers).value;
    TouchedKeys(p, q, servers, order(p.Keys + q.Keys), order);
  }

  lemma {:induction false} TouchedKeys(p: map<string, Json>, q: map<string, Json>, servers: seq<string>,
                                       ks: seq<string>, order: Order)
    requires Enumerates(order) && EditProfile(p, servers) == Some(q)
    ensures forall i :: 0 <= i < |DiffKeys(Dict(p), Dict(q), ks, order)| ==>
              Touched(DiffKeys(Dict(p), Dict(q), ks, order)[i].path, servers)
    decreases |ks|
  {
    if ks != [] {
      var k := ks[0];
      TouchedKeys(p, q, servers, ks[1..], order);
      if k == IPV4 {
        var x, y := p[IPV4], q[IPV4];
        TouchedInner(x, y, servers, order(x.fields.Keys + y.fields.Keys), order);
        assert Diff(Get(p, k), Get(q, k), order) == DiffKeys(x, y, order(x.fields.Keys + y.fields.Keys), order);
      } else if k == "action" {
        var cs := Diff(Get(p, k), Scalar("edit"), order);
        assert cs == [] || cs == [Change([], Get(p, k), Scalar("edit"))];
      } else {
        Reflexive(Get(p, k));
        EmptyExactly(Get(p, k), Get(q, k), order);
      }
    }
  }

  ghost predicate Touched(path: Path, servers: seq<string>) {
    path == [IPV4, DNS_ADDR] || path == ["action"] || (path == [IPV4, DNS_TYPE] && servers != [])
  }

  lemma {:induction false} TouchedInner(x: Json, y: Json, servers: seq<string>, ks: seq<string>, order: Order)
    requires Enumerates(order) && x.Dict? && y.Dict?
    requires forall k :: k != DNS_ADDR && (servers == [] || k != DNS_TYPE) ==> Get(x.fields, k) == Get(y.fields, k)
    requires !Get(y.fields, DNS_ADDR).Dict? && (servers != [] ==> !Get(y.fields, DNS_TYPE).Dict?)
    ensures forall i :: 0 <= i < |DiffKeys(x, y, ks, order)| ==> Touched([IPV4] + DiffKeys(x, y, ks, order)[i].path, servers)
    decreases |ks|
  {
    if ks != [] {
      var k := ks[0];
      TouchedInner(x, y, servers, ks[1..], order);
      if Get(x.fields, k) == Get(y.fields, k) {
        Reflexive(Get(x.fields, k));
        EmptyExactly(Get(x.fields, k), Get(y.fields, k), order);
      }
    }
  }
}
