/** The PR60X router as its JSON-RPC client sees it, and the client's calls: log in
    when there is no token, and after a 401 log in again and replay once. */
module Pr60xClient {
  import opened Basics

  /** What becomes of one request. `Denied` is an RPC error for a request that was
      not executed (401 among them); `Unheard` is a request that was executed and
      whose reply did not come through. */
  datatype Fate = Dropped | Denied(code: int) | Served | Unheard

  /** Tokens may expire before each request. */
  datatype Event = Event(expire: set<nat>, fate: Fate)

  type Script = nat -> Event

  datatype Rpc = Login(password: string) | SetAdmin(old_: string, new_: string) | DeviceInfo | LogoutRpc

  datatype Reply = Transport | RpcError(code: int) | Ok(token: Option<nat>)

  const UNAUTHORISED := 401

  // A wrong password is answered with some other code.
  const REFUSED := 1

  /** The router. `applied` counts the password changes it has executed. */
  datatype Router = Router(clock: nat, password: string, tokens: set<nat>, next: nat, applied: nat)

  /** Executing a request. */
  function Execute(r: Router, token: Option<nat>, rpc: Rpc): (Router, Reply) {
    if rpc.Login? then
      if rpc.password == r.password then (r.(tokens := r.tokens + {r.next}, next := r.next + 1), Ok(Some(r.next)))
      else (r, RpcError(REFUSED))
    else if token == None || token.value !in r.tokens then (r, RpcError(UNAUTHORISED))
    else if rpc.SetAdmin? then
      if rpc.old_ == r.password
      then (r.(password := rpc.new_, tokens := {}, applied := r.applied + 1), Ok(None))
      else (r, RpcError(REFUSED))
    else if rpc.LogoutRpc? then (r.(tokens := r.tokens - {token.value}), Ok(None))
    else (r, Ok(None))
  }

  /** One request, whatever becomes of it. */
  function Post(script: Script, r: Router, token: Option<nat>, rpc: Rpc): (Router, Reply) {
    var e := script(r.clock);
    var r1 := r.(clock := r.clock + 1, tokens := r.tokens - e.expire);
    match e.fate
    case Dropped => (r1, Transport)
    case Denied(code) => (r1, RpcError(code))
    case Served => Execute(r1, token, rpc)
    case Unheard => (Execute(r1, token, rpc).0, Transport)
  }

  /** Only a password change changes the password, and only from the current one. */
  ghost predicate Step(r: Router, r': Router, rpc: Rpc) {
    || (r'.password == r.password && r'.applied == r.applied)
    || (rpc.SetAdmin? && rpc.old_ == r.password && r'.password == rpc.new_ && r'.applied == r.applied + 1)
  }

  lemma PostSteps(script: Script, r: Router, token: Option<nat>, rpc: Rpc)
    ensures var (r', reply) := Post(script, r, token, rpc);
            && Step(r, r', rpc)
            && (reply.RpcError? ==> r'.password == r.password && r'.applied == r.applied)
            && (reply.Ok? && rpc.SetAdmin? ==> r'.applied == r.applied + 1)
            && (reply.Ok? && rpc.Login? ==> rpc.password == r.password)
            && (rpc.Login? && script(r.clock).fate == Served && rpc.password != r.password ==>
                  reply.RpcError? && reply.code != 401)
            && (!rpc.Login? && script(r.clock).fate == Served && token == None ==> reply == RpcError(401))
  {
  }

  /** From request t on every request is executed and answered, and no token expires. */
  ghost predicate Well(script: Script, t: nat) {
    forall k: nat :: t <= k ==> script(k) == Event({}, Served)
  }

  /** From request t on no executed request loses its reply. */
  ghost predicate Heard(script: Script, t: nat) {
    forall k: nat :: t <= k ==> script(k).fate != Unheard
  }

  /** A login begun at request t: the priming GET and the login itself. */
  ghost predicate LoggedIn(script: Script, t: nat) {
    script(t).fate == Served && script(t + 1).fate == Served
  }

  /** Request t comes with token `id` still good and has this fate. */
  ghost predicate Meets(script: Script, t: nat, id: nat, fate: Fate) {
    script(t).fate == fate && id !in script(t).expire
  }

  /** Request t, made with token `id`, is answered 401. */
  ghost predicate Expelled(script: Script, t: nat, id: nat) {
    script(t).fate == Denied(401) || (script(t).fate == Served && id in script(t).expire)
  }

  /** A fresh client's first request, begun at request t on a router whose next token
      is `id`, meets this fate: at the first attempt, or after a 401 at the second. */
  ghost predicate Reaches(script: Script, t: nat, id: nat, fate: Fate) {
    LoggedIn(script, t) &&
    (Meets(script, t + 2, id, fate) ||
     (Expelled(script, t + 2, id) && LoggedIn(script, t + 3) && Meets(script, t + 5, id + 1, fate)))
  }

  /** Without lost replies no request meets that fate. */
  lemma HeardMeansNone(script: Script, t: nat, id: nat)
    requires Heard(script, t)
    ensures !Reaches(script, t, id, Unheard)
  {
    assert script(t + 2).fate != Unheard && script(t + 5).fate != Unheard;
  }

  ghost predicate Holds(r: Router, token: Option<nat>) {
    token.Some? && token.value in r.tokens
  }

  method Authenticate(script: Script, r: Router, password: string) returns (r': Router, token: Option<nat>)
    ensures r'.password == r.password && r'.applied == r.applied
    ensures r.clock <= r'.clock
    ensures token.Some? <==> password == r.password && LoggedIn(script, r.clock)
    ensures token.Some? ==> token.value == r.next && Holds(r', token) && r'.next == r.next + 1 && r'.clock == r.clock + 2
  {
    // The GET that primes the session cookie.
    var e := script(r.clock);
    r' := r.(clock := r.clock + 1, tokens := r.tokens - e.expire);
    token := None;
    if e.fate != Served {
      return;
    }
    var reply;
    PostSteps(script, r', None, Login(password));
    r', reply := Post(script, r', None, Login(password)).0, Post(script, r', None, Login(password)).1;
    if reply.Ok? {
      token := reply.token;
    }
  }

  /** One call of a client built with `password` and holding `token`. With a router
      that answers, a token gone stale costs nothing as long as the password is good. */
  method Call(script: Script, r: Router, password: string, token: Option<nat>, rpc: Rpc)
    returns (r': Router, token': Option<nat>, reply: Reply)
    ensures Step(r, r', rpc)
    ensures reply.Ok? && rpc.SetAdmin? ==> r'.applied == r.applied + 1
    ensures reply.Ok? && token == None ==> password == r.password
    ensures r.clock <= r'.clock
    ensures Well(script, r.clock) && (rpc.DeviceInfo? || rpc.SetAdmin?) ==>
      (reply.Ok? <==> (Holds(r, token) || password == r.password) && (rpc.SetAdmin? ==> rpc.old_ == r.password))
    ensures token == None && rpc.DeviceInfo? ==>
      (reply.Ok? <==> password == r.password && Reaches(script, r.clock, r.next, Served))
    ensures Heard(script, r.clock) && !reply.Ok? ==> r'.password == r.password && r'.applied == r.applied
    ensures token == None && rpc.SetAdmin? && rpc.old_ == password ==>
      (reply.Ok? <==> password == r.password && Reaches(script, r.clock, r.next, Served)) &&
      (!reply.Ok? && r'.applied > r.applied <==> password == r.password && Reaches(script, r.clock, r.next, Unheard))
  {
    r', token', reply := r, token, Transport;
    if token' == None {
      r', token' := Authenticate(script, r', password);
      if token' == None {
        return;
      }
    }
    PostSteps(script, r', token', rpc);
    var first := Post(script, r', token', rpc);
    r', reply := first.0, first.1;
    if reply == RpcError(UNAUTHORISED) {
      r', token' := Authenticate(script, r', password);
      if token' == None {
        reply := Transport;
        return;
      }
      PostSteps(script, r', token', rpc);
      var again := Post(script, r', token', rpc);
      r', reply := again.0, again.1;
    }
  }

  method Logout(script: Script, r: Router, token: Option<nat>) returns (r': Router)
    ensures r'.password == r.password && r'.applied == r.applied && r.clock <= r'.clock
  {
    r' := r;
    if token.Some? {
      PostSteps(script, r, token, LogoutRpc);
      r' := Post(script, r, token, LogoutRpc).0;
    }
  }

  ghost predicate Admits(r: Router, oldPassword: string, newPassword: string) {
    oldPassword == r.password && oldPassword != "" && newPassword != ""
  }

  /** The rotator's device adapter: a fresh client, one change, a logout. However
      often the client logs in and replays, the router executes the change at most
      once; exactly once when this reports success; and when it reports an error
      the change was executed exactly if it met the fate of a lost reply. */
  method SetPassword(script: Script, r: Router, oldPassword: string, newPassword: string)
    returns (r': Router, ok: bool)
    ensures Step(r, r', SetAdmin(oldPassword, newPassword))
    ensures ok ==> r'.applied == r.applied + 1
    ensures r.clock <= r'.clock
    ensures Well(script, r.clock) ==> (ok <==> Admits(r, oldPassword, newPassword))
    ensures Heard(script, r.clock) && !ok ==> r'.password == r.password && r'.applied == r.applied
    ensures ok <==> Admits(r, oldPassword, newPassword) && Reaches(script, r.clock, r.next, Served)
    ensures !ok && r'.applied > r.applied <==>
            Admits(r, oldPassword, newPassword) && Reaches(script, r.clock, r.next, Unheard)
  {
    r', ok := r, false;
    if oldPassword == "" || newPassword == "" {
      return;
    }
    var token, reply;
    r', token, reply := Call(script, r, oldPassword, None, SetAdmin(oldPassword, newPassword));
    ok := reply.Ok?;
    if ok {
      // The device has dropped every session; the client forgets its token.
      token := None;
    }
    r' := Logout(script, r', token);
  }

  /** The rotator's check: a fresh client with the candidate password makes one
      authenticated call. Success means the router is on that password. */
  method Verify(script: Script, r: Router, password: string) returns (r': Router, ok: bool)
    ensures r'.password == r.password && r'.applied == r.applied && r.clock <= r'.clock
    ensures ok <==> r.password == password && Reaches(script, r.clock, r.next, Served)
    ensures Well(script, r.clock) ==> (ok <==> r.password == password)
  {
    var token, reply;
    r', token, reply := Call(script, r, password, None, DeviceInfo);
    ok := reply.Ok?;
    r' := Logout(script, r', token);
  }
}
