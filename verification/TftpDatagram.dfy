/** The same transfer over plain datagrams: anything ever sent may be delivered
    again, in any order, any number of times, or never. Safety then holds
    exactly up to the number of blocks that 16 bits can tell apart. */
module TftpDatagram {
  import opened TftpServer
  import opened TftpClient

  /** `down` and `up` hold everything ever sent. */
  datatype Sys = Sys(server: Server, client: Client, down: set<Packet>, up: set<Message>)

  datatype Action =
    | ClientGets(p: Packet, reack: bool)
    | ServerGets(m: Message)
    | ServerTimeout
    | ClientTimeout
    | ClientAborts

  function Init(cfg: Config): Sys {
    Sys(Start(cfg), Begin(cfg), {PacketAt(cfg, First(cfg))}, {})
  }

  function ToSet<T(==)>(q: seq<T>): set<T> {
    set x | x in q
  }

  function Next(cfg: Config, s: Sys, a: Action): Sys {
    match a
    case ClientGets(p, reack) =>
      if p !in s.down then s
      else
        var (c, out) := Receive(cfg, s.client, p, reack);
        s.(client := c, up := s.up + ToSet(out))
    case ServerGets(m) =>
      if m !in s.up || (m.Ack? && m.wire >= MODULUS) then s
      else
        var (v, out) := ServerTurn(cfg, s.server, Datagram(Encode(m)));
        s.(server := v, down := s.down + ToSet(out))
    case ServerTimeout =>
      var (v, out) := ServerTurn(cfg, s.server, Timeout);
      s.(server := v, down := s.down + ToSet(out))
    case ClientTimeout => s.(up := s.up + ToSet(Repeat(cfg, s.client)))
    case ClientAborts => s.(up := s.up + {Abort})
  }

  function Exec(cfg: Config, acts: seq<Action>): Sys {
    if acts == [] then Init(cfg) else Next(cfg, Exec(cfg, acts[..|acts| - 1]), acts[|acts| - 1])
  }

  /** The most DATA blocks a transfer may take: the numbers First, .., Blocks
      must be distinct modulo 65536. */
  function Limit(cfg: Config): nat {
    MODULUS - 1 + First(cfg)
  }

  /** What a transfer promises at every point of every schedule. */
  ghost predicate Good(cfg: Config, s: Sys) {
    && s.client.data <= cfg.file
    && (s.client.done ==> s.client.data == cfg.file)
    && (s.server.status == Complete ==> s.client.done)
  }

  /** Every packet ever sent carries a block the server has reached, and every
      acknowledgement a block the client has accepted. */
  ghost predicate Inv(cfg: Config, s: Sys, c: nat)
    requires cfg.Valid()
  {
    var b := s.server.block;
    && First(cfg) <= b <= c <= b + 1 && c <= Blocks(cfg) + 1
    && (s.server.status == Complete <==> b == Blocks(cfg) + 1)
    && s.client == ClientAt(cfg, c)
    && (forall p | p in s.down :: SentDown(cfg, p, b))
    && (forall m | m in s.up :: SentUp(cfg, m, c))
  }

  ghost predicate SentDown(cfg: Config, p: Packet, b: nat)
    requires cfg.Valid()
  {
    exists x: nat :: First(cfg) <= x <= b && x <= Blocks(cfg) && p == PacketAt(cfg, x)
  }

  ghost predicate SentUp(cfg: Config, m: Message, c: nat) {
    m == Abort || exists x: nat :: First(cfg) <= x < c && m == AckOf(x)
  }

  ghost function AckOf(x: nat): Message {
    Ack(x % MODULUS)
  }

  lemma Distinct(x: nat, y: nat)
    requires x <= y < x + MODULUS && x % MODULUS == y % MODULUS
    ensures x == y
  {
  }

  /** Below the limit a client takes exactly the block it waits for. */
  lemma ClientTakes(cfg: Config, c: nat, x: nat, reack: bool)
    requires cfg.Valid() && Blocks(cfg) <= Limit(cfg)
    requires First(cfg) <= x <= c <= Blocks(cfg) + 1 && x <= Blocks(cfg)
    ensures var (c', out) := Receive(cfg, ClientAt(cfg, c), PacketAt(cfg, x), reack);
            && (out == [] || out == [AckOf(x)])
            && c' == ClientAt(cfg, if x == c then c + 1 else c)
            && (x == c ==> out == [AckOf(x)])
  {
    if x == c {
      TakesExpected(cfg, c, reack);
    } else if x > 0 {
      Consecutive(c - 1);
      if c <= Blocks(cfg) && x % MODULUS == c % MODULUS {
        Distinct(x, c);
      }
    } else if c > 1 {
      ChunkTiles(cfg, 1);
      NotFresh(cfg, c);
    }
  }

  /** Once a DATA block is accepted, the client does not look freshly opened. */
  lemma NotFresh(cfg: Config, c: nat)
    requires cfg.Valid() && 1 < c <= Blocks(cfg) + 1 && Blocks(cfg) <= Limit(cfg)
    ensures ClientAt(cfg, c).last != 0 || ClientAt(cfg, c).data != []
  {
    if c - 1 == MODULUS {
      OneBlock(cfg, c - 1);
    }
  }

  lemma OneBlock(cfg: Config, b: nat)
    requires cfg.Valid() && 1 < b <= Blocks(cfg)
    ensures Offset(cfg, b) > 0
  {
    ChunkTiles(cfg, b);
  }

  lemma Grow(cfg: Config, s: Sys, t: Sys, c: nat, c': nat)
    requires cfg.Valid() && Inv(cfg, s, c) && c <= c' && s.server.block <= t.server.block
    ensures forall p | p in s.down :: SentDown(cfg, p, t.server.block)
    ensures forall m | m in s.up :: SentUp(cfg, m, c')
  {
    forall p | p in s.down ensures SentDown(cfg, p, t.server.block) {
      assert SentDown(cfg, p, s.server.block);
      var x: nat :| First(cfg) <= x <= s.server.block && x <= Blocks(cfg) && p == PacketAt(cfg, x);
      assert x <= t.server.block;
    }
    forall m | m in s.up ensures SentUp(cfg, m, c') {
      assert SentUp(cfg, m, c);
      if m != Abort {
        var x: nat :| First(cfg) <= x < c && m == AckOf(x);
        assert x < c';
      }
    }
  }

  lemma ClientKeeps(cfg: Config, s: Sys, p: Packet, reack: bool, c: nat) returns (c': nat)
    requires cfg.Valid() && Inv(cfg, s, c) && Blocks(cfg) <= Limit(cfg) && p in s.down
    ensures Inv(cfg, Next(cfg, s, ClientGets(p, reack)), c')
  {
    assert SentDown(cfg, p, s.server.block);
    var x: nat :| First(cfg) <= x <= s.server.block && x <= Blocks(cfg) && p == PacketAt(cfg, x);
    ClientTakes(cfg, c, x, reack);
    c' := if x == c then c + 1 else c;
    Grow(cfg, s, Next(cfg, s, ClientGets(p, reack)), c, c');
  }

  /** Below the limit the server moves only on the ACK of the very block it is
      at, which the client has then accepted. */
  lemma ServerTakes(cfg: Config, v: Server, c: nat, m: Message)
    requires cfg.Valid() && Blocks(cfg) <= Limit(cfg)
    requires v.status == Running && First(cfg) <= v.block <= Blocks(cfg) && v.block <= c <= v.block + 1
    requires SentUp(cfg, m, c)
    ensures m.Ack? ==> m.wire < MODULUS
    ensures var (v', out) := ServerTurn(cfg, v, Datagram(Encode(m)));
            && v.block <= v'.block <= c
            && (v'.status == Complete <==> v'.block == Blocks(cfg) + 1)
            && (out == [] || out == [PacketAt(cfg, v'.block)])
            && (out != [] ==> v'.block <= Blocks(cfg))
  {
    if m.Ack? {
      var x: nat :| First(cfg) <= x < c && m == AckOf(x);
      AckReadBack(m.wire);
      if v.block > 0 && m.wire == v.block % MODULUS {
        Distinct(x, v.block);
      }
      if v.block > 0 {
        ChunkTiles(cfg, v.block);
      }
    }
  }

  lemma Keeps(cfg: Config, s: Sys, a: Action, c: nat) returns (c': nat)
    requires cfg.Valid() && Inv(cfg, s, c) && Blocks(cfg) <= Limit(cfg)
    ensures Inv(cfg, Next(cfg, s, a), c')
  {
    c' := c;
    match a
    case ClientGets(p, reack) =>
      if p in s.down {
        c' := ClientKeeps(cfg, s, p, reack, c);
      }
    case ServerGets(m) =>
      if m in s.up && s.server.status == Running {
        ServerTakes(cfg, s.server, c, m);
        Grow(cfg, s, Next(cfg, s, a), c, c);
      }
    case ServerTimeout =>
      Grow(cfg, s, Next(cfg, s, a), c, c);
    case ClientTimeout =>
      RepeatsPrevious(cfg, c);
      if Repeat(cfg, s.client) != [] {
        assert Repeat(cfg, s.client) == [AckOf(c - 1)];
      }
    case ClientAborts =>
  }

  lemma {:induction false} Reaches(cfg: Config, acts: seq<Action>) returns (c: nat)
    requires cfg.Valid() && Blocks(cfg) <= Limit(cfg)
    ensures Inv(cfg, Exec(cfg, acts), c)
  {
    if acts == [] {
      c := First(cfg);
      assert cfg.file[..Offset(cfg, 0)] == [];
    } else {
      c := Reaches(cfg, acts[..|acts| - 1]);
      c := Keeps(cfg, Exec(cfg, acts[..|acts| - 1]), acts[|acts| - 1], c);
    }
  }

  lemma InvIsGood(cfg: Config, s: Sys, c: nat)
    requires cfg.Valid() && Inv(cfg, s, c)
    ensures Good(cfg, s)
  {
    ChunkTiles(cfg, Blocks(cfg));
  }

  lemma Safe(cfg: Config, acts: seq<Action>)
    requires cfg.Valid() && Blocks(cfg) <= Limit(cfg)
    ensures Good(cfg, Exec(cfg, acts))
  {
    var c := Reaches(cfg, acts);
    InvIsGood(cfg, Exec(cfg, acts), c);
  }

  // --- Above the limit --------------------------------------------------------

  lemma Then(cfg: Config, acts: seq<Action>, a: Action)
    ensures Exec(cfg, acts + [a]) == Next(cfg, Exec(cfg, acts), a)
  {
    assert (acts + [a])[..|acts|] == acts;
  }

  /** A loss-free start: server and client meet at block k. */
  ghost predicate Meet(cfg: Config, s: Sys, k: nat)
    requires cfg.Valid()
  {
    && s.server.status == Running && s.server.block == k
    && s.client == ClientAt(cfg, k)
    && PacketAt(cfg, k) in s.down
    && (forall x: nat :: First(cfg) <= x < k ==> AckOf(x) in s.up)
  }

  lemma {:induction false} Lockstep(cfg: Config, k: nat) returns (acts: seq<Action>)
    requires cfg.Valid() && First(cfg) <= k <= Blocks(cfg)
    ensures Meet(cfg, Exec(cfg, acts), k)
  {
    if k == First(cfg) {
      acts := [];
      MeetInit(cfg);
    } else {
      acts := Lockstep(cfg, k - 1);
      acts := MeetNext(cfg, acts, k - 1);
    }
  }

  lemma MeetInit(cfg: Config)
    requires cfg.Valid()
    ensures Meet(cfg, Init(cfg), First(cfg))
  {
    assert cfg.file[..Offset(cfg, 0)] == [];
  }

  lemma MeetNext(cfg: Config, acts: seq<Action>, k: nat) returns (acts': seq<Action>)
    requires cfg.Valid() && First(cfg) <= k < Blocks(cfg) && Meet(cfg, Exec(cfg, acts), k)
    ensures Meet(cfg, Exec(cfg, acts'), k + 1)
  {
    var a1, a2 := ClientGets(PacketAt(cfg, k), false), ServerGets(AckOf(k));
    MeetAgain(cfg, Exec(cfg, acts), k);
    Then(cfg, acts, a1);
    Then(cfg, acts + [a1], a2);
    acts' := acts + [a1] + [a2];
  }

  lemma MeetAgain(cfg: Config, s: Sys, k: nat)
    requires cfg.Valid() && First(cfg) <= k < Blocks(cfg) && Meet(cfg, s, k)
    ensures Meet(cfg, Next(cfg, Next(cfg, s, ClientGets(PacketAt(cfg, k), false)), ServerGets(AckOf(k))), k + 1)
  {
    TakesExpected(cfg, k, false);
    AckMoves(cfg, s.server);
  }

  lemma AckMoves(cfg: Config, v: Server)
    requires cfg.Valid() && v.status == Running && v.block <= Blocks(cfg)
    ensures var (v', out) := ServerTurn(cfg, v, Datagram(Encode(AckOf(v.block))));
            && v'.block == v.block + 1
            && v'.status == (if v.block == Blocks(cfg) then Complete else Running)
            && out == if v.block == Blocks(cfg) then [] else [PacketAt(cfg, v.block + 1)]
  {
    AckReadBack(v.block % MODULUS);
    if v.block > 0 {
      ChunkTiles(cfg, v.block);
    }
  }

  lemma SameResidue(f: nat, j: nat) returns (x: nat)
    requires f <= j
    ensures f <= x < f + MODULUS && x % MODULUS == j % MODULUS
  {
    x := f + (j - f) % MODULUS;
    assert j == x + MODULUS * ((j - f) / MODULUS);
  }

  /** With every residue acknowledged once, stale ACKs alone carry the server from
      any block to the end, the client reading nothing. */
  lemma {:induction false} Coast(cfg: Config, acts: seq<Action>) returns (acts': seq<Action>)
    requires cfg.Valid()
    requires var s := Exec(cfg, acts);
             && s.server.status == Running && First(cfg) <= s.server.block <= Blocks(cfg)
             && (forall x: nat :: First(cfg) <= x < First(cfg) + MODULUS ==> AckOf(x) in s.up)
    ensures Exec(cfg, acts').server.status == Complete
    ensures Exec(cfg, acts').client == Exec(cfg, acts).client
    decreases Blocks(cfg) - Exec(cfg, acts).server.block
  {
    var s := Exec(cfg, acts);
    var x := SameResidue(First(cfg), s.server.block);
    var a := ServerGets(AckOf(x));
    Then(cfg, acts, a);
    AckMoves(cfg, s.server);
    acts' := acts + [a];
    if s.server.block < Blocks(cfg) {
      acts' := Coast(cfg, acts');
    }
  }

  /** One block above the limit there is a schedule in which the server reports
      "transfer complete" to a client that is still missing blocks. */
  lemma Unsafe(cfg: Config) returns (acts: seq<Action>)
    requires cfg.Valid() && Blocks(cfg) > Limit(cfg)
    ensures Exec(cfg, acts).server.status == Complete && !Exec(cfg, acts).client.done
  {
    acts := Lockstep(cfg, First(cfg) + MODULUS);
    acts := Coast(cfg, acts);
  }

  /** Datagram delivery keeps every transfer safe exactly when the file takes at
      most 65535 blocks after an OACK, or 65536 without one. */
  lemma SafeExactly(cfg: Config)
    requires cfg.Valid()
    ensures (forall acts: seq<Action> :: Good(cfg, Exec(cfg, acts))) <==>
            |cfg.file| / cfg.blksize + 1 <= if cfg.negotiated then 65535 else 65536
  {
    if Blocks(cfg) <= Limit(cfg) {
      forall acts: seq<Action>
        ensures Good(cfg, Exec(cfg, acts))
      {
        Safe(cfg, acts);
      }
    } else {
      var acts := Unsafe(cfg);
      assert !Good(cfg, Exec(cfg, acts));
    }
  }
}
