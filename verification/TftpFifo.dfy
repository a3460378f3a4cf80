/** A whole transfer over two FIFO channels that may lose packets and repeat
    them, for files of any length: the 16-bit block number may roll over any
    number of times. */
module TftpFifo {
  import opened Basics
  import opened TftpServer
  import opened TftpClient

  datatype Sys = Sys(server: Server, client: Client, down: seq<Packet>, up: seq<Message>)

  /** One step of the schedule: an end reads its channel or times out, the client
      reports an error, or a channel drops or repeats the packet at an index. */
  datatype Action =
    | ClientReads(reack: bool)
    | ServerReads
    | ServerTimeout
    | ClientTimeout
    | ClientAborts
    | LoseDown(i: nat)
    | LoseUp(i: nat)
    | RepeatDown(i: nat)
    | RepeatUp(i: nat)

  function Init(cfg: Config): Sys {
    Sys(Start(cfg), Begin(cfg), [PacketAt(cfg, First(cfg))], [])
  }

  function Drop<T>(q: seq<T>, i: nat): seq<T> {
    if i < |q| then q[..i] + q[i + 1..] else q
  }

  function Double<T>(q: seq<T>, i: nat): seq<T> {
    if i < |q| then q[..i] + [q[i]] + q[i..] else q
  }

  /** A message on the wire never names a number the field cannot hold. */
  predicate Sendable(m: Message) {
    m.Ack? ==> m.wire < MODULUS
  }

  function Next(cfg: Config, s: Sys, a: Action): Sys {
    match a
    case ClientReads(reack) =>
      if s.down == [] then s
      else
        var (c, out) := Receive(cfg, s.client, s.down[0], reack);
        s.(client := c, down := s.down[1..], up := s.up + out)
    case ServerReads =>
      if s.up == [] || !Sendable(s.up[0]) then s
      else
        var (v, out) := ServerTurn(cfg, s.server, Datagram(Encode(s.up[0])));
        s.(server := v, up := s.up[1..], down := s.down + out)
    case ServerTimeout =>
      var (v, out) := ServerTurn(cfg, s.server, Timeout);
      s.(server := v, down := s.down + out)
    case ClientTimeout => s.(up := s.up + Repeat(cfg, s.client))
    case ClientAborts => s.(up := s.up + [Abort])
    case LoseDown(i) => s.(down := Drop(s.down, i))
    case LoseUp(i) => s.(up := Drop(s.up, i))
    case RepeatDown(i) => s.(down := Double(s.down, i))
    case RepeatUp(i) => s.(up := Double(s.up, i))
  }

  function Exec(cfg: Config, acts: seq<Action>): Sys {
    if acts == [] then Init(cfg) else Next(cfg, Exec(cfg, acts[..|acts| - 1]), acts[|acts| - 1])
  }

  /** A queue holding only x before index i and only y from there on, with any
      number of z, if there is one, anywhere. */
  ghost predicate TwoRuns<T>(q: seq<T>, i: nat, x: T, y: T, z: Option<T>) {
    && i <= |q|
    && (forall k :: 0 <= k < i ==> q[k] == x || Some(q[k]) == z)
    && (forall k :: i <= k < |q| ==> q[k] == y || Some(q[k]) == z)
  }

  ghost function Prev(cfg: Config, b: nat): Message {
    if First(cfg) < b then Ack((b - 1) % MODULUS) else Abort
  }

  ghost predicate DownInv(cfg: Config, q: seq<Packet>, b: nat, c: nat, i: nat)
    requires cfg.Valid()
  {
    var x := PacketAt(cfg, if c > 0 then c - 1 else 0);
    && TwoRuns(q, i, x, PacketAt(cfg, c), None)
    && (i > 0 ==> First(cfg) < c)
    && (i < |q| ==> c == b && c <= Blocks(cfg))
  }

  ghost predicate UpInv(cfg: Config, q: seq<Message>, b: nat, c: nat, j: nat) {
    && TwoRuns(q, j, Prev(cfg, b), Ack(b % MODULUS), Some(Abort))
    && (j < |q| ==> c == b + 1)
  }

  ghost predicate EndsInv(cfg: Config, v: Server, client: Client, c: nat)
    requires cfg.Valid()
  {
    && First(cfg) <= v.block <= c <= v.block + 1 && c <= Blocks(cfg) + 1
    && (v.status == Complete <==> v.block == Blocks(cfg) + 1)
    && client == ClientAt(cfg, c)
  }

  /** The server is at block b and the client waits for c, which is b or b + 1.
      Only blocks c - 1 and c, and acknowledgements of b - 1 and b, are in
      flight, the older ones in front. */
  ghost predicate Inv(cfg: Config, s: Sys, c: nat, i: nat, j: nat)
    requires cfg.Valid()
  {
    && EndsInv(cfg, s.server, s.client, c)
    && DownInv(cfg, s.down, s.server.block, c, i)
    && UpInv(cfg, s.up, s.server.block, c, j)
  }

  lemma DropRuns<T>(q: seq<T>, i: nat, at: nat, x: T, y: T, z: Option<T>) returns (i': nat)
    requires TwoRuns(q, i, x, y, z)
    ensures TwoRuns(Drop(q, at), i', x, y, z) && (i' < |Drop(q, at)| ==> i < |q|) && i' <= i
  {
    i' := if at < i then i - 1 else i;
  }

  lemma DoubleRuns<T>(q: seq<T>, i: nat, at: nat, x: T, y: T, z: Option<T>) returns (i': nat)
    requires TwoRuns(q, i, x, y, z)
    ensures TwoRuns(Double(q, at), i', x, y, z) && (i' < |Double(q, at)| ==> i < |q|) && (i' > 0 ==> i > 0)
  {
    i' := if at < i then i + 1 else i;
  }

  lemma TailRuns<T>(q: seq<T>, i: nat, x: T, y: T, z: Option<T>)
    requires TwoRuns(q, i, x, y, z) && q != []
    ensures TwoRuns(q[1..], if i == 0 then 0 else i - 1, x, y, z)
  {
  }

  /** A client read keeps the invariant. */
  lemma ClientKeeps(cfg: Config, s: Sys, c: nat, i: nat, j: nat, reack: bool) returns (c': nat, i': nat, j': nat)
    requires cfg.Valid() && Inv(cfg, s, c, i, j) && s.down != []
    ensures Inv(cfg, Next(cfg, s, ClientReads(reack)), c', i', j')
  {
    var t := Next(cfg, s, ClientReads(reack));
    if i == 0 {
      assert s.down[0] == PacketAt(cfg, c);
      TakesExpected(cfg, c, reack);
      c', i', j' := c + 1, |t.down|, |s.up|;
    } else {
      assert s.down[0] == PacketAt(cfg, c - 1);
      IgnoresPrevious(cfg, c, reack);
      c', i', j' := c, i - 1, if c == s.server.block then |t.up| else j;
    }
  }

  /** Whatever a running server makes of a reply that is not its own ACK, it
      either repeats its packet or stops at the block it is at. */
  lemma StaysOrStops(cfg: Config, s: Server, reply: Reply)
    requires s.status == Running
    requires reply.Datagram? ==> |reply.bytes| >= 4
    requires reply.Datagram? && U16(reply.bytes, 0) == OP_ACK ==> s.block > 0 && U16(reply.bytes, 2) != s.block % MODULUS
    ensures var (v, out) := ServerTurn(cfg, s, reply);
            && v.block == s.block && v.status != Complete
            && (out == [] || out == [PacketAt(cfg, s.block)])
  {
  }

  lemma PacketSent(cfg: Config, q: seq<Packet>, out: seq<Packet>, b: nat, c: nat, i: nat) returns (i': nat)
    requires cfg.Valid() && DownInv(cfg, q, b, c, i)
    requires First(cfg) <= b <= c <= b + 1 && b <= Blocks(cfg)
    requires out == [] || out == [PacketAt(cfg, b)]
    ensures DownInv(cfg, q + out, b, c, i')
  {
    i' := if c == b then i else |q + out|;
  }

  lemma MessageSent(cfg: Config, q: seq<Message>, out: seq<Message>, b: nat, c: nat, j: nat) returns (j': nat)
    requires UpInv(cfg, q, b, c, j)
    requires First(cfg) <= b <= c <= b + 1
    requires out == [] || out == [Abort] || (First(cfg) < c && out == [Ack((c - 1) % MODULUS)])
    ensures UpInv(cfg, q + out, b, c, j')
  {
    j' := if c == b then |q + out| else j;
  }

  /** The server's answer to its own ACK: the next packet, or the end. */
  lemma Advances(cfg: Config, s: Server, w: nat)
    requires cfg.Valid() && s.status == Running && s.block <= Blocks(cfg)
    requires w == s.block % MODULUS
    ensures var (v, out) := ServerTurn(cfg, s, Datagram(Encode(Ack(w))));
            && v.block == s.block + 1
            && (v.status == Complete <==> v.block == Blocks(cfg) + 1)
            && v.status in {Running, Complete}
            && out == if v.status == Running then [PacketAt(cfg, v.block)] else []
  {
    AckReadBack(w);
    if s.block > 0 {
      ChunkTiles(cfg, s.block);
    }
  }

  /** Of the messages that can be in flight, only the last one's ACK moves the
      server: with no other block number near, equality modulo 65536 is equality
      of the true block numbers. */
  lemma MovesOnlyOnOwnAck(cfg: Config, v: Server, m: Message)
    requires cfg.Valid() && v.status == Running && First(cfg) <= v.block <= Blocks(cfg)
    requires m == Prev(cfg, v.block) || m == Ack(v.block % MODULUS) || m == Abort
    ensures var (v', out) := ServerTurn(cfg, v, Datagram(Encode(m)));
            if m == Ack(v.block % MODULUS)
            then v'.block == v.block + 1
                 && (v'.status == Complete <==> v'.block == Blocks(cfg) + 1)
                 && out == if v'.status == Running then [PacketAt(cfg, v'.block)] else []
            else v'.block == v.block && v'.status != Complete && (out == [] || out == [PacketAt(cfg, v.block)])
  {
    if m == Ack(v.block % MODULUS) {
      Advances(cfg, v, v.block % MODULUS);
    } else {
      if m.Ack? {
        AckReadBack(m.wire);
        Consecutive(v.block - 1);
      }
      StaysOrStops(cfg, v, Datagram(Encode(m)));
    }
  }

  /** A server read keeps the invariant. */
  lemma ServerKeeps(cfg: Config, s: Sys, c: nat, i: nat, j: nat) returns (i': nat, j': nat)
    requires cfg.Valid() && Inv(cfg, s, c, i, j) && s.up != [] && s.server.status == Running
    ensures Inv(cfg, Next(cfg, s, ServerReads), c, i', j')
  {
    var b := s.server.block;
    var m := s.up[0];
    var (v, out) := ServerTurn(cfg, s.server, Datagram(Encode(m)));
    TailRuns(s.up, j, Prev(cfg, b), Ack(b % MODULUS), Some(Abort));
    if First(cfg) < b {
      Consecutive(b - 1);
    }
    MovesOnlyOnOwnAck(cfg, s.server, m);
    if m == Ack(b % MODULUS) {
      assert j == 0;
      i', j' := |s.down|, |s.up| - 1;
    } else {
      i' := PacketSent(cfg, s.down, out, b, c, i);
      j' := if j == 0 then 0 else j - 1;
    }
  }

  /** Losing or repeating a packet keeps the invariant. */
  lemma ChannelKeeps(cfg: Config, s: Sys, a: Action, c: nat, i: nat, j: nat) returns (i': nat, j': nat)
    requires cfg.Valid() && Inv(cfg, s, c, i, j)
    requires a.LoseDown? || a.LoseUp? || a.RepeatDown? || a.RepeatUp?
    ensures Inv(cfg, Next(cfg, s, a), c, i', j')
  {
    i', j' := i, j;
    var b := s.server.block;
    var x, y := PacketAt(cfg, if c > 0 then c - 1 else 0), PacketAt(cfg, c);
    match a
    case LoseDown(k) => i' := DropRuns(s.down, i, k, x, y, None);
    case RepeatDown(k) => i' := DoubleRuns(s.down, i, k, x, y, None);
    case LoseUp(k) => j' := DropRuns(s.up, j, k, Prev(cfg, b), Ack(b % MODULUS), Some(Abort));
    case RepeatUp(k) => j' := DoubleRuns(s.up, j, k, Prev(cfg, b), Ack(b % MODULUS), Some(Abort));
  }

  lemma Keeps(cfg: Config, s: Sys, a: Action, c: nat, i: nat, j: nat) returns (c': nat, i': nat, j': nat)
    requires cfg.Valid() && Inv(cfg, s, c, i, j)
    ensures Inv(cfg, Next(cfg, s, a), c', i', j')
  {
    c', i', j' := c, i, j;
    var b := s.server.block;
    match a
    case ClientReads(reack) =>
      if s.down != [] {
        c', i', j' := ClientKeeps(cfg, s, c, i, j, reack);
      }
    case ServerReads =>
      if s.up != [] {
        if s.server.status == Running {
          i', j' := ServerKeeps(cfg, s, c, i, j);
        } else {
          TailRuns(s.up, j, Prev(cfg, b), Ack(b % MODULUS), Some(Abort));
          j' := if j == 0 then 0 else j - 1;
        }
      }
    case ServerTimeout =>
      if s.server.status == Running {
        StaysOrStops(cfg, s.server, Timeout);
        i' := PacketSent(cfg, s.down, ServerTurn(cfg, s.server, Timeout).1, b, c, i);
      }
    case ClientTimeout =>
      RepeatsPrevious(cfg, c);
      j' := MessageSent(cfg, s.up, Repeat(cfg, s.client), b, c, j);
    case ClientAborts =>
      j' := MessageSent(cfg, s.up, [Abort], b, c, j);
    case _ =>
      i', j' := ChannelKeeps(cfg, s, a, c, i, j);
  }

  lemma {:induction false} Reaches(cfg: Config, acts: seq<Action>) returns (c: nat, i: nat, j: nat)
    requires cfg.Valid()
    ensures Inv(cfg, Exec(cfg, acts), c, i, j)
  {
    if acts == [] {
      assert cfg.file[..Offset(cfg, 0)] == [];
      c, i, j := First(cfg), 0, 0;
    } else {
      c, i, j := Reaches(cfg, acts[..|acts| - 1]);
      c, i, j := Keeps(cfg, Exec(cfg, acts[..|acts| - 1]), acts[|acts| - 1], c, i, j);
    }
  }

  /** Safety over every schedule and every file: what the client holds is always
      a prefix of the file, it stops only with the whole file, and a server that
      reports "transfer complete" has a client that stopped. */
  lemma Safe(cfg: Config, acts: seq<Action>)
    requires cfg.Valid()
    ensures var s := Exec(cfg, acts);
            && s.client.data <= cfg.file
            && (s.client.done ==> s.client.data == cfg.file)
            && (s.server.status == Complete ==> s.client.done)
  {
    var c, i, j := Reaches(cfg, acts);
    InvIsSafe(cfg, Exec(cfg, acts), c, i, j);
  }

  lemma InvIsSafe(cfg: Config, s: Sys, c: nat, i: nat, j: nat)
    requires cfg.Valid() && Inv(cfg, s, c, i, j)
    ensures s.client.data <= cfg.file
    ensures s.client.done ==> s.client.data == cfg.file
    ensures s.server.status == Complete ==> s.client.done
  {
    ChunkTiles(cfg, Blocks(cfg));
  }
}
