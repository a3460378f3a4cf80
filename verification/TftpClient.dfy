/** The receiving side of a transfer: an RFC 1350 client whose 16-bit block
    counter rolls over to 0 exactly as the server's does. */
module TftpClient {
  import opened Basics
  import opened TftpServer

  /** `open` once the transfer is under way (from the start when no option is
      negotiated), `last` the 16-bit number last accepted. */
  datatype Client = Client(open: bool, last: nat, data: seq<byte>, done: bool)

  datatype Message = Ack(wire: nat) | Abort

  /** The datagram the server reads. */
  function Encode(m: Message): seq<byte>
    requires m.Ack? ==> m.wire < MODULUS
  {
    match m
    case Ack(w) => [0, 4, w / 256, w % 256]
    case Abort => [0, 5, 0, 0, 0]
  }

  function Begin(cfg: Config): Client {
    Client(!cfg.negotiated, 0, [], false)
  }

  /** One received packet: accept the expected block, answer a repeat or not as
      the client pleases, ignore anything else. */
  function Receive(cfg: Config, c: Client, p: Packet, reack: bool): (Client, seq<Message>) {
    match p
    case Oack =>
      if cfg.negotiated && !c.open then (c.(open := true), [Ack(0)])
      else if cfg.negotiated && c.last == 0 && c.data == [] && reack then (c, [Ack(0)])
      else (c, [])
    case Data(w, payload) =>
      if !c.open then (c, [])
      else if !c.done && w == (c.last + 1) % MODULUS then
        (Client(true, w, c.data + payload, |payload| < cfg.blksize), [Ack(w)])
      else if reack && w < MODULUS then (c, [Ack(w)])
      else (c, [])
  }

  /** A client timeout repeats the last ACK, once there is one. */
  function Repeat(cfg: Config, c: Client): seq<Message> {
    if c.open && c.last < MODULUS && (cfg.negotiated || c.data != [] || c.last != 0 || c.done) then [Ack(c.last)] else []
  }

  /** The client that has accepted every block before c. */
  function ClientAt(cfg: Config, c: nat): Client
    requires cfg.Valid()
  {
    if c == 0 then Client(false, 0, [], false)
    else Client(true, (c - 1) % MODULUS, cfg.file[..Offset(cfg, c - 1)], c == Blocks(cfg) + 1)
  }

  /** The server's reading of a client message. */
  function ServerTurn(cfg: Config, s: Server, reply: Reply): (Server, seq<Packet>) {
    if s.status != Running then (s, [])
    else
      var s' := Step(cfg, s, reply);
      (s', if s'.status == Running then [PacketAt(cfg, s'.block)] else [])
  }

  lemma AckReadBack(w: nat)
    requires w < MODULUS
    ensures U16(Encode(Ack(w)), 0) == OP_ACK && U16(Encode(Ack(w)), 2) == w
  {
  }

  lemma Consecutive(b: nat)
    ensures b % MODULUS != (b + 1) % MODULUS
    ensures (b % MODULUS + 1) % MODULUS == (b + 1) % MODULUS
  {
  }

  /** A client that has accepted everything before block c takes block c, and
      only block c, of the packets the file is made of: the file grows by one
      chunk, and the transfer is done exactly at the short block. */
  lemma TakesExpected(cfg: Config, c: nat, reack: bool)
    requires cfg.Valid() && First(cfg) <= c <= Blocks(cfg)
    ensures Receive(cfg, ClientAt(cfg, c), PacketAt(cfg, c), reack) == (ClientAt(cfg, c + 1), [Ack(c % MODULUS)])
  {
    if c == 0 {
      assert cfg.file[..Offset(cfg, 0)] == [];
    } else {
      ChunkTiles(cfg, c);
      Consecutive(c - 1);
    }
  }

  /** A repeat of the block before leaves the client as it is. */
  lemma IgnoresPrevious(cfg: Config, c: nat, reack: bool)
    requires cfg.Valid() && First(cfg) < c <= Blocks(cfg) + 1
    ensures var (c', out) := Receive(cfg, ClientAt(cfg, c), PacketAt(cfg, c - 1), reack);
            c' == ClientAt(cfg, c) && (out == [] || out == [Ack((c - 1) % MODULUS)])
  {
    if c > 1 {
      Consecutive(c - 1);
    }
  }

  lemma RepeatsPrevious(cfg: Config, c: nat)
    requires cfg.Valid() && First(cfg) <= c <= Blocks(cfg) + 1
    ensures var out := Repeat(cfg, ClientAt(cfg, c));
            out == [] || (First(cfg) < c && out == [Ack((c - 1) % MODULUS)])
  {
    assert Offset(cfg, 0) == 0;
  }
}
