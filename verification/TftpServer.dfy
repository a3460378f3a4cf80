/** The read-only TFTP server: one transfer thread, from the accepted read
    request to the end of the file (RFC 1350, RFC 2347, RFC 2348, RFC 2349). */
module TftpServer {
  import opened Basics

  const OP_ACK := 4
  const OP_ERROR := 5
  const OACK_TRIES := 5
  const DATA_TRIES := 6
  const MODULUS := 0x1_0000

  /** The options of a read request: the integer value of `blksize` when the
      option is present, and whether `tsize` is present. */
  datatype Request = Request(blksize: Option<int>, tsize: bool)

  /** What a transfer runs with. `negotiated` says that an OACK is sent first. */
  datatype Config = Config(file: seq<byte>, blksize: nat, negotiated: bool) {
    ghost predicate Valid() {
      8 <= blksize <= 8192
    }
  }

  /** One receive: nothing within the socket timeout, or a datagram. */
  datatype Reply = Timeout | Datagram(bytes: seq<byte>)

  datatype Packet = Oack | Data(wire: nat, payload: seq<byte>)

  datatype Status = Running | Complete | GaveUp | ClientError | Crashed

  /** The server between a send and the receive that follows it. Block 0 stands
      for the OACK; `tries` counts the sends of the current packet. */
  datatype Server = Server(block: nat, tries: nat, sent: nat, status: Status)

  function Negotiate(file: seq<byte>, req: Request): (cfg: Config)
    ensures cfg.Valid()
    // RFC 2348: the acknowledged size never exceeds a legal requested size.
    ensures req.blksize.Some? && 8 <= req.blksize.value ==> cfg.blksize <= req.blksize.value
    ensures req.blksize.Some? && req.blksize.value > 8192 ==> cfg.blksize == 8192
    ensures req.blksize.Some? && req.blksize.value < 8 ==> cfg.blksize == 8
    ensures req.blksize.Some? && 8 <= req.blksize.value <= 8192 ==> cfg.blksize == req.blksize.value
    ensures req.blksize.None? ==> cfg.blksize == 512
    ensures cfg.negotiated <==> req != Request(None, false)
    ensures cfg.file == file
  {
    var blksize := match req.blksize
      case None => 512
      case Some(v) =>
        var capped := if v < 8192 then v else 8192;
        if capped > 8 then capped else 8;
    Config(file, blksize, req.blksize.Some? || req.tsize)
  }

  /** The first block a transfer sends: the OACK, or DATA 1. */
  function First(cfg: Config): nat {
    if cfg.negotiated then 0 else 1
  }

  /** How many DATA blocks the file takes; the last one is short or empty. */
  function Blocks(cfg: Config): nat
    requires cfg.Valid()
  {
    |cfg.file| / cfg.blksize + 1
  }

  /** The file offset behind block b. */
  function Offset(cfg: Config, b: nat): (r: nat)
    ensures r <= |cfg.file|
  {
    if b * cfg.blksize <= |cfg.file| then b * cfg.blksize else |cfg.file|
  }

  lemma OffsetGrows(cfg: Config, b: nat)
    ensures Offset(cfg, b) <= Offset(cfg, b + 1)
  {
    assert (b + 1) * cfg.blksize == b * cfg.blksize + cfg.blksize;
  }

  function Chunk(cfg: Config, b: nat): seq<byte>
    requires 1 <= b
  {
    OffsetGrows(cfg, b - 1);
    cfg.file[Offset(cfg, b - 1)..Offset(cfg, b)]
  }

  function PacketAt(cfg: Config, b: nat): Packet {
    if b == 0 then Oack else Data(b % MODULUS, Chunk(cfg, b))
  }

  /** Chunks tile the file: every block before the last is full and the last is
      strictly shorter. */
  lemma ChunkTiles(cfg: Config, b: nat)
    requires cfg.Valid()
    requires 1 <= b <= Blocks(cfg)
    ensures cfg.file[..Offset(cfg, b - 1)] + Chunk(cfg, b) == cfg.file[..Offset(cfg, b)]
    ensures Offset(cfg, b - 1) == (b - 1) * cfg.blksize
    ensures b < Blocks(cfg) ==> |Chunk(cfg, b)| == cfg.blksize && Offset(cfg, b) == b * cfg.blksize
    ensures b == Blocks(cfg) ==> |Chunk(cfg, b)| < cfg.blksize && Offset(cfg, b) == |cfg.file|
  {
    var n, bs := |cfg.file|, cfg.blksize;
    var q := n / bs;
    assert n == q * bs + n % bs;
    MulMonotone(b - 1, q, bs);
    if b <= q {
      MulMonotone(b, q, bs);
    }
    assert b * bs == (b - 1) * bs + bs;
    OffsetGrows(cfg, b - 1);
  }

  lemma MulMonotone(x: nat, y: nat, m: nat)
    requires x <= y
    ensures x * m <= y * m
  {
  }

  function U16(d: seq<byte>, i: nat): nat
    requires i + 1 < |d|
  {
    (d[i] as int) * 256 + d[i + 1] as int
  }

  function Start(cfg: Config): Server {
    Server(First(cfg), 1, 0, Running)
  }

  /** The next send of the same packet, unless the tries are used up. */
  function Retry(s: Server): Server {
    if s.tries < (if s.block == 0 then OACK_TRIES else DATA_TRIES)
    then s.(tries := s.tries + 1)
    else s.(status := GaveUp)
  }

  /** One receive of the transfer thread. */
  function Step(cfg: Config, s: Server, reply: Reply): Server
    requires s.status == Running
  {
    match reply
    case Timeout => Retry(s)
    case Datagram(d) =>
      if s.block == 0 then
        if |d| < 2 then s.(status := Crashed)
        else if U16(d, 0) == OP_ACK then Server(1, 1, s.sent, Running)
        else Retry(s)
      else if |d| < 4 then s.(status := Crashed)
      else if U16(d, 0) == OP_ACK && U16(d, 2) == s.block % MODULUS then
        var n := |Chunk(cfg, s.block)|;
        if n < cfg.blksize then Server(s.block + 1, s.tries, s.sent + n, Complete)
        else Server(s.block + 1, 1, s.sent + n, Running)
      else if U16(d, 0) == OP_ERROR then s.(status := ClientError)
      else Retry(s)
  }

  /** The server after k receives. */
  function After(cfg: Config, replies: nat -> Reply, k: nat): Server {
    if k == 0 then Start(cfg)
    else
      Turn(cfg, After(cfg, replies, k - 1), replies(k - 1))
  }

  function Turn(cfg: Config, s: Server, reply: Reply): Server {
    if s.status == Running then Step(cfg, s, reply) else s
  }

  /** The most receives a server at this point can have made. */
  function Budget(cfg: Config, s: Server): int {
    (if cfg.negotiated && s.block > 0 then OACK_TRIES else 0)
    + (if s.block > 0 then DATA_TRIES * (s.block - 1) else 0)
    + s.tries - 1
  }

  ghost predicate Sound(cfg: Config, s: Server)
    requires cfg.Valid()
  {
    && First(cfg) <= s.block <= Blocks(cfg) + 1
    && (s.status == Complete <==> s.block == Blocks(cfg) + 1)
    && 1 <= s.tries <= (if s.block == 0 then OACK_TRIES else DATA_TRIES)
    && s.sent == (if s.block == 0 then 0 else Offset(cfg, s.block - 1))
  }

  lemma StepKeepsSound(cfg: Config, s: Server, reply: Reply)
    requires cfg.Valid() && Sound(cfg, s) && s.status == Running
    ensures Sound(cfg, Step(cfg, s, reply))
    ensures Step(cfg, s, reply).status == Running ==>
              Budget(cfg, s) + 1 <= Budget(cfg, Step(cfg, s, reply))
  {
    if s.block > 0 {
      ChunkTiles(cfg, s.block);
    }
  }

  ghost predicate OnBudget(cfg: Config, s: Server, k: nat)
    requires cfg.Valid()
  {
    Sound(cfg, s) && (s.status == Running ==> k <= Budget(cfg, s))
  }

  lemma TurnOnBudget(cfg: Config, s: Server, reply: Reply, k: nat)
    requires cfg.Valid() && OnBudget(cfg, s, k)
    ensures OnBudget(cfg, Turn(cfg, s, reply), k + 1)
  {
    if s.status == Running {
      StepKeepsSound(cfg, s, reply);
    }
  }

  lemma StartOnBudget(cfg: Config)
    requires cfg.Valid()
    ensures OnBudget(cfg, Start(cfg), 0)
  {
    assert Offset(cfg, 0) == 0;
    assert Blocks(cfg) >= 1;
  }

  lemma AllSent(cfg: Config, s: Server)
    requires cfg.Valid() && Sound(cfg, s) && s.status == Complete
    ensures s.sent == |cfg.file|
  {
    ChunkTiles(cfg, Blocks(cfg));
  }

  /** Whatever the client answers, a server still running after k receives has
      spent at most 5 sends on the OACK and 6 on each block it has reached. */
  lemma {:induction false} Progress(cfg: Config, replies: nat -> Reply, k: nat)
    requires cfg.Valid()
    ensures OnBudget(cfg, After(cfg, replies, k), k)
  {
    if k == 0 {
      StartOnBudget(cfg);
    } else {
      Progress(cfg, replies, k - 1);
      TurnOnBudget(cfg, After(cfg, replies, k - 1), replies(k - 1), k - 1);
    }
  }

  /** A completed transfer has sent exactly the file, in Blocks(cfg) blocks. */
  lemma Completion(cfg: Config, replies: nat -> Reply, k: nat)
    requires cfg.Valid() && After(cfg, replies, k).status == Complete
    ensures After(cfg, replies, k).block == Blocks(cfg) + 1 && After(cfg, replies, k).sent == |cfg.file|
  {
    Progress(cfg, replies, k);
    AllSent(cfg, After(cfg, replies, k));
  }

  function MostSends(cfg: Config): nat
    requires cfg.Valid()
  {
    (if cfg.negotiated then OACK_TRIES else 0) + DATA_TRIES * Blocks(cfg)
  }

  /** Every transfer is over after at most 5 OACKs and 6 sends of each block. */
  lemma Stops(cfg: Config, replies: nat -> Reply, k: nat)
    requires cfg.Valid() && After(cfg, replies, k).status == Running
    ensures k < (if cfg.negotiated then 5 else 0) + 6 * (|cfg.file| / cfg.blksize + 1)
  {
    Progress(cfg, replies, k);
    InBudget(cfg, After(cfg, replies, k), k);
  }

  lemma InBudget(cfg: Config, s: Server, k: nat)
    requires cfg.Valid() && OnBudget(cfg, s, k) && s.status == Running
    ensures k < MostSends(cfg)
  {
  }

  ghost predicate Moves(cfg: Config, replies: nat -> Reply, at: seq<Server>, k: nat)
    requires k + 1 < |at|
  {
    at[k].status == Running && at[k + 1] == Step(cfg, at[k], replies(k))
  }

  /** One run of the thread: the points it passed through and the packet it sent
      at each of them. */
  ghost predicate IsRun(cfg: Config, replies: nat -> Reply, log: seq<Packet>, at: seq<Server>) {
    && |at| == |log| + 1
    && at[0] == Start(cfg)
    && (forall k :: 0 <= k < |log| ==> Moves(cfg, replies, at, k))
    && (forall k {:trigger log[k]} :: 0 <= k < |log| ==> log[k] == PacketAt(cfg, at[k].block))
  }

  lemma Send(cfg: Config, replies: nat -> Reply, log: seq<Packet>, at: seq<Server>, p: Packet)
    requires IsRun(cfg, replies, log, at)
    requires at[|log|].status == Running && p == PacketAt(cfg, at[|log|].block)
    ensures IsRun(cfg, replies, log + [p], at + [Step(cfg, at[|log|], replies(|log|))])
  {
    var at' := at + [Step(cfg, at[|log|], replies(|log|))];
    forall k | 0 <= k < |log + [p]|
      ensures Moves(cfg, replies, at', k)
    {
      assert k < |log| ==> Moves(cfg, replies, at, k);
    }
  }

  lemma {:induction false} RunIsAfter(cfg: Config, replies: nat -> Reply, log: seq<Packet>, at: seq<Server>, k: nat)
    requires IsRun(cfg, replies, log, at) && k <= |log|
    ensures at[k] == After(cfg, replies, k)
  {
    if k > 0 {
      RunIsAfter(cfg, replies, log, at, k - 1);
      assert Moves(cfg, replies, at, k - 1);
    }
  }

  /** The OACK phase: up to five sends, until any ACK arrives. */
  method Handshake(cfg: Config, replies: nat -> Reply) returns (log: seq<Packet>, final: Server, ghost at: seq<Server>)
    requires cfg.Valid() && cfg.negotiated
    ensures IsRun(cfg, replies, log, at) && final == at[|log|]
    ensures final.status != Running || final == Server(1, 1, 0, Running)
  {
    log, final, at := [], Server(0, 1, 0, Running), [Start(cfg)];
    var attempt := 0;
    while attempt < OACK_TRIES
      invariant 0 <= attempt <= OACK_TRIES
      invariant IsRun(cfg, replies, log, at) && final == at[|log|]
      invariant final ==
        if attempt < OACK_TRIES then Server(0, attempt + 1, 0, Running) else Server(0, OACK_TRIES, 0, GaveUp)
    {
      Send(cfg, replies, log, at, Oack);
      var reply := replies(|log|);
      log, at := log + [Oack], at + [Step(cfg, final, reply)];
      if reply.Datagram? {
        if |reply.bytes| < 2 {
          return log, final.(status := Crashed), at;
        }
        if U16(reply.bytes, 0) == OP_ACK {
          return log, Server(1, 1, 0, Running), at;
        }
      }
      attempt := attempt + 1;
      final := if attempt < OACK_TRIES then Server(0, attempt + 1, 0, Running) else Server(0, OACK_TRIES, 0, GaveUp);
    }
  }

  /** One block: up to six sends of the same packet, until its own ACK arrives. */
  method SendBlock(cfg: Config, replies: nat -> Reply, log0: seq<Packet>, ghost at0: seq<Server>,
                   block: nat, sent: nat, chunk: seq<byte>)
    returns (log: seq<Packet>, final: Server, ghost at: seq<Server>)
    requires cfg.Valid() && 1 <= block && chunk == Chunk(cfg, block)
    requires IsRun(cfg, replies, log0, at0) && at0[|log0|] == Server(block, 1, sent, Running)
    ensures IsRun(cfg, replies, log, at) && final == at[|log|]
    ensures final.status == Running ==> final == Server(block + 1, 1, sent + |chunk|, Running) && |chunk| >= cfg.blksize
  {
    log, final, at := log0, Server(block, 1, sent, Running), at0;
    var pkt := Data(block % MODULUS, chunk);
    var attempt := 0;
    while attempt < DATA_TRIES
      invariant 0 <= attempt <= DATA_TRIES
      invariant IsRun(cfg, replies, log, at) && final == at[|log|]
      invariant final ==
        if attempt < DATA_TRIES then Server(block, attempt + 1, sent, Running) else Server(block, DATA_TRIES, sent, GaveUp)
    {
      Send(cfg, replies, log, at, pkt);
      var reply := replies(|log|);
      log, at := log + [pkt], at + [Step(cfg, final, reply)];
      if reply.Datagram? {
        if |reply.bytes| < 4 {
          return log, final.(status := Crashed), at;
        }
        var op, blk := U16(reply.bytes, 0), U16(reply.bytes, 2);
        if op == OP_ACK && blk == block % MODULUS {
          final := if |chunk| < cfg.blksize then Server(block + 1, attempt + 1, sent + |chunk|, Complete)
                   else Server(block + 1, 1, sent + |chunk|, Running);
          return;
        }
        if op == OP_ERROR {
          return log, final.(status := ClientError), at;
        }
      }
      attempt := attempt + 1;
      final := if attempt < DATA_TRIES then Server(block, attempt + 1, sent, Running)
               else Server(block, DATA_TRIES, sent, GaveUp);
    }
  }

  /** The transfer thread. `log` is every packet sent, in order, one for each
      receive; `final` is the point the thread stops at. */
  method SendFile(cfg: Config, replies: nat -> Reply) returns (log: seq<Packet>, final: Server)
    requires cfg.Valid()
    ensures final == After(cfg, replies, |log|) && final.status != Running
    ensures forall k :: 0 <= k < |log| ==>
              After(cfg, replies, k).status == Running && log[k] == PacketAt(cfg, After(cfg, replies, k).block)
    ensures |log| <= (if cfg.negotiated then 5 else 0) + 6 * (|cfg.file| / cfg.blksize + 1)
    ensures final.status == Complete ==> final.sent == |cfg.file| && final.block == |cfg.file| / cfg.blksize + 2
  {
    log, final := [], Start(cfg);
    ghost var at := [final];
    if cfg.negotiated {
      log, final, at := Handshake(cfg, replies);
    }
    var pos: nat := 0;
    while final.status == Running
      invariant IsRun(cfg, replies, log, at) && final == at[|log|]
      invariant final.status == Running ==>
        final == Server(final.block, 1, final.sent, Running) &&
        1 <= final.block <= Blocks(cfg) && pos == Offset(cfg, final.block - 1)
      decreases if final.status == Running then Blocks(cfg) + 1 - final.block else 0
    {
      var block := final.block;
      var end := if pos + cfg.blksize <= |cfg.file| then pos + cfg.blksize else |cfg.file|;
      NextOffset(cfg, block, pos, end);
      var chunk := cfg.file[pos..end];
      pos := end;
      log, final, at := SendBlock(cfg, replies, log, at, block, final.sent, chunk);
      InFile(cfg, replies, log, at);
    }
    Facts(cfg, replies, log, at);
  }

  lemma InFile(cfg: Config, replies: nat -> Reply, log: seq<Packet>, at: seq<Server>)
    requires cfg.Valid() && IsRun(cfg, replies, log, at)
    ensures at[|log|].status == Running ==> at[|log|].block <= Blocks(cfg)
  {
    RunIsAfter(cfg, replies, log, at, |log|);
    Progress(cfg, replies, |log|);
  }

  lemma Facts(cfg: Config, replies: nat -> Reply, log: seq<Packet>, at: seq<Server>)
    requires cfg.Valid() && IsRun(cfg, replies, log, at)
    ensures at[|log|] == After(cfg, replies, |log|)
    ensures forall k :: 0 <= k < |log| ==>
              After(cfg, replies, k).status == Running && log[k] == PacketAt(cfg, After(cfg, replies, k).block)
    ensures |log| <= (if cfg.negotiated then 5 else 0) + 6 * (|cfg.file| / cfg.blksize + 1)
    ensures at[|log|].status == Complete ==> at[|log|].sent == |cfg.file| && at[|log|].block == Blocks(cfg) + 1
  {
    forall k | 0 <= k < |log|
      ensures After(cfg, replies, k).status == Running && log[k] == PacketAt(cfg, After(cfg, replies, k).block)
    {
      RunIsAfter(cfg, replies, log, at, k);
      assert Moves(cfg, replies, at, k);
    }
    RunIsAfter(cfg, replies, log, at, |log|);
    if |log| > 0 {
      Stops(cfg, replies, |log| - 1);
    }
    if at[|log|].status == Complete {
      Completion(cfg, replies, |log|);
    }
  }

  lemma NextOffset(cfg: Config, b: nat, pos: nat, end: nat)
    requires cfg.Valid() && 1 <= b && pos == Offset(cfg, b - 1)
    requires end == if pos + cfg.blksize <= |cfg.file| then pos + cfg.blksize else |cfg.file|
    ensures end == Offset(cfg, b) && cfg.file[pos..end] == Chunk(cfg, b)
  {
    assert b * cfg.blksize == (b - 1) * cfg.blksize + cfg.blksize;
  }
}
