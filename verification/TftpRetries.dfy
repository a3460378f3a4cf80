/** What the retry loops of the server do with every run of replies, in the octets of
    RFC 1350: opcode 4 is an ACK, opcode 5 an ERROR, block numbers have 16 bits. */
module TftpRetries {
  import opened Basics
  import opened TftpServer

  /** An ACK of block b; block 0 takes any ACK. */
  ghost predicate IsAck(r: Reply, b: nat) {
    && r.Datagram? && |r.bytes| >= (if b == 0 then 2 else 4)
    && r.bytes[0] == 0 && r.bytes[1] == 4
    && (b > 0 ==> r.bytes[2] as int * 256 + r.bytes[3] as int == b % 65536)
  }

  ghost predicate IsError(r: Reply) {
    r.Datagram? && |r.bytes| >= 4 && r.bytes[0] == 0 && r.bytes[1] == 5
  }

  /** Too short to be unpacked. */
  ghost predicate IsShort(r: Reply, b: nat) {
    r.Datagram? && |r.bytes| < (if b == 0 then 2 else 4)
  }

  /** Silence, or a datagram that does not concern block b. */
  ghost predicate Idle(r: Reply, b: nat) {
    !IsAck(r, b) && !IsShort(r, b) && (b > 0 ==> !IsError(r))
  }

  /** How often a packet is sent at most. */
  ghost function Sends(b: nat): nat {
    if b == 0 then 5 else 6
  }

  /** The packets: the OACK, and block b with its number modulo 65536 and its piece of
      the file. */
  lemma PacketIs(cfg: Config, b: nat)
    requires cfg.Valid() && b <= |cfg.file| / cfg.blksize + 1
    ensures b == 0 ==> PacketAt(cfg, b) == Oack
    ensures b > 0 ==>
      var from := (b - 1) * cfg.blksize;
      && from <= |cfg.file|
      && PacketAt(cfg, b) ==
           Data(b % 65536, if from + cfg.blksize <= |cfg.file| then cfg.file[from..from + cfg.blksize] else cfg.file[from..])
  {
    if b > 0 {
      ChunkTiles(cfg, b);
      assert b * cfg.blksize == (b - 1) * cfg.blksize + cfg.blksize;
    }
  }

  /** One receive, completely. */
  ghost predicate Receives(s: Server, t: Server, r: Reply) {
    if IsAck(r, s.block) then
      t.block == s.block + 1 && t.status in {Running, Complete} && (t.status == Running ==> t.tries == 1)
    else if IsShort(r, s.block) then t == s.(status := Crashed)
    else if IsError(r) && s.block > 0 then t == s.(status := ClientError)
    else if s.tries < Sends(s.block) then t == s.(tries := s.tries + 1)
    else t == s.(status := GaveUp)
  }

  lemma StepReceives(cfg: Config, s: Server, r: Reply)
    requires s.status == Running
    ensures Receives(s, Step(cfg, s, r), r)
  {
    if r.Datagram? && |r.bytes| >= 2 {
      assert U16(r.bytes, 0) == r.bytes[0] as int * 256 + r.bytes[1] as int;
      if |r.bytes| >= 4 {
        assert U16(r.bytes, 2) == r.bytes[2] as int * 256 + r.bytes[3] as int;
      }
    }
  }

  /** The points of a thread: where it is before each receive. */
  type Points = nat -> Server

  ghost predicate GoesOn(at: Points, replies: nat -> Reply, k: nat) {
    at(k).status == Running ==> Receives(at(k), at(k + 1), replies(k))
  }

  ghost predicate IsThread(at: Points, replies: nat -> Reply) {
    && at(0).tries == 1
    && (forall k: nat :: GoesOn(at, replies, k))
    && (forall k: nat :: at(k + 1).status == Running ==> WasRunning(at, k))
  }

  ghost predicate WasRunning(at: Points, k: nat) {
    at(k).status == Running
  }

  /** The transfer thread is such a thread, from the OACK on if there is one and from
      block 1 on otherwise. */
  lemma ThreadOf(cfg: Config, replies: nat -> Reply) returns (at: Points)
    ensures IsThread(at, replies) && forall k: nat :: at(k) == After(cfg, replies, k)
    ensures at(0) == Server(if cfg.negotiated then 0 else 1, 1, 0, Running)
  {
    at := (k: nat) => After(cfg, replies, k);
    forall k: nat
      ensures GoesOn(at, replies, k) && (at(k + 1).status == Running ==> WasRunning(at, k))
    {
      if at(k).status == Running {
        StepReceives(cfg, at(k), replies(k));
      }
    }
  }

  /** Nothing but datagrams that do not concern block b, from one receive to before
      another. */
  ghost predicate Quiet(replies: nat -> Reply, b: nat, from: nat, to: nat) {
    forall i: nat :: from <= i < to ==> Idle(replies(i), b)
  }

  ghost predicate SameBlock(at: Points, b: nat, from: nat, to: nat) {
    forall i: nat :: from <= i < to ==> at(i).block == b && at(i).status == Running
  }

  /** A packet that meets j replies that do not concern it, fewer than it is sent at
      most, is sent j + 1 times, and is the same every time. */
  lemma {:induction false} Resends(at: Points, replies: nat -> Reply, k: nat, j: nat)
    requires IsThread(at, replies) && at(k).status == Running && at(k).tries == 1
    requires j < Sends(at(k).block) && Quiet(replies, at(k).block, k, k + j)
    ensures at(k + j) == at(k).(tries := j + 1) && SameBlock(at, at(k).block, k, k + j + 1)
    decreases j
  {
    if j > 0 {
      Resends(at, replies, k, j - 1);
      assert GoesOn(at, replies, k + j - 1);
      assert Idle(replies(k + j - 1), at(k).block);
    }
  }

  /** The ACK moves the server on, however many of the packet's sends it took. */
  lemma MovesOn(at: Points, replies: nat -> Reply, k: nat, j: nat)
    requires IsThread(at, replies) && at(k).status == Running && at(k).tries == 1
    requires j < Sends(at(k).block) && Quiet(replies, at(k).block, k, k + j) && IsAck(replies(k + j), at(k).block)
    ensures at(k + j + 1).block == at(k).block + 1 && at(k + j + 1).status in {Running, Complete}
  {
    Resends(at, replies, k, j);
    assert GoesOn(at, replies, k + j);
  }

  /** A server on its n-th send of a packet has just had n - 1 replies that did not
      concern it. */
  lemma {:induction false} Waited(at: Points, replies: nat -> Reply, k: nat)
    requires IsThread(at, replies) && at(k).status == Running
    ensures 1 <= at(k).tries <= k + 1
    ensures SameBlock(at, at(k).block, k + 1 - at(k).tries, k + 1) && Quiet(replies, at(k).block, k + 1 - at(k).tries, k)
  {
    if k > 0 {
      assert at((k - 1) + 1) == at(k);
      assert WasRunning(at, k - 1);
      Waited(at, replies, k - 1);
      assert GoesOn(at, replies, k - 1);
    }
  }

  /** Sends of one packet in a row count up. */
  lemma {:induction false} CountsUp(at: Points, replies: nat -> Reply, b: nat, from: nat, k: nat)
    requires IsThread(at, replies) && from <= k && SameBlock(at, b, from, k + 1) && Quiet(replies, b, from, k)
    ensures at(k).tries >= k - from + 1
    decreases k - from
  {
    Waited(at, replies, k);
    if from < k {
      CountsUp(at, replies, b, from, k - 1);
      assert GoesOn(at, replies, k - 1);
      assert Idle(replies(k - 1), b) && at(k - 1).block == b;
    }
  }

  /** The server gives up exactly when the last five replies to the OACK, or the last
      six to a block, did not concern it. */
  lemma GivesUpExactly(at: Points, replies: nat -> Reply, k: nat)
    requires IsThread(at, replies) && at(k).status == Running && at(k).tries <= Sends(at(k).block)
    ensures var b := at(k).block;
            at(k + 1).status == GaveUp <==>
              k + 1 >= Sends(b) && SameBlock(at, b, k + 1 - Sends(b), k + 1) && Quiet(replies, b, k + 1 - Sends(b), k + 1)
  {
    var b := at(k).block;
    assert GoesOn(at, replies, k);
    Waited(at, replies, k);
    if k + 1 >= Sends(b) && SameBlock(at, b, k + 1 - Sends(b), k + 1) && Quiet(replies, b, k + 1 - Sends(b), k + 1) {
      CountsUp(at, replies, b, k + 1 - Sends(b), k);
      assert Idle(replies(k), b);
    }
  }

  // --- The same, of the transfer thread ----------------------------------------

  /** Every block reached is sent again after each silence or stray reply, the same
      packet, up to six times in all, the OACK up to five; the first ACK within them
      moves the thread on. */
  lemma Persists(cfg: Config, replies: nat -> Reply, k: nat, j: nat)
    requires cfg.Valid() && After(cfg, replies, k).status == Running && After(cfg, replies, k).tries == 1
    requires j < (if After(cfg, replies, k).block == 0 then 5 else 6)
    requires Quiet(replies, After(cfg, replies, k).block, k, k + j)
    ensures forall i: nat :: k <= i <= k + j ==>
              After(cfg, replies, i).status == Running && After(cfg, replies, i).block == After(cfg, replies, k).block
    ensures IsAck(replies(k + j), After(cfg, replies, k).block) ==>
              After(cfg, replies, k + j + 1).block == After(cfg, replies, k).block + 1
  {
    var at := ThreadOf(cfg, replies);
    Resends(at, replies, k, j);
    if IsAck(replies(k + j), at(k).block) {
      MovesOn(at, replies, k, j);
    }
    forall i: nat | k <= i <= k + j
      ensures After(cfg, replies, i).status == Running && After(cfg, replies, i).block == at(k).block
    {
      assert at(i).block == at(k).block;
    }
  }

  /** The number of the short block. */
  ghost function Last(size: nat, blksize: nat): (n: nat)
    requires blksize > 0
    ensures n > 0
  {
    size / blksize + 1
  }

  /** The points of one transfer. */
  ghost predicate Follows(cfg: Config, replies: nat -> Reply, at: Points) {
    forall k: nat :: at(k) == After(cfg, replies, k)
  }

  /** How a transfer ends, exactly: it gives up after five fruitless OACKs or six
      fruitless sends of a block, an ERROR ends it at once except in answer to the
      OACK, a datagram too short to unpack crashes it, and it completes on the ACK of
      the last block. */
  lemma Ends(cfg: Config, replies: nat -> Reply, at: Points, k: nat)
    requires cfg.Valid() && Follows(cfg, replies, at) && at(k).status == Running
    ensures var b, t := at(k).block, at(k + 1).status;
            var n := if b == 0 then 5 else 6;
            && (t == GaveUp <==>
                  k + 1 >= n && Quiet(replies, b, k + 1 - n, k + 1) && OnBlock(at, b, k + 1 - n, k + 1))
            && (t == ClientError <==> b > 0 && IsError(replies(k)))
            && (t == Crashed <==> IsShort(replies(k), b))
            && (t == Complete <==> b == Last(|cfg.file|, cfg.blksize) && IsAck(replies(k), b))
  {
    var same := ThreadOf(cfg, replies);
    SameThread(replies, same, at);
    InBounds(cfg, replies, at, k);
    InBounds(cfg, replies, at, k + 1);
    EndsExactly(at, replies, k, Last(|cfg.file|, cfg.blksize));
  }

  ghost predicate OnBlock(at: Points, b: nat, from: nat, to: nat) {
    forall i: nat :: from <= i < to ==> at(i).block == b
  }

  lemma SameThread(replies: nat -> Reply, a: Points, b: Points)
    requires IsThread(a, replies) && forall k: nat :: a(k) == b(k)
    ensures IsThread(b, replies)
  {
    forall k: nat
      ensures GoesOn(b, replies, k) && (b(k + 1).status == Running ==> WasRunning(b, k))
    {
      assert GoesOn(a, replies, k) && (a(k + 1).status == Running ==> WasRunning(a, k));
    }
  }

  lemma InBounds(cfg: Config, replies: nat -> Reply, at: Points, k: nat)
    requires cfg.Valid() && Follows(cfg, replies, at)
    ensures at(k).status == Running ==> at(k).tries <= Sends(at(k).block)
    ensures at(k).status == Complete <==> at(k).block == Last(|cfg.file|, cfg.blksize) + 1
  {
    Bounds(cfg, replies, k);
  }

  lemma EndsExactly(at: Points, replies: nat -> Reply, k: nat, last: nat)
    requires IsThread(at, replies) && at(k).status == Running && at(k).tries <= Sends(at(k).block) && last > 0
    requires at(k + 1).status == Complete <==> at(k + 1).block == last + 1
    requires at(k).block != last + 1
    ensures var b, t := at(k).block, at(k + 1).status;
            var n := if b == 0 then 5 else 6;
            && (t == GaveUp <==>
                  k + 1 >= n && Quiet(replies, b, k + 1 - n, k + 1) && OnBlock(at, b, k + 1 - n, k + 1))
            && (t == ClientError <==> b > 0 && IsError(replies(k)))
            && (t == Crashed <==> IsShort(replies(k), b))
            && (t == Complete <==> b == last && IsAck(replies(k), b))
  {
    var b := at(k).block;
    GivesUpExactly(at, replies, k);
    assert GoesOn(at, replies, k);
    ForGood(at, replies, k);
    assert k + 1 >= Sends(b) ==>
        (OnBlock(at, b, k + 1 - Sends(b), k + 1) <==> SameBlock(at, b, k + 1 - Sends(b), k + 1));
  }

  lemma Bounds(cfg: Config, replies: nat -> Reply, k: nat)
    requires cfg.Valid()
    ensures var s := After(cfg, replies, k);
            s.tries <= Sends(s.block) || s.status != Running
    ensures var s := After(cfg, replies, k);
            s.status == Complete <==> s.block == Last(|cfg.file|, cfg.blksize) + 1
  {
    Progress(cfg, replies, k);
  }

  lemma {:induction false} ForGood(at: Points, replies: nat -> Reply, k: nat)
    requires IsThread(at, replies) && at(k).status == Running
    ensures forall i: nat :: i <= k ==> at(i).status == Running
    decreases k
  {
    if k > 0 {
      assert at((k - 1) + 1) == at(k);
      assert WasRunning(at, k - 1);
      ForGood(at, replies, k - 1);
    }
  }
}
