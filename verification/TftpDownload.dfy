/**
 A read transfer, end to end: the server's connection, a client that accepts only the block
 number it expects next and acknowledges what it accepts (section 2 of RFC 1350), and a network
 between them that may lose, repeat, delay and reorder.

 Nothing ever leaves the network: any packet ever sent may be delivered at any later moment, any
 number of times. A packet that is never delivered is lost.
 */
module TftpDownload {
  import opened TftpWire
  import opened TftpConnection
  import opened TftpSession

  /** What the client keeps: a 16-bit block number, the bytes so far, whether it has seen a
      short block. */
  datatype Client = Client(expected: U16, received: seq<Byte>, done: bool)

  /** An acknowledgement sent when `index` blocks had been accepted. */
  datatype SentAck = SentAck(index: nat, block: U16)

  datatype System = System(session: Session, client: Client, accepted: nat, acks: set<SentAck>)

  datatype Action =
    | ToClient(message: Sent)  // the network delivers a DATA packet
    | ToServer(ack: SentAck, ioOk: bool)  // the network delivers an acknowledgement
    | Other(event: Event)  // a timer tick, or any datagram but an acknowledgement of the peer

  function Init(file: seq<Byte>, peer: Peer): System {
    System(Opened(Read, peer, File(file, 0)), Client(1, [], false), 0, {})
  }

  function AckEvent(s: System, block: U16, ioOk: bool): Event {
    Datagram(s.session.conn.peer, Ack(block), ioOk)
  }

  function Apply(s: System, a: Action): System {
    match a
    case Other(e) => s.(session := Step(s.session, e))
    case ToServer(ack, ioOk) => s.(session := Step(s.session, AckEvent(s, ack.block, ioOk)))
    case ToClient(m) =>
      if !m.packet.Data? || s.client.done || m.packet.block != s.client.expected then s else
      var n := s.accepted + 1;
      var client := Client(U16Inc(s.client.expected), s.client.received + m.packet.payload,
                           |m.packet.payload| < DATA_LEN_MAX);
      System(s.session, client, n, s.acks + {SentAck(n, m.packet.block)})
  }

  /** What may happen next. A packet's lateness is counted in blocks the server has moved on. */
  predicate Enabled(d: Delay, s: System, a: Action) {
    match a
    case Other(e) => !(e.Datagram? && e.from == s.session.conn.peer && e.packet.Ack?)
    case ToServer(ack, _) => ack in s.acks && Within(d, s.session.index - ack.index)
    case ToClient(m) => m in s.session.sent && Within(d, s.session.index - m.index)
  }

  function RunFrom(s: System, acts: seq<Action>): System {
    if acts == [] then s else Apply(RunFrom(s, acts[..|acts| - 1]), acts[|acts| - 1])
  }

  predicate Allowed(d: Delay, s: System, acts: seq<Action>) {
    acts == [] ||
    (Allowed(d, s, acts[..|acts| - 1])
     && Enabled(d, RunFrom(s, acts[..|acts| - 1]), acts[|acts| - 1]))
  }

  lemma RunSnoc(d: Delay, s: System, acts: seq<Action>, a: Action)
    requires Allowed(d, s, acts) && Enabled(d, RunFrom(s, acts), a)
    ensures Allowed(d, s, acts + [a])
    ensures RunFrom(s, acts + [a]) == Apply(RunFrom(s, acts), a)
  {
    assert (acts + [a])[..|acts + [a]| - 1] == acts;
  }

  // ---------- the invariant ----------

  ghost predicate AcksInv(acks: set<SentAck>, accepted: nat) {
    forall k <- acks :: 1 <= k.index <= accepted && k.block == k.index % 0x1_0000
  }

  ghost predicate Inv(file: seq<Byte>, peer: Peer, s: System) {
    && ReadInv(file, peer, s.session)
    && ReadSentInv(file, peer, s.session.sent, s.session.index)
    && s.accepted <= s.session.index <= s.accepted + 1  // lock step
    && s.client.expected == (s.accepted + 1) % 0x1_0000
    && s.client.received == Joined(file, s.accepted)
    && (s.client.done <==> s.accepted >= LastBlock(file))
    && AcksInv(s.acks, s.accepted)
  }

  /** A delivered packet whose number is the one its receiver looks for is that very block,
      and not one 2^16 blocks older. */
  ghost predicate Unambiguous(s: System, a: Action) {
    match a
    case Other(e) => true
    case ToServer(ack, _) =>
      s.session.open && ack.block == s.session.conn.blknum ==> ack.index == s.session.index
    case ToClient(m) =>
      m.packet.Data? && !s.client.done && m.packet.block == s.client.expected ==> m.index == s.accepted + 1
  }

  lemma ServerSide(file: seq<Byte>, peer: Peer, s: System, e: Event)
    requires Inv(file, peer, s)
    requires Step(s.session, e).index == s.session.index || s.session.index == s.accepted
    ensures Inv(file, peer, s.(session := Step(s.session, e)))
  {
    ReadInvStep(file, peer, s.session, e);
    ReadSentInvStep(file, peer, s.session, e);
  }

  lemma AcksInvAdd(acks: set<SentAck>, n: nat)
    requires AcksInv(acks, n)
    ensures AcksInv(acks + {SentAck(n + 1, (n + 1) % 0x1_0000)}, n + 1)
  {
  }

  /** The client after it has accepted block k. */
  lemma ClientAfter(file: seq<Byte>, c: Client, k: nat, payload: seq<Byte>)
    requires k >= 1 && c.expected == k % 0x1_0000 && c.received == Joined(file, k - 1) && payload == Block(file, k)
    ensures U16Inc(c.expected) == (k + 1) % 0x1_0000
    ensures c.received + payload == Joined(file, k)
    ensures |payload| < DATA_LEN_MAX <==> k >= LastBlock(file)
  {
    NextNumber(k);
    BlockLength(file, k);
  }

  lemma ClientSide(file: seq<Byte>, peer: Peer, s: System, m: Sent)
    requires Inv(file, peer, s) && Enabled(Unbounded, s, ToClient(m)) && Unambiguous(s, ToClient(m))
    ensures Inv(file, peer, Apply(s, ToClient(m)))
  {
    if m.packet.Data? && !s.client.done && m.packet.block == s.client.expected {
      assert GoodData(file, m);
      ClientAfter(file, s.client, s.accepted + 1, m.packet.payload);
      AcksInvAdd(s.acks, s.accepted);
    }
  }

  lemma InvStep(file: seq<Byte>, peer: Peer, s: System, a: Action)
    requires Inv(file, peer, s) && Enabled(Unbounded, s, a) && Unambiguous(s, a)
    ensures Inv(file, peer, Apply(s, a))
  {
    match a
    case Other(e) =>
      ReadInvStep(file, peer, s.session, e);
      ServerSide(file, peer, s, e);
    case ToServer(ack, ioOk) =>
      ReadInvStep(file, peer, s.session, AckEvent(s, ack.block, ioOk));
      ServerSide(file, peer, s, AckEvent(s, ack.block, ioOk));
    case ToClient(m) =>
      ClientSide(file, peer, s, m);
  }

  /** Equal numbers less than 2^16 apart are equal. */
  lemma SameResidue(a: nat, b: nat)
    requires a <= b < a + 0x1_0000 && a % 0x1_0000 == b % 0x1_0000
    ensures a == b
  {
  }

  /** Delays after which a packet's number could be taken for a later one's are ruled out. */
  predicate Short(d: Delay) {
    d.Under? && d.advances <= 65535
  }

  lemma RecentUnambiguous(d: Delay, file: seq<Byte>, peer: Peer, s: System, a: Action)
    requires Inv(file, peer, s) && Enabled(d, s, a) && Short(d)
    ensures Unambiguous(s, a)
  {
    match a
    case Other(e) =>
    case ToServer(ack, _) =>
      if s.session.open && ack.block == s.session.conn.blknum {
        SameResidue(ack.index, s.session.index);
      }
    case ToClient(m) =>
      if m.packet.Data? && m.packet.block == s.client.expected {
        assert GoodData(file, m);
        SameResidue(m.index, s.accepted + 1);
      }
  }

  lemma SmallUnambiguous(file: seq<Byte>, peer: Peer, s: System, a: Action)
    requires Inv(file, peer, s) && Enabled(Unbounded, s, a)
    requires LastBlock(file) <= 0x1_0000
    ensures Unambiguous(s, a)
  {
    match a
    case Other(e) =>
    case ToServer(ack, _) =>
      if s.session.open && ack.block == s.session.conn.blknum {
        SameResidue(ack.index, s.session.index);
      }
    case ToClient(m) =>
      if m.packet.Data? && !s.client.done && m.packet.block == s.client.expected {
        assert GoodData(file, m);
        SameResidue(m.index, s.accepted + 1);
      }
  }

  lemma InitInv(file: seq<Byte>, peer: Peer)
    ensures Inv(file, peer, Init(file, peer))
  {
    ReadInvHolds(file, peer, []);
  }

  lemma {:induction false} InvHolds(d: Delay, file: seq<Byte>, peer: Peer, acts: seq<Action>)
    requires Short(d) || LastBlock(file) <= 0x1_0000
    requires Allowed(d, Init(file, peer), acts)
    ensures Inv(file, peer, RunFrom(Init(file, peer), acts))
  {
    if acts == [] {
      InitInv(file, peer);
    } else {
      var before := acts[..|acts| - 1];
      InvHolds(d, file, peer, before);
      var s := RunFrom(Init(file, peer), before);
      var a := acts[|acts| - 1];
      if Short(d) {
        RecentUnambiguous(d, file, peer, s, a);
      } else {
        SmallUnambiguous(file, peer, s, a);
      }
      InvStep(file, peer, s, a);
    }
  }

  // ---------- the theorems ----------

  /** The client has a prefix of the file, all of it once it is done, and is in lock step with
      the server. */
  ghost predicate Faithful(file: seq<Byte>, s: System) {
    && s.client.received <= file
    && (s.client.done ==> s.client.received == file)
    && s.session.index - s.accepted in {0, 1}
  }

  ghost predicate Safe(d: Delay, file: seq<Byte>, peer: Peer) {
    forall acts :: Allowed(d, Init(file, peer), acts) ==> Faithful(file, RunFrom(Init(file, peer), acts))
  }

  lemma InvFaithful(file: seq<Byte>, peer: Peer, s: System)
    requires Inv(file, peer, s)
    ensures Faithful(file, s)
  {
    JoinedIsPrefix(file, s.accepted);
  }

  /** The client has accepted n blocks and its acknowledgement of the last one is on the way. */
  ghost predicate InStep(file: seq<Byte>, peer: Peer, s: System, n: nat) {
    && Inv(file, peer, s) && s.accepted == n && s.session.open
    && s.session.index == (if n == 0 then 1 else n)
    && (n >= 1 ==> SentAck(n, n % 0x1_0000) in s.acks)
  }

  /** A network that delivers at least what has just been sent. */
  predicate Usable(d: Delay) {
    d.Under? ==> d.advances >= 1
  }

  lemma ServerTurn(d: Delay, file: seq<Byte>, peer: Peer, s: System, n: nat) returns (a: Action)
    requires Usable(d) && InStep(file, peer, s, n) && 1 <= n < LastBlock(file)
    ensures Enabled(d, s, a) && Inv(file, peer, Apply(s, a))
    ensures var t := Apply(s, a);
            && t.accepted == n && t.session.index == n + 1
            && (t.session.open <==> n + 1 < LastBlock(file))
  {
    a := ToServer(SentAck(n, n % 0x1_0000), true);
    InvStep(file, peer, s, a);
    MatchingAckAdvances(file, peer, s.session);
  }

  lemma ClientTurn(d: Delay, file: seq<Byte>, peer: Peer, s: System, n: nat) returns (a: Action)
    requires Usable(d) && Inv(file, peer, s) && s.accepted == n && s.session.index == n + 1 && n < LastBlock(file)
    ensures Enabled(d, s, a) && Inv(file, peer, Apply(s, a)) && Apply(s, a).accepted == n + 1
    ensures s.session.open ==> InStep(file, peer, Apply(s, a), n + 1)
  {
    assert WasSent(s.session.sent, n + 1);
    var m :| m in s.session.sent && m.index == n + 1 && m.packet.Data?;
    assert GoodData(file, m);
    a := ToClient(m);
    InvStep(file, peer, s, a);
  }

  /** One acknowledgement and one block at a time, nothing lost or late, until the client has
      accepted n blocks. */
  lemma {:induction false} LockStep(d: Delay, file: seq<Byte>, peer: Peer, n: nat) returns (acts: seq<Action>)
    requires Usable(d) && n <= LastBlock(file)
    ensures Allowed(d, Init(file, peer), acts)
    ensures var s := RunFrom(Init(file, peer), acts);
            && Inv(file, peer, s) && s.accepted == n
            && (n < LastBlock(file) ==> InStep(file, peer, s, n))
  {
    acts := [];
    if n == 0 {
      InitInv(file, peer);
      return;
    }
    acts := LockStep(d, file, peer, n - 1);
    var s := RunFrom(Init(file, peer), acts);
    if n > 1 {
      var a := ServerTurn(d, file, peer, s, n - 1);
      RunSnoc(d, Init(file, peer), acts, a);
      acts := acts + [a];
      s := Apply(s, a);
    }
    var a := ClientTurn(d, file, peer, s, n - 1);
    RunSnoc(d, Init(file, peer), acts, a);
    acts := acts + [a];
  }

  ghost predicate Delivers(d: Delay, file: seq<Byte>, peer: Peer, acts: seq<Action>) {
    && Allowed(d, Init(file, peer), acts)
    && var client := RunFrom(Init(file, peer), acts).client; client.done && client.received == file
  }

  /** Every file, of any length, can be delivered whole, by any network that delivers at all. */
  lemma DownloadPossible(d: Delay, file: seq<Byte>, peer: Peer)
    requires Usable(d)
    ensures exists acts :: Delivers(d, file, peer, acts)
  {
    var acts := LockStep(d, file, peer, LastBlock(file));
    InvFaithful(file, peer, RunFrom(Init(file, peer), acts));
    assert Delivers(d, file, peer, acts);
  }

  lemma StaleResidue(n: nat)
    requires n >= 0x1_0000
    ensures (n - 0x1_0000) % 0x1_0000 == n % 0x1_0000
  {
  }

  /** All blocks but the last, and one full block more, are longer than the file. */
  lemma TooLong(file: seq<Byte>, n: nat, stale: nat)
    requires n + 1 == LastBlock(file) && 1 <= stale <= n
    ensures |Joined(file, n) + Block(file, stale)| > |file|
  {
    BlockLength(file, stale);
    JoinedIsPrefix(file, n);
  }

  /** The full block 2^16 before the last, short, one bears the same number. */
  lemma OldBlockAccepted(d: Delay, file: seq<Byte>, peer: Peer, s: System, n: nat) returns (m: Sent)
    requires !Short(d) && n + 1 == LastBlock(file) && n >= 0x1_0000
    requires InStep(file, peer, s, n)
    ensures Enabled(d, s, ToClient(m))
    ensures !Faithful(file, Apply(s, ToClient(m)))
  {
    var stale := n + 1 - 0x1_0000;
    assert WasSent(s.session.sent, stale);
    m :| m in s.session.sent && m.index == stale && m.packet.Data?;
    assert GoodData(file, m);
    StaleResidue(n + 1);
    TooLong(file, n, stale);
  }

  /** A file of more than 2^16 blocks can be corrupted by one packet 65535 blocks late. */
  lemma OldPacketCorrupts(d: Delay, file: seq<Byte>, peer: Peer)
    requires !Short(d) && LastBlock(file) > 0x1_0000
    ensures !Safe(d, file, peer)
  {
    var acts := LockStep(d, file, peer, LastBlock(file) - 1);
    var s := RunFrom(Init(file, peer), acts);
    var m := OldBlockAccepted(d, file, peer, s, LastBlock(file) - 1);
    RunSnoc(d, Init(file, peer), acts, ToClient(m));
  }

  /** A download is faithful in every run exactly when no packet outlives 65534 block advances
      or the file is below 32 MiB. */
  lemma DownloadSafeIff(d: Delay, file: seq<Byte>, peer: Peer)
    ensures Safe(d, file, peer) <==> Short(d) || |file| < 0x1_0000 * 512
  {
    if Short(d) || |file| < 0x1_0000 * 512 {
      forall acts | Allowed(d, Init(file, peer), acts) ensures Faithful(file, RunFrom(Init(file, peer), acts)) {
        InvHolds(d, file, peer, acts);
        InvFaithful(file, peer, RunFrom(Init(file, peer), acts));
      }
    } else {
      OldPacketCorrupts(d, file, peer);
    }
  }
}
