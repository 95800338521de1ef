/**
 A write transfer with its client: it sends a block, waits for the acknowledgement that bears the
 block's number, and goes on, until its last block is acknowledged (section 2 of RFC 1350). Its
 block numbers are 16 bits wide and wrap around. As for a download, any packet ever sent may be
 delivered at any later moment, any number of times, and one that is never delivered is lost.
 */
module TftpUploadClient {
  import opened TftpWire
  import opened TftpConnection
  import opened TftpSession
  import opened TftpUpload

  /** The client has sent blocks 1..sending and waits for the last one's acknowledgement; at 0 it
      waits for its request to be answered. For each packet of the server, `sentAt` has the block
      that the client was sending then. */
  datatype System = System(session: Session, sentAt: seq<nat>, sending: nat, done: bool)

  datatype Action =
    | ToServer(block: nat, ioOk: bool)  // the network delivers a DATA packet
    | ToClient(packet: nat)  // the network delivers the server's packet of that number
    | Other(event: Event)  // a timer tick, or any datagram but DATA of the peer

  function Init(peer: Peer): System {
    System(Opened(Write, peer, File([], 0)), [0], 0, false)
  }

  function DataEvent(file: seq<Byte>, peer: Peer, k: nat, ioOk: bool): Event
    requires k >= 1
  {
    Datagram(peer, Data(k % 0x1_0000, Block(file, k)), ioOk)
  }

  /** The client looks for the number of the block it is sending. */
  predicate Matches(s: System, m: Sent) {
    !s.done && m.packet == Ack(s.sending % 0x1_0000)
  }

  /** What may happen next. A packet's lateness is counted in blocks the client has moved on. */
  predicate Enabled(d: Delay, peer: Peer, s: System, a: Action) {
    match a
    case ToServer(k, _) => 1 <= k <= s.sending && Within(d, s.sending - k)
    case ToClient(i) => i < |s.session.sent| && i < |s.sentAt| && Within(d, s.sending - s.sentAt[i])
    case Other(e) => !(e.Datagram? && e.from == peer && e.packet.Data?)
  }

  /** The server has got on, and what it sent on the way is on the network from now on. */
  function Served(s: System, session: Session): System {
    var n := |session.sent| - |s.session.sent|;
    s.(session := session, sentAt := s.sentAt + seq(if n < 0 then 0 else n, _ => s.sending))
  }

  function Apply(file: seq<Byte>, peer: Peer, s: System, a: Action): System {
    match a
    case ToServer(k, ioOk) =>
      if k == 0 then s else Served(s, Step(s.session, DataEvent(file, peer, k, ioOk)))
    case Other(e) => Served(s, Step(s.session, e))
    case ToClient(i) =>
      if i >= |s.session.sent| || !Matches(s, s.session.sent[i]) then s
      else if s.sending == LastBlock(file) then s.(done := true)
      else s.(sending := s.sending + 1)
  }

  function RunFrom(file: seq<Byte>, peer: Peer, s: System, acts: seq<Action>): System {
    if acts == [] then s else Apply(file, peer, RunFrom(file, peer, s, acts[..|acts| - 1]), acts[|acts| - 1])
  }

  predicate Allowed(d: Delay, file: seq<Byte>, peer: Peer, acts: seq<Action>) {
    acts == [] ||
    (Allowed(d, file, peer, acts[..|acts| - 1])
     && Enabled(d, peer, RunFrom(file, peer, Init(peer), acts[..|acts| - 1]), acts[|acts| - 1]))
  }

  lemma Snoc(d: Delay, file: seq<Byte>, peer: Peer, acts: seq<Action>, a: Action)
    requires Allowed(d, file, peer, acts) && Enabled(d, peer, RunFrom(file, peer, Init(peer), acts), a)
    ensures Allowed(d, file, peer, acts + [a])
    ensures RunFrom(file, peer, Init(peer), acts + [a])
         == Apply(file, peer, RunFrom(file, peer, Init(peer), acts), a)
  {
    assert (acts + [a])[..|acts + [a]| - 1] == acts;
  }

  // ---------- the server's acknowledgements ----------

  /** Every block up to the server's has been acknowledged, and every acknowledgement bears the
      index it was sent at. */
  ghost predicate AcksInv(peer: Peer, s: Session) {
    && s.conn.op == Write && s.conn.peer == peer && s.index == s.conn.blknum
    && (forall m <- s.sent :: m.packet.Ack? ==> m.index == m.packet.block <= s.index)
    && (forall i: U16 :: i <= s.index ==> Sent(i, peer, Ack(i)) in s.sent)
  }

  lemma AcksInvAfter(peer: Peer, s: Session, e: Event, o: Outcome)
    requires AcksInv(peer, s) && WriteOutcome(s.conn, e, o)
    ensures AcksInv(peer, After(s, e, o))
  {
    var n := NextIndex(s.index, s.conn, o);
    var added := Tagged(n, o.sent);
    forall m | m in added && m.packet.Ack? ensures m.index == m.packet.block <= n {
      var i :| 0 <= i < |added| && m == added[i];
      assert o.sent[i] in o.sent;
    }
    if n > s.index {
      assert added[0] == Sent(n, peer, Ack(n));
    }
  }

  lemma AcksInvStep(peer: Peer, s: Session, e: Event)
    requires AcksInv(peer, s)
    ensures AcksInv(peer, Step(s, e))
  {
    if s.open {
      HandleWrite(s.conn, e);
      AcksInvAfter(peer, s, e, Handle(s.conn, e));
    }
  }

  // ---------- when they were sent ----------

  /** No acknowledgement is older than its block, and ACK 0 was only sent to begin with. */
  ghost predicate SentAtInv(s: System) {
    && |s.sentAt| == |s.session.sent|
    && forall i | 0 <= i < |s.sentAt| :: s.session.sent[i].packet.Ack? ==> InTime(s, i)
  }

  predicate InTime(s: System, i: nat)
    requires i < |s.sentAt| == |s.session.sent|
  {
    s.session.sent[i].index <= s.sentAt[i] <= s.sending && (s.session.sent[i].index == 0 ==> s.sentAt[i] == 0)
  }

  /** An event that the server answers with ACK 0 once more is DATA, but not block 1. */
  predicate RepeatsStart(peer: Peer, s: Session, e: Event) {
    s.index == 0 && e.Datagram? && e.from == peer && e.packet.Data? && e.packet.block != 1
  }

  /** What the server acknowledges, and only that it acknowledges it on DATA. */
  lemma AckedAt(peer: Peer, s: Session, e: Event, i: nat)
    requires AcksInv(peer, s) && !RepeatsStart(peer, s, e)
    requires |s.sent| <= i < |Step(s, e).sent| && Step(s, e).sent[i].packet.Ack?
    ensures 0 < Step(s, e).sent[i].index == Step(s, e).index
  {
  }

  lemma SentKept(s: Session, e: Event)
    ensures s.sent <= Step(s, e).sent
  {
  }

  lemma ServedInTime(peer: Peer, s: System, e: Event)
    requires AcksInv(peer, s.session) && SentAtInv(s) && !RepeatsStart(peer, s.session, e)
    requires Step(s.session, e).index <= s.sending
    ensures SentAtInv(Served(s, Step(s.session, e)))
  {
    var t := Served(s, Step(s.session, e));
    SentKept(s.session, e);
    forall i | 0 <= i < |t.sentAt| && t.session.sent[i].packet.Ack? ensures InTime(t, i) {
      if i < |s.sentAt| {
        assert InTime(s, i);
      } else {
        AckedAt(peer, s.session, e, i);
      }
    }
  }

  // ---------- the invariant ----------

  /** Client and server are in lock step up to block 65535, where the server stays; what the
      server has is always a prefix of the file. */
  ghost predicate LockStepInv(file: seq<Byte>, peer: Peer, s: System) {
    && UploadInv(file, peer, s.session) && AcksInv(peer, s.session)
    && s.session.index <= s.sending <= LastBlock(file)
    && (s.sending <= s.session.index + 1 || s.session.index == 65535)
    && (s.done ==> s.sending == LastBlock(file) && s.session.index == Min(LastBlock(file), 65535))
  }

  ghost predicate Inv(file: seq<Byte>, peer: Peer, s: System) {
    LockStepInv(file, peer, s) && SentAtInv(s)
  }

  /** An event that the server takes as its next block really is that block. */
  lemma ServerSide(file: seq<Byte>, peer: Peer, s: System, e: Event)
    requires LockStepInv(file, peer, s)
    requires Honest(file, peer, e) || s.session.index == 65535
    requires e.Datagram? && e.from == peer && e.packet.Data? && s.session.index < 65535 ==> e.packet.block <= s.sending
    ensures LockStepInv(file, peer, Served(s, Step(s.session, e)))
  {
    UploadInvStep(file, peer, s.session, e);
    AcksInvStep(peer, s.session, e);
    if s.session.open {
      HandleWrite(s.session.conn, e);
    }
  }

  lemma SmallNumber(n: nat)
    requires n < 0x1_0000
    ensures n % 0x1_0000 == n
  {
  }

  /** Below block 65535 a number that matches is that of the block itself. */
  lemma ClientSide(file: seq<Byte>, peer: Peer, s: System, i: nat)
    requires LockStepInv(file, peer, s)
    ensures LockStepInv(file, peer, Apply(file, peer, s, ToClient(i)))
  {
    if i < |s.session.sent| && Matches(s, s.session.sent[i]) {
      var m := s.session.sent[i];
      assert m in s.session.sent && m.packet.block <= s.session.index;
      if s.session.index < 65535 {
        SmallNumber(s.sending);
      }
    }
  }

  /** DATA k of the client, with its number cut to 16 bits. */
  lemma NumberedData(file: seq<Byte>, peer: Peer, s: System, k: nat, ioOk: bool)
    requires LockStepInv(file, peer, s) && 1 <= k <= s.sending
    ensures var e := DataEvent(file, peer, k, ioOk);
            && (s.session.index < 65535 ==> e.packet.block <= s.sending)
            && (Honest(file, peer, e) || s.session.index == 65535)
            && !RepeatsStart(peer, s.session, e)
  {
    if k < 0x1_0000 {
      SmallNumber(k);
    }
  }

  lemma InvStep(file: seq<Byte>, peer: Peer, s: System, a: Action)
    requires Inv(file, peer, s) && Enabled(Unbounded, peer, s, a)
    ensures Inv(file, peer, Apply(file, peer, s, a))
  {
    match a
    case ToServer(k, ioOk) =>
      var e := DataEvent(file, peer, k, ioOk);
      NumberedData(file, peer, s, k, ioOk);
      ServerSide(file, peer, s, e);
      ServedInTime(peer, s, e);
    case Other(e) =>
      ServerSide(file, peer, s, e);
      ServedInTime(peer, s, e);
    case ToClient(i) =>
      ClientSide(file, peer, s, i);
      LaterInTime(s, Apply(file, peer, s, a));
  }

  lemma LaterInTime(s: System, t: System)
    requires SentAtInv(s) && t.session == s.session && t.sentAt == s.sentAt && s.sending <= t.sending
    ensures SentAtInv(t)
  {
    forall i | 0 <= i < |t.sentAt| && t.session.sent[i].packet.Ack? ensures InTime(t, i) {
      assert InTime(s, i);
    }
  }

  lemma InitInv(file: seq<Byte>, peer: Peer)
    ensures Inv(file, peer, Init(peer))
  {
    UploadInvHolds(file, peer, []);
    assert Init(peer).session.sent == [Sent(0, peer, Ack(0))];
  }

  lemma {:induction false} InvHolds(d: Delay, file: seq<Byte>, peer: Peer, acts: seq<Action>)
    requires Allowed(d, file, peer, acts)
    ensures Inv(file, peer, RunFrom(file, peer, Init(peer), acts))
  {
    if acts == [] {
      InitInv(file, peer);
    } else {
      InvHolds(d, file, peer, acts[..|acts| - 1]);
      InvStep(file, peer, RunFrom(file, peer, Init(peer), acts[..|acts| - 1]), acts[|acts| - 1]);
    }
  }

  // ---------- when the client can finish ----------

  /** Times the client's block number has wrapped around when it comes to its last block. */
  function Wraps(file: seq<Byte>): nat {
    LastBlock(file) / 0x1_0000
  }

  /** Acknowledgements may be late enough to be taken for those of blocks past 65535. */
  predicate CanFinish(d: Delay, file: seq<Byte>) {
    Within(d, 0x1_0000 * Wraps(file))
  }

  /** The first block of the last round, which bears number 0. */
  function LastRound(file: seq<Byte>): nat {
    0x1_0000 * Wraps(file)
  }

  lemma LastRoundIs(file: seq<Byte>)
    ensures LastRound(file) <= LastBlock(file) && LastRound(file) % 0x1_0000 == 0
  {
  }

  /** What gets the client past the first block of a round is ACK 0, which is as old as the
      transfer. */
  lemma PassedOnStart(d: Delay, file: seq<Byte>, peer: Peer, s: System, i: nat)
    requires Inv(file, peer, s) && Enabled(d, peer, s, ToClient(i)) && Matches(s, s.session.sent[i])
    requires s.sending == LastRound(file)
    ensures CanFinish(d, file)
  {
    LastRoundIs(file);
    assert s.session.sent[i] in s.session.sent && InTime(s, i);
  }

  lemma {:induction false} FinishedOnLateAck(d: Delay, file: seq<Byte>, peer: Peer, acts: seq<Action>)
    requires Allowed(d, file, peer, acts)
    ensures var s := RunFrom(file, peer, Init(peer), acts);
            s.sending > LastRound(file) || s.done ==> CanFinish(d, file)
  {
    if acts != [] {
      var before, a := acts[..|acts| - 1], acts[|acts| - 1];
      var s := RunFrom(file, peer, Init(peer), before);
      FinishedOnLateAck(d, file, peer, before);
      InvHolds(d, file, peer, before);
      LastRoundIs(file);
      if a.ToClient? && Matches(s, s.session.sent[a.packet]) && s.sending == LastRound(file) {
        PassedOnStart(d, file, peer, s, a.packet);
      }
    }
  }

  /** The client is sending block n and the server has all that it will take of blocks 1..n. */
  ghost predicate InStep(file: seq<Byte>, peer: Peer, s: System, n: nat) {
    && Inv(file, peer, s) && s.sending == n && !s.done
    && s.session.index == Min(n, 65535)
    && (n < LastBlock(file) ==> s.session.open)
  }

  /** The acknowledgement that bears block n's number, if need be one from a former round. */
  lemma Answer(d: Delay, file: seq<Byte>, peer: Peer, s: System, n: nat) returns (a: Action)
    requires CanFinish(d, file) && InStep(file, peer, s, n)
    ensures Enabled(d, peer, s, a) && Inv(file, peer, Apply(file, peer, s, a))
    ensures Apply(file, peer, s, a)
         == if n == LastBlock(file) then s.(done := true) else s.(sending := n + 1)
  {
    var k: U16 := n % 0x1_0000;
    assert Sent(k, peer, Ack(k)) in s.session.sent;
    var i :| 0 <= i < |s.session.sent| && s.session.sent[i] == Sent(k, peer, Ack(k));
    assert InTime(s, i);
    a := ToClient(i);
    LateBy(n, LastBlock(file));
    InvStep(file, peer, s, a);
  }

  lemma LateBy(n: nat, last: nat)
    requires n <= last
    ensures n - n % 0x1_0000 <= 0x1_0000 * (last / 0x1_0000)
  {
  }

  lemma Taken(d: Delay, file: seq<Byte>, peer: Peer, s: System, n: nat)
    requires CanFinish(d, file) && Inv(file, peer, s) && s.sending == n && !s.done
    requires s.session.open && s.session.index + 1 == n <= 65535
    ensures var a := ToServer(n, true); Enabled(d, peer, s, a) && InStep(file, peer, Apply(file, peer, s, a), n)
  {
    InvStep(file, peer, s, ToServer(n, true));
    NextBlockTaken(file, peer, s.session, n);
  }

  lemma {:induction false} LockStep(d: Delay, file: seq<Byte>, peer: Peer, n: nat) returns (acts: seq<Action>)
    requires CanFinish(d, file) && n <= LastBlock(file)
    ensures Allowed(d, file, peer, acts) && InStep(file, peer, RunFrom(file, peer, Init(peer), acts), n)
  {
    acts := [];
    if n == 0 {
      InitInv(file, peer);
      return;
    }
    acts := LockStep(d, file, peer, n - 1);
    var s := RunFrom(file, peer, Init(peer), acts);
    var a := Answer(d, file, peer, s, n - 1);
    Snoc(d, file, peer, acts, a);
    acts := acts + [a];
    if n <= 65535 {
      Taken(d, file, peer, Apply(file, peer, s, a), n);
      Snoc(d, file, peer, acts, ToServer(n, true));
      acts := acts + [ToServer(n, true)];
    }
  }

  ghost predicate Finishes(d: Delay, file: seq<Byte>, peer: Peer, acts: seq<Action>) {
    Allowed(d, file, peer, acts) && RunFrom(file, peer, Init(peer), acts).done
  }

  /** The client can be brought to believe that its upload is complete exactly when the network
      holds packets back for as many blocks as its block number has wrapped past. */
  lemma FinishIff(d: Delay, file: seq<Byte>, peer: Peer)
    ensures (exists acts :: Finishes(d, file, peer, acts)) <==> CanFinish(d, file)
  {
    if CanFinish(d, file) {
      var acts := LockStep(d, file, peer, LastBlock(file));
      var a := Answer(d, file, peer, RunFrom(file, peer, Init(peer), acts), LastBlock(file));
      Snoc(d, file, peer, acts, a);
      assert Finishes(d, file, peer, acts + [a]);
    } else {
      forall acts ensures !Finishes(d, file, peer, acts) {
        if Finishes(d, file, peer, acts) {
          FinishedOnLateAck(d, file, peer, acts);
        }
      }
    }
  }

  // ---------- what the server then has ----------

  /** In every run: the server's file is a prefix of the client's, and a client that believes it
      is done is right exactly when the file has at most 65535 full blocks. */
  lemma FinishedMeans(d: Delay, file: seq<Byte>, peer: Peer, acts: seq<Action>)
    requires Allowed(d, file, peer, acts)
    ensures var s := RunFrom(file, peer, Init(peer), acts);
            && s.session.conn.file.content <= file
            && (s.done ==> (s.session.conn.file.content == file <==> |file| <= 65535 * 512))
  {
    InvHolds(d, file, peer, acts);
    JoinedIsPrefix(file, RunFrom(file, peer, Init(peer), acts).session.index);
  }

  ghost predicate Safe(d: Delay, file: seq<Byte>, peer: Peer) {
    forall acts :: Finishes(d, file, peer, acts) ==>
      RunFrom(file, peer, Init(peer), acts).session.conn.file.content == file
  }

  /** A client that is done has always handed over its whole file exactly when the file has at
      most 65535 full blocks, or the network is too quick for it ever to be done. */
  lemma UploadSafeIff(d: Delay, file: seq<Byte>, peer: Peer)
    ensures Safe(d, file, peer) <==> |file| <= 65535 * 512 || !CanFinish(d, file)
  {
    FinishIff(d, file, peer);
    forall acts | Finishes(d, file, peer, acts)
      ensures RunFrom(file, peer, Init(peer), acts).session.conn.file.content == file
              <==> |file| <= 65535 * 512
    {
      FinishedMeans(d, file, peer, acts);
    }
  }
}
