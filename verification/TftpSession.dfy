/**
 Whole runs of one connection, from the moment it is opened: what every reachable state keeps,
 whatever datagrams arrive, from whomever, and however the timer fires in between.

 A `Session` is the connection record together with its history: the block index as an
 unbounded number (the record only has it modulo 2^16), everything sent so far and how many
 datagrams arrived. The handlers never look at the history.
 */
module TftpSession {
  import opened TftpWire
  import opened TftpConnection

  /** A datagram sent while the connection stood at block `index`. */
  datatype Sent = Sent(index: nat, to: Peer, packet: Packet)

  datatype Session = Session(conn: Conn, open: bool, index: nat, sent: seq<Sent>, received: nat)

  datatype Event =
    | Tick
    | Datagram(from: Peer, packet: Packet, ioOk: bool)

  function Tagged(index: nat, out: seq<Send>): (r: seq<Sent>)
    ensures |r| == |out|
  {
    seq(|out|, i requires 0 <= i < |out| => Sent(index, out[i].to, out[i].packet))
  }

  function Opened(op: Op, peer: Peer, file: File): Session {
    var o := Start(op, peer, file, true);
    var index := if op.Read? then 1 else 0;
    Session(o.conn, o.open, index, Tagged(index, o.sent), 0)
  }

  function Handle(c: Conn, e: Event): Outcome {
    match e
    case Tick => TftpConnection.Tick(c)
    case Datagram(from, p, ioOk) => Receive(c, from, p, ioOk)
  }

  predicate Failed(o: Outcome) {
    o.sent != [] && o.sent[0].packet.Error?
  }

  /** The block index moves when the record's block number does, unless that was for a read
      that failed. */
  function NextIndex(k: nat, c: Conn, o: Outcome): nat {
    k + if o.conn.blknum == c.blknum || Failed(o) then 0 else 1
  }

  function After(s: Session, e: Event, o: Outcome): Session {
    var index := NextIndex(s.index, s.conn, o);
    Session(o.conn, o.open, index, s.sent + Tagged(index, o.sent), s.received + if e.Tick? then 0 else 1)
  }

  /** One event. Nothing happens to a closed connection: its record, pcb and timer are gone. */
  function Step(s: Session, e: Event): Session {
    if s.open then After(s, e, Handle(s.conn, e)) else s
  }

  function Run(s: Session, es: seq<Event>): Session {
    if es == [] then s else Step(Run(s, es[..|es| - 1]), es[|es| - 1])
  }

  lemma RunSnoc(s: Session, es: seq<Event>, e: Event)
    ensures Run(s, es + [e]) == Step(Run(s, es), e)
  {
    assert (es + [e])[..|es + [e]| - 1] == es;
  }

  /** How late a packet may be delivered: at any time, or only while the sender of the DATA has
      advanced by less than so many blocks since the packet was sent. */
  datatype Delay = Unbounded | Under(advances: nat)

  predicate Within(d: Delay, advances: int) {
    d.Under? ==> advances < d.advances
  }

  // ---------- timeouts ----------

  predicate TimerInv(c: Conn) {
    var d := Elapsed(c.timer, c.lastTime);
    if c.op.Read? then
      d <= TIMEOUT_TICKS + MAX_RETRIES && c.retries == if d <= TIMEOUT_TICKS then 0 else d - TIMEOUT_TICKS
    else
      d <= TIMEOUT_TICKS && c.retries == 0
  }

  lemma ElapsedTick(timer: U32, lastTime: U32)
    requires Elapsed(timer, lastTime) < 0xFFFF_FFFF
    ensures Elapsed((timer as int + 1) % 0x1_0000_0000, lastTime) == Elapsed(timer, lastTime) + 1
  {
  }

  lemma TickKeepsTimer(c: Conn)
    requires TimerInv(c)
    ensures var o := TftpConnection.Tick(c);
            o.conn.op == c.op && o.conn.peer == c.peer && (o.open ==> TimerInv(o.conn))
  {
    ElapsedTick(c.timer, c.lastTime);
  }

  lemma DatagramResetsTimer(c: Conn, from: Peer, p: Packet, ioOk: bool)
    ensures var o := Receive(c, from, p, ioOk);
            && o.conn.op == c.op && o.conn.peer == c.peer
            && (o.open ==> TimerInv(o.conn) && Elapsed(o.conn.timer, o.conn.lastTime) == 0)
  {
  }

  lemma TimerInvStep(s: Session, e: Event)
    requires s.open ==> TimerInv(s.conn)
    ensures var t := Step(s, e);
            && t.conn.op == s.conn.op && t.conn.peer == s.conn.peer
            && (t.open ==> TimerInv(t.conn))
            && (t.open && e.Datagram? ==> s.open && Elapsed(t.conn.timer, t.conn.lastTime) == 0)
  {
    match e
    case Tick =>
      if s.open {
        TickKeepsTimer(s.conn);
      }
    case Datagram(from, p, ioOk) =>
      DatagramResetsTimer(s.conn, from, p, ioOk);
  }

  /** Every reachable open state: a read connection has been silent for at most 105 ticks and
      has retried once per tick beyond 100; a write connection has been silent for at most 100. */
  lemma {:induction false} TimerInvHolds(op: Op, peer: Peer, file: File, es: seq<Event>)
    ensures var s := Run(Opened(op, peer, file), es);
            s.conn.op == op && s.conn.peer == peer && (s.open ==> TimerInv(s.conn))
  {
    if es != [] {
      TimerInvHolds(op, peer, file, es[..|es| - 1]);
      TimerInvStep(Run(Opened(op, peer, file), es[..|es| - 1]), es[|es| - 1]);
    }
  }

  function Silence(n: nat): seq<Event> {
    seq(n, _ => Tick)
  }

  /** The largest number of ticks a connection survives without hearing anything. */
  function Patience(op: Op): nat {
    if op.Read? then TIMEOUT_TICKS + MAX_RETRIES else TIMEOUT_TICKS
  }

  /** The retransmissions a read connection has made after d silent ticks. */
  function Retransmitted(op: Op, d: nat): nat {
    if op.Write? || d <= TIMEOUT_TICKS then 0
    else if d <= TIMEOUT_TICKS + MAX_RETRIES then d - TIMEOUT_TICKS
    else MAX_RETRIES
  }

  lemma SilentStep(s: Session)
    requires s.open && TimerInv(s.conn)
    ensures var d := Elapsed(s.conn.timer, s.conn.lastTime); var t := Step(s, Tick);
            && (t.open <==> d < Patience(s.conn.op))
            && t.conn.op == s.conn.op
            && (t.open ==> TimerInv(t.conn) && Elapsed(t.conn.timer, t.conn.lastTime) == d + 1)
            && |t.sent| == |s.sent| + Retransmitted(s.conn.op, d + 1) - Retransmitted(s.conn.op, d)
  {
    ElapsedTick(s.conn.timer, s.conn.lastTime);
  }

  /** t is s after n silent ticks: open exactly while its patience lasts, with exactly one
      retransmission per tick from the 101st on. */
  predicate SilentFor(s: Session, t: Session, n: nat) {
    var d := Elapsed(s.conn.timer, s.conn.lastTime);
    && (t.open <==> d + n <= Patience(s.conn.op))
    && t.conn.op == s.conn.op
    && (t.open ==> TimerInv(t.conn) && Elapsed(t.conn.timer, t.conn.lastTime) == d + n)
    && |t.sent| == |s.sent| + Retransmitted(s.conn.op, d + n) - Retransmitted(s.conn.op, d)
  }

  lemma SilentNext(s: Session, t: Session, n: nat)
    requires SilentFor(s, t, n)
    ensures SilentFor(s, Step(t, Tick), n + 1)
  {
    if t.open {
      SilentStep(t);
    }
  }

  /** So from any reachable open state. */
  lemma {:induction false} SilenceFrom(s: Session, n: nat)
    requires s.open && TimerInv(s.conn)
    ensures SilentFor(s, Run(s, Silence(n)), n)
  {
    if n == 0 {
      assert Silence(0) == [];
    } else {
      SilenceFrom(s, n - 1);
      assert Silence(n) == Silence(n - 1) + [Tick];
      RunSnoc(s, Silence(n - 1), Tick);
      SilentNext(s, Run(s, Silence(n - 1)), n - 1);
    }
  }

  /** After any run that has just heard a datagram (or has just been opened): silence closes a
      read connection at exactly the 106th tick and a write connection at exactly the 101st. */
  lemma SilenceCloses(op: Op, peer: Peer, file: File, es: seq<Event>, n: nat)
    requires es == [] || es[|es| - 1].Datagram?
    requires Run(Opened(op, peer, file), es).open
    ensures var s := Run(Opened(op, peer, file), es);
            Run(s, Silence(n)).open <==> n < (if op.Read? then 106 else 101)
  {
    var s := Run(Opened(op, peer, file), es);
    TimerInvHolds(op, peer, file, es);
    assert Elapsed(s.conn.timer, s.conn.lastTime) == 0 by {
      if es != [] {
        TimerInvHolds(op, peer, file, es[..|es| - 1]);
        TimerInvStep(Run(Opened(op, peer, file), es[..|es| - 1]), es[|es| - 1]);
      }
    }
    SilenceFrom(s, n);
  }

  // ---------- read connections ----------

  function CountData(sent: seq<Sent>): nat {
    if sent == [] then 0
    else CountData(sent[..|sent| - 1]) + if sent[|sent| - 1].packet.Data? then 1 else 0
  }

  lemma {:induction false} CountDataAppend(a: seq<Sent>, b: seq<Sent>)
    ensures CountData(a + b) == CountData(a) + CountData(b)
  {
    if b == [] {
      assert a + b == a;
    } else {
      CountDataAppend(a, b[..|b| - 1]);
      assert (a + b)[..|a + b| - 1] == a + b[..|b| - 1];
    }
  }

  lemma {:induction false} CountDataNone(a: seq<Sent>)
    requires forall m <- a :: !m.packet.Data?
    ensures CountData(a) == 0
  {
    if a != [] {
      CountDataNone(a[..|a| - 1]);
    }
  }

  /** A read connection has block k of the file cached, and has read the file up to there. */
  ghost predicate HasBlock(file: seq<Byte>, c: Conn, k: nat) {
    && c.op == Read
    && k >= 1
    && c.data == Block(file, k)
    && c.file == File(file, Min(k * DATA_LEN_MAX, |file|))
  }

  /** The record of a read connection stands at block k of the file: number, cached block and
      read position all agree with the file. */
  ghost predicate AtBlock(file: seq<Byte>, c: Conn, k: nat) {
    HasBlock(file, c, k) && c.blknum == k % 0x1_0000
  }

  lemma AdvanceAtBlock(file: seq<Byte>, c: Conn, k: nat)
    requires AtBlock(file, c, k)
    ensures AtBlock(file, Advance(c), k + 1) && Advance(c).blknum != c.blknum
  {
    assert c.file.pos == Min(k * DATA_LEN_MAX, |file|);
    assert ReadChunk(c.file) == Block(file, k + 1);
    NextNumber(k);
  }

  lemma NextNumber(k: nat)
    ensures U16Inc(k % 0x1_0000) == (k + 1) % 0x1_0000 != k % 0x1_0000
  {
  }

  /** What one event may do to a read connection. It stays at its block, or goes to the next one
      on an acknowledgement of the current one; any DATA it sends is the block it then stands
      at, and it sends DATA exactly when it goes on or retries. */
  ghost predicate ReadOutcome(file: seq<Byte>, c: Conn, k: nat, e: Event, o: Outcome) {
    var k' := NextIndex(k, c, o);
    && HasBlock(file, o.conn, k') && o.conn.peer == c.peer && o.conn.retries <= MAX_RETRIES
    && (o.open ==> AtBlock(file, o.conn, k'))
    && (k' > k ==> e.Datagram? && e.from == c.peer && e.packet == Ack(c.blknum)
                   && o.open == (k' < LastBlock(file)) && o.sent == [CachedData(o.conn)])
    && (forall m <- o.sent :: m.packet.Data? ==> m == CachedData(o.conn) && AtBlock(file, o.conn, k'))
    && CountData(Tagged(k', o.sent)) == k' - k + if e.Tick? then o.conn.retries - c.retries else 0
  }

  /** One DATA packet at most goes out per event. */
  lemma CountAdded(k: nat, out: seq<Send>)
    requires (forall m <- out :: !m.packet.Data?) || |out| == 1
    ensures CountData(Tagged(k, out)) == if |out| == 1 && out[0].packet.Data? then 1 else 0
  {
    var added := Tagged(k, out);
    if |out| == 1 {
      assert added[..0] == [];
    } else {
      forall m | m in added ensures !m.packet.Data? {
        var i :| 0 <= i < |added| && m == added[i];
        assert out[i] in out;
      }
      CountDataNone(added);
    }
  }

  /** The peer acknowledges the current block and the next one can be read. */
  predicate Advances(c: Conn, e: Event) {
    e.Datagram? && e.from == c.peer && e.packet == Ack(c.blknum) && e.ioOk
  }

  lemma HandleAnswer(file: seq<Byte>, c: Conn, k: nat, e: Event)
    requires AtBlock(file, c, k) && c.retries <= MAX_RETRIES && Advances(c, e)
    ensures ReadOutcome(file, c, k, e, Handle(c, e))
  {
    var heard := c.(lastTime := c.timer, retries := 0);
    AdvanceAtBlock(file, heard, k);
    BlockLength(file, k + 1);
    var o := Handle(c, e);
    assert o.conn == Advance(heard) && o.sent == [CachedData(o.conn)];
    CountAdded(NextIndex(k, c, o), o.sent);
  }

  lemma HandleTick(file: seq<Byte>, c: Conn, k: nat)
    requires AtBlock(file, c, k) && c.retries <= MAX_RETRIES
    ensures ReadOutcome(file, c, k, Event.Tick, TftpConnection.Tick(c))
  {
    var o := TftpConnection.Tick(c);
    CountAdded(k, o.sent);
  }

  /** Everything but the next block: cached block and read position stay, no DATA goes out, and the
      number moves only for a read that failed. */
  predicate Stays(c: Conn, o: Outcome) {
    && o.conn.op == c.op && o.conn.peer == c.peer && o.conn.file == c.file && o.conn.data == c.data
    && o.conn.retries <= c.retries
    && (o.conn.blknum == c.blknum || (Failed(o) && !o.open))
    && forall m <- o.sent :: !m.packet.Data?
  }

  lemma OtherStays(c: Conn, e: Event)
    requires c.op == Read && e.Datagram? && !Advances(c, e)
    ensures Stays(c, Handle(c, e))
  {
  }

  lemma StaysAtBlock(file: seq<Byte>, c: Conn, k: nat, e: Event, o: Outcome)
    requires AtBlock(file, c, k) && c.retries <= MAX_RETRIES && e.Datagram? && Stays(c, o)
    ensures ReadOutcome(file, c, k, e, o)
  {
    assert NextIndex(k, c, o) == k && HasBlock(file, o.conn, k);
    CountAdded(k, o.sent);
    assert |o.sent| == 1 ==> o.sent[0] in o.sent;
  }

  lemma HandleRead(file: seq<Byte>, c: Conn, k: nat, e: Event)
    requires AtBlock(file, c, k) && c.retries <= MAX_RETRIES
    ensures ReadOutcome(file, c, k, e, Handle(c, e))
  {
    if e.Tick? {
      HandleTick(file, c, k);
    } else if Advances(c, e) {
      HandleAnswer(file, c, k, e);
    } else {
      OtherStays(c, e);
      StaysAtBlock(file, c, k, e, Handle(c, e));
    }
  }

  /** A DATA packet sent at index k carries k modulo 2^16 and block k of the file. */
  predicate GoodData(file: seq<Byte>, m: Sent) {
    m.packet.Data? ==>
      m.index >= 1 && m.packet == Data(m.index % 0x1_0000, Block(file, m.index))
  }

  ghost predicate WasSent(sent: seq<Sent>, k: nat) {
    exists m <- sent :: m.index == k && m.packet.Data?
  }

  ghost predicate ReadInv(file: seq<Byte>, peer: Peer, s: Session) {
    && HasBlock(file, s.conn, s.index)
    && (s.open ==> AtBlock(file, s.conn, s.index))
    && s.conn.peer == peer
    && s.conn.retries <= MAX_RETRIES
    && (s.open ==> s.index == 1 || s.index < LastBlock(file))
    && (s.index <= LastBlock(file) || s.index == 2)
  }

  /** The history of a read connection at block n: every DATA is the right one, addressed to
      the peer, and blocks 1..n have all been sent. */
  ghost predicate ReadSentInv(file: seq<Byte>, peer: Peer, sent: seq<Sent>, n: nat) {
    && (forall m <- sent :: m.index <= n && GoodData(file, m) && (m.packet.Data? ==> m.to == peer))
    && (forall k :: 1 <= k <= n ==> WasSent(sent, k))
  }

  ghost predicate ReadCountInv(s: Session) {
    && CountData(s.sent) <= s.index + MAX_RETRIES * s.received + s.conn.retries
    && s.index <= s.received + 1
  }

  lemma ReadInvAfter(file: seq<Byte>, peer: Peer, s: Session, e: Event, o: Outcome)
    requires ReadInv(file, peer, s) && s.open && ReadOutcome(file, s.conn, s.index, e, o)
    ensures ReadInv(file, peer, After(s, e, o))
  {
  }

  lemma ReadCountAfter(file: seq<Byte>, s: Session, e: Event, o: Outcome)
    requires ReadCountInv(s) && s.conn.retries <= MAX_RETRIES && ReadOutcome(file, s.conn, s.index, e, o)
    ensures ReadCountInv(After(s, e, o))
  {
    CountDataAppend(s.sent, Tagged(NextIndex(s.index, s.conn, o), o.sent));
  }

  lemma ReadInvStep(file: seq<Byte>, peer: Peer, s: Session, e: Event)
    requires ReadInv(file, peer, s)
    ensures ReadInv(file, peer, Step(s, e))
    ensures Step(s, e).index == s.index
            || (Step(s, e).index == s.index + 1 && s.open
                && e.Datagram? && e.from == peer && e.packet == Ack(s.index % 0x1_0000))
    ensures ReadCountInv(s) ==> ReadCountInv(Step(s, e))
  {
    if s.open {
      HandleRead(file, s.conn, s.index, e);
      ReadInvAfter(file, peer, s, e, Handle(s.conn, e));
      if ReadCountInv(s) {
        ReadCountAfter(file, s, e, Handle(s.conn, e));
      }
    }
  }

  /** An acknowledgement of the current block always moves an open read connection on. */
  lemma MatchingAckAdvances(file: seq<Byte>, peer: Peer, s: Session)
    requires ReadInv(file, peer, s) && s.open
    ensures var t := Step(s, Datagram(peer, Ack(s.index % 0x1_0000), true));
            t.index == s.index + 1 && (t.open <==> t.index < LastBlock(file))
  {
    AdvanceAtBlock(file, s.conn.(lastTime := s.conn.timer, retries := 0), s.index);
    BlockLength(file, s.index + 1);
  }

  /** It then sends the next block. */
  lemma MatchingAckSends(file: seq<Byte>, peer: Peer, s: Session)
    requires ReadInv(file, peer, s) && s.open
    ensures var k := s.index + 1;
            Step(s, Datagram(peer, Ack(s.index % 0x1_0000), true)).sent
            == s.sent + [Sent(k, peer, Data(k % 0x1_0000, Block(file, k)))]
  {
    var e := Datagram(peer, Ack(s.index % 0x1_0000), true);
    HandleAnswer(file, s.conn, s.index, e);
    var o := Handle(s.conn, e);
    MatchingAckAdvances(file, peer, s);
    assert Tagged(s.index + 1, o.sent) == [Sent(s.index + 1, peer, CachedData(o.conn).packet)];
  }

  /** A tick of a read connection that has been silent for 100 to 104 ticks sends its block again. */
  lemma TickResends(file: seq<Byte>, peer: Peer, s: Session)
    requires ReadInv(file, peer, s) && s.open && TimerInv(s.conn)
    requires 100 <= Elapsed(s.conn.timer, s.conn.lastTime) < 105
    ensures var t := Step(s, Tick);
            && t.open && t.index == s.index
            && t.sent == s.sent + [Sent(s.index, peer, Data(s.index % 0x1_0000, Block(file, s.index)))]
  {
    ElapsedTick(s.conn.timer, s.conn.lastTime);
    var o := TftpConnection.Tick(s.conn);
    assert Tagged(s.index, o.sent) == [Sent(s.index, peer, CachedData(o.conn).packet)];
  }

  /** Before that a tick sends nothing. */
  lemma QuietTick(s: Session)
    requires s.open && TimerInv(s.conn)
    requires Elapsed(s.conn.timer, s.conn.lastTime) < 100 || s.conn.op == Write
    ensures Step(s, Tick).sent == s.sent && Step(s, Tick).index == s.index
  {
    ElapsedTick(s.conn.timer, s.conn.lastTime);
    assert Tagged(s.index, []) == [];
  }

  lemma StaleOutcome(c: Conn, n: U16, ioOk: bool)
    requires c.op == Read && n != c.blknum
    ensures Receive(c, c.peer, Ack(n), ioOk) == Outcome(c.(lastTime := c.timer, retries := 0), true, [])
  {
  }

  /** Any other acknowledgement of the peer leaves an open read connection as it is, but for its
      timer, which starts again. */
  lemma StaleAckIgnored(file: seq<Byte>, peer: Peer, s: Session, n: U16, ioOk: bool)
    requires ReadInv(file, peer, s) && s.open && n != s.index % 0x1_0000
    ensures var t := Step(s, Datagram(peer, Ack(n), ioOk));
            && t.open && t.index == s.index && t.sent == s.sent
            && t.conn == s.conn.(lastTime := s.conn.timer, retries := 0)
  {
    StaleOutcome(s.conn, n, ioOk);
    assert Tagged(s.index, []) == [];
    assert s.sent + [] == s.sent;
  }

  /** Exactly what keeps a read connection open. */
  lemma ReadOpenIff(file: seq<Byte>, peer: Peer, s: Session, e: Event)
    requires ReadInv(file, peer, s) && s.open && TimerInv(s.conn)
    ensures Step(s, e).open <==>
            match e
            case Tick => Elapsed(s.conn.timer, s.conn.lastTime) < 105
            case Datagram(from, p, ioOk) =>
              && from == peer && !p.Error? && !p.Data?
              && (p == Ack(s.index % 0x1_0000) ==> ioOk && s.index + 1 < LastBlock(file))
  {
    if e.Datagram? {
      OpenIff(s.conn, e.from, e.packet, e.ioOk);
    } else {
      SilentStep(s);
    }
  }

  lemma SentInvAppend(file: seq<Byte>, peer: Peer, a: seq<Sent>, n: nat, b: seq<Sent>, n': nat)
    requires ReadSentInv(file, peer, a, n)
    requires n == n' || (n' == n + 1 && WasSent(b, n'))
    requires forall m <- b :: m.index == n' && GoodData(file, m) && (m.packet.Data? ==> m.to == peer)
    ensures ReadSentInv(file, peer, a + b, n')
  {
    forall k | 1 <= k <= n' ensures WasSent(a + b, k) {
      var part := if k <= n then a else b;
      assert WasSent(part, k);
      var m :| m in part && m.index == k && m.packet.Data?;
      assert m in a + b;
    }
  }

  lemma ReadSentInvAfter(file: seq<Byte>, peer: Peer, s: Session, e: Event, o: Outcome)
    requires ReadInv(file, peer, s) && ReadSentInv(file, peer, s.sent, s.index)
    requires ReadOutcome(file, s.conn, s.index, e, o)
    ensures var t := After(s, e, o); ReadSentInv(file, peer, t.sent, t.index)
  {
    var n := NextIndex(s.index, s.conn, o);
    var added := Tagged(n, o.sent);
    forall m | m in added ensures m.index == n && GoodData(file, m) && (m.packet.Data? ==> m.to == peer) {
      var i :| 0 <= i < |added| && m == added[i];
      assert o.sent[i] in o.sent;
    }
    if n > s.index {
      assert added[0] in added;
    }
    SentInvAppend(file, peer, s.sent, s.index, added, n);
  }

  lemma ReadSentInvStep(file: seq<Byte>, peer: Peer, s: Session, e: Event)
    requires ReadInv(file, peer, s) && ReadSentInv(file, peer, s.sent, s.index)
    ensures var t := Step(s, e); ReadSentInv(file, peer, t.sent, t.index)
  {
    if s.open {
      HandleRead(file, s.conn, s.index, e);
      ReadSentInvAfter(file, peer, s, e, Handle(s.conn, e));
    }
  }

  lemma {:induction false} ReadInvHolds(file: seq<Byte>, peer: Peer, es: seq<Event>)
    ensures var s := Run(Opened(Read, peer, File(file, 0)), es);
            ReadInv(file, peer, s) && ReadSentInv(file, peer, s.sent, s.index) && ReadCountInv(s)
  {
    var s := Opened(Read, peer, File(file, 0));
    if es == [] {
      assert s.sent == [Sent(1, peer, Data(1, Block(file, 1)))];
      assert s.sent[0] in s.sent;
    } else {
      ReadInvHolds(file, peer, es[..|es| - 1]);
      ReadInvStep(file, peer, Run(s, es[..|es| - 1]), es[|es| - 1]);
      ReadSentInvStep(file, peer, Run(s, es[..|es| - 1]), es[|es| - 1]);
    }
  }

  /** Every DATA packet of every run, first transmission or retransmission, is the right block
      of the file under the right number. Blocks 1..index have all been sent, and a short one
      means that they are, concatenated, the whole file. */
  lemma DataPacketsMatchFile(file: seq<Byte>, peer: Peer, es: seq<Event>)
    ensures var s := Run(Opened(Read, peer, File(file, 0)), es);
            && (forall m <- s.sent :: m.packet.Data? ==>
                  m.to == peer && 1 <= m.index <= s.index
                  && m.packet.block == m.index % 0x1_0000
                  && m.packet.payload == Block(file, m.index)
                  && (|m.packet.payload| < DATA_LEN_MAX ==> Joined(file, m.index) == file))
            && (forall k :: 1 <= k <= s.index ==> WasSent(s.sent, k))
            && s.index >= 1 && s.conn.data == Block(file, s.index)
  {
    ReadInvHolds(file, peer, es);
    var s := Run(Opened(Read, peer, File(file, 0)), es);
    forall m | m in s.sent && m.packet.Data? && |m.packet.payload| < DATA_LEN_MAX
      ensures Joined(file, m.index) == file
    {
      assert GoodData(file, m);
      ShortBlockEndsFile(file, m.index);
    }
  }

  /** A file that fits one short block: the first block does not close the connection, and its
      acknowledgement draws one more, empty, block, which does. */
  lemma ShortFileSendsEmptyBlock(file: seq<Byte>, peer: Peer)
    requires |file| < DATA_LEN_MAX
    ensures var s := Opened(Read, peer, File(file, 0)); var t := Step(s, Datagram(peer, Ack(1), true));
            && s.open && !t.open
            && s.sent == [Sent(1, peer, Data(1, file))]
            && t.sent == s.sent + [Sent(2, peer, Data(2, []))]
  {
    var s := Opened(Read, peer, File(file, 0));
    assert ReadChunk(File(file, 0)) == file;
    assert ReadChunk(s.conn.file) == [];
  }

  /** No DATA that a run sends is of a block past the last. */
  ghost predicate StopsAtLast(file: seq<Byte>, peer: Peer, es: seq<Event>) {
    forall m <- Run(Opened(Read, peer, File(file, 0)), es).sent :: m.packet.Data? ==> m.index <= LastBlock(file)
  }

  /** Transfers end with the first short block exactly for files of at least one full block. */
  lemma StopsAtLastIff(file: seq<Byte>, peer: Peer)
    ensures (forall es :: StopsAtLast(file, peer, es)) <==> |file| >= 512
  {
    if |file| >= DATA_LEN_MAX {
      forall es ensures StopsAtLast(file, peer, es) {
        ReadInvHolds(file, peer, es);
      }
    } else {
      var es := [Datagram(peer, Ack(1), true)];
      ShortFileSendsEmptyBlock(file, peer);
      RunOne(Opened(Read, peer, File(file, 0)), es[0]);
      var t := Run(Opened(Read, peer, File(file, 0)), es);
      assert Sent(2, peer, Data(2, [])) in t.sent;
      assert !StopsAtLast(file, peer, es);
    }
  }

  lemma RunOne(s: Session, e: Event)
    ensures Run(s, [e]) == Step(s, e)
  {
    RunSnoc(s, [], e);
    assert [] + [e] == [e];
  }

  /** The block that an open connection has cached, when the source looks at it after a failed
      read, is full. */
  ghost predicate CachesFull(file: seq<Byte>, peer: Peer, es: seq<Event>) {
    var s := Run(Opened(Read, peer, File(file, 0)), es);
    s.open ==> |s.conn.data| == DATA_LEN_MAX
  }

  /** That is so in every reachable state exactly for files of at least one full block. */
  lemma CachesFullIff(file: seq<Byte>, peer: Peer)
    ensures (forall es :: CachesFull(file, peer, es)) <==> |file| >= 512
  {
    if |file| >= DATA_LEN_MAX {
      forall es ensures CachesFull(file, peer, es) {
        ReadInvHolds(file, peer, es);
        BlockLength(file, Run(Opened(Read, peer, File(file, 0)), es).index);
      }
    } else {
      ReadInvHolds(file, peer, []);
      assert !CachesFull(file, peer, []);
    }
  }

  /** For a shorter file it fails at block 1 and nowhere else. */
  lemma ShortOnlyAtFirst(file: seq<Byte>, peer: Peer, es: seq<Event>)
    ensures var s := Run(Opened(Read, peer, File(file, 0)), es);
            s.open && |s.conn.data| < DATA_LEN_MAX <==> s.open && s.index == 1 && |file| < DATA_LEN_MAX
  {
    ReadInvHolds(file, peer, es);
    BlockLength(file, Run(Opened(Read, peer, File(file, 0)), es).index);
  }

  /** No Sorcerer's Apprentice growth (section 4.2.3.1 of RFC 1123). */
  lemma DataTrafficBound(file: seq<Byte>, peer: Peer, es: seq<Event>)
    ensures var s := Run(Opened(Read, peer, File(file, 0)), es);
            && CountData(s.sent) <= s.index + 5 * (s.received + 1)
            && s.index <= s.received + 1
  {
    ReadInvHolds(file, peer, es);
  }

  // ---------- write connections ----------

  /** The numbers of the acknowledgements sent, in order. */
  function AckNumbers(sent: seq<Sent>): seq<U16> {
    if sent == [] then []
    else AckNumbers(sent[..|sent| - 1])
         + if sent[|sent| - 1].packet.Ack? then [sent[|sent| - 1].packet.block] else []
  }

  lemma {:induction false} AckNumbersAppend(a: seq<Sent>, b: seq<Sent>)
    ensures AckNumbers(a + b) == AckNumbers(a) + AckNumbers(b)
  {
    if b == [] {
      assert a + b == a;
    } else {
      AckNumbersAppend(a, b[..|b| - 1]);
      assert (a + b)[..|a + b| - 1] == a + b[..|b| - 1];
    }
  }

  /** Acknowledgements start at 0 and go up one at a time, with repetitions, to n. */
  ghost predicate ClimbsTo(acks: seq<U16>, n: nat) {
    && |acks| >= 1 && acks[0] == 0 && acks[|acks| - 1] == n
    && forall i :: 0 <= i < |acks| - 1 ==> acks[i] as int <= acks[i + 1] as int <= acks[i] as int + 1
  }

  /** The index is the record's number, which never wraps, and the payloads written so far fit
      the blocks taken. */
  ghost predicate WrittenInv(peer: Peer, s: Session) {
    && s.conn.op == Write && s.conn.peer == peer
    && s.index == s.conn.blknum
    && |s.conn.file.content| <= s.index * DATA_LEN_MAX
  }

  ghost predicate WriteInv(peer: Peer, s: Session) {
    WrittenInv(peer, s) && ClimbsTo(AckNumbers(s.sent), s.index)
  }

  /** The size the source relies on for a block that is written to the file. */
  predicate Sized(c: Conn, e: Event) {
    c.op.Write? && e.Datagram? && e.from == c.peer && e.packet.Data?
    && e.packet.block as int == c.blknum as int + 1
    ==> |e.packet.payload| <= DATA_LEN_MAX
  }

  predicate SizedRun(s: Session, es: seq<Event>) {
    es == [] || (SizedRun(s, es[..|es| - 1]) && Sized(Run(s, es[..|es| - 1]).conn, es[|es| - 1]))
  }

  /** What one event may do to a write connection. The file and the block number change
      together, on the next block from the peer, and only then does the file grow; each event is
      answered with at most one acknowledgement, of the last block written. */
  ghost predicate WriteOutcome(c: Conn, e: Event, o: Outcome) {
    var k' := NextIndex(c.blknum, c, o);
    && o.conn.blknum == k' && o.conn.op == Write && o.conn.peer == c.peer
    && (k' == c.blknum ==> o.conn.file == c.file)
    && (k' > c.blknum ==>
          && e.Datagram? && e.from == c.peer && e.ioOk && e.packet.Data? && e.packet.block == k'
          && o.conn.file.content == c.file.content + e.packet.payload
          && o.open == (|e.packet.payload| >= DATA_LEN_MAX)
          && o.sent == [Send(c.peer, Ack(k'))])
    && ((forall m <- o.sent :: !m.packet.Ack?) || o.sent == [Send(c.peer, Ack(k'))])
  }

  lemma HandleWrite(c: Conn, e: Event)
    requires c.op == Write
    ensures WriteOutcome(c, e, Handle(c, e))
  {
  }

  lemma {:induction false} AckNumbersNone(a: seq<Sent>)
    requires forall m <- a :: !m.packet.Ack?
    ensures AckNumbers(a) == []
  {
    if a != [] {
      AckNumbersNone(a[..|a| - 1]);
    }
  }

  lemma AcksAdded(k: nat, out: seq<Send>)
    requires (forall m <- out :: !m.packet.Ack?) || |out| == 1
    ensures AckNumbers(Tagged(k, out)) == if |out| == 1 && out[0].packet.Ack? then [out[0].packet.block] else []
  {
    var added := Tagged(k, out);
    if |out| == 1 {
      assert added[..0] == [];
    } else {
      forall m | m in added ensures !m.packet.Ack? {
        var i :| 0 <= i < |added| && m == added[i];
        assert out[i] in out;
      }
      AckNumbersNone(added);
    }
  }

  lemma ClimbsOn(acks: seq<U16>, n: nat, n': U16)
    requires ClimbsTo(acks, n) && n <= n' <= n + 1
    ensures ClimbsTo(acks + [n'], n')
  {
  }

  lemma WrittenInvAfter(peer: Peer, s: Session, e: Event, o: Outcome)
    requires WrittenInv(peer, s) && Sized(s.conn, e) && WriteOutcome(s.conn, e, o)
    ensures WrittenInv(peer, After(s, e, o))
  {
  }

  lemma AcksAfter(peer: Peer, acks: seq<U16>, n: nat, out: seq<Send>, n': U16)
    requires ClimbsTo(acks, n) && n <= n' <= n + 1
    requires ((forall m <- out :: !m.packet.Ack?) && n' == n) || out == [Send(peer, Ack(n'))]
    ensures ClimbsTo(acks + AckNumbers(Tagged(n', out)), n')
  {
    AcksAdded(n', out);
    if out == [Send(peer, Ack(n'))] {
      ClimbsOn(acks, n, n');
    } else {
      assert |out| == 1 ==> out[0] in out;
      assert acks + [] == acks;
    }
  }

  lemma WriteInvAfter(peer: Peer, s: Session, e: Event, o: Outcome)
    requires WriteInv(peer, s) && Sized(s.conn, e) && WriteOutcome(s.conn, e, o)
    ensures WriteInv(peer, After(s, e, o))
  {
    WrittenInvAfter(peer, s, e, o);
    var n := NextIndex(s.index, s.conn, o);
    AcksAfter(peer, AckNumbers(s.sent), s.index, o.sent, n);
    AckNumbersAppend(s.sent, Tagged(n, o.sent));
  }

  lemma WriteInvStep(peer: Peer, s: Session, e: Event)
    requires WriteInv(peer, s) && Sized(s.conn, e)
    ensures WriteInv(peer, Step(s, e))
  {
    if s.open {
      HandleWrite(s.conn, e);
      WriteInvAfter(peer, s, e, Handle(s.conn, e));
    }
  }

  /** Every DATA of the peer that can be written draws one acknowledgement, of the last block
      written: a lost one is repaired when the block is sent again. */
  lemma DataAcknowledged(peer: Peer, s: Session, n: U16, payload: seq<Byte>, ioOk: bool)
    requires s.conn.op == Write && s.conn.peer == peer && s.index == s.conn.blknum && s.open
    requires n == s.index + 1 ==> ioOk
    ensures var t := Step(s, Datagram(peer, Data(n, payload), ioOk));
            && t.index == (if n == s.index + 1 then n else s.index)
            && t.sent == s.sent + [Sent(t.index, peer, Ack(t.index))]
            && (t.open <==> (n == s.index + 1 ==> |payload| >= 512))
            && t.conn.file.content == s.conn.file.content + if n == s.index + 1 then payload else []
  {
    var t := Step(s, Datagram(peer, Data(n, payload), ioOk));
    assert Tagged(t.index, [Send(peer, Ack(t.index))]) == [Sent(t.index, peer, Ack(t.index))];
  }

  /** Exactly what keeps a write connection open. */
  lemma WriteOpenIff(peer: Peer, s: Session, e: Event)
    requires WriteInv(peer, s) && s.open && TimerInv(s.conn)
    ensures Step(s, e).open <==>
            match e
            case Tick => Elapsed(s.conn.timer, s.conn.lastTime) < 100
            case Datagram(from, p, ioOk) =>
              && from == peer && !p.Error? && !p.Ack?
              && (p.Data? && p.block == s.index + 1 ==> ioOk && |p.payload| >= 512)
  {
    if e.Datagram? {
      OpenIff(s.conn, e.from, e.packet, e.ioOk);
    } else {
      SilentStep(s);
    }
  }

  /** In every run the acknowledgements climb from 0 to the number of blocks written, and since
      block numbers are compared without wrap-around no run writes more than 65535 blocks. */
  lemma {:induction false} WriteInvHolds(peer: Peer, es: seq<Event>)
    requires SizedRun(Opened(Write, peer, File([], 0)), es)
    ensures var s := Run(Opened(Write, peer, File([], 0)), es);
            WriteInv(peer, s) && |s.conn.file.content| <= 65535 * 512
  {
    var s := Opened(Write, peer, File([], 0));
    if es == [] {
      assert s.sent == [Sent(0, peer, Ack(0))] && s.sent[..0] == [];
    } else {
      WriteInvHolds(peer, es[..|es| - 1]);
      WriteInvStep(peer, Run(s, es[..|es| - 1]), es[|es| - 1]);
    }
  }
}
