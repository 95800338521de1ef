/**
 A write transfer, end to end. The client's DATA n always carries block n of its file; what it
 sends when, and what the network loses, repeats, delays or reorders, is left open: any
 sequence of events will do. Other hosts and other packets may interfere.
 */
module TftpUpload {
  import opened TftpWire
  import opened TftpConnection
  import opened TftpSession

  /** DATA n from the peer, if it arrives, carries block n of the client's file. */
  predicate Honest(file: seq<Byte>, peer: Peer, e: Event) {
    e.Datagram? && e.from == peer && e.packet.Data? && e.packet.block >= 1
    ==> e.packet.payload == Block(file, e.packet.block)
  }

  ghost predicate HonestRun(file: seq<Byte>, peer: Peer, es: seq<Event>) {
    forall e <- es :: Honest(file, peer, e)
  }

  function Upload(peer: Peer, es: seq<Event>): Session {
    Run(Opened(Write, peer, File([], 0)), es)
  }

  /** The server's file is blocks 1..index of the client's, each written once and in order;
      what an acknowledgement promises has been written. */
  ghost predicate UploadInv(file: seq<Byte>, peer: Peer, s: Session) {
    && s.conn.op == Write && s.conn.peer == peer
    && s.index == s.conn.blknum
    && s.conn.file.content == Joined(file, s.index)
    && s.index <= LastBlock(file)
    && (s.open ==> s.index < LastBlock(file))
    && (forall m <- s.sent :: m.packet.Ack? ==> m.packet.block <= s.index)
  }

  lemma UploadInvAfter(file: seq<Byte>, peer: Peer, s: Session, e: Event, o: Outcome)
    requires UploadInv(file, peer, s) && s.open && WriteOutcome(s.conn, e, o)
    requires Honest(file, peer, e) || s.index == 65535
    ensures UploadInv(file, peer, After(s, e, o))
  {
    BlockLength(file, s.index + 1);
    var n := NextIndex(s.index, s.conn, o);
    forall m | m in Tagged(n, o.sent) ensures m.packet.Ack? ==> m.packet.block <= n {
      var i :| 0 <= i < |o.sent| && m == Tagged(n, o.sent)[i];
      assert o.sent[i] in o.sent;
    }
  }

  /** Once it has written block 65535 the server takes nothing more, so it no longer matters
      what arrives. */
  lemma UploadInvStep(file: seq<Byte>, peer: Peer, s: Session, e: Event)
    requires UploadInv(file, peer, s)
    requires Honest(file, peer, e) || s.index == 65535
    ensures UploadInv(file, peer, Step(s, e))
  {
    if s.open {
      HandleWrite(s.conn, e);
      UploadInvAfter(file, peer, s, e, Handle(s.conn, e));
    }
  }

  lemma {:induction false} UploadInvHolds(file: seq<Byte>, peer: Peer, es: seq<Event>)
    requires HonestRun(file, peer, es)
    ensures UploadInv(file, peer, Upload(peer, es))
  {
    if es != [] {
      UploadInvHolds(file, peer, es[..|es| - 1]);
      UploadInvStep(file, peer, Upload(peer, es[..|es| - 1]), es[|es| - 1]);
    } else {
      assert Upload(peer, es).sent == [Sent(0, peer, Ack(0))];
    }
  }

  /** Upload integrity over every run. ACK n was only ever sent with blocks 1..n in the file,
      and a connection that closes on a block it has written has the whole file. */
  lemma UploadIntegrity(file: seq<Byte>, peer: Peer, es: seq<Event>, e: Event)
    requires HonestRun(file, peer, es) && Honest(file, peer, e)
    ensures var s := Upload(peer, es); var t := Step(s, e);
            && s.conn.file.content == Joined(file, s.conn.blknum)
            && s.conn.file.content <= file
            && (forall m <- s.sent :: m.packet.Ack? ==> Joined(file, m.packet.block) <= s.conn.file.content)
            && (!t.open && t.index > s.index ==> t.conn.file.content == file)
  {
    var s := Upload(peer, es);
    var t := Step(s, e);
    UploadInvHolds(file, peer, es);
    UploadInvStep(file, peer, s, e);
    JoinedIsPrefix(file, s.index);
    forall m | m in s.sent && m.packet.Ack? ensures Joined(file, m.packet.block) <= s.conn.file.content {
      JoinedIsPrefix(file, m.packet.block);
    }
    if !t.open && t.index > s.index {
      HandleWrite(s.conn, e);
      ShortBlockEndsFile(file, t.index);
    }
  }

  // ---------- which files can be uploaded at all ----------

  /** Blocks 1..n, in order, nothing lost. */
  function Straight(file: seq<Byte>, peer: Peer, n: nat): seq<Event>
    requires n <= 65535
  {
    if n == 0 then []
    else Straight(file, peer, n - 1) + [Datagram(peer, Data(n, Block(file, n)), true)]
  }

  /** The next block, if it arrives and can be written, is taken. */
  lemma NextBlockTaken(file: seq<Byte>, peer: Peer, s: Session, n: U16)
    requires UploadInv(file, peer, s) && s.open && n == s.index + 1
    ensures var t := Step(s, Datagram(peer, Data(n, Block(file, n)), true));
            t.index == n && (t.open <==> n < LastBlock(file))
  {
    BlockLength(file, n);
  }

  lemma {:induction false} StraightArrives(file: seq<Byte>, peer: Peer, n: nat)
    requires n <= 65535 && n <= LastBlock(file)
    ensures HonestRun(file, peer, Straight(file, peer, n))
    ensures var s := Upload(peer, Straight(file, peer, n));
            s.index == n && (s.open <==> n < LastBlock(file))
  {
    if n > 0 {
      StraightArrives(file, peer, n - 1);
      var before := Straight(file, peer, n - 1);
      RunSnoc(Opened(Write, peer, File([], 0)), before, Datagram(peer, Data(n, Block(file, n)), true));
      UploadInvHolds(file, peer, before);
      NextBlockTaken(file, peer, Upload(peer, before), n);
    }
  }

  /** After some events e is a block that the server writes, that ends the transfer, and that
      leaves it with the client's whole file. */
  ghost predicate Completes(file: seq<Byte>, peer: Peer, es: seq<Event>, e: Event) {
    && HonestRun(file, peer, es) && Honest(file, peer, e)
    && var s := Upload(peer, es); var t := Step(s, e);
       !t.open && t.index > s.index && t.conn.file.content == file
  }

  /** The block that ends a transfer is the client's last, and its index is a 16-bit number. */
  lemma CompletedAtLast(file: seq<Byte>, peer: Peer, es: seq<Event>, e: Event)
    requires Completes(file, peer, es, e)
    ensures LastBlock(file) == Upload(peer, es).index + 1 <= 65535
  {
    var s := Upload(peer, es);
    UploadInvHolds(file, peer, es);
    UploadInvStep(file, peer, s, e);
    HandleWrite(s.conn, e);
    BlockLength(file, s.index + 1);
  }

  lemma StraightCompletes(file: seq<Byte>, peer: Peer)
    requires LastBlock(file) <= 65535
    ensures exists es, e :: Completes(file, peer, es, e)
  {
    var n := LastBlock(file);
    var es, e := Straight(file, peer, n - 1), Datagram(peer, Data(n, Block(file, n)), true);
    StraightArrives(file, peer, n - 1);
    StraightArrives(file, peer, n);
    assert Straight(file, peer, n) == es + [e];
    RunSnoc(Opened(Write, peer, File([], 0)), es, e);
    UploadIntegrity(file, peer, es, e);
    assert Completes(file, peer, es, e);
  }

  /** A file can be uploaded exactly when it has at most 65535 blocks, the last one short:
      the server compares block numbers without wrap-around and then stops accepting. */
  lemma UploadableIff(file: seq<Byte>, peer: Peer)
    ensures (exists es, e :: Completes(file, peer, es, e)) <==> |file| < 65535 * 512
  {
    if |file| < 65535 * 512 {
      StraightCompletes(file, peer);
    } else {
      forall es, e ensures !Completes(file, peer, es, e) {
        if Completes(file, peer, es, e) {
          CompletedAtLast(file, peer, es, e);
        }
      }
    }
  }
}
