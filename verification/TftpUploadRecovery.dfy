/**
 What loss costs an upload. From any state, how far client and server get with what they send from
 then on: everything that was on the way before is lost.
 */
module TftpUploadRecovery {
  import opened TftpWire
  import opened TftpConnection
  import opened TftpSession
  import opened TftpUpload
  import opened TftpUploadClient

  /** The client sends its block again, the network delivers one of the server's packets after the
      first n, or time goes by. */
  predicate Renewed(n: nat, s: System, a: Action) {
    match a
    case ToServer(k, _) => k == s.sending >= 1
    case ToClient(i) => n <= i < |s.session.sent|
    case Other(e) => e.Tick?
  }

  /** A run from s0 on, in which no packet is delivered that was sent before. */
  predicate RenewedRun(file: seq<Byte>, peer: Peer, s0: System, acts: seq<Action>) {
    acts == [] ||
    (RenewedRun(file, peer, s0, acts[..|acts| - 1])
     && Renewed(|s0.session.sent|, RunFrom(file, peer, s0, acts[..|acts| - 1]), acts[|acts| - 1]))
  }

  lemma RenewedSnoc(file: seq<Byte>, peer: Peer, s0: System, acts: seq<Action>, a: Action)
    requires RenewedRun(file, peer, s0, acts)
    requires Renewed(|s0.session.sent|, RunFrom(file, peer, s0, acts), a)
    ensures RenewedRun(file, peer, s0, acts + [a])
    ensures RunFrom(file, peer, s0, acts + [a]) == Apply(file, peer, RunFrom(file, peer, s0, acts), a)
  {
    assert (acts + [a])[..|acts + [a]| - 1] == acts;
  }

  ghost predicate Recovers(file: seq<Byte>, peer: Peer, s: System, acts: seq<Action>) {
    && RenewedRun(file, peer, s, acts)
    && var t := RunFrom(file, peer, s, acts); t.done && t.session.conn.file.content == file
  }

  /** The client is sending block n to an open connection. */
  ghost predicate Sending(file: seq<Byte>, peer: Peer, s: System, n: nat) {
    Inv(file, peer, s) && s.session.open && !s.done && s.sending == n >= 1
  }

  /** Block n has just been acknowledged, after the first n0 packets of the server. */
  ghost predicate JustAnswered(file: seq<Byte>, peer: Peer, t: System, n: U16, n0: nat) {
    && Inv(file, peer, t) && t.sending == n >= 1 && !t.done && n0 < |t.session.sent|
    && t.session.sent[|t.session.sent| - 1].packet == Ack(n)
    && (n < LastBlock(file) ==> t.session.open)
  }

  /** Sent once more, the block is acknowledged, whether or not it had been written before. */
  lemma Repeated(file: seq<Byte>, peer: Peer, s: System, n: nat, n0: nat)
    requires Sending(file, peer, s, n) && n <= 65535
    ensures Renewed(n0, s, ToServer(n, true))
    ensures var t := Apply(file, peer, s, ToServer(n, true));
            && Inv(file, peer, t) && t.sending == n && !t.done
            && t.session.sent == s.session.sent + [Sent(n, peer, Ack(n))]
            && (n < LastBlock(file) ==> t.session.open)
  {
    SmallNumber(n);
    InvStep(file, peer, s, ToServer(n, true));
    DataAcknowledged(peer, s.session, n, Block(file, n), true);
    BlockLength(file, n);
  }

  /** The fresh acknowledgement takes the client on. */
  lemma Answered(file: seq<Byte>, peer: Peer, t: System, n: nat, n0: nat)
    requires n <= 65535 && JustAnswered(file, peer, t, n, n0)
    ensures Renewed(n0, t, ToClient(|t.session.sent| - 1))
    ensures var u := Apply(file, peer, t, ToClient(|t.session.sent| - 1));
            && Inv(file, peer, u) && u.session == t.session
            && (if n == LastBlock(file) then u.done else Sending(file, peer, u, n + 1))
  {
    SmallNumber(n);
    InvStep(file, peer, t, ToClient(|t.session.sent| - 1));
  }

  lemma {:induction false} Onward(file: seq<Byte>, peer: Peer, s0: System, n: nat) returns (acts: seq<Action>)
    requires Sending(file, peer, s0, s0.sending) && s0.sending <= n <= LastBlock(file) <= 65535
    ensures RenewedRun(file, peer, s0, acts)
    ensures var s := RunFrom(file, peer, s0, acts);
            Sending(file, peer, s, n) && |s0.session.sent| <= |s.session.sent|
    decreases n
  {
    acts := [];
    if n > s0.sending {
      acts := Onward(file, peer, s0, n - 1);
      acts := OneBlock(file, peer, s0, acts, n - 1);
    }
  }

  lemma OneBlock(file: seq<Byte>, peer: Peer, s0: System, before: seq<Action>, n: nat) returns (acts: seq<Action>)
    requires RenewedRun(file, peer, s0, before)
    requires var s := RunFrom(file, peer, s0, before);
             Sending(file, peer, s, n) && |s0.session.sent| <= |s.session.sent|
    requires n <= LastBlock(file) <= 65535
    ensures RenewedRun(file, peer, s0, acts)
    ensures var s := RunFrom(file, peer, s0, acts);
            && Inv(file, peer, s) && |s0.session.sent| <= |s.session.sent|
            && (if n == LastBlock(file) then s.done else Sending(file, peer, s, n + 1))
  {
    var s := RunFrom(file, peer, s0, before);
    var first := ToServer(n, true);
    Repeated(file, peer, s, n, |s0.session.sent|);
    RenewedSnoc(file, peer, s0, before, first);
    acts := TakeAnswer(file, peer, s0, before + [first], n);
  }

  lemma TakeAnswer(file: seq<Byte>, peer: Peer, s0: System, before: seq<Action>, n: nat)
      returns (acts: seq<Action>)
    requires RenewedRun(file, peer, s0, before) && n <= LastBlock(file) <= 65535
    requires JustAnswered(file, peer, RunFrom(file, peer, s0, before), n, |s0.session.sent|)
    ensures RenewedRun(file, peer, s0, acts)
    ensures var s := RunFrom(file, peer, s0, acts);
            && Inv(file, peer, s) && |s0.session.sent| <= |s.session.sent|
            && (if n == LastBlock(file) then s.done else Sending(file, peer, s, n + 1))
  {
    var t := RunFrom(file, peer, s0, before);
    var a := ToClient(|t.session.sent| - 1);
    Answered(file, peer, t, n, |s0.session.sent|);
    RenewedSnoc(file, peer, s0, before, a);
    acts := before + [a];
  }

  /** Nothing gets a client on whose server is gone, or that has not been answered yet and has no
      block to repeat. */
  lemma {:induction false} Stuck(file: seq<Byte>, peer: Peer, s0: System, acts: seq<Action>)
    requires RenewedRun(file, peer, s0, acts) && !s0.done
    requires s0.session.conn.op == Write && (s0.session.open ==> TimerInv(s0.session.conn))
    requires !s0.session.open || s0.sending == 0
    ensures var s := RunFrom(file, peer, s0, acts);
            && !s.done && s.sending == s0.sending && s.session.sent == s0.session.sent
            && (s0.session.open || s.session == s0.session)
            && s.session.conn.op == Write && (s.session.open ==> TimerInv(s.session.conn))
  {
    if acts != [] {
      var before, a := acts[..|acts| - 1], acts[|acts| - 1];
      Stuck(file, peer, s0, before);
      var s := RunFrom(file, peer, s0, before);
      if a.Other? && s.session.open {
        QuietTick(s.session);
        TimerInvStep(s.session, a.event);
      }
    }
  }

  lemma {:induction false} TimerAlong(d: Delay, file: seq<Byte>, peer: Peer, acts: seq<Action>)
    requires Allowed(d, file, peer, acts)
    ensures var s := RunFrom(file, peer, Init(peer), acts);
            s.session.conn.op == Write && (s.session.open ==> TimerInv(s.session.conn))
  {
    if acts != [] {
      var before, a := acts[..|acts| - 1], acts[|acts| - 1];
      TimerAlong(d, file, peer, before);
      var s := RunFrom(file, peer, Init(peer), before);
      match a
      case ToServer(k, ioOk) =>
        if k >= 1 {
          TimerInvStep(s.session, DataEvent(file, peer, k, ioOk));
        }
      case ToClient(_) =>
      case Other(e) => TimerInvStep(s.session, e);
    }
  }

  /** After any run, of any network, an upload that is not done can still be brought to its end with
      nothing but newly sent packets exactly when the server's connection is open and the client
      has got as far as block 1. A lost acknowledgement is made good by sending the block again;
      the first, which answers the request, and the last, which closes the connection, are not. */
  lemma UploadRecoverableIff(d: Delay, file: seq<Byte>, peer: Peer, acts: seq<Action>)
    requires Allowed(d, file, peer, acts) && |file| < 65535 * 512
    ensures var s := RunFrom(file, peer, Init(peer), acts);
            !s.done ==> ((exists more :: Recovers(file, peer, s, more)) <==> s.session.open && s.sending >= 1)
  {
    var s := RunFrom(file, peer, Init(peer), acts);
    InvHolds(d, file, peer, acts);
    TimerAlong(d, file, peer, acts);
    if !s.done {
      if s.session.open && s.sending >= 1 {
        var more := Onward(file, peer, s, LastBlock(file));
        more := OneBlock(file, peer, s, more, LastBlock(file));
        var t := RunFrom(file, peer, s, more);
        JoinedIsPrefix(file, t.session.index);
        assert Recovers(file, peer, s, more);
      } else {
        forall more ensures !Recovers(file, peer, s, more) {
          if RenewedRun(file, peer, s, more) {
            Stuck(file, peer, s, more);
          }
        }
      }
    }
  }
}
