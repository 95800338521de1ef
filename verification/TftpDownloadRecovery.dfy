/**
 What loss costs a download. From any state, how far client and server get with what they send from
 then on: everything that was on the way before is lost.
 */
module TftpDownloadRecovery {
  import opened TftpWire
  import opened TftpConnection
  import opened TftpSession
  import opened TftpDownload

  /** The client sends its last acknowledgement again, the network delivers one of the server's
      packets after the first n, or time goes by. */
  predicate Renewed(n: nat, s: System, a: Action) {
    match a
    case ToServer(ack, _) => ack in s.acks && ack.index == s.accepted
    case ToClient(m) => n <= |s.session.sent| && m in s.session.sent[n..]
    case Other(e) => e.Tick?
  }

  /** A run from s0 on, in which no packet is delivered that was sent before. */
  predicate RenewedRun(s0: System, acts: seq<Action>) {
    acts == [] ||
    (RenewedRun(s0, acts[..|acts| - 1])
     && Renewed(|s0.session.sent|, RunFrom(s0, acts[..|acts| - 1]), acts[|acts| - 1]))
  }

  lemma RenewedSnoc(s0: System, acts: seq<Action>, a: Action)
    requires RenewedRun(s0, acts) && Renewed(|s0.session.sent|, RunFrom(s0, acts), a)
    ensures RenewedRun(s0, acts + [a])
    ensures RunFrom(s0, acts + [a]) == Apply(RunFrom(s0, acts), a)
  {
    assert (acts + [a])[..|acts + [a]| - 1] == acts;
  }

  ghost predicate Recovers(file: seq<Byte>, s: System, acts: seq<Action>) {
    && RenewedRun(s, acts)
    && var client := RunFrom(s, acts).client; client.done && client.received == file
  }

  function Silent(s: System): nat {
    Elapsed(s.session.conn.timer, s.session.conn.lastTime)
  }

  function LastAck(s: System): SentAck {
    SentAck(s.accepted, s.accepted % 0x1_0000)
  }

  // ---------- what holds along the way ----------

  /** The timer of an open connection is exact, and the last acknowledgement has been sent. */
  ghost predicate Kept(s: System) {
    (s.session.open ==> TimerInv(s.session.conn)) && (s.accepted >= 1 ==> LastAck(s) in s.acks)
  }

  lemma KeptStep(file: seq<Byte>, peer: Peer, s: System, a: Action)
    requires Inv(file, peer, s) && Kept(s)
    ensures Kept(Apply(s, a))
  {
    match a
    case ToServer(ack, ioOk) => TimerInvStep(s.session, AckEvent(s, ack.block, ioOk));
    case ToClient(_) =>
    case Other(e) => TimerInvStep(s.session, e);
  }

  lemma {:induction false} KeptAlong(d: Delay, file: seq<Byte>, peer: Peer, acts: seq<Action>)
    requires Short(d) || LastBlock(file) <= 0x1_0000
    requires Allowed(d, Init(file, peer), acts)
    ensures Kept(RunFrom(Init(file, peer), acts))
  {
    if acts == [] {
      TimerInvHolds(Read, peer, File(file, 0), []);
    } else {
      KeptAlong(d, file, peer, acts[..|acts| - 1]);
      InvHolds(d, file, peer, acts[..|acts| - 1]);
      KeptStep(file, peer, RunFrom(Init(file, peer), acts[..|acts| - 1]), acts[|acts| - 1]);
    }
  }

  /** An open connection and a client that wants its next block. */
  ghost predicate Going(file: seq<Byte>, peer: Peer, s: System) {
    Inv(file, peer, s) && Kept(s) && s.session.open && !s.client.done
  }

  /** The server has sent that block since its first n packets. */
  ghost predicate Waiting(file: seq<Byte>, peer: Peer, s: System, n: nat) {
    && Inv(file, peer, s) && Kept(s) && !s.client.done && s.session.index == s.accepted + 1
    && (s.session.index < LastBlock(file) ==> s.session.open)
    && var k := s.session.index;
       n < |s.session.sent| && s.session.sent[|s.session.sent| - 1] == Sent(k, peer, Data(k % 0x1_0000, Block(file, k)))
  }

  // ---------- one block ----------

  /** The server stands where the client does: the acknowledgement is sent again. */
  lemma AskAgain(file: seq<Byte>, peer: Peer, s: System, n: nat)
    requires Going(file, peer, s) && s.session.index == s.accepted >= 1 && n <= |s.session.sent|
    ensures var a := ToServer(LastAck(s), true); Renewed(n, s, a) && Waiting(file, peer, Apply(s, a), n)
  {
    var a := ToServer(LastAck(s), true);
    InvStep(file, peer, s, a);
    KeptStep(file, peer, s, a);
    MatchingAckAdvances(file, peer, s.session);
    MatchingAckSends(file, peer, s.session);
  }

  /** The server is one block ahead: a repeated acknowledgement does no more than to start its
      timer again. */
  lemma Remind(file: seq<Byte>, peer: Peer, s: System, n: nat)
    requires Going(file, peer, s) && s.session.index == s.accepted + 1 >= 2
    ensures var a := ToServer(LastAck(s), true); var t := Apply(s, a);
            && Renewed(n, s, a) && Going(file, peer, t) && Silent(t) == 0
            && t == s.(session := t.session) && t.session.index == s.session.index && t.session.sent == s.session.sent
  {
    var a := ToServer(LastAck(s), true);
    NextNumber(s.accepted);
    InvStep(file, peer, s, a);
    KeptStep(file, peer, s, a);
    StaleAckIgnored(file, peer, s.session, s.accepted % 0x1_0000, true);
  }

  lemma Wait(file: seq<Byte>, peer: Peer, s: System)
    requires Going(file, peer, s) && Silent(s) < 100
    ensures var t := Apply(s, Other(Tick));
            && Going(file, peer, t) && Silent(t) == Silent(s) + 1
            && t == s.(session := t.session) && t.session.index == s.session.index && t.session.sent == s.session.sent
  {
    InvStep(file, peer, s, Other(Tick));
    KeptStep(file, peer, s, Other(Tick));
    SilentStep(s.session);
    QuietTick(s.session);
  }

  /** Silence, until the 100th tick of it is over. */
  lemma {:induction false} WaitOut(file: seq<Byte>, peer: Peer, s0: System, before: seq<Action>, k: nat)
      returns (acts: seq<Action>)
    requires RenewedRun(s0, before) && Going(file, peer, RunFrom(s0, before))
    requires Silent(RunFrom(s0, before)) + k <= 100
    ensures RenewedRun(s0, acts)
    ensures var s := RunFrom(s0, before); var t := RunFrom(s0, acts);
            && Going(file, peer, t) && Silent(t) == Silent(s) + k
            && t == s.(session := t.session) && t.session.index == s.session.index && t.session.sent == s.session.sent
  {
    acts := before;
    if k > 0 {
      acts := WaitOut(file, peer, s0, before, k - 1);
      Wait(file, peer, RunFrom(s0, acts));
      RenewedSnoc(s0, acts, Other(Tick));
      acts := acts + [Other(Tick)];
    }
  }

  lemma Resent(file: seq<Byte>, peer: Peer, s: System, n: nat)
    requires Going(file, peer, s) && s.session.index == s.accepted + 1 && n <= |s.session.sent|
    requires 100 <= Silent(s) < 105
    ensures Renewed(n, s, Other(Tick)) && Waiting(file, peer, Apply(s, Other(Tick)), n)
    ensures Apply(s, Other(Tick)).accepted == s.accepted
  {
    InvStep(file, peer, s, Other(Tick));
    KeptStep(file, peer, s, Other(Tick));
    TickResends(file, peer, s.session);
  }

  lemma Taken(file: seq<Byte>, peer: Peer, s: System, n: nat)
    requires Waiting(file, peer, s, n)
    ensures var a := ToClient(s.session.sent[|s.session.sent| - 1]); var t := Apply(s, a);
            && Renewed(n, s, a) && Inv(file, peer, t) && Kept(t) && t.session == s.session
            && t.accepted == s.accepted + 1
  {
    var m := s.session.sent[|s.session.sent| - 1];
    assert m == s.session.sent[n..][|s.session.sent| - 1 - n];
    assert m in s.session.sent;
    InvStep(file, peer, s, ToClient(m));
    KeptStep(file, peer, s, ToClient(m));
  }

  /** Left in peace, the server sends its block again. */
  lemma AwaitResend(file: seq<Byte>, peer: Peer, s0: System, before: seq<Action>) returns (acts: seq<Action>)
    requires RenewedRun(s0, before) && Going(file, peer, RunFrom(s0, before))
    requires var s := RunFrom(s0, before);
             Silent(s) < 105 && s.session.index == s.accepted + 1 && |s0.session.sent| <= |s.session.sent|
    ensures RenewedRun(s0, acts) && Waiting(file, peer, RunFrom(s0, acts), |s0.session.sent|)
    ensures RunFrom(s0, acts).accepted == RunFrom(s0, before).accepted
  {
    acts := before;
    var d: nat := Silent(RunFrom(s0, before));
    if d < 100 {
      acts := WaitOut(file, peer, s0, before, 100 - d);
    }
    acts := ResendNow(file, peer, s0, acts);
  }

  lemma ResendNow(file: seq<Byte>, peer: Peer, s0: System, before: seq<Action>) returns (acts: seq<Action>)
    requires RenewedRun(s0, before) && Going(file, peer, RunFrom(s0, before))
    requires var s := RunFrom(s0, before);
             100 <= Silent(s) < 105 && s.session.index == s.accepted + 1 && |s0.session.sent| <= |s.session.sent|
    ensures RenewedRun(s0, acts) && Waiting(file, peer, RunFrom(s0, acts), |s0.session.sent|)
    ensures RunFrom(s0, acts).accepted == RunFrom(s0, before).accepted
  {
    Resent(file, peer, RunFrom(s0, before), |s0.session.sent|);
    RenewedSnoc(s0, before, Other(Tick));
    acts := before + [Other(Tick)];
  }

  lemma RemindAndAwait(file: seq<Byte>, peer: Peer, s0: System, before: seq<Action>) returns (acts: seq<Action>)
    requires RenewedRun(s0, before) && Going(file, peer, RunFrom(s0, before))
    requires var s := RunFrom(s0, before);
             s.session.index == s.accepted + 1 >= 2 && |s0.session.sent| <= |s.session.sent|
    ensures RenewedRun(s0, acts) && Waiting(file, peer, RunFrom(s0, acts), |s0.session.sent|)
    ensures RunFrom(s0, acts).accepted == RunFrom(s0, before).accepted
  {
    var s := RunFrom(s0, before);
    var a := ToServer(LastAck(s), true);
    Remind(file, peer, s, |s0.session.sent|);
    RenewedSnoc(s0, before, a);
    acts := AwaitResend(file, peer, s0, before + [a]);
  }

  /** The server sends the block that the client wants. */
  lemma Fetch(file: seq<Byte>, peer: Peer, s0: System, before: seq<Action>) returns (acts: seq<Action>)
    requires RenewedRun(s0, before) && Going(file, peer, RunFrom(s0, before))
    requires var s := RunFrom(s0, before);
             (s.accepted >= 1 || Silent(s) < 105) && |s0.session.sent| <= |s.session.sent|
    ensures RenewedRun(s0, acts) && Waiting(file, peer, RunFrom(s0, acts), |s0.session.sent|)
    ensures RunFrom(s0, acts).accepted == RunFrom(s0, before).accepted
  {
    var s := RunFrom(s0, before);
    if s.session.index == s.accepted {
      AskAgain(file, peer, s, |s0.session.sent|);
      RenewedSnoc(s0, before, ToServer(LastAck(s), true));
      acts := before + [ToServer(LastAck(s), true)];
    } else if s.accepted >= 1 {
      acts := RemindAndAwait(file, peer, s0, before);
    } else {
      acts := AwaitResend(file, peer, s0, before);
    }
  }

  lemma {:induction false} Onward(file: seq<Byte>, peer: Peer, s0: System, n: nat) returns (acts: seq<Action>)
    requires Going(file, peer, s0) && (s0.accepted >= 1 || Silent(s0) < 105)
    requires s0.accepted <= n <= LastBlock(file)
    ensures RenewedRun(s0, acts)
    ensures var s := RunFrom(s0, acts);
            && Inv(file, peer, s) && Kept(s) && s.accepted == n && |s0.session.sent| <= |s.session.sent|
            && (n < LastBlock(file) ==> Going(file, peer, s) && (n >= 1 || Silent(s) < 105))
    decreases n
  {
    acts := [];
    if n > s0.accepted {
      acts := Onward(file, peer, s0, n - 1);
      acts := Fetch(file, peer, s0, acts);
      var s := RunFrom(s0, acts);
      Taken(file, peer, s, |s0.session.sent|);
      var a := ToClient(s.session.sent[|s.session.sent| - 1]);
      RenewedSnoc(s0, acts, a);
      acts := acts + [a];
    }
  }

  // ---------- when it is too late ----------

  /** The server is gone, or will be at the next tick, and the client has nothing to send. */
  ghost predicate Over(s: System) {
    !s.session.open || (s.accepted == 0 && Silent(s) >= 105 && s.session.conn.op == Read && TimerInv(s.session.conn))
  }

  lemma LastTick(s: System)
    requires Over(s)
    ensures var t := Apply(s, Other(Tick)); t == s.(session := t.session) && t.session.sent == s.session.sent && Over(t)
  {
    if s.session.open {
      SilentStep(s.session);
      assert Tagged(s.session.index, []) == [];
    }
  }

  lemma {:induction false} Stuck(s0: System, acts: seq<Action>)
    requires RenewedRun(s0, acts) && Over(s0) && forall k <- s0.acks :: k.index >= 1
    ensures var s := RunFrom(s0, acts);
            s == s0.(session := s.session) && s.session.sent == s0.session.sent && Over(s)
  {
    if acts != [] {
      var before, a := acts[..|acts| - 1], acts[|acts| - 1];
      Stuck(s0, before);
      var s := RunFrom(s0, before);
      if a.Other? {
        LastTick(s);
      }
    }
  }

  /** After any run in which numbers were unambiguous, a download that is not done can still be
      brought to its end with nothing but newly sent packets exactly when the server's connection is
      open and the client has a block to acknowledge again, or the server has a retry left. What the
      server then cannot make good is the loss of the last block, after which it closes. */
  lemma DownloadRecoverableIff(d: Delay, file: seq<Byte>, peer: Peer, acts: seq<Action>)
    requires Short(d) || |file| < 0x1_0000 * 512
    requires Allowed(d, Init(file, peer), acts)
    ensures var s := RunFrom(Init(file, peer), acts);
            !s.client.done ==>
              ((exists more :: Recovers(file, s, more)) <==> s.session.open && (s.accepted >= 1 || Silent(s) < 105))
  {
    var s := RunFrom(Init(file, peer), acts);
    InvHolds(d, file, peer, acts);
    KeptAlong(d, file, peer, acts);
    if !s.client.done {
      if s.session.open && (s.accepted >= 1 || Silent(s) < 105) {
        var more := Onward(file, peer, s, LastBlock(file));
        InvFaithful(file, peer, RunFrom(s, more));
        assert Recovers(file, s, more);
      } else {
        forall more ensures !Recovers(file, s, more) {
          if RenewedRun(s, more) {
            Stuck(s, more);
          }
        }
      }
    }
  }
}
