/**
 Runs of the whole server, as a history of what happened to it. Connections come and go; each one
 runs exactly as it would alone, and what holds in every run of one connection holds of every live
 connection at once. `TftpServer` keeps such a history beside its records and proves that the
 records are what the history says.
 */
module TftpConcurrency {
  import opened TftpWire
  import opened TftpConnection
  import opened TftpSession
  import opened TftpUpload

  datatype ServerEvent =
    | Accept(pcb: nat, op: Op, peer: Peer, content: seq<Byte>)  // a new pcb: never one in use
    | On(pcb: nat, event: Event)

  type Table = map<nat, Session>

  /** A file opened for writing starts out empty. */
  function FileFor(op: Op, content: seq<Byte>): File {
    File(if op.Read? then content else [], 0)
  }

  function TableStep(t: Table, e: ServerEvent): Table {
    match e
    case Accept(u, op, peer, content) =>
      if u in t then t else t[u := Opened(op, peer, FileFor(op, content))]
    case On(u, ev) =>
      if u !in t then t else
      var s := Step(t[u], ev);
      if s.open then t[u := s] else t - {u}
  }

  function TableRun(es: seq<ServerEvent>): Table {
    if es == [] then map[] else TableStep(TableRun(es[..|es| - 1]), es[|es| - 1])
  }

  // ---------- each connection on its own ----------

  /** The events of one connection. */
  function Own(u: nat, es: seq<ServerEvent>): seq<Event> {
    if es == [] then [] else
    var last := es[|es| - 1];
    Own(u, es[..|es| - 1]) + if last.On? && last.pcb == u then [last.event] else []
  }

  lemma OwnSnoc(u: nat, es: seq<ServerEvent>, e: ServerEvent)
    ensures Own(u, es + [e]) == Own(u, es) + if e.On? && e.pcb == u then [e.event] else []
  {
    assert (es + [e])[..|es + [e]| - 1] == es;
  }

  /** s is what event i opened on pcb u, after the pcb's own later events and no others. */
  ghost predicate LoneRun(es: seq<ServerEvent>, i: nat, u: nat, s: Session) {
    && i < |es| && es[i].Accept? && es[i].pcb == u
    && s == Run(Opened(es[i].op, es[i].peer, FileFor(es[i].op, es[i].content)), Own(u, es[i + 1..]))
  }

  lemma LoneRunOn(es: seq<ServerEvent>, e: ServerEvent, i: nat, u: nat, s: Session)
    requires LoneRun(es, i, u, s)
    ensures LoneRun(es + [e], i, u, if e.On? && e.pcb == u then Step(s, e.event) else s)
  {
    assert (es + [e])[i + 1..] == es[i + 1..] + [e];
    OwnSnoc(u, es[i + 1..], e);
    var own := Own(u, es[i + 1..]);
    if e.On? && e.pcb == u {
      RunSnoc(Opened(es[i].op, es[i].peer, FileFor(es[i].op, es[i].content)), own, e.event);
    } else {
      assert own + [] == own;
    }
  }

  /** No interference: whatever happens to the others, a live connection is in the state that its
      own events alone lead to. */
  lemma {:induction false} LiveRunsAlone(es: seq<ServerEvent>, u: nat) returns (i: nat)
    requires u in TableRun(es)
    ensures LoneRun(es, i, u, TableRun(es)[u])
  {
    var before := es[..|es| - 1];
    var e := es[|es| - 1];
    assert es == before + [e];
    if u in TableRun(before) {
      i := LiveRunsAlone(before, u);
      LoneRunOn(before, e, i, u, TableRun(before)[u]);
    } else {
      i := |before|;
      assert es[i + 1..] == [];
    }
  }

  /** The events of pcb u since event i all come from a peer that is uploading this file. */
  ghost predicate Uploading(es: seq<ServerEvent>, i: nat, u: nat, file: seq<Byte>) {
    i < |es| && es[i].Accept? && es[i].op.Write? && HonestRun(file, es[i].peer, Own(u, es[i + 1..]))
  }

  /** Then, whatever the other connections do, what is written is a prefix of that file. */
  lemma LoneUpload(es: seq<ServerEvent>, i: nat, u: nat, s: Session, file: seq<Byte>)
    requires LoneRun(es, i, u, s) && Uploading(es, i, u, file)
    ensures UploadInv(file, es[i].peer, s) && s.conn.file.content <= file
  {
    UploadInvHolds(file, es[i].peer, Own(u, es[i + 1..]));
    JoinedIsPrefix(file, s.index);
  }

  // ---------- what holds of every live connection ----------

  /** The timer is exact; a read connection has only ever sent the right blocks of its file; a
      write connection's acknowledgements climb with what it has written. */
  ghost predicate GoodSession(s: Session) {
    var peer, file := s.conn.peer, s.conn.file.content;
    && s.open && TimerInv(s.conn)
    && (s.conn.op.Read? ==>
          ReadInv(file, peer, s) && ReadSentInv(file, peer, s.sent, s.index) && ReadCountInv(s))
    && (s.conn.op.Write? ==> WriteInv(peer, s))
  }

  ghost predicate Good(t: Table) {
    forall u | u in t :: GoodSession(t[u])
  }

  lemma GoodOpened(op: Op, peer: Peer, content: seq<Byte>)
    ensures GoodSession(Opened(op, peer, FileFor(op, content)))
  {
    TimerInvHolds(op, peer, FileFor(op, content), []);
    if op.Read? {
      ReadInvHolds(content, peer, []);
    } else {
      WriteInvHolds(peer, []);
    }
  }

  lemma GoodAfter(s: Session, e: Event)
    requires GoodSession(s) && Sized(s.conn, e) && Step(s, e).open
    ensures GoodSession(Step(s, e))
  {
    var peer, file := s.conn.peer, s.conn.file.content;
    TimerInvStep(s, e);
    if s.conn.op.Read? {
      ReadInvStep(file, peer, s, e);
      ReadSentInvStep(file, peer, s, e);
    } else {
      WriteInvStep(peer, s, e);
    }
  }

  // ---------- the records alone ----------

  function Conns(t: Table): map<nat, Conn> {
    map u | u in t :: t[u].conn
  }

  /** What becomes of the records when connection u's handler comes to outcome o. */
  function Outlived(live: map<nat, Conn>, u: nat, o: Outcome): map<nat, Conn> {
    if o.open then live[u := o.conn] else live - {u}
  }

  /** What an event does to the records, by the handlers alone. */
  function LiveStep(live: map<nat, Conn>, e: ServerEvent): map<nat, Conn> {
    match e
    case Accept(u, op, peer, content) =>
      if u in live then live else live[u := Start(op, peer, FileFor(op, content), true).conn]
    case On(u, ev) =>
      if u !in live then live else Outlived(live, u, Handle(live[u], ev))
  }

  function LiveRun(es: seq<ServerEvent>): map<nat, Conn> {
    if es == [] then map[] else LiveStep(LiveRun(es[..|es| - 1]), es[|es| - 1])
  }

  /** A block that is about to be written has the size the source relies on. */
  predicate SizedFor(live: map<nat, Conn>, e: ServerEvent) {
    e.On? && e.pcb in live ==> Sized(live[e.pcb], e.event)
  }

  predicate SizedHistory(es: seq<ServerEvent>) {
    es == [] || (SizedHistory(es[..|es| - 1]) && SizedFor(LiveRun(es[..|es| - 1]), es[|es| - 1]))
  }

  /** These records are what this history has led to. */
  predicate Tracks(live: map<nat, Conn>, es: seq<ServerEvent>) {
    live == LiveRun(es) && SizedHistory(es)
  }

  lemma TracksOn(live: map<nat, Conn>, es: seq<ServerEvent>, e: ServerEvent)
    requires Tracks(live, es) && SizedFor(live, e)
    ensures Tracks(LiveStep(live, e), es + [e])
  {
    assert (es + [e])[..|es + [e]| - 1] == es;
  }

  lemma TracksHandled(live: map<nat, Conn>, es: seq<ServerEvent>, u: nat, e: Event, o: Outcome)
    requires Tracks(live, es) && u in live && Sized(live[u], e) && o == Handle(live[u], e)
    ensures Tracks(Outlived(live, u, o), es + [On(u, e)])
  {
    TracksOn(live, es, On(u, e));
  }

  lemma TracksAccepted(live: map<nat, Conn>, es: seq<ServerEvent>, u: nat, op: Op, peer: Peer, content: seq<Byte>)
    requires Tracks(live, es) && u !in live
    ensures Tracks(live[u := Start(op, peer, FileFor(op, content), true).conn], es + [Accept(u, op, peer, content)])
  {
    TracksOn(live, es, Accept(u, op, peer, content));
  }

  lemma TableFollows(t: Table, e: ServerEvent)
    requires Good(t)
    ensures Conns(TableStep(t, e)) == LiveStep(Conns(t), e)
  {
  }

  lemma GoodWith(t: Table, u: nat, s: Session)
    requires Good(t) && GoodSession(s)
    ensures Good(t[u := s])
  {
  }

  lemma GoodWithout(t: Table, u: nat)
    requires Good(t)
    ensures Good(t - {u})
  {
  }

  lemma GoodStep(t: Table, e: ServerEvent)
    requires Good(t) && SizedFor(Conns(t), e)
    ensures Good(TableStep(t, e))
  {
    var u := e.pcb;
    if e.Accept? {
      var s := Opened(e.op, e.peer, FileFor(e.op, e.content));
      GoodOpened(e.op, e.peer, e.content);
      GoodWith(t, u, s);
    } else if u in t {
      var s := Step(t[u], e.event);
      if s.open {
        GoodAfter(t[u], e.event);
        GoodWith(t, u, s);
      } else {
        GoodWithout(t, u);
      }
    }
  }

  /** In every history the records are those of the sessions, and all is well with every one. */
  lemma {:induction false} HistoryGood(es: seq<ServerEvent>)
    requires SizedHistory(es)
    ensures Conns(TableRun(es)) == LiveRun(es) && Good(TableRun(es))
  {
    if es != [] {
      HistoryGood(es[..|es| - 1]);
      TableFollows(TableRun(es[..|es| - 1]), es[|es| - 1]);
      GoodStep(TableRun(es[..|es| - 1]), es[|es| - 1]);
    }
  }

  /** What the handler needs of a datagram is enough. */
  lemma AdmissibleSized(c: Conn, from: Peer, b: seq<Byte>, ioOk: bool)
    requires from == c.peer ==> Admissible(c, b, ioOk)
    ensures Sized(c, Datagram(from, Decode(b), ioOk))
  {
  }
}
