/**
 The whole server: any number of concurrent connections, and the resources they hold.

 lwIP and the file system appear as what they lend out: received buffers, memory blocks, udp
 pcbs, timer entries and file handles. Giving one back requires that it is held, so nothing
 below can be freed twice.
 */
module TftpServer {
  import opened TftpWire
  import opened TftpConnection
  import opened TftpRequest
  import opened TftpSession
  import opened TftpUpload
  import opened TftpConcurrency

  datatype Option<T> = None | Some(value: T)

  /** What the environment grants to a request: memory, an open file (its handle and, for a read,
      its content), a pcb, a first read. */
  datatype Grants = Grants(memory: bool, file: Option<(nat, seq<Byte>)>, pcb: Option<nat>, readOk: bool)

  predicate Opens(r: Parsed, g: Grants) {
    r.Accepted? && g.memory && g.file.Some? && g.pcb.Some?
  }

  function OpOf(opcode: U16): Op {
    if opcode == OP_WRQ then Write else Read
  }

  /** Identifiers of newly granted pcbs and files are not in use. */
  predicate Grantable(r: Resources, g: Grants) {
    (g.pcb.Some? ==> g.pcb.value !in r.pcbs) && (g.file.Some? ==> g.file.value.0 !in r.handles)
  }

  /** The error code of a request that opens nothing. */
  function Refusal(r: Parsed, g: Grants): U16
    requires !Opens(r, g)
  {
    if r.Rejected? then r.code
    else if g.memory && g.file.None? then ERR_FILE_NOT_FOUND
    else ERR_NOTDEFINED
  }

  /** What a request that is granted leads to: a read of the file, with block 1 on its way, unless
      that could not be read; or a write of an empty file, with ACK 0 on its way. */
  predicate Begins(
      opcode: U16, from: Peer, file: seq<Byte>, readOk: bool, live: map<nat, Conn>, u: nat, sent: seq<Send>)
  {
    && (opcode == 1 && readOk ==>
          && sent == [Send(from, Data(1, Block(file, 1)))]
          && u in live && live[u] == Conn(Read, from, File(file, Min(512, |file|)), Block(file, 1), 1, 0, 0, 0))
    && (opcode == 1 && !readOk ==> sent == [Send(from, Error(2))] && u !in live)
    && (opcode == 2 ==>
          && sent == [Send(from, Ack(0))]
          && u in live && live[u] == Conn(Write, from, File([], 0), [], 0, 0, 0, 0))
  }

  lemma Opening(opcode: U16, from: Peer, file: seq<Byte>, readOk: bool, live: map<nat, Conn>, u: nat)
    requires u !in live
    ensures var op := OpOf(opcode); var o := Start(op, from, FileFor(op, file), readOk);
            Begins(opcode, from, file, readOk, if o.open then live[u := o.conn] else live, u, o.sent)
  {
    if opcode == 1 {
      assert ReadChunk(File(file, 0)) == Block(file, 1);
    }
  }

  /** The code that a refused request is answered with. */
  lemma RefusalCodes(r: Parsed, g: Grants)
    requires !Opens(r, g)
    ensures r.Rejected? ==> Refusal(r, g) == r.code
    ensures r.Accepted? && !g.memory ==> Refusal(r, g) == 0
    ensures r.Accepted? && g.memory && g.file == None ==> Refusal(r, g) == 1
    ensures r.Accepted? && g.memory && g.file.Some? ==> Refusal(r, g) == 0
  {
  }

  datatype Resources = Resources(
    conns: map<nat, Connection>,  // each pcb's recv_arg
    pcbs: set<nat>,
    timers: multiset<nat>,  // armed tftp_server_tmr entries, by their argument
    blocks: nat,  // from mem_malloc
    handles: set<nat>)  // open files
  {
    function Untimeout(u: nat): Resources {
      this.(timers := timers - multiset{u})
    }

    function Timeout(u: nat): Resources {
      this.(timers := timers + multiset{u})
    }

    function MemAlloc(): Resources {
      this.(blocks := blocks + 1)
    }

    function OpenFile(h: nat): Resources {
      this.(handles := handles + {h})
    }

    function AddPcb(u: nat, c: Connection): Resources {
      this.(pcbs := pcbs + {u}, conns := conns[u := c])
    }

    function CloseFile(h: nat): Resources
      requires h in handles
    {
      this.(handles := handles - {h})
    }

    function MemFree(): Resources
      requires blocks > 0
    {
      this.(blocks := blocks - 1)
    }

    function RemovePcb(u: nat): Resources
      requires u in pcbs
    {
      this.(pcbs := pcbs - {u}, conns := conns - {u})
    }
  }

  ghost predicate Apart(c: Connection, d: Connection) {
    c != d && c.data != d.data && c.handle != d.handle
  }

  ghost predicate AllApart(conns: map<nat, Connection>) {
    && (forall u | u in conns :: conns[u].Valid())
    && (forall u, v {:trigger Apart(conns[u], conns[v])} | u in conns && v in conns && u != v ::
          Apart(conns[u], conns[v]))
  }

  /** Connections, pcbs, timers, memory blocks and open files are in one-to-one correspondence,
      and no two connections share a record, a buffer or a file handle. */
  ghost predicate Balanced(r: Resources) {
    && r.pcbs == r.conns.Keys
    && r.timers == multiset(r.conns.Keys)
    && r.blocks == |r.conns|
    && |r.handles| == |r.conns|
    && (forall u | u in r.conns :: r.conns[u].handle in r.handles)
    && AllApart(r.conns)
  }

  /** What close_tftp_connection gives back is held. */
  predicate Closable(r: Resources, u: nat) {
    u in r.conns && u in r.pcbs && r.blocks > 0 && r.conns[u].handle in r.handles
  }

  /** close_tftp_connection gives back one timer entry, one file, one record and one pcb. */
  function Closed(r: Resources, u: nat): Resources
    requires Closable(r, u)
  {
    r.Untimeout(u).CloseFile(r.conns[u].handle).MemFree().RemovePcb(u)
  }

  lemma MultisetWithout(s: set<nat>, u: nat)
    requires u in s
    ensures multiset(s) - multiset{u} == multiset(s - {u}) && |s - {u}| == |s| - 1
  {
  }

  lemma MultisetWith(s: set<nat>, u: nat)
    requires u !in s
    ensures multiset(s) + multiset{u} == multiset(s + {u}) && |s + {u}| == |s| + 1
  {
  }

  lemma ApartWith(conns: map<nat, Connection>, u: nat, c: Connection)
    requires AllApart(conns) && c.Valid()
    requires forall v | v in conns :: Apart(conns[v], c)
    ensures AllApart(conns[u := c])
  {
    var t := conns[u := c];
    forall v, w | v in t && w in t && v != w ensures Apart(t[v], t[w]) {
      if v != u && w != u {
        assert Apart(conns[v], conns[w]);
      } else {
        assert Apart(conns[if v == u then w else v], c);
      }
    }
  }

  lemma ApartWithout(conns: map<nat, Connection>, u: nat)
    requires AllApart(conns)
    ensures AllApart(conns - {u})
  {
    var t := conns - {u};
    forall v, w | v in t && w in t && v != w ensures Apart(t[v], t[w]) {
      assert Apart(conns[v], conns[w]);
    }
  }

  lemma ClosedBalanced(r: Resources, u: nat)
    requires Balanced(r) && u in r.conns
    ensures Closable(r, u) && Balanced(Closed(r, u))
  {
    assert (r.conns - {u}).Keys == r.conns.Keys - {u};
    MultisetWithout(r.conns.Keys, u);
    MultisetWithout(r.handles, r.conns[u].handle);
    ApartWithout(r.conns, u);
    forall v | v in r.conns && v != u ensures r.conns[v].handle != r.conns[u].handle {
      assert Apart(r.conns[v], r.conns[u]);
    }
  }

  /** What a handler leaves, its connection closed or not, is balanced. */
  lemma HandledBalanced(r: Resources, u: nat, open: bool)
    requires Balanced(r) && u in r.conns
    ensures Closable(r, u) && u in r.timers && Balanced(if open then r else Closed(r, u))
  {
    ClosedBalanced(r, u);
  }

  /** What a new connection takes: one of each. */
  function Registered(r: Resources, u: nat, c: Connection): Resources {
    r.MemAlloc().OpenFile(c.handle).AddPcb(u, c).Timeout(u)
  }

  lemma RegisteredBalanced(r: Resources, u: nat, c: Connection)
    requires Balanced(r) && u !in r.conns && c.handle !in r.handles && c.Valid()
    requires forall v | v in r.conns :: Apart(r.conns[v], c)
    ensures Balanced(Registered(r, u, c))
  {
    var t := Registered(r, u, c);
    assert t.conns.Keys == r.conns.Keys + {u};
    MultisetWith(r.conns.Keys, u);
    MultisetWith(r.handles, c.handle);
    ApartWith(r.conns, u, c);
    assert t.timers == multiset(t.conns.Keys) && |t.handles| == |t.conns|;
  }

  /** Closing a connection undoes opening it. */
  lemma CloseUndoesRegister(r: Resources, u: nat, c: Connection)
    requires u !in r.conns && u !in r.pcbs && c.handle !in r.handles
    ensures Closed(Registered(r, u, c), u) == r
  {
    var t := Closed(Registered(r, u, c), u);
    assert t.conns == r.conns;
    assert t.handles == r.handles && t.pcbs == r.pcbs && t.timers == r.timers;
  }

  /** No connection has this file open. */
  ghost predicate Unused(r: Resources, handle: nat) {
    forall v | v in r.conns :: r.conns[v].handle != handle
  }

  lemma RearmedTimers(r: Resources, u: nat)
    requires u in r.timers
    ensures r.Untimeout(u).Timeout(u) == r
  {
    assert r.Untimeout(u).Timeout(u).timers == r.timers;
  }

  lemma OthersOutlive(r: Resources, live: map<nat, Conn>, u: nat, o: Outcome)
    requires Closable(r, u) && live.Keys == r.conns.Keys
    ensures var t := if o.open then r else Closed(r, u); var after := Outlived(live, u, o);
            forall v | v in r.conns && v != u ::
              v in t.conns && t.conns[v] == r.conns[v] && v in after && after[v] == live[v]
  {
  }

  lemma OutlivedNew(live: map<nat, Conn>, u: nat, c: Conn, o: Outcome)
    requires u !in live
    ensures Outlived(live[u := c], u, o) == if o.open then live[u := o.conn] else live
  {
  }

  class Server {
    var res: Resources
    var pbufs: set<nat>  // received buffers
    ghost var live: map<nat, Conn>  // the records as values
    ghost var history: seq<ServerEvent>  // what opened each connection, and what each one saw

    /** `records` are the values of the records on the heap, which are apart. */
    ghost predicate Shows(records: map<nat, Conn>)
      reads this, set u | u in res.conns :: res.conns[u], set u | u in res.conns :: res.conns[u].data
    {
      && AllApart(res.conns)
      && records.Keys == res.conns.Keys
      && forall u | u in res.conns :: records[u] == res.conns[u].View()
    }

    /** Between events resources balance, and the records on the heap are what the history has led to. */
    ghost predicate Valid()
      reads this, set u | u in res.conns :: res.conns[u], set u | u in res.conns :: res.conns[u].data
    {
      Balanced(res) && Shows(live) && Tracks(live, history)
    }

    /** tftp_server_init has bound port 69; there is no connection yet. */
    constructor ()
      ensures Valid() && res.conns == map[] && history == []
    {
      res := Resources(map[], {}, multiset{}, 0, {});
      pbufs, live, history := {}, map[], [];
    }

    /** The results on runs speak of the records: each live one is in the state that its own
        events alone lead to, and has all the properties of such a state. */
    lemma LiveConnection(u: nat)
      requires Valid() && u in res.conns
      ensures var t := TableRun(history);
              && u in t && t[u].conn == res.conns[u].View()
              && GoodSession(t[u])
              && exists i :: LoneRun(history, i, u, t[u])
    {
      HistoryGood(history);
      assert u in Conns(TableRun(history));
      var i := LiveRunsAlone(history, u);
    }

    /** A live record of an upload holds a prefix of the file that its peer has been sending since
        the request, up to the block it stands at and has acknowledged. */
    lemma LiveUpload(u: nat, file: seq<Byte>)
      requires Valid() && u in res.conns
      ensures var t := TableRun(history);
              && u in t && t[u].conn == res.conns[u].View()
              && (exists i :: LoneRun(history, i, u, t[u]))
              && forall i | LoneRun(history, i, u, t[u]) && Uploading(history, i, u, file) ::
                   UploadInv(file, res.conns[u].peer, t[u]) && res.conns[u].file.content <= file
    {
      LiveConnection(u);
      var s := TableRun(history)[u];
      forall i | LoneRun(history, i, u, s) && Uploading(history, i, u, file)
        ensures UploadInv(file, res.conns[u].peer, s) && res.conns[u].file.content <= file
      {
        LoneUpload(history, i, u, s, file);
      }
    }

    /** lwIP hands over a received datagram. */
    method Arrive(p: nat)
      requires Valid() && p !in pbufs
      modifies this`pbufs
      ensures Valid() && pbufs == old(pbufs) + {p}
    {
      pbufs := pbufs + {p};
    }

    /** A datagram on port 69. A request that is refused, for whatever reason, leaves everything
        but its buffer as it was; so does one whose first read fails. */
    method OnRequest(p: nat, from: Peer, b: seq<Byte>, g: Grants) returns (r: Parsed, sent: seq<Send>)
      requires Valid() && p in pbufs && FitsPbuf(b) && |b| >= 2 && Grantable(res, g)
      modifies this
      ensures Valid() && pbufs == old(pbufs) - {p} && r == Parse(b)
      ensures !Opens(r, g) ==> sent == [Send(from, Error(Refusal(r, g)))]
      ensures !Opens(r, g) ==> res == old(res) && live == old(live) && history == old(history)
      ensures Opens(r, g) ==>
                var op := OpOf(r.opcode);
                var o := Start(op, from, FileFor(op, g.file.value.1), g.readOk);
                var u := g.pcb.value;
                && sent == o.sent
                && (!o.open ==> res == old(res) && live == old(live) && history == old(history))
                && (o.open ==>
                      && u in res.conns && fresh(res.conns[u]) && fresh(res.conns[u].data)
                      && res == Registered(old(res), u, res.conns[u])
                      && res.conns[u].Valid() && res.conns[u].View() == o.conn && live == old(live)[u := o.conn]
                      && history == old(history) + [Accept(u, op, from, g.file.value.1)])
      ensures r.Accepted? ==> r.opcode == 1 || r.opcode == 2
      ensures Opens(r, g) ==> Begins(r.opcode, from, g.file.value.1, g.readOk, live, g.pcb.value, sent)
    {
      r := ParseRequest(b);
      if r.Accepted? {
        PrintParse(b);
      }
      sent := Serve(from, r, g);
      Free(p);
      assert Shows(live);
    }

    /** The part of request_recv_callback after parsing. */
    method Serve(from: Peer, r: Parsed, g: Grants) returns (sent: seq<Send>)
      requires Valid() && Grantable(res, g)
      modifies this`res, this`live, this`history
      ensures Valid()
      ensures !Opens(r, g) ==> sent == [Send(from, Error(Refusal(r, g)))]
      ensures !Opens(r, g) ==> res == old(res) && live == old(live) && history == old(history)
      ensures Opens(r, g) ==>
                var op := OpOf(r.opcode);
                var o := Start(op, from, FileFor(op, g.file.value.1), g.readOk);
                var u := g.pcb.value;
                && sent == o.sent
                && (!o.open ==> res == old(res) && live == old(live) && history == old(history))
                && (o.open ==>
                      && u in res.conns && fresh(res.conns[u]) && fresh(res.conns[u].data)
                      && res == Registered(old(res), u, res.conns[u])
                      && res.conns[u].Valid() && res.conns[u].View() == o.conn && live == old(live)[u := o.conn]
                      && history == old(history) + [Accept(u, op, from, g.file.value.1)])
      ensures Opens(r, g) ==> Begins(r.opcode, from, g.file.value.1, g.readOk, live, g.pcb.value, sent)
    {
      if r.Rejected? {
        sent := [Send(from, Error(r.code))];
      } else if Opens(r, g) {
        var op := OpOf(r.opcode);
        TracksAccepted(live, history, g.pcb.value, op, from, g.file.value.1);
        Opening(r.opcode, from, g.file.value.1, g.readOk, live, g.pcb.value);
        var c;
        c, sent := Admit(g.pcb.value, op, from, g.file.value.1, g.file.value.0, g.readOk);
        RegisteredBalanced(old(res), g.pcb.value, c);
      } else {
        sent := Refuse(from, g);
      }
    }

    /** Memory, the file or the pcb is not to be had: what was already taken is given back. */
    method Refuse(from: Peer, g: Grants) returns (sent: seq<Send>)
      requires !(g.memory && g.file.Some? && g.pcb.Some?) && Grantable(res, g)
      modifies this`res
      ensures res == old(res)
      ensures sent == [Send(from, Error(if g.memory && g.file.None? then ERR_FILE_NOT_FOUND else ERR_NOTDEFINED))]
    {
      if !g.memory {
        return [Send(from, Error(ERR_NOTDEFINED))];
      }
      res := res.MemAlloc();
      if g.file.None? {
        res := res.MemFree();
        return [Send(from, Error(ERR_FILE_NOT_FOUND))];
      }
      res := res.OpenFile(g.file.value.0);
      sent := [Send(from, Error(ERR_NOTDEFINED))];
      res := res.CloseFile(g.file.value.0).MemFree();
    }

    /** The record is filled in, and pcb and timer are set up. */
    method Register(u: nat, op: Op, from: Peer, file: File, handle: nat) returns (c: Connection)
      requires Shows(live) && u !in res.conns && Unused(res, handle)
      modifies this`res, this`live
      ensures fresh(c) && fresh(c.data) && c.Valid() && c.handle == handle
      ensures forall v | v in old(res.conns) :: Apart(old(res.conns)[v], c)
      ensures res == Registered(old(res), u, c)
      ensures Shows(live) && live == old(live)[u := Fresh(op, from, file)]
    {
      c := new Connection(op, from, file, handle);
      ApartWith(res.conns, u, c);
      res := res.MemAlloc().OpenFile(handle).AddPcb(u, c).Timeout(u);
      live := live[u := c.View()];
    }

    /** The part of request_recv_callback after memory, file and pcb have been granted. */
    method Admit(u: nat, op: Op, from: Peer, content: seq<Byte>, handle: nat, readOk: bool)
        returns (c: Connection, sent: seq<Send>)
      requires Shows(live) && u !in res.conns && u !in res.pcbs && handle !in res.handles && Unused(res, handle)
      modifies this`res, this`live, this`history
      ensures fresh(c) && fresh(c.data) && c.Valid() && c.handle == handle
      ensures forall v | v in old(res.conns) :: Apart(old(res.conns)[v], c)
      ensures var o := Start(op, from, FileFor(op, content), readOk);
              && sent == o.sent && Shows(live)
              && (o.open ==>
                    && res == Registered(old(res), u, c) && live == old(live)[u := o.conn]
                    && history == old(history) + [Accept(u, op, from, content)])
              && (!o.open ==> res == old(res) && live == old(live) && history == old(history))
    {
      ghost var o := Start(op, from, FileFor(op, content), readOk);
      ghost var es := if o.open then [Accept(u, op, from, content)] else [];
      assert !o.open ==> history + es == history;
      OutlivedNew(live, u, Fresh(op, from, FileFor(op, content)), o);
      c := Register(u, op, from, FileFor(op, content), handle);
      CloseUndoesRegister(old(res), u, c);
      sent := Launch(u, readOk, es);
    }

    /** It sends its first packet, and closes again if there is nothing to be read for it. */
    method Launch(u: nat, readOk: bool, ghost es: seq<ServerEvent>) returns (sent: seq<Send>)
      requires Shows(live) && Closable(res, u) && live[u] == Fresh(live[u].op, live[u].peer, live[u].file)
      modifies this`res, this`live, this`history, res.conns[u], res.conns[u].data
      ensures var o := Start(old(live)[u].op, old(live)[u].peer, old(live)[u].file, readOk);
              && sent == o.sent && Shows(live) && live == Outlived(old(live), u, o)
              && res == (if o.open then old(res) else Closed(old(res), u))
      ensures history == old(history) + es
    {
      ghost var o := Start(live[u].op, live[u].peer, live[u].file, readOk);
      var open;
      open, sent := Greet(u, readOk);
      Settle(u, open, o, es);
    }

    /** The first block, or the answer to a write request. */
    method Greet(u: nat, readOk: bool) returns (open: bool, sent: seq<Send>)
      requires Shows(live) && u in live && live[u] == Fresh(live[u].op, live[u].peer, live[u].file)
      modifies res.conns[u], res.conns[u].data
      ensures var o := Start(live[u].op, live[u].peer, live[u].file, readOk);
              && open == o.open && sent == o.sent
              && Shows(live[u := o.conn])
    {
      open, sent := res.conns[u].Begin(readOk);
      Touched(u);
    }

    /** What has just happened goes on the history. */
    ghost method Note(es: seq<ServerEvent>, records: map<nat, Conn>)
      requires Shows(records)
      modifies this`live, this`history
      ensures Shows(live) && live == records && history == old(history) + es
    {
      live, history := records, history + es;
    }

    /** A datagram on a connection's own pcb: that connection does what its handler says, or is
        gone with all it held. No other record changes, because records in a balanced table are
        apart; the buffer is freed. */
    method OnDatagram(u: nat, p: nat, from: Peer, b: seq<Byte>, ioOk: bool) returns (sent: seq<Send>)
      requires Valid() && u in res.conns && p in pbufs
      requires from == res.conns[u].peer ==> Admissible(res.conns[u].View(), b, ioOk)
      modifies this, res.conns[u], res.conns[u].data
      ensures Valid() && pbufs == old(pbufs) - {p}
      ensures history == old(history) + [On(u, Datagram(from, Decode(b), ioOk))]
      ensures var o := Receive(old(res.conns[u].View()), from, Decode(b), ioOk);
              && sent == o.sent
              && res == (if o.open then old(res) else Closed(old(res), u))
              && live == Outlived(old(live), u, o)
              && (o.open ==> res.conns[u].View() == o.conn)
      ensures forall v | v in old(res.conns) && v != u ::
                v in res.conns && res.conns[v] == old(res.conns[v]) && res.conns[v].View() == old(res.conns[v].View())
    {
      ghost var o := Receive(live[u], from, Decode(b), ioOk);
      AdmissibleSized(live[u], from, b, ioOk);
      TracksHandled(live, history, u, Datagram(from, Decode(b), ioOk), o);
      HandledBalanced(res, u, o.open);
      sent := Process(u, p, from, b, ioOk);
    }

    /** data_ack_recv_callback. */
    method Process(u: nat, p: nat, from: Peer, b: seq<Byte>, ioOk: bool) returns (sent: seq<Send>)
      requires Shows(live) && Closable(res, u) && p in pbufs
      requires from == res.conns[u].peer ==> Admissible(res.conns[u].View(), b, ioOk)
      modifies this, res.conns[u], res.conns[u].data
      ensures Shows(live) && pbufs == old(pbufs) - {p}
      ensures history == old(history) + [On(u, Datagram(from, Decode(b), ioOk))]
      ensures var o := Receive(old(live)[u], from, Decode(b), ioOk);
              && sent == o.sent
              && res == (if o.open then old(res) else Closed(old(res), u))
              && live == Outlived(old(live), u, o)
              && (o.open ==> res.conns[u].View() == o.conn)
      ensures forall v | v in old(res.conns) && v != u ::
                v in res.conns && res.conns[v] == old(res.conns[v]) && res.conns[v].View() == old(res.conns[v].View())
    {
      ghost var o := Receive(live[u], from, Decode(b), ioOk);
      OthersOutlive(res, live, u, o);
      var open;
      open, sent := Hand(u, from, b, ioOk);
      SettleAndFree(u, p, open, o, [On(u, Datagram(from, Decode(b), ioOk))]);
      OthersKept(u);
    }

    /** Records that are apart: when one is written to, the others are as they were. */
    twostate lemma Touched(u: nat)
      requires old(Shows(live)) && res == old(res) && live == old(live) && u in res.conns
      requires forall v | v in res.conns && Apart(res.conns[v], res.conns[u]) ::
                 unchanged(res.conns[v]) && unchanged(res.conns[v].data)
      ensures Shows(live[u := res.conns[u].View()])
    {
      forall v | v in res.conns && v != u ensures live[v] == res.conns[v].View() {
        assert Apart(res.conns[v], res.conns[u]);
      }
    }

    /** What the values say of the other records, the records do. */
    twostate lemma OthersKept(u: nat)
      requires old(Shows(live)) && Shows(live)
      requires forall v | v in old(res.conns) && v != u ::
                 v in res.conns && res.conns[v] == old(res.conns[v]) && live[v] == old(live[v])
      ensures forall v | v in old(res.conns) && v != u :: res.conns[v].View() == old(res.conns[v].View())
    {
    }

    /** The handler writes to its own connection's record only. */
    method Hand(u: nat, from: Peer, b: seq<Byte>, ioOk: bool) returns (open: bool, sent: seq<Send>)
      requires Shows(live) && u in res.conns
      requires from == res.conns[u].peer ==> Admissible(res.conns[u].View(), b, ioOk)
      modifies res.conns[u], res.conns[u].data
      ensures var o := Receive(live[u], from, Decode(b), ioOk);
              && open == o.open && sent == o.sent
              && Shows(live[u := o.conn])
    {
      open, sent := res.conns[u].OnDatagram(from, b, ioOk);
      Touched(u);
    }

    /** Every datagram's buffer is given back in the end. */
    method Free(p: nat)
      requires Shows(live) && p in pbufs
      modifies this`pbufs
      ensures Shows(live) && pbufs == old(pbufs) - {p}
    {
      pbufs := pbufs - {p};
    }

    /** close_tftp_connection. */
    method Close(u: nat, ghost records: map<nat, Conn>)
      requires Shows(records) && Closable(res, u)
      modifies this`res
      ensures res == Closed(old(res), u) && Shows(records - {u})
    {
      ApartWithout(res.conns, u);
      res := Closed(res, u);
    }

    /** What the handler has decided on: the connection goes on or is closed. */
    method Settle(u: nat, open: bool, ghost o: Outcome, ghost es: seq<ServerEvent>)
      requires Shows(live[u := o.conn]) && Closable(res, u) && open == o.open
      modifies this`res, this`live, this`history
      ensures Shows(live) && live == Outlived(old(live), u, o) && history == old(history) + es
      ensures res == if open then old(res) else Closed(old(res), u)
    {
      if !open {
        Close(u, live[u := o.conn]);
        assert live[u := o.conn] - {u} == live - {u};
      }
      Note(es, Outlived(live, u, o));
    }

    /** The same for a connection that was sent a datagram. */
    method SettleAndFree(u: nat, p: nat, open: bool, ghost o: Outcome, ghost es: seq<ServerEvent>)
      requires Shows(live[u := o.conn]) && Closable(res, u) && open == o.open && p in pbufs
      modifies this
      ensures Shows(live) && live == Outlived(old(live), u, o) && history == old(history) + es
      ensures res == (if open then old(res) else Closed(old(res), u)) && pbufs == old(pbufs) - {p}
    {
      Settle(u, open, o, es);
      Free(p);
    }

    /** The timer entry of a connection expires. */
    method OnTimer(u: nat) returns (sent: seq<Send>)
      requires Valid() && u in res.conns
      modifies this`res, this`live, this`history, res.conns[u]
      ensures Valid() && history == old(history) + [On(u, Event.Tick)]
      ensures var o := TftpConnection.Tick(old(res.conns[u].View()));
              && sent == o.sent
              && res == (if o.open then old(res) else Closed(old(res), u))
              && live == Outlived(old(live), u, o)
              && (o.open ==> res.conns[u].View() == o.conn)
      ensures forall v | v in old(res.conns) && v != u ::
                v in res.conns && res.conns[v] == old(res.conns[v]) && res.conns[v].View() == old(res.conns[v].View())
    {
      ghost var o := TftpConnection.Tick(live[u]);
      TracksHandled(live, history, u, Event.Tick, o);
      HandledBalanced(res, u, o.open);
      sent := Expire(u);
    }

    /** lwIP takes the entry off its list and calls tftp_server_tmr, which sets it up anew. */
    method Expire(u: nat) returns (sent: seq<Send>)
      requires Shows(live) && Closable(res, u) && u in res.timers
      modifies this`res, this`live, this`history, res.conns[u]
      ensures Shows(live) && history == old(history) + [On(u, Event.Tick)]
      ensures var o := TftpConnection.Tick(old(live)[u]);
              && sent == o.sent
              && res == (if o.open then old(res) else Closed(old(res), u))
              && live == Outlived(old(live), u, o)
              && (o.open ==> res.conns[u].View() == o.conn)
      ensures forall v | v in old(res.conns) && v != u ::
                v in res.conns && res.conns[v] == old(res.conns[v]) && res.conns[v].View() == old(res.conns[v].View())
    {
      ghost var o := TftpConnection.Tick(live[u]);
      OthersOutlive(res, live, u, o);
      var open;
      open, sent := Strike(u);
      Settle(u, open, o, [On(u, Event.Tick)]);
      OthersKept(u);
    }

    /** An expired entry, and the handler it calls. */
    method Strike(u: nat) returns (open: bool, sent: seq<Send>)
      requires Shows(live) && u in res.conns && u in res.timers
      modifies this`res, res.conns[u]
      ensures res == old(res)
      ensures var o := TftpConnection.Tick(live[u]);
              && open == o.open && sent == o.sent
              && Shows(live[u := o.conn])
    {
      RearmedTimers(res, u);
      TakeOff(u);
      Rearm(u);
      open, sent := Fire(u);
    }

    /** lwIP takes an expired entry off its list. */
    method TakeOff(u: nat)
      requires Shows(live)
      modifies this`res
      ensures res == old(res).Untimeout(u) && Shows(live)
    {
      res := res.Untimeout(u);
    }

    /** The handler sets up a new one. */
    method Rearm(u: nat)
      requires Shows(live)
      modifies this`res
      ensures res == old(res).Timeout(u) && Shows(live)
    {
      res := res.Timeout(u);
    }

    /** The timer handler, too, writes to its own connection's record only. */
    method Fire(u: nat) returns (open: bool, sent: seq<Send>)
      requires Shows(live) && u in res.conns
      modifies res.conns[u]
      ensures var o := TftpConnection.Tick(live[u]);
              && open == o.open && sent == o.sent
              && Shows(live[u := o.conn])
    {
      open, sent := res.conns[u].OnTick();
      Touched(u);
    }
  }
}
