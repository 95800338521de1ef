/**
 One TFTP connection: the record the server keeps for it and the three things that happen
 to it (it is opened, a datagram arrives, the 50 ms timer fires).

 The datatype `Conn` is the record as a value and the functions on it say what each handler
 does; the class `Connection` is the record as the source keeps it, updated in place, and its
 methods are proved to do what the functions say.
 */
module TftpConnection {
  import opened TftpWire

  const TIMEOUT_TICKS := 100  // TFTP_SERVER_TIMEOUT_MSECS / TFTP_SERVER_TIMER_MSECS
  const MAX_RETRIES := 5

  datatype Op = Read | Write

  datatype Peer = Peer(ip: U32, port: U16)

  /** An open file: its bytes and, for a read connection, the read position. */
  datatype File = File(content: seq<Byte>, pos: nat)

  datatype Conn = Conn(
    op: Op,
    peer: Peer,
    file: File,
    data: seq<Byte>,  // the last block: data[0 .. data_len]
    blknum: U16,
    timer: U32,
    lastTime: U32,
    retries: nat)

  /** A datagram handed to UDP, with its destination. */
  datatype Send = Send(to: Peer, packet: Packet)

  /** The record after a handler ran, whether the connection is still open, and what was sent. */
  datatype Outcome = Outcome(conn: Conn, open: bool, sent: seq<Send>)

  function U16Inc(n: U16): U16 {
    (n as int + 1) % 0x1_0000
  }

  /** Ticks since the last datagram, in the 32-bit arithmetic of the source. */
  function Elapsed(timer: U32, lastTime: U32): U32 {
    (timer as int - lastTime as int) % 0x1_0000_0000
  }

  function ReadChunk(f: File): seq<Byte> {
    f.content[Min(f.pos, |f.content|)..Min(f.pos + DATA_LEN_MAX, |f.content|)]
  }

  /** tftp_send_data: the next block is read, cached and sent. */
  function Advance(c: Conn): Conn {
    var chunk := ReadChunk(c.file);
    c.(blknum := U16Inc(c.blknum), data := chunk, file := c.file.(pos := c.file.pos + |chunk|))
  }

  function CachedData(c: Conn): Send {
    Send(c.peer, Data(c.blknum, c.data))
  }

  /** The record as request_recv_callback fills it in. The last block is left unset there. */
  function Fresh(op: Op, peer: Peer, file: File): Conn {
    Conn(op, peer, file, [], 0, 0, 0, 0)
  }

  /** The end of request_recv_callback: ACK 0 for a write, block 1 for a read. `readOk` is
      whether the first read of the file succeeds; when it does not, the connection closes. */
  function Start(op: Op, peer: Peer, file: File, readOk: bool): Outcome {
    var c := Fresh(op, peer, file);
    if op.Write? then Outcome(c, true, [Send(peer, Ack(0))])
    else if !readOk then
      Outcome(c.(blknum := 1), false, [Send(peer, Error(ERR_ACCESS_VIOLATION))])
    else
      Outcome(Advance(c), true, [CachedData(Advance(c))])
  }

  /** data_ack_recv_callback. `ioOk` is whether the file can be written (for a write connection)
      or read (for a read connection). */
  function Receive(c: Conn, from: Peer, p: Packet, ioOk: bool): Outcome {
    if from != c.peer then
      Outcome(c, false, [Send(from, Error(ERR_NOTDEFINED)), Send(c.peer, Error(ERR_NOTDEFINED))])
    else
      var heard := c.(lastTime := c.timer, retries := 0);
      match p
      case Request(_) => Outcome(heard, true, [])
      case Error(_) => Outcome(heard, false, [])
      case Unknown(_) => Outcome(heard, true, [Send(c.peer, Error(ERR_ILLEGALOP))])
      case Data(block, payload) =>
        if c.op.Read? then Outcome(heard, false, [Send(c.peer, Error(ERR_ACCESS_VIOLATION))])
        else if block as int != c.blknum as int + 1 then Outcome(heard, true, [Send(c.peer, Ack(c.blknum))])
        else if !ioOk then
          Outcome(heard.(data := payload), false, [Send(c.peer, Error(ERR_ACCESS_VIOLATION))])
        else
          var file := c.file.(content := c.file.content + payload);
          Outcome(heard.(data := payload, file := file, blknum := U16Inc(c.blknum)),
                  |payload| >= DATA_LEN_MAX, [Send(c.peer, Ack(U16Inc(c.blknum)))])
      case Ack(block) =>
        if c.op.Write? then Outcome(heard, false, [Send(c.peer, Error(ERR_ACCESS_VIOLATION))])
        else if block != c.blknum then Outcome(heard, true, [])
        else if !ioOk then
          Outcome(heard.(blknum := U16Inc(c.blknum)), false, [Send(c.peer, Error(ERR_ACCESS_VIOLATION))])
        else
          var next := Advance(heard);
          Outcome(next, |next.data| >= DATA_LEN_MAX, [CachedData(next)])
  }

  /** tftp_server_tmr. */
  function Tick(c: Conn): Outcome {
    var now: U32 := (c.timer as int + 1) % 0x1_0000_0000;
    var c := c.(timer := now);
    if Elapsed(now, c.lastTime) <= TIMEOUT_TICKS then Outcome(c, true, [])
    else if c.op.Read? && c.retries < MAX_RETRIES then
      Outcome(c.(retries := c.retries + 1), true, [CachedData(c)])
    else Outcome(c, false, [])
  }

  /** A datagram never closes a connection behind its peer's back: unless the peer itself reported
      an error, it is told, by an error or by the last block or its acknowledgement. */
  lemma ClosesAloud(c: Conn, from: Peer, p: Packet, ioOk: bool)
    requires !Receive(c, from, p, ioOk).open && !(from == c.peer && p.Error?)
    ensures var o := Receive(c, from, p, ioOk);
            exists m <- o.sent :: m.to == c.peer
                                  && (m.packet.Error?
                                      || (m.packet == Data(o.conn.blknum, o.conn.data) && |o.conn.data| < DATA_LEN_MAX)
                                      || (m.packet == Ack(o.conn.blknum) && |o.conn.data| < DATA_LEN_MAX))
  {
    var o := Receive(c, from, p, ioOk);
    assert o.sent[|o.sent| - 1] in o.sent;
  }

  /** Which datagrams leave a connection open: from its peer, a request, an unknown opcode, DATA on
      a write connection that is not the next block or is a full one and can be written, and an
      acknowledgement on a read connection that is not of the last block sent or draws a full one. */
  lemma OpenIff(c: Conn, from: Peer, p: Packet, ioOk: bool)
    ensures Receive(c, from, p, ioOk).open <==>
            && from == c.peer
            && (|| p.Request?
                || p.Unknown?
                || (p.Data? && c.op == Write && (p.block != c.blknum + 1 || (ioOk && |p.payload| >= 512)))
                || (p.Ack? && c.op == Read
                    && (p.block != c.blknum || (ioOk && c.file.pos + 512 <= |c.file.content|))))
  {
  }

  /** What a datagram is answered with. */
  lemma Replies(c: Conn, from: Peer, p: Packet, ioOk: bool)
    ensures var sent := Receive(c, from, p, ioOk).sent;
            && (from != c.peer ==> sent == [Send(from, Error(0)), Send(c.peer, Error(0))])
            && (from == c.peer && (p.Request? || p.Error?) ==> sent == [])
            && (from == c.peer && p.Unknown? ==> sent == [Send(c.peer, Error(4))])
            && (from == c.peer && p.Data? && c.op == Read ==> sent == [Send(c.peer, Error(2))])
            && (from == c.peer && p.Ack? && c.op == Write ==> sent == [Send(c.peer, Error(2))])
            && (from == c.peer && p.Data? && c.op == Write && p.block != c.blknum + 1 ==>
                  sent == [Send(c.peer, Ack(c.blknum))])
            && (from == c.peer && p.Data? && c.op == Write && p.block == c.blknum + 1 ==>
                  sent == [Send(c.peer, if ioOk then Ack(c.blknum + 1) else Error(2))])
            && (from == c.peer && p.Ack? && c.op == Read && p.block != c.blknum ==> sent == [])
            && (from == c.peer && p.Ack? && c.op == Read && p.block == c.blknum && !ioOk ==>
                  sent == [Send(c.peer, Error(2))])
  {
  }

  /** What the handler needs of a datagram from the peer: the header fields it reads are there, a
      block that is taken fits the record's buffer, and a read that fails does not find a short
      block cached (the source would then close the connection a second time). */
  predicate Admissible(c: Conn, b: seq<Byte>, ioOk: bool) {
    && |b| >= 2
    && (c.op.Write? && U16At(b, 0) == OP_DATA ==>
          && DATA_PKT_HDR_LEN <= |b|
          && (U16At(b, 2) as int == c.blknum as int + 1 ==> |b| <= DATA_PKT_LEN_MAX))
    && (c.op.Read? && U16At(b, 0) == OP_ACK ==>
          && DATA_PKT_HDR_LEN <= |b|
          && (U16At(b, 2) == c.blknum && !ioOk ==> |c.data| == DATA_LEN_MAX))
  }

  type BlockLen = n: U16 | n <= DATA_LEN_MAX

  class Connection {
    var op: Op
    var peer: Peer
    var file: File
    const handle: nat  // identifies the open file
    const data: array<Byte>
    var dataLen: BlockLen
    var blknum: U16
    var timer: U32
    var lastTime: U32
    var retries: nat

    ghost predicate Valid() {
      data.Length == DATA_LEN_MAX
    }

    function View(): Conn
      requires Valid()
      reads this, data
    {
      Conn(op, peer, file, data[..dataLen], blknum, timer, lastTime, retries)
    }

    /** The fields request_recv_callback sets before the connection is registered. */
    constructor (op: Op, peer: Peer, file: File, handle: nat)
      ensures Valid() && fresh(data) && this.handle == handle
      ensures View() == Fresh(op, peer, file)
    {
      this.op, this.peer, this.file, this.handle := op, peer, file, handle;
      data := new Byte[DATA_LEN_MAX](_ => 0);
      dataLen, blknum, timer, lastTime, retries := 0, 0, 0, 0, 0;
    }

    /** Copies a block into the record's buffer (pbuf_copy_partial, or the file's read). */
    method Cache(block: seq<Byte>)
      requires Valid() && |block| <= DATA_LEN_MAX
      modifies this`dataLen, data
      ensures Valid() && View() == old(View()).(data := block)
    {
      for i := 0 to |block|
        invariant data[..i] == block[..i]
      {
        data[i] := block[i];
      }
      dataLen := |block|;
    }

    method ResendData() returns (sent: seq<Send>)
      requires Valid()
      ensures sent == [CachedData(View())]
    {
      sent := [Send(peer, Data(blknum, data[..dataLen]))];
    }

    /** tftp_send_data. A failed read has already moved blknum; the caller's connection is
        then closed by this very function. */
    method SendData(readOk: bool) returns (open: bool, sent: seq<Send>)
      requires Valid()
      modifies this`blknum, this`file, this`dataLen, data
      ensures Valid() && open == readOk
      ensures readOk ==> View() == Advance(old(View())) && sent == [CachedData(View())]
      ensures !readOk ==> View() == old(View()).(blknum := U16Inc(old(blknum)))
      ensures !readOk ==> sent == [Send(peer, Error(ERR_ACCESS_VIOLATION))]
    {
      blknum := U16Inc(blknum);
      if !readOk {
        return false, [Send(peer, Error(ERR_ACCESS_VIOLATION))];
      }
      var chunk := ReadChunk(file);
      Cache(chunk);
      file := file.(pos := file.pos + |chunk|);
      sent := ResendData();
      open := true;
    }

    method Begin(readOk: bool) returns (open: bool, sent: seq<Send>)
      requires Valid() && View() == Fresh(op, peer, file)
      modifies this`blknum, this`file, this`dataLen, data
      ensures Valid()
      ensures Outcome(View(), open, sent) == Start(old(op), old(peer), old(file), readOk)
    {
      if op == Write {
        open, sent := true, [Send(peer, Ack(0))];
      } else {
        open, sent := SendData(readOk);
      }
    }

    method OnDatagram(from: Peer, b: seq<Byte>, ioOk: bool) returns (open: bool, sent: seq<Send>)
      requires Valid() && (from == peer ==> Admissible(View(), b, ioOk))
      modifies this`lastTime, this`retries, this`dataLen, this`file, this`blknum, data
      ensures Valid()
      ensures Outcome(View(), open, sent) == Receive(old(View()), from, Decode(b), ioOk)
    {
      if from != peer {
        return false, [Send(from, Error(ERR_NOTDEFINED)), Send(peer, Error(ERR_NOTDEFINED))];
      }
      lastTime := timer;
      retries := 0;
      var opcode := U16At(b, 0);
      if opcode == OP_WRQ || opcode == OP_RRQ {
        open, sent := true, [];
      } else if opcode == OP_ERROR {
        open, sent := false, [];
      } else if opcode == OP_DATA {
        open, sent := OnData(b, ioOk);
      } else if opcode == OP_ACK {
        open, sent := OnAck(b, ioOk);
      } else {
        open, sent := true, [Send(peer, Error(ERR_ILLEGALOP))];
      }
    }

    method OnData(b: seq<Byte>, ioOk: bool) returns (open: bool, sent: seq<Send>)
      requires Valid() && Admissible(View(), b, ioOk) && U16At(b, 0) == OP_DATA
      requires lastTime == timer && retries == 0
      modifies this`dataLen, this`file, this`blknum, data
      ensures Valid()
      ensures Outcome(View(), open, sent) == Receive(old(View()), peer, Decode(b), ioOk)
    {
      if op == Read {
        return false, [Send(peer, Error(ERR_ACCESS_VIOLATION))];
      }
      var block := U16At(b, 2);
      if block as int == blknum as int + 1 {
        Cache(b[DATA_PKT_HDR_LEN..]);
        if !ioOk {
          return false, [Send(peer, Error(ERR_ACCESS_VIOLATION))];
        }
        file := file.(content := file.content + data[..dataLen]);
        blknum := U16Inc(blknum);
        sent := [Send(peer, Ack(blknum))];
        open := !(dataLen < DATA_LEN_MAX);
      } else {
        open, sent := true, [Send(peer, Ack(blknum))];
      }
    }

    /** tftp_send_data closes the connection itself when the read fails, and the record is looked
        at once more after that: it still shows the block cached before. */
    method OnAck(b: seq<Byte>, ioOk: bool) returns (open: bool, sent: seq<Send>)
      requires Valid() && Admissible(View(), b, ioOk) && U16At(b, 0) == OP_ACK
      requires lastTime == timer && retries == 0
      modifies this`dataLen, this`file, this`blknum, data
      ensures Valid()
      ensures Outcome(View(), open, sent) == Receive(old(View()), peer, Decode(b), ioOk)
    {
      if op == Write {
        return false, [Send(peer, Error(ERR_ACCESS_VIOLATION))];
      }
      var block := U16At(b, 2);
      if block == blknum {
        open, sent := SendData(ioOk);
        if dataLen < DATA_LEN_MAX {
          open := false;
        }
      } else {
        open, sent := true, [];
      }
    }

    method OnTick() returns (open: bool, sent: seq<Send>)
      requires Valid()
      modifies this`timer, this`retries
      ensures Valid()
      ensures Outcome(View(), open, sent) == Tick(old(View()))
    {
      timer := (timer as int + 1) % 0x1_0000_0000;
      open, sent := true, [];
      if Elapsed(timer, lastTime) > TIMEOUT_TICKS {
        if op == Read && retries < MAX_RETRIES {
          sent := ResendData();
          retries := retries + 1;
        } else {
          open := false;
        }
      }
    }
  }
}
