/**
 The wire format of the TFTP server and the split of a file into 512-byte blocks.

 Multi-byte fields are big-endian on the wire (the source stores them with PP_HTONS).
 */
module TftpWire {

  type Byte = b: int | 0 <= b < 0x100
  type U16 = n: int | 0 <= n < 0x1_0000
  type U32 = n: int | 0 <= n < 0x1_0000_0000

  const DATA_LEN_MAX := 512
  const DATA_PKT_HDR_LEN := 4
  const DATA_PKT_LEN_MAX := DATA_PKT_HDR_LEN + DATA_LEN_MAX

  const OP_RRQ: U16 := 1
  const OP_WRQ: U16 := 2
  const OP_DATA: U16 := 3
  const OP_ACK: U16 := 4
  const OP_ERROR: U16 := 5

  const ERR_NOTDEFINED: U16 := 0
  const ERR_FILE_NOT_FOUND: U16 := 1
  const ERR_ACCESS_VIOLATION: U16 := 2
  const ERR_ILLEGALOP: U16 := 4

  datatype Packet =
    | Request(opcode: U16)
    | Data(block: U16, payload: seq<Byte>)
    | Ack(block: U16)
    | Error(code: U16)
    | Unknown(opcode: U16)

  function U16At(b: seq<Byte>, i: nat): U16
    requires i + 2 <= |b|
  {
    (b[i] as int) * 0x100 + b[i + 1] as int
  }

  function U16Bytes(n: U16): seq<Byte> {
    [n / 0x100, n % 0x100]
  }

  /** What the connection handler reads from a datagram. Header fields that a short
      datagram lacks read as 0; the handler looks at them only when they are there. */
  function Decode(b: seq<Byte>): Packet {
    if |b| < 2 then Unknown(0) else
    var opcode := U16At(b, 0);
    var field := if |b| >= 4 then U16At(b, 2) else 0;
    if opcode == OP_RRQ || opcode == OP_WRQ then Request(opcode)
    else if opcode == OP_DATA then Data(field, if |b| >= 4 then b[4..] else [])
    else if opcode == OP_ACK then Ack(field)
    else if opcode == OP_ERROR then Error(field)
    else Unknown(opcode)
  }

  /** The datagram the server builds for DATA and ACK. */
  function Encode(p: Packet): seq<Byte>
    requires p.Data? || p.Ack?
  {
    if p.Data? then U16Bytes(OP_DATA) + U16Bytes(p.block) + p.payload
    else U16Bytes(OP_ACK) + U16Bytes(p.block)
  }

  lemma EncodeDecode(p: Packet)
    requires p.Data? || p.Ack?
    ensures Decode(Encode(p)) == p
    ensures |Encode(p)| == DATA_PKT_HDR_LEN + (if p.Data? then |p.payload| else 0)
  {
    var b := Encode(p);
    assert b[..4] == U16Bytes(if p.Data? then OP_DATA else OP_ACK) + U16Bytes(p.block);
    assert b[0] == 0 && b[2] == p.block / 0x100 && b[3] == p.block % 0x100;
  }

  /** The datagrams byte by byte (section 5 of RFC 1350). */
  lemma WireBytes(n: U16, payload: seq<Byte>)
    ensures Encode(Data(n, payload)) == [0, 3, n / 256, n % 256] + payload
    ensures Encode(Ack(n)) == [0, 4, n / 256, n % 256]
  {
  }

  /** What the handler takes a datagram for. */
  lemma DecodeBytes(b: seq<Byte>)
    requires |b| >= 4
    ensures var n := b[2] as int * 256 + b[3] as int;
            && (b[0] == 0 && (b[1] == 1 || b[1] == 2) <==> Decode(b).Request?)
            && (b[0] == 0 && b[1] == 3 <==> Decode(b) == Data(n, b[4..]))
            && (b[0] == 0 && b[1] == 4 <==> Decode(b) == Ack(n))
            && (b[0] == 0 && b[1] == 5 <==> Decode(b) == Error(n))
            && (b[0] != 0 || b[1] == 0 || b[1] > 5 <==> Decode(b).Unknown?)
  {
  }

  // ---------- files as blocks ----------

  function Min(a: int, b: int): int {
    if a < b then a else b
  }

  /** Block k of a file, k = 1, 2, ...: bytes (k-1)*512 up to k*512 or the end of the file;
      empty past the end. */
  function Block(file: seq<Byte>, k: nat): seq<Byte>
    requires k >= 1
  {
    file[Min((k - 1) * DATA_LEN_MAX, |file|)..Min(k * DATA_LEN_MAX, |file|)]
  }

  /** Blocks 1..k, concatenated. */
  function Joined(file: seq<Byte>, k: nat): seq<Byte> {
    if k == 0 then [] else Joined(file, k - 1) + Block(file, k)
  }

  /** The index of the first short block, the one that ends a transfer. */
  function LastBlock(file: seq<Byte>): nat {
    |file| / DATA_LEN_MAX + 1
  }

  lemma {:induction false} JoinedIsPrefix(file: seq<Byte>, k: nat)
    ensures Joined(file, k) == file[..Min(k * 512, |file|)]
  {
    if k > 0 {
      JoinedIsPrefix(file, k - 1);
    }
  }

  lemma BlockLength(file: seq<Byte>, k: nat)
    requires k >= 1
    ensures |Block(file, k)| < 512 <==> k >= LastBlock(file)
    ensures |Block(file, k)| <= 512 && LastBlock(file) == |file| / 512 + 1
  {
  }

  /** A short block ends the file: what was sent up to it is the whole file. */
  lemma ShortBlockEndsFile(file: seq<Byte>, k: nat)
    requires k >= 1 && |Block(file, k)| < DATA_LEN_MAX
    ensures Joined(file, k) == file
  {
    JoinedIsPrefix(file, k);
  }
}
