/**
 Reading a request on port 69: the opcode, then two NUL-terminated strings, found with
 pbuf_memfind and checked in 16-bit arithmetic against the sizes of two local buffers.
 */
module TftpRequest {
  import opened TftpWire

  const MAX_FILENAME_LEN := 32
  const MAX_MODE_LEN := 16
  const NOT_FOUND: U16 := 0xFFFF

  datatype Parsed =
    | Accepted(opcode: U16, name: seq<Byte>, mode: seq<Byte>)
    | Rejected(code: U16)

  /** A datagram as lwIP holds it: its total length is a u16. */
  predicate FitsPbuf(b: seq<Byte>) {
    |b| <= 0xFFFF
  }

  /** The offset of the first NUL at or after `from`, or NOT_FOUND. */
  function NulFrom(b: seq<Byte>, from: nat): (r: U16)
    requires FitsPbuf(b)
    ensures r == NOT_FOUND ==> forall j :: from <= j < |b| ==> b[j] != 0
    ensures r != NOT_FOUND ==> from <= r < |b| && b[r] == 0 && forall j :: from <= j < r ==> b[j] != 0
    decreases |b| - from
  {
    if from >= |b| then NOT_FOUND
    else if b[from] == 0 then from
    else NulFrom(b, from + 1)
  }

  /** pbuf_memfind for one byte. */
  method MemFind(b: seq<Byte>, start: U16) returns (r: U16)
    requires FitsPbuf(b)
    ensures r == NulFrom(b, start)
  {
    if |b| >= 1 + start {
      var max := |b| - 1;
      var i: int := start;
      while i <= max
        invariant start <= i <= max + 1
        invariant NulFrom(b, start) == NulFrom(b, i)
      {
        if b[i] == 0 {
          return i;
        }
        i := i + 1;
      }
    }
    return NOT_FOUND;
  }

  function ToU16(n: int): U16 {
    n % 0x1_0000
  }

  /** The mode string, after a name that ends at `nameEnd`. */
  function ParseMode(b: seq<Byte>, opcode: U16, nameEnd: nat): Parsed
    requires FitsPbuf(b) && 2 <= nameEnd <= 33 && nameEnd < |b|
  {
    var modeEnd := NulFrom(b, nameEnd + 1);
    if ToU16(modeEnd - nameEnd) > MAX_MODE_LEN then Rejected(ERR_ACCESS_VIOLATION) else
    Accepted(opcode, b[2..nameEnd], b[nameEnd + 1..modeEnd])
  }

  /** The parsing part of request_recv_callback. */
  function Parse(b: seq<Byte>): Parsed
    requires FitsPbuf(b) && |b| >= 2
  {
    var opcode := U16At(b, 0);
    if opcode != OP_RRQ && opcode != OP_WRQ then Rejected(ERR_ILLEGALOP) else
    var nameEnd := NulFrom(b, 2);
    if ToU16(nameEnd - 2 + 1) > MAX_FILENAME_LEN then Rejected(ERR_ACCESS_VIOLATION) else
    ParseMode(b, opcode, nameEnd)
  }

  method ParseRequest(b: seq<Byte>) returns (r: Parsed)
    requires FitsPbuf(b) && |b| >= 2
    ensures r == Parse(b)
  {
    var opcode := U16At(b, 0);
    if opcode != OP_RRQ && opcode != OP_WRQ {
      return Rejected(ERR_ILLEGALOP);
    }
    var nameEnd := MemFind(b, 2);
    if ToU16(nameEnd as int - 2 + 1) > MAX_FILENAME_LEN {
      return Rejected(ERR_ACCESS_VIOLATION);
    }
    r := ReadMode(b, opcode, nameEnd);
  }

  method ReadMode(b: seq<Byte>, opcode: U16, nameEnd: nat) returns (r: Parsed)
    requires FitsPbuf(b) && 2 <= nameEnd <= 33 && nameEnd < |b|
    ensures r == ParseMode(b, opcode, nameEnd)
  {
    var name := b[2..nameEnd];
    var modeEnd := MemFind(b, nameEnd + 1);
    if ToU16(modeEnd as int - nameEnd) > MAX_MODE_LEN {
      return Rejected(ERR_ACCESS_VIOLATION);
    }
    r := Accepted(opcode, name, b[nameEnd + 1..modeEnd]);
  }

  // ---------- the format of section 5 of RFC 1350 ----------

  predicate WellFormed(opcode: U16, name: seq<Byte>, mode: seq<Byte>) {
    && opcode in {1, 2}
    && 0 !in name && |name| <= 31
    && 0 !in mode && |mode| <= 15
  }

  function Print(opcode: U16, name: seq<Byte>, mode: seq<Byte>): seq<Byte> {
    U16Bytes(opcode) + name + [0] + mode + [0]
  }

  lemma NulFromIs(b: seq<Byte>, from: nat, at: nat)
    requires FitsPbuf(b) && from <= at < |b| && b[at] == 0 && forall j :: from <= j < at ==> b[j] != 0
    ensures NulFrom(b, from) == at
  {
  }

  /** Where the two strings of a printed request end. */
  lemma PrintedEnds(b: seq<Byte>, opcode: U16, name: seq<Byte>, mode: seq<Byte>)
    requires FitsPbuf(b) && 0 !in name && 0 !in mode && Print(opcode, name, mode) <= b
    ensures var nameEnd := 2 + |name|;
            NulFrom(b, 2) == nameEnd && NulFrom(b, nameEnd + 1) == nameEnd + 1 + |mode|
  {
    var p := Print(opcode, name, mode);
    var nameEnd := 2 + |name|;
    var modeEnd := nameEnd + 1 + |mode|;
    assert b[nameEnd] == p[nameEnd] == 0 && b[modeEnd] == p[modeEnd] == 0;
    forall j | 2 <= j < nameEnd ensures b[j] != 0 {
      assert b[j] == p[j] == name[j - 2];
    }
    forall j | nameEnd + 1 <= j < modeEnd ensures b[j] != 0 {
      assert b[j] == p[j] == mode[j - nameEnd - 1];
    }
    NulFromIs(b, 2, nameEnd);
    NulFromIs(b, nameEnd + 1, modeEnd);
  }

  lemma PrintedParts(b: seq<Byte>, opcode: U16, name: seq<Byte>, mode: seq<Byte>)
    requires Print(opcode, name, mode) <= b
    ensures var nameEnd := 2 + |name|;
            U16At(b, 0) == opcode && b[2..nameEnd] == name && b[nameEnd + 1..nameEnd + 1 + |mode|] == mode
  {
    var p := Print(opcode, name, mode);
    var nameEnd := 2 + |name|;
    assert b[0] == p[0] == opcode / 0x100 && b[1] == p[1] == opcode % 0x100;
    assert b[2..nameEnd] == p[2..nameEnd] == name;
    assert b[nameEnd + 1..nameEnd + 1 + |mode|] == p[nameEnd + 1..nameEnd + 1 + |mode|] == mode;
  }

  /** Where the strings end decides what is parsed. */
  lemma ParsedAt(b: seq<Byte>, nameEnd: nat, modeEnd: nat)
    requires FitsPbuf(b) && |b| >= 2 && U16At(b, 0) in {OP_RRQ, OP_WRQ}
    requires 2 <= nameEnd <= 33 && nameEnd < modeEnd <= nameEnd + MAX_MODE_LEN && modeEnd < |b|
    requires NulFrom(b, 2) == nameEnd && NulFrom(b, nameEnd + 1) == modeEnd
    ensures Parse(b) == Accepted(U16At(b, 0), b[2..nameEnd], b[nameEnd + 1..modeEnd])
  {
  }

  /** Printing a request and parsing it gives the same request back, whatever follows it. */
  lemma ParsePrint(opcode: U16, name: seq<Byte>, mode: seq<Byte>, rest: seq<Byte>)
    requires WellFormed(opcode, name, mode)
    requires FitsPbuf(Print(opcode, name, mode) + rest)
    ensures Parse(Print(opcode, name, mode) + rest) == Accepted(opcode, name, mode)
  {
    var b := Print(opcode, name, mode) + rest;
    PrintedEnds(b, opcode, name, mode);
    PrintedParts(b, opcode, name, mode);
    ParsedAt(b, 2 + |name|, 2 + |name| + 1 + |mode|);
  }

  lemma SplitAtNuls(b: seq<Byte>, nameEnd: nat, modeEnd: nat)
    requires 2 <= nameEnd < modeEnd < |b| && b[nameEnd] == 0 && b[modeEnd] == 0
    ensures Print(U16At(b, 0), b[2..nameEnd], b[nameEnd + 1..modeEnd]) == b[..modeEnd + 1]
  {
    var n := U16At(b, 0);
    assert n / 0x100 == b[0] && n % 0x100 == b[1];
    assert b[..2] == U16Bytes(n);
    assert b[..nameEnd] == U16Bytes(n) + b[2..nameEnd];
    assert b[..nameEnd + 1] == b[..nameEnd] + [0];
    assert b[..modeEnd] == b[..nameEnd + 1] + b[nameEnd + 1..modeEnd];
    assert b[..modeEnd + 1] == b[..modeEnd] + [0];
  }

  /** Whatever the parser accepts is a printed request, followed by anything. */
  lemma PrintParse(b: seq<Byte>)
    requires FitsPbuf(b) && |b| >= 2 && Parse(b).Accepted?
    ensures var r := Parse(b); WellFormed(r.opcode, r.name, r.mode) && Print(r.opcode, r.name, r.mode) <= b
  {
    SplitAtNuls(b, NulFrom(b, 2), NulFrom(b, NulFrom(b, 2) + 1));
  }

  ghost predicate IsRequest(b: seq<Byte>, opcode: U16, name: seq<Byte>, mode: seq<Byte>) {
    WellFormed(opcode, name, mode) && Print(opcode, name, mode) <= b
  }

  /** Exactly the well-formed requests are accepted, and the strings are read off uniquely. */
  lemma ParseIff(b: seq<Byte>, opcode: U16, name: seq<Byte>, mode: seq<Byte>)
    requires FitsPbuf(b) && |b| >= 2
    ensures Parse(b) == Accepted(opcode, name, mode) <==> IsRequest(b, opcode, name, mode)
  {
    if Parse(b) == Accepted(opcode, name, mode) {
      PrintParse(b);
    }
    if IsRequest(b, opcode, name, mode) {
      var p := Print(opcode, name, mode);
      assert b == p + b[|p|..];
      ParsePrint(opcode, name, mode, b[|p|..]);
    }
  }

  /** A datagram that is no request is refused with code 4 when its opcode is not one of the two,
      and with code 2 otherwise. */
  lemma RejectedIff(b: seq<Byte>)
    requires FitsPbuf(b) && |b| >= 2
    ensures Parse(b) == Rejected(4) <==> !(b[0] == 0 && b[1] in {1, 2})
    ensures Parse(b) == Rejected(2) <==>
            && b[0] == 0 && b[1] in {1, 2}
            && forall name, mode :: !IsRequest(b, b[1], name, mode)
    ensures Parse(b).Rejected? ==> Parse(b) in {Rejected(4), Rejected(2)}
  {
    if b[0] == 0 && b[1] in {1, 2} {
      forall name, mode ensures Parse(b) == Accepted(b[1], name, mode) <==> IsRequest(b, b[1], name, mode) {
        ParseIff(b, b[1], name, mode);
      }
      assert Parse(b).Accepted? ==> Parse(b) == Accepted(b[1], Parse(b).name, Parse(b).mode);
    }
  }

  /** The bytes of a request. */
  lemma PrintBytes(opcode: U16, name: seq<Byte>, mode: seq<Byte>)
    requires opcode in {1, 2}
    ensures Print(opcode, name, mode) == [0, opcode] + name + [0] + mode + [0]
  {
  }
}
