/**
 The CAN transmit mailboxes and the receive FIFO: a message is packed into the four words of a
 mailbox, the hardware sends it and sets the mailbox's empty flag again, and the receiver unpacks
 the words it got.
 */
module Can {
  type Word = bv32

  const ID_STANDARD: Word := 0
  const ID_EXTENDED: Word := 4
  const TXRQ: Word := 1
  const RFOM: Word := 0x20
  const NO_MAILBOX: nat := 4

  datatype Message = Message(stdId: Word, extId: Word, ide: Word, rtr: Word, dlc: Word, data: seq<Word>)

  /** What the library's parameter checks demand; data are eight bytes. */
  predicate Legal(m: Message) {
    && (m.ide == ID_STANDARD || m.ide == ID_EXTENDED)
    && (m.rtr == 0 || m.rtr == 2)
    && m.dlc <= 8
    && (m.ide == ID_STANDARD ==> m.stdId <= 0x7FF)
    && (m.ide == ID_EXTENDED ==> m.extId <= 0x1FFF_FFFF)
    && |m.data| == 8 && forall i :: 0 <= i < 8 ==> m.data[i] <= 0xFF
  }

  /** The words of a mailbox, or of a receive FIFO entry: identifier, length, low and high data. */
  datatype Mailbox = Mailbox(ir: Word, dtr: Word, dlr: Word, dhr: Word)

  /** What a receiver gets to see of a message: the identifier of its kind only. */
  datatype Frame = Frame(ide: Word, id: Word, rtr: Word, dlc: Word, data: seq<Word>)

  function FrameOf(m: Message): Frame {
    Frame(m.ide, if m.ide == ID_STANDARD then m.stdId else m.extId, m.rtr, m.dlc, m.data)
  }

  // ---------- packing and unpacking ----------

  function PackedIr(ir: Word, m: Message): Word {
    var ir := ir & TXRQ;
    if m.ide == ID_STANDARD then ir | ((m.stdId << 21) | m.rtr)
    else ir | ((m.extId << 3) | m.ide | m.rtr)
  }

  function PackedDtr(dtr: Word, dlc: Word): Word {
    (dtr & 0xFFFF_FFF0) | (dlc & 0xF)
  }

  function PackedWord(d0: Word, d1: Word, d2: Word, d3: Word): Word {
    (d3 << 24) | (d2 << 16) | (d1 << 8) | d0
  }

  /** A mailbox after CAN_Transmit filled it, whatever it held before. */
  function Filled(b: Mailbox, m: Message): Mailbox
    requires |m.data| == 8
  {
    Mailbox(
      PackedIr(b.ir, m) | TXRQ,
      PackedDtr(b.dtr, m.dlc),
      PackedWord(m.data[0], m.data[1], m.data[2], m.data[3]),
      PackedWord(m.data[4], m.data[5], m.data[6], m.data[7]))
  }

  function Unpacked(w: Word): seq<Word> {
    [0xFF & w, 0xFF & (w >> 8), 0xFF & (w >> 16), 0xFF & (w >> 24)]
  }

  function IdeOf(ir: Word): Word {
    0x04 & ir
  }

  function RtrOf(ir: Word): Word {
    0x02 & ir
  }

  function IdOf(ir: Word): Word {
    if IdeOf(ir) == ID_STANDARD then 0x7FF & (ir >> 21) else 0x1FFF_FFFF & (ir >> 3)
  }

  function DlcOf(dtr: Word): Word {
    0x0F & dtr
  }

  /** What CAN_Receive reads from a FIFO entry. */
  function Received(f: Mailbox): Frame {
    Frame(IdeOf(f.ir), IdOf(f.ir), RtrOf(f.ir), DlcOf(f.dtr), Unpacked(f.dlr) + Unpacked(f.dhr))
  }

  /** The hardware copies identifier, length and data; the request bit and the rest of the length
      word (filter index, time stamp) are its own. */
  predicate Copied(b: Mailbox, f: Mailbox) {
    && f.ir & 0xFFFF_FFFE == b.ir & 0xFFFF_FFFE
    && f.dtr & 0xF == b.dtr & 0xF
    && f.dlr == b.dlr && f.dhr == b.dhr
  }

  lemma UnpackWord(d0: Word, d1: Word, d2: Word, d3: Word)
    requires d0 <= 0xFF && d1 <= 0xFF && d2 <= 0xFF && d3 <= 0xFF
    ensures Unpacked(PackedWord(d0, d1, d2, d3)) == [d0, d1, d2, d3]
  {
  }

  lemma IdentifierRoundTrip(ir: Word, f: Word, m: Message)
    requires Legal(m) && f & 0xFFFF_FFFE == (PackedIr(ir, m) | TXRQ) & 0xFFFF_FFFE
    ensures IdeOf(f) == m.ide && RtrOf(f) == m.rtr
    ensures IdOf(f) == if m.ide == ID_STANDARD then m.stdId else m.extId
  {
  }

  lemma LengthRoundTrip(dtr: Word, f: Word, dlc: Word)
    requires dlc <= 8 && f & 0xF == ((dtr & 0xFFFF_FFF0) | (dlc & 0xF)) & 0xF
    ensures DlcOf(f) == dlc
  {
  }

  lemma DataRoundTrip(m: Message)
    requires Legal(m)
    ensures Unpacked(PackedWord(m.data[0], m.data[1], m.data[2], m.data[3]))
            + Unpacked(PackedWord(m.data[4], m.data[5], m.data[6], m.data[7])) == m.data
  {
    UnpackWord(m.data[0], m.data[1], m.data[2], m.data[3]);
    UnpackWord(m.data[4], m.data[5], m.data[6], m.data[7]);
  }

  /** Whatever the mailbox held before, the receiver reads exactly the message that was sent. */
  lemma FrameRoundTrip(b: Mailbox, m: Message, f: Mailbox)
    requires Legal(m) && Copied(Filled(b, m), f)
    ensures Received(f) == FrameOf(m)
  {
    IdentifierRoundTrip(b.ir, f.ir, m);
    LengthRoundTrip(b.dtr, f.dtr, m.dlc);
    DataRoundTrip(m);
  }

  // ---------- the mailboxes ----------

  datatype Mailboxes = Mailboxes(boxes: seq<Mailbox>, empty: seq<bool>)

  predicate Shaped(s: Mailboxes) {
    |s.boxes| == 3 && |s.empty| == 3
  }

  /** The mailbox CAN_Transmit picks: the first empty one. */
  function Pick(empty: seq<bool>): (box: nat)
    requires |empty| == 3
    ensures box < 3 || box == NO_MAILBOX
    ensures box < 3 ==> empty[box] && forall j | 0 <= j < box :: !empty[j]
    ensures box == NO_MAILBOX <==> forall j | 0 <= j < 3 :: !empty[j]
  {
    if empty[0] then 0 else if empty[1] then 1 else if empty[2] then 2 else NO_MAILBOX
  }

  function Transmitted(s: Mailboxes, m: Message): Mailboxes
    requires Shaped(s) && |m.data| == 8
  {
    var i := Pick(s.empty);
    if i == NO_MAILBOX then s
    else Mailboxes(s.boxes[i := Filled(s.boxes[i], m)], s.empty[i := false])
  }

  function Flag(i: nat): Word
    requires i < 3
  {
    if i == 0 then 0x0400_0000 else if i == 1 then 0x0800_0000 else 0x1000_0000
  }

  function IsEmpty(tsr: Word, i: nat): bool
    requires i < 3
  {
    tsr & Flag(i) == Flag(i)
  }

  function Flags(tsr: Word): seq<bool> {
    [IsEmpty(tsr, 0), IsEmpty(tsr, 1), IsEmpty(tsr, 2)]
  }

  // ---------- the layout of a mailbox ----------

  /** The bytes of a data register, the lowest first. */
  function Quad(w: Word): seq<Word> {
    [w & 0xFF, (w >> 8) & 0xFF, (w >> 16) & 0xFF, w >> 24]
  }

  /** An identifier word that asks for a message to be sent: bit 0 requests, bit 1 is RTR, bit 2
      IDE; an extended identifier is above them, a standard one in the upper eleven bits with zeros
      below. */
  predicate IdentifierWord(ir: Word, m: Message) {
    && ir & 1 == 1 && ir & 2 == m.rtr && ir & 4 == m.ide
    && (m.ide == 0 ==> ir >> 21 == m.stdId && (ir >> 3) & 0x3_FFFF == 0)
    && (m.ide != 0 ==> ir >> 3 == m.extId)
  }

  predicate LaidOut(b: Mailbox, m: Message) {
    IdentifierWord(b.ir, m) && b.dtr & 0xF == m.dlc && Quad(b.dlr) + Quad(b.dhr) == m.data
  }

  /** What is read off the words of a received message. */
  predicate ReadOff(b: Mailbox, f: Frame) {
    && f.ide == b.ir & 4 && f.rtr == b.ir & 2 && f.dlc == b.dtr & 0xF
    && f.id == (if b.ir & 4 == 0 then b.ir >> 21 else b.ir >> 3)
    && f.data == Quad(b.dlr) + Quad(b.dhr)
  }

  lemma IdentifierLaidOut(ir: Word, m: Message)
    requires Legal(m)
    ensures IdentifierWord(PackedIr(ir, m) | TXRQ, m)
  {
  }

  lemma WordLaidOut(d0: Word, d1: Word, d2: Word, d3: Word)
    requires d0 <= 0xFF && d1 <= 0xFF && d2 <= 0xFF && d3 <= 0xFF
    ensures Quad(PackedWord(d0, d1, d2, d3)) == [d0, d1, d2, d3]
  {
  }

  lemma LengthLaidOut(dtr: Word, dlc: Word)
    requires dlc <= 8
    ensures PackedDtr(dtr, dlc) & 0xF == dlc
    ensures PackedDtr(dtr, dlc) & 0xFFFF_FFF0 == dtr & 0xFFFF_FFF0
  {
  }

  lemma DataLaidOut(m: Message)
    requires Legal(m)
    ensures Quad(PackedWord(m.data[0], m.data[1], m.data[2], m.data[3]))
            + Quad(PackedWord(m.data[4], m.data[5], m.data[6], m.data[7])) == m.data
  {
    WordLaidOut(m.data[0], m.data[1], m.data[2], m.data[3]);
    WordLaidOut(m.data[4], m.data[5], m.data[6], m.data[7]);
  }

  lemma FilledIdentifier(b: Mailbox, m: Message)
    requires Legal(m)
    ensures IdentifierWord(Filled(b, m).ir, m)
  {
    IdentifierLaidOut(b.ir, m);
  }

  lemma FilledLength(b: Mailbox, m: Message)
    requires Legal(m)
    ensures Filled(b, m).dtr & 0xF == m.dlc
  {
    LengthLaidOut(b.dtr, m.dlc);
  }

  lemma FilledData(b: Mailbox, m: Message)
    requires Legal(m)
    ensures Quad(Filled(b, m).dlr) + Quad(Filled(b, m).dhr) == m.data
  {
    DataLaidOut(m);
  }

  lemma FilledLaidOut(b: Mailbox, m: Message)
    requires Legal(m)
    ensures LaidOut(Filled(b, m), m)
  {
    FilledIdentifier(b, m);
    FilledLength(b, m);
    FilledData(b, m);
  }

  lemma IdentifierReadOff(ir: Word)
    ensures IdeOf(ir) == ir & 4 && RtrOf(ir) == ir & 2
    ensures IdOf(ir) == if ir & 4 == 0 then ir >> 21 else ir >> 3
  {
  }

  lemma WordReadOff(w: Word)
    ensures Unpacked(w) == Quad(w)
  {
  }

  lemma LengthReadOff(dtr: Word)
    ensures DlcOf(dtr) == dtr & 0xF
  {
  }

  lemma ReceivedReadOff(f: Mailbox)
    ensures ReadOff(f, Received(f))
  {
    IdentifierReadOff(f.ir);
    LengthReadOff(f.dtr);
    WordReadOff(f.dlr);
    WordReadOff(f.dhr);
  }

  // Register values, apart from where they are kept.

  /** TME0, TME1 and TME2 are bits 26, 27 and 28 of the status register. */
  lemma FlagBits(tsr: Word)
    ensures Flags(tsr) == [(tsr >> 26) & 1 == 1, (tsr >> 27) & 1 == 1, (tsr >> 28) & 1 == 1]
  {
  }

  /** The first mailbox whose flag in the status register is set, if there is one. */
  method SelectMailbox(tsr: Word) returns (box: nat)
    ensures box == Pick(Flags(tsr))
    ensures box == 0 <==> (tsr >> 26) & 1 == 1
    ensures box == 1 <==> (tsr >> 26) & 1 == 0 && (tsr >> 27) & 1 == 1
    ensures box == 2 <==> (tsr >> 26) & 1 == 0 && (tsr >> 27) & 1 == 0 && (tsr >> 28) & 1 == 1
    ensures box in {0, 1, 2, 4}
  {
    if tsr & 0x0400_0000 == 0x0400_0000 {
      box := 0;
    } else if tsr & 0x0800_0000 == 0x0800_0000 {
      box := 1;
    } else if tsr & 0x1000_0000 == 0x1000_0000 {
      box := 2;
    } else {
      box := NO_MAILBOX;
    }
    FlagBits(tsr);
    OneOrZero(tsr);
  }

  lemma OneOrZero(tsr: Word)
    ensures (tsr >> 26) & 1 == 0 || (tsr >> 26) & 1 == 1
    ensures (tsr >> 27) & 1 == 0 || (tsr >> 27) & 1 == 1
    ensures (tsr >> 28) & 1 == 0 || (tsr >> 28) & 1 == 1
  {
  }

  /** The status register when the flag of a mailbox is taken back. */
  function Cleared(tsr: Word, box: nat): Word
    requires box < 3
  {
    tsr & !Flag(box)
  }

  lemma ClearedFlags(tsr: Word, box: nat)
    requires box < 3
    ensures Flags(Cleared(tsr, box)) == Flags(tsr)[box := false]
  {
  }

  lemma OtherBits(tsr: Word, box: nat)
    requires box < 3
    ensures Cleared(tsr, box) & 0xE3FF_FFFF == tsr & 0xE3FF_FFFF
  {
  }

  /** The hardware's answer to a request bit. */
  method ClearEmptyFlag(tsr: Word, box: nat) returns (t: Word)
    requires box < 3
    ensures t == Cleared(tsr, box)
  {
    t := tsr & !Flag(box);
  }

  method Pack(b: Mailbox, m: Message) returns (r: Mailbox)
    requires Legal(m)
    ensures r == Filled(b, m)
  {
    var ir := b.ir & TXRQ;
    if m.ide == ID_STANDARD {
      ir := ir | ((m.stdId << 21) | m.rtr);
    } else {
      ir := ir | ((m.extId << 3) | m.ide | m.rtr);
    }
    var dlc := m.dlc & 0xF;
    var dtr := b.dtr & 0xFFFF_FFF0;
    dtr := dtr | dlc;
    var dlr := (m.data[3] << 24) | (m.data[2] << 16) | (m.data[1] << 8) | m.data[0];
    var dhr := (m.data[7] << 24) | (m.data[6] << 16) | (m.data[5] << 8) | m.data[4];
    ir := ir | TXRQ;
    r := Mailbox(ir, dtr, dlr, dhr);
  }

  /** The frame, and the number of the filter that let it through. */
  method Unpack(f: Mailbox) returns (frame: Frame, filter: Word)
    ensures frame == Received(f) && ReadOff(f, frame)
    ensures filter <= 0xFF && filter << 8 == f.dtr & 0xFF00
  {
    var ide := 0x04 & f.ir;
    var id: Word;
    if ide == ID_STANDARD {
      id := 0x7FF & (f.ir >> 21);
    } else {
      id := 0x1FFF_FFFF & (f.ir >> 3);
    }
    var low := Bytes(f.dlr);
    var high := Bytes(f.dhr);
    frame := Frame(ide, id, 0x02 & f.ir, 0x0F & f.dtr, low + high);
    ReceivedReadOff(f);
    filter := 0xFF & (f.dtr >> 8);
  }

  method Bytes(w: Word) returns (data: seq<Word>)
    ensures data == Unpacked(w)
  {
    data := [0xFF & w, 0xFF & (w >> 8), 0xFF & (w >> 16), 0xFF & (w >> 24)];
  }

  /** The release bit is set, and no other bit has changed. */
  predicate Released(before: Word, after: Word) {
    after == before | 0x20
  }

  method Release(r: Word) returns (t: Word)
    ensures Released(r, t)
  {
    t := r | RFOM;
  }

  class Controller {
    const mailbox: array<Mailbox>
    const fifo: array<Mailbox>
    var tsr: Word
    var rf0r: Word
    var rf1r: Word

    constructor ()
      ensures Valid() && fresh(mailbox) && fresh(fifo)
    {
      mailbox := new Mailbox[3](_ => Mailbox(0, 0, 0, 0));
      fifo := new Mailbox[2](_ => Mailbox(0, 0, 0, 0));
      tsr, rf0r, rf1r := 0x1C00_0000, 0, 0;
    }

    ghost predicate Valid() {
      mailbox.Length == 3 && fifo.Length == 2 && mailbox != fifo
    }

    function View(): Mailboxes
      requires Valid()
      reads this, mailbox
    {
      Mailboxes(mailbox[..], Flags(tsr))
    }

    method Transmit(m: Message) returns (box: nat)
      requires Valid() && Legal(m)
      modifies this`tsr, mailbox
      ensures box == Pick(old(View()).empty)
      ensures View() == Transmitted(old(View()), m)
      ensures box == 0 <==> (old(tsr) >> 26) & 1 == 1
      ensures box == 1 <==> (old(tsr) >> 26) & 1 == 0 && (old(tsr) >> 27) & 1 == 1
      ensures box == 2 <==> (old(tsr) >> 26) & 1 == 0 && (old(tsr) >> 27) & 1 == 0 && (old(tsr) >> 28) & 1 == 1
      ensures box in {0, 1, 2, 4}
      ensures box < 3 ==> LaidOut(mailbox[box], m)
      ensures tsr == if box < 3 then Cleared(old(tsr), box) else old(tsr)
      ensures forall i | 0 <= i < 3 && i != box :: mailbox[i] == old(mailbox[i])
    {
      box := SelectMailbox(tsr);
      if box != NO_MAILBOX {
        FilledLaidOut(mailbox[box], m);
        mailbox[box] := Pack(mailbox[box], m);
        ClearedFlags(tsr, box);
        tsr := ClearEmptyFlag(tsr, box);
      }
    }

    /** The oldest entry of a FIFO is read, and then released by the FIFO's own register. */
    method Receive(number: nat) returns (frame: Frame, filter: Word)
      requires Valid() && number < 2
      modifies this`rf0r, this`rf1r
      ensures frame == Received(fifo[number]) && ReadOff(fifo[number], frame)
      ensures filter <= 0xFF && filter << 8 == fifo[number].dtr & 0xFF00
      ensures number == 0 ==> Released(old(rf0r), rf0r) && rf1r == old(rf1r)
      ensures number == 1 ==> Released(old(rf1r), rf1r) && rf0r == old(rf0r)
    {
      frame, filter := Unpack(fifo[number]);
      if number == 0 {
        rf0r := Release(rf0r);
      } else {
        rf1r := Release(rf1r);
      }
    }
  }

  // ---------- any interleaving of requests and completions ----------

  datatype Event =
    | Request(message: Message)
    | Complete(box: nat)  // the hardware is done with a mailbox, sent or failed

  /** The mailboxes with their history: all accepted messages, which of them each mailbox holds,
      and which have completed, in order. */
  datatype Bus = Bus(mail: Mailboxes, accepted: seq<Message>, holds: map<nat, nat>, completed: seq<nat>)

  predicate Possible(s: Bus, e: Event) {
    match e
    case Request(m) => Legal(m)
    case Complete(i) => i < |s.mail.empty| && !s.mail.empty[i]
  }

  /** One event; an impossible one leaves everything as it is. */
  function Step(s: Bus, e: Event): (t: Bus)
    requires Shaped(s.mail)
    ensures Shaped(t.mail)
  {
    if !Possible(s, e) then s else
    match e
    case Request(m) =>
      var i := Pick(s.mail.empty);
      if i == NO_MAILBOX then s
      else Bus(Transmitted(s.mail, m), s.accepted + [m], s.holds[i := |s.accepted|], s.completed)
    case Complete(i) =>
      Bus(s.mail.(empty := s.mail.empty[i := true]), s.accepted, s.holds - {i},
          s.completed + if i in s.holds then [s.holds[i]] else [])
  }

  /** A mailbox that is requested and from which a receiver reads the message. */
  ghost predicate Carries(b: Mailbox, m: Message) {
    && b.ir & TXRQ == TXRQ
    && forall f: Mailbox {:trigger Received(f)} :: Copied(b, f) ==> Received(f) == FrameOf(m)
  }

  /** Each of n messages is either held, by one mailbox, or completed, once. */
  ghost predicate Accounted(n: nat, holds: map<nat, nat>, completed: seq<nat>) {
    && n == |holds| + |completed|
    && (forall i | i in holds :: holds[i] < n && holds[i] !in completed)
    && Distinct(holds)
    && (forall k | 0 <= k < |completed| :: completed[k] < n)
    && (forall k, l | 0 <= k < l < |completed| :: completed[k] != completed[l])
    && EachHeld(n, holds, completed)
  }

  ghost predicate Distinct(holds: map<nat, nat>) {
    forall i, j | i in holds && j in holds && i != j :: holds[i] != holds[j]
  }

  ghost predicate Held(holds: map<nat, nat>, q: nat) {
    exists i :: i in holds && holds[i] == q
  }

  ghost predicate EachHeld(n: nat, holds: map<nat, nat>, completed: seq<nat>) {
    forall q: nat {:trigger Held(holds, q)} | q < n && q !in completed :: Held(holds, q)
  }

  lemma HeldStill(holds: map<nat, nat>, q: nat, t: map<nat, nat>)
    requires Held(holds, q) && forall i | i in holds && holds[i] == q :: i in t && t[i] == q
    ensures Held(t, q)
  {
    var i :| i in holds && holds[i] == q;
    assert t[i] == q;
  }

  lemma EachHeldAccepted(n: nat, holds: map<nat, nat>, completed: seq<nat>, i: nat)
    requires EachHeld(n, holds, completed) && i !in holds
    ensures EachHeld(n + 1, holds[i := n], completed)
  {
    var t := holds[i := n];
    forall q: nat | q < n + 1 && q !in completed ensures Held(t, q) {
      if q == n {
        assert t[i] == q;
      } else {
        HeldStill(holds, q, t);
      }
    }
  }

  lemma EachHeldCompleted(n: nat, holds: map<nat, nat>, completed: seq<nat>, i: nat)
    requires EachHeld(n, holds, completed) && i in holds
    ensures EachHeld(n, holds - {i}, completed + [holds[i]])
  {
    forall q: nat | q < n && q !in completed + [holds[i]] ensures Held(holds - {i}, q) {
      HeldStill(holds, q, holds - {i});
    }
  }

  lemma AccountAccepted(n: nat, holds: map<nat, nat>, completed: seq<nat>, i: nat)
    requires Accounted(n, holds, completed) && i !in holds
    ensures Accounted(n + 1, holds[i := n], completed)
  {
    assert holds[i := n].Keys == holds.Keys + {i};
    EachHeldAccepted(n, holds, completed, i);
  }

  lemma DistinctWithout(holds: map<nat, nat>, i: nat)
    requires Distinct(holds) && i in holds
    ensures Distinct(holds - {i}) && |holds - {i}| == |holds| - 1
    ensures forall j | j in holds - {i} :: holds[j] != holds[i]
  {
    assert holds.Keys == (holds - {i}).Keys + {i};
  }

  lemma AccountCompleted(n: nat, holds: map<nat, nat>, completed: seq<nat>, i: nat)
    requires Accounted(n, holds, completed) && i in holds
    ensures Accounted(n, holds - {i}, completed + [holds[i]])
  {
    DistinctWithout(holds, i);
    EachHeldCompleted(n, holds, completed, i);
  }

  /** The pending mailboxes are the ones that hold a message, and they carry it. */
  ghost predicate BoxInv(s: Bus) {
    && Shaped(s.mail)
    && (forall i: nat :: i in s.holds <==> i < 3 && !s.mail.empty[i])
    && (forall i | i in s.holds :: s.holds[i] < |s.accepted| && Carries(s.mail.boxes[i], s.accepted[s.holds[i]]))
  }

  ghost predicate BusInv(s: Bus) {
    BoxInv(s) && Accounted(|s.accepted|, s.holds, s.completed)
  }

  lemma Requested(ir: Word)
    ensures (ir | TXRQ) & TXRQ == TXRQ
  {
  }

  lemma FilledCarries(b: Mailbox, m: Message)
    requires Legal(m)
    ensures Carries(Filled(b, m), m)
  {
    Requested(PackedIr(b.ir, m));
    forall f: Mailbox | Copied(Filled(b, m), f) ensures Received(f) == FrameOf(m) {
      FrameRoundTrip(b, m, f);
    }
  }

  /** A message has gone into mailbox i, which now reads b. */
  function Accepted(s: Bus, i: nat, b: Mailbox, m: Message): Bus
    requires Shaped(s.mail) && i < 3
  {
    Bus(Mailboxes(s.mail.boxes[i := b], s.mail.empty[i := false]), s.accepted + [m],
        s.holds[i := |s.accepted|], s.completed)
  }

  lemma BoxRequested(s: Bus, i: nat, b: Mailbox, m: Message)
    requires BoxInv(s) && i < 3 && s.mail.empty[i] && Carries(b, m)
    ensures BoxInv(Accepted(s, i, b, m))
  {
  }

  lemma AcceptedKeepsInv(s: Bus, i: nat, b: Mailbox, m: Message)
    requires BusInv(s) && i < 3 && s.mail.empty[i] && Carries(b, m)
    ensures BusInv(Accepted(s, i, b, m))
  {
    BoxRequested(s, i, b, m);
    AccountAccepted(|s.accepted|, s.holds, s.completed, i);
  }

  lemma RequestKeepsInv(s: Bus, m: Message)
    requires BusInv(s) && Legal(m) && Pick(s.mail.empty) != NO_MAILBOX
    ensures BusInv(Step(s, Request(m)))
  {
    var i := Pick(s.mail.empty);
    FilledCarries(s.mail.boxes[i], m);
    AcceptedKeepsInv(s, i, Filled(s.mail.boxes[i], m), m);
    assert Step(s, Request(m)) == Accepted(s, i, Filled(s.mail.boxes[i], m), m);
  }

  lemma BoxCompleted(s: Bus, i: nat)
    requires BoxInv(s) && Possible(s, Complete(i))
    ensures BoxInv(Step(s, Complete(i)))
  {
  }

  lemma CompleteKeepsInv(s: Bus, i: nat)
    requires BusInv(s) && Possible(s, Complete(i))
    ensures BusInv(Step(s, Complete(i)))
  {
    BoxCompleted(s, i);
    AccountCompleted(|s.accepted|, s.holds, s.completed, i);
  }

  function Run(s: Bus, es: seq<Event>): (t: Bus)
    requires Shaped(s.mail)
    ensures Shaped(t.mail)
  {
    if es == [] then s else Step(Run(s, es[..|es| - 1]), es[|es| - 1])
  }

  /** Mailboxes with any contents, all empty. */
  function Idle(boxes: seq<Mailbox>): Bus {
    Bus(Mailboxes(boxes, [true, true, true]), [], map[], [])
  }

  lemma {:induction false} BusInvHolds(boxes: seq<Mailbox>, es: seq<Event>)
    requires |boxes| == 3
    ensures BusInv(Run(Idle(boxes), es))
  {
    if es != [] {
      BusInvHolds(boxes, es[..|es| - 1]);
      var s := Run(Idle(boxes), es[..|es| - 1]);
      match es[|es| - 1]
      case Request(m) =>
        if Legal(m) && Pick(s.mail.empty) != NO_MAILBOX {
          RequestKeepsInv(s, m);
        }
      case Complete(i) =>
        if Possible(s, Complete(i)) {
          CompleteKeepsInv(s, i);
        }
    }
  }

  /** Mailbox i still holds the same message in the same words. */
  predicate Kept(s: Bus, t: Bus, i: nat) {
    && Shaped(s.mail) && Shaped(t.mail) && i < 3
    && i in s.holds && i in t.holds && t.holds[i] == s.holds[i]
    && t.mail.boxes[i] == s.mail.boxes[i] && !t.mail.empty[i]
    && s.accepted <= t.accepted
  }

  lemma PendingKept(s: Bus, e: Event, i: nat)
    requires BoxInv(s) && i in s.holds && e != Complete(i)
    ensures Kept(s, Step(s, e), i)
  {
    if e.Request? {
      assert Pick(s.mail.empty) != i;
    }
  }

  lemma KeptOn(s: Bus, t: Bus, u: Bus, i: nat)
    requires Kept(s, t, i) && Kept(t, u, i)
    ensures Kept(s, u, i)
  {
  }

  lemma RunSnoc(s: Bus, es: seq<Event>, e: Event)
    requires Shaped(s.mail)
    ensures Run(s, es + [e]) == Step(Run(s, es), e)
  {
    assert (es + [e])[..|es + [e]| - 1] == es;
  }

  lemma PendingHere(boxes: seq<Mailbox>, es: seq<Event>, i: nat)
    requires |boxes| == 3 && i in Run(Idle(boxes), es).holds
    ensures var s := Run(Idle(boxes), es); Kept(s, s, i)
  {
    BusInvHolds(boxes, es);
  }

  lemma PendingNext(boxes: seq<Mailbox>, es: seq<Event>, e: Event, i: nat)
    requires |boxes| == 3 && i in Run(Idle(boxes), es).holds && e != Complete(i)
    ensures Kept(Run(Idle(boxes), es), Run(Idle(boxes), es + [e]), i)
  {
    BusInvHolds(boxes, es);
    PendingKept(Run(Idle(boxes), es), e, i);
    RunSnoc(Idle(boxes), es, e);
  }

  /** A pending mailbox is left alone: until the hardware is done with it, no events change its
      words or the message it holds. */
  lemma {:induction false} PendingStays(boxes: seq<Mailbox>, es: seq<Event>, later: seq<Event>, i: nat)
    requires |boxes| == 3 && i in Run(Idle(boxes), es).holds && Complete(i) !in later
    ensures Kept(Run(Idle(boxes), es), Run(Idle(boxes), es + later), i)
  {
    if later == [] {
      assert es + later == es;
      PendingHere(boxes, es, i);
    } else {
      var before, e := later[..|later| - 1], later[|later| - 1];
      assert es + later == es + before + [e];
      PendingStays(boxes, es, before, i);
      PendingNext(boxes, es + before, e, i);
      KeptOn(Run(Idle(boxes), es), Run(Idle(boxes), es + before), Run(Idle(boxes), es + later), i);
    }
  }

  /** In every run each accepted message that has not completed is in exactly one mailbox, which a
      receiver reads as that message; none completes twice, none is lost; and a request is refused
      exactly when all three mailboxes are pending, changing nothing. */
  lemma MailboxSafety(boxes: seq<Mailbox>, es: seq<Event>, q: nat, m: Message)
    requires |boxes| == 3 && Legal(m)
    requires q < |Run(Idle(boxes), es).accepted|
    ensures var s := Run(Idle(boxes), es);
            && (q !in s.completed ==>
                  exists i: nat :: i < 3 && !s.mail.empty[i] && Carries(s.mail.boxes[i], s.accepted[q])
                                   && i in s.holds && s.holds[i] == q
                                   && forall j | j in s.holds && s.holds[j] == q :: j == i)
            && |s.accepted| == |s.holds| + |s.completed|
            && (Pick(s.mail.empty) == NO_MAILBOX <==> 0 in s.holds && 1 in s.holds && 2 in s.holds)
            && (Pick(s.mail.empty) == NO_MAILBOX ==> Step(s, Request(m)) == s)
  {
    BusInvHolds(boxes, es);
    var s := Run(Idle(boxes), es);
    if q !in s.completed {
      assert Held(s.holds, q);
      var i :| i in s.holds && s.holds[i] == q;
    }
  }
}
