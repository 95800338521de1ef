/**
 Interrupt priorities. Two paths store a priority byte: the driver library's NVIC_Init, which
 works from the grouping field of AIRCR, and CMSIS's NVIC_SetPriority of NVIC_EncodePriority.
 */
module Nvic {
  import Bits

  type Word = bv32

  const PRIO_BITS: Word := 4

  /** The bits of pre-emption and of sub-priority under a grouping field. */
  function PreemptBits(group: Word): Word {
    if 7 - (group & 7) > PRIO_BITS then PRIO_BITS else 7 - (group & 7)
  }

  function SubBits(group: Word): Word {
    if (group & 7) + PRIO_BITS < 7 then 0 else (group & 7) - 7 + PRIO_BITS
  }

  function Ones(n: Word): Word
    requires n <= 4
  {
    (1 << n) - 1
  }

  function EncodePriority(group: Word, preempt: Word, sub: Word): Word {
    ((preempt & Ones(PreemptBits(group))) << SubBits(group)) | (sub & Ones(SubBits(group)))
  }

  function DecodePreempt(priority: Word, group: Word): Word {
    (priority >> SubBits(group)) & Ones(PreemptBits(group))
  }

  function DecodeSub(priority: Word, group: Word): Word {
    priority & Ones(SubBits(group))
  }

  /** The byte NVIC_SetPriority stores. */
  function StoredPriority(priority: Word): Word {
    (priority << 4) & 0xFF
  }

  /** The byte NVIC_Init stores. */
  function InitPriority(aircr: Word, preempt: Word, sub: Word): Word
    requires aircr & 0x700 >= 0x300
  {
    var tmppriority := (0x700 - (aircr & 0x700)) >> 8;
    var tmppre := 4 - tmppriority;
    var tmpsub := 0xF >> tmppriority;
    var tmppriority := preempt << tmppre;
    var tmppriority := tmppriority | (sub & tmpsub);
    (tmppriority << 4) & 0xFF
  }

  /** Decoding an encoded priority gives both values back, cut to the width of their fields. */
  lemma DecodeEncode(group: Word, preempt: Word, sub: Word)
    ensures var e := EncodePriority(group, preempt, sub);
            && DecodePreempt(e, group) == preempt & Ones(PreemptBits(group))
            && DecodeSub(e, group) == sub & Ones(SubBits(group))
            && e < 16
  {
  }

  /** The widths of the two fields, and what Ones makes of them. */
  lemma Widths(group: Word)
    ensures var g := group & 7;
            && SubBits(group) == (if g <= 3 then 0 else g - 3) <= 4
            && PreemptBits(group) == 4 - SubBits(group)
    ensures Ones(0) == 0 && Ones(1) == 1 && Ones(2) == 3 && Ones(3) == 7 && Ones(4) == 15
  {
  }

  /** Pairs of fields of constant widths. */
  lemma PairOrder(p: Word, s: Word, p': Word, s': Word)
    ensures p <= 7 && p' <= 7 && s <= 1 && s' <= 1 ==> ((p << 1) | s < (p' << 1) | s' <==> Before(p, s, p', s'))
    ensures p <= 3 && p' <= 3 && s <= 3 && s' <= 3 ==> ((p << 2) | s < (p' << 2) | s' <==> Before(p, s, p', s'))
    ensures p <= 1 && p' <= 1 && s <= 7 && s' <= 7 ==> ((p << 3) | s < (p' << 3) | s' <==> Before(p, s, p', s'))
  {
  }

  predicate Before(p: Word, s: Word, p': Word, s': Word) {
    p < p' || (p == p' && s < s')
  }

  /** What the encoding amounts to for each width of the sub-priority. */
  lemma Fitting(group: Word, p: Word, s: Word)
    requires p <= Ones(PreemptBits(group)) && s <= Ones(SubBits(group))
    ensures var e := EncodePriority(group, p, s);
            && (SubBits(group) == 0 ==> e == p && s == 0)
            && (SubBits(group) == 1 ==> e == (p << 1) | s && p <= 7 && s <= 1)
            && (SubBits(group) == 2 ==> e == (p << 2) | s && p <= 3 && s <= 3)
            && (SubBits(group) == 3 ==> e == (p << 3) | s && p <= 1 && s <= 7)
            && (SubBits(group) == 4 ==> e == s && p == 0)
  {
    Widths(group);
    FitsMask(p);
    FitsMask(s);
  }

  lemma FitsMask(x: Word)
    ensures x <= 0 ==> x & 0 == x
    ensures x <= 1 ==> x & 1 == x
    ensures x <= 3 ==> x & 3 == x
    ensures x <= 7 ==> x & 7 == x
    ensures x <= 15 ==> x & 15 == x
  {
  }

  /** Encoded priorities compare as (preempt, sub) pairs do, for values that fit their fields. */
  lemma EncodeOrder(group: Word, p: Word, s: Word, p': Word, s': Word)
    requires p <= Ones(PreemptBits(group)) && p' <= Ones(PreemptBits(group))
    requires s <= Ones(SubBits(group)) && s' <= Ones(SubBits(group))
    ensures EncodePriority(group, p, s) < EncodePriority(group, p', s') <==> p < p' || (p == p' && s < s')
  {
    Fitting(group, p, s);
    Fitting(group, p', s');
    Widths(group);
    PairOrder(p, s, p', s');
  }

  /** Both paths store the same byte, for every legal grouping and all values. */
  lemma PathsAgree(aircr: Word, preempt: Word, sub: Word)
    requires aircr & 0x700 >= 0x300
    ensures InitPriority(aircr, preempt, sub) == StoredPriority(EncodePriority((aircr & 0x700) >> 8, preempt, sub))
  {
  }

  /** What a stored byte reads back as. */
  lemma StoredReadsBack(priority: Word)
    ensures StoredPriority(priority) >> 4 == priority & 0xF && StoredPriority(priority) & 0xF == 0
  {
  }

  lemma GroupReadsBack(group: Word)
    requires group in {0x300, 0x400, 0x500, 0x600, 0x700}
    ensures (0x05FA_0000 | group) & 0x700 == group
  {
  }

  /** A register that sets, or clears, what is written as ones, with a single one in it. */
  lemma OneBit(w: Bits.Word, k: nat, j: nat)
    requires k < 32 && j < 32
    ensures var one := Bits.Shl(Bits.W(1), k);
            && Bits.Or(w, one)[j] == (j == k || w[j])
            && Bits.And(w, Bits.Not(one))[j] == (j != k && w[j])
  {
    assert Bits.Pow2(1) == 2;
    Bits.ValueBit(1, 1, k, j);
  }

  class Controller {
    var aircr: Word
    const ip: array<Word>  // one byte per device interrupt
    const shp: array<Word>  // one byte per system handler 4..15
    const iser: array<Bits.Word>  // one bit per device interrupt

    constructor ()
      ensures Valid() && fresh(ip) && fresh(shp) && fresh(iser)
    {
      aircr := 0x300;
      ip := new Word[240](_ => 0);
      shp := new Word[12](_ => 0);
      iser := new Bits.Word[8](_ => Bits.Mask(0));
    }

    ghost predicate Valid() {
      ip.Length == 240 && shp.Length == 12 && ip != shp && iser.Length == 8
    }

    /** A write to ISER enables, and one to ICER disables, the interrupts whose bits are ones. */
    method SetEnable(channel: nat)
      requires Valid() && channel < 240
      modifies iser
      ensures forall w: nat, k: nat :: w < 8 && k < 32 ==>
                iser[w][k] == ((w == channel / 32 && k == channel % 32) || old(iser[w][k]))
    {
      var word := iser[channel / 32];
      iser[channel / 32] := Bits.Or(word, Bits.Shl(Bits.W(1), channel % 32));
      forall k: nat | k < 32 ensures iser[channel / 32][k] == (k == channel % 32 || word[k]) {
        OneBit(word, channel % 32, k);
      }
    }

    method ClearEnable(channel: nat)
      requires Valid() && channel < 240
      modifies iser
      ensures forall w: nat, k: nat :: w < 8 && k < 32 ==>
                iser[w][k] == (!(w == channel / 32 && k == channel % 32) && old(iser[w][k]))
    {
      var word := iser[channel / 32];
      iser[channel / 32] := Bits.And(word, Bits.Not(Bits.Shl(Bits.W(1), channel % 32)));
      forall k: nat | k < 32 ensures iser[channel / 32][k] == (k != channel % 32 && word[k]) {
        OneBit(word, channel % 32, k);
      }
    }

    /** Device interrupts are numbered from 0, core interrupts below it. */
    predicate IsIrq(irq: int) {
      -12 <= irq < 240
    }

    /** The byte that holds an interrupt's priority. */
    function Byte(irq: int): Word
      requires Valid() && IsIrq(irq)
      reads ip, shp
    {
      if irq < 0 then shp[(irq + 16) - 4] else ip[irq]
    }

    method PriorityGroupConfig(group: Word)
      requires group in {0x300, 0x400, 0x500, 0x600, 0x700}
      modifies this`aircr
      ensures aircr == 0x05FA_0000 | group  // the hardware ignores writes without this key
      ensures aircr & 0x700 == group
    {
      aircr := 0x05FA_0000 | group;
      GroupReadsBack(group);
    }

    /** Enabling an interrupt stores the byte the CMSIS path would store for it; disabling stores
        none. No other interrupt is touched. */
    method Init(channel: nat, preempt: Word, sub: Word, enable: bool)
      requires Valid() && channel < 240 && aircr & 0x700 >= 0x300
      modifies iser, ip
      ensures forall irq :: IsIrq(irq) ==>
                Byte(irq) == if enable && irq == channel
                             then StoredPriority(EncodePriority((aircr & 0x700) >> 8, preempt, sub))
                             else old(Byte(irq))
      ensures forall w: nat, k: nat :: w < 8 && k < 32 ==>
                iser[w][k] == if w == channel / 32 && k == channel % 32 then enable else old(iser[w][k])
      ensures enable ==> ip[channel] == StoredPriority(EncodePriority((aircr & 0x700) >> 8, preempt, sub))
    {
      if enable {
        ip[channel] := InitPriority(aircr, preempt, sub);
        PathsAgree(aircr, preempt, sub);
        SetEnable(channel);
      } else {
        ClearEnable(channel);
      }
    }

    method SetPriority(irq: int, priority: Word)
      requires Valid() && IsIrq(irq)
      modifies ip, shp
      ensures forall i :: IsIrq(i) ==> Byte(i) == if i == irq then StoredPriority(priority) else old(Byte(i))
      ensures irq >= 0 ==> ip[irq] == (priority << 4) & 0xFF
      ensures irq < 0 ==> shp[irq + 12] == (priority << 4) & 0xFF
    {
      if irq < 0 {
        shp[(irq + 16) - 4] := (priority << (8 - PRIO_BITS)) & 0xFF;
      } else {
        ip[irq] := (priority << (8 - PRIO_BITS)) & 0xFF;
      }
    }

    method GetPriority(irq: int) returns (priority: Word)
      requires Valid() && IsIrq(irq)
      ensures priority == Byte(irq) >> 4
    {
      if irq < 0 {
        priority := shp[(irq + 16) - 4] >> (8 - PRIO_BITS);
      } else {
        priority := ip[irq] >> (8 - PRIO_BITS);
      }
    }
  }

  /** What NVIC_Init stored, read with NVIC_GetPriority and decoded under the same grouping, is
      the pair it was given, cut to the width of the fields. */
  lemma InitThenDecode(aircr: Word, preempt: Word, sub: Word)
    requires aircr & 0x700 >= 0x300
    ensures var group := (aircr & 0x700) >> 8; var read := InitPriority(aircr, preempt, sub) >> 4;
            && DecodePreempt(read, group) == preempt & Ones(PreemptBits(group))
            && DecodeSub(read, group) == sub & Ones(SubBits(group))
  {
    var group := (aircr & 0x700) >> 8;
    var e := EncodePriority(group, preempt, sub);
    PathsAgree(aircr, preempt, sub);
    DecodeEncode(group, preempt, sub);
    StoredReadsBack(e);
    SmallNibble(e);
  }

  lemma SmallNibble(e: Word)
    requires e < 16
    ensures e & 0xF == e
  {
  }
}
