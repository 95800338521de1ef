/**
 The ADC sequencers. Channels per rank are packed five bits wide into SQR1-SQR3 and JSQR, sample
 times three bits wide into SMPR1-SMPR2; the sequence lengths share SQR1 and JSQR with them.

 `Regs` is the register file as a value. What the fields mean is given by reading them back
 (`Channel`, `SampleTime`, ...), and the results are about any sequence of driver calls.
 */
module Adc {
  import opened Bits

  datatype Regs = Regs(smpr1: Word, smpr2: Word, sqr1: Word, sqr2: Word, sqr3: Word, jsqr: Word)

  predicate IsChannel(c: nat) { c <= 17 }

  predicate IsRank(k: nat) { 1 <= k <= 16 }

  predicate IsSampleTime(t: nat) { t <= 7 }

  // ---------- what the registers mean ----------

  /** The channel converted at a rank of the regular sequence. */
  function Channel(r: Regs, rank: nat): nat
    requires IsRank(rank)
  {
    if rank < 7 then At(r.sqr3, 5 * (rank - 1), 5)
    else if rank < 13 then At(r.sqr2, 5 * (rank - 7), 5)
    else At(r.sqr1, 5 * (rank - 13), 5)
  }

  function SampleTime(r: Regs, channel: nat): nat
    requires IsChannel(channel)
  {
    if channel > 9 then At(r.smpr1, 3 * (channel - 10), 3) else At(r.smpr2, 3 * channel, 3)
  }

  /** The length of the regular sequence. */
  function Length(r: Regs): nat {
    At(r.sqr1, 20, 4) + 1
  }

  /** The length of the injected sequence. */
  function InjectedLength(r: Regs): nat {
    At(r.jsqr, 20, 2) + 1
  }

  /** JSQ1..JSQ4, numbered from 0; the injected sequence is the last InjectedLength of them. */
  function Slot(r: Regs, i: nat): nat
    requires i < 4
  {
    At(r.jsqr, 5 * i, 5)
  }

  /** The bits of the regular registers that are in no field above. */
  predicate SameSpare(r: Regs, t: Regs) {
    && r.smpr1[24..32] == t.smpr1[24..32]
    && r.smpr2[30..32] == t.smpr2[30..32]
    && r.sqr1[24..32] == t.sqr1[24..32]
    && r.sqr2[30..32] == t.sqr2[30..32]
    && r.sqr3[30..32] == t.sqr3[30..32]
  }

  // ---------- the driver calls ----------

  datatype Call =
    | Init(length: nat)
    | Regular(channel: nat, rank: nat, time: nat)
    | Injected(channel: nat, rank: nat, time: nat)
    | SetInjectedLength(length: nat)

  /** What the library's parameter checks demand. */
  predicate Legal(c: Call) {
    match c
    case Init(n) => 1 <= n <= 16
    case Regular(ch, k, t) => IsChannel(ch) && IsRank(k) && IsSampleTime(t)
    case Injected(ch, k, t) => IsChannel(ch) && 1 <= k <= 4 && IsSampleTime(t)
    case SetInjectedLength(n) => 1 <= n <= 4
  }

  function Timed(r: Regs, channel: nat, time: nat): Regs
    requires IsChannel(channel)
  {
    if channel > 9 then r.(smpr1 := Put(r.smpr1, 3, time, 3 * (channel - 10)))
    else r.(smpr2 := Put(r.smpr2, 3, time, 3 * channel))
  }

  function Ranked(r: Regs, channel: nat, rank: nat): Regs
    requires IsRank(rank)
  {
    if rank < 7 then r.(sqr3 := Put(r.sqr3, 5, channel, 5 * (rank - 1)))
    else if rank < 13 then r.(sqr2 := Put(r.sqr2, 5, channel, 5 * (rank - 7)))
    else r.(sqr1 := Put(r.sqr1, 5, channel, 5 * (rank - 13)))
  }

  /** The slot an injected rank goes to; slots from 4 on lie outside the sequence. */
  function SlotOf(r: Regs, rank: nat): int {
    rank + 3 - InjectedLength(r)
  }

  lemma InjectedLengthRange(r: Regs)
    ensures 1 <= InjectedLength(r) <= 4
  {
    NumBound(r.jsqr[20..22]);
  }

  function Slotted(r: Regs, channel: nat, rank: nat): Regs
    requires rank >= 1
  {
    InjectedLengthRange(r);
    r.(jsqr := Put(r.jsqr, 5, channel, 5 * SlotOf(r, rank)))
  }

  function Exec(r: Regs, c: Call): Regs
    requires Legal(c)
  {
    match c
    case Init(n) => r.(sqr1 := Put(r.sqr1, 4, n - 1, 20))
    case Regular(ch, k, t) => Ranked(Timed(r, ch, t), ch, k)
    case Injected(ch, k, t) => Slotted(Timed(r, ch, t), ch, k)
    case SetInjectedLength(n) => r.(jsqr := Put(r.jsqr, 2, n - 1, 20))
  }

  /** The w bits of a register from lo on are n now, and the others are as they were. */
  predicate FieldSet(before: Word, after: Word, lo: nat, w: nat, n: nat) {
    && lo + w <= 32
    && Num(after[lo..lo + w]) == n
    && after[..lo] == before[..lo] && after[lo + w..] == before[lo + w..]
  }

  lemma FieldWritten(r: Word, lo: nat, w: nat, n: nat)
    requires lo + w <= 32 && n < Pow2(w)
    ensures FieldSet(r, Put(r, w, n, lo), lo, w, n)
  {
    var t := Put(r, w, n, lo);
    PutValue(r, w, n, lo);
    PutKept(r, w, n, lo, 0, lo);
    PutKept(r, w, n, lo, lo + w, 32);
    Ends(t, r, lo, lo + w);
  }

  lemma Ends(t: Word, r: Word, lo: nat, hi: nat)
    requires lo <= hi <= 32 && t[0..lo] == r[0..lo] && t[hi..32] == r[hi..32]
    ensures t[..lo] == r[..lo] && t[hi..] == r[hi..]
  {
    assert t[..lo] == t[0..lo] && r[..lo] == r[0..lo];
    assert t[hi..] == t[hi..32] && r[hi..] == r[hi..32];
  }

  lemma LengthWritten(sqr1: Word, n: nat)
    requires n < 16
    ensures FieldSet(sqr1, Put(sqr1, 4, n, 20), 20, 4, n)
  {
    SmallPowers();
    FieldWritten(sqr1, 20, 4, n);
  }

  /** Three bits per channel, channels 0 to 9 in SMPR2 and 10 to 17 in SMPR1. */
  predicate TimeSet(r: Regs, t: Regs, channel: nat, time: nat) {
    if channel < 10 then FieldSet(r.smpr2, t.smpr2, 3 * channel, 3, time) && t.smpr1 == r.smpr1
    else FieldSet(r.smpr1, t.smpr1, 3 * channel - 30, 3, time) && t.smpr2 == r.smpr2
  }

  lemma TimeWritten(r: Regs, channel: nat, time: nat)
    requires IsChannel(channel)
    ensures IsSampleTime(time) ==> TimeSet(r, Timed(r, channel, time), channel, time)
  {
    SmallPowers();
    if IsSampleTime(time) {
      if channel < 10 {
        FieldWritten(r.smpr2, 3 * channel, 3, time);
      } else {
        FieldWritten(r.smpr1, 3 * channel - 30, 3, time);
      }
    }
  }

  /** Five bits per rank, ranks 1 to 6 in SQR3, 7 to 12 in SQR2 and 13 to 16 in SQR1. */
  predicate RankSet(r: Regs, t: Regs, rank: nat, channel: nat)
    requires IsRank(rank)
  {
    if rank <= 6 then
      FieldSet(r.sqr3, t.sqr3, 5 * rank - 5, 5, channel) && t.sqr2 == r.sqr2 && t.sqr1 == r.sqr1
    else if rank <= 12 then
      FieldSet(r.sqr2, t.sqr2, 5 * rank - 35, 5, channel) && t.sqr3 == r.sqr3 && t.sqr1 == r.sqr1
    else
      FieldSet(r.sqr1, t.sqr1, 5 * rank - 65, 5, channel) && t.sqr3 == r.sqr3 && t.sqr2 == r.sqr2
  }

  lemma RankWritten(r: Regs, channel: nat, rank: nat)
    requires IsChannel(channel) && IsRank(rank)
    ensures RankSet(r, Ranked(r, channel, rank), rank, channel)
  {
    SmallPowers();
    if rank <= 6 {
      FieldWritten(r.sqr3, 5 * rank - 5, 5, channel);
    } else if rank <= 12 {
      FieldWritten(r.sqr2, 5 * rank - 35, 5, channel);
    } else {
      FieldWritten(r.sqr1, 5 * rank - 65, 5, channel);
    }
  }

  /** With JL in bits 20 and 21, rank k of the JL + 1 injected ones is JSQ(k + 3 - JL). */
  predicate SlotSet(before: Word, after: Word, rank: nat, channel: nat) {
    var jl := Num(before[20..22]);
    jl <= 3 && (1 <= rank <= jl + 1 ==> FieldSet(before, after, 5 * (rank + 2 - jl), 5, channel))
  }

  lemma SlotWritten(jsqr: Word, channel: nat, rank: nat)
    requires IsChannel(channel) && 1 <= rank
    ensures var jl := Num(jsqr[20..22]);
            jl <= 3 && SlotSet(jsqr, Put(jsqr, 5, channel, 5 * (rank + 2 - jl)), rank, channel)
  {
    SmallPowers();
    NumBound(jsqr[20..22]);
    var jl := Num(jsqr[20..22]);
    if rank <= jl + 1 {
      FieldWritten(jsqr, 5 * (rank + 2 - jl), 5, channel);
    }
  }

  class Registers {
    var smpr1: Word
    var smpr2: Word
    var sqr1: Word
    var sqr2: Word
    var sqr3: Word
    var jsqr: Word

    function View(): Regs
      reads this
    {
      Regs(smpr1, smpr2, sqr1, sqr2, sqr3, jsqr)
    }

    /** ADC_Init, as far as SQR1 goes. */
    method Init(nbrOfChannel: nat)
      requires Legal(Call.Init(nbrOfChannel))
      modifies this`sqr1
      ensures View() == Exec(old(View()), Call.Init(nbrOfChannel))
      ensures FieldSet(old(sqr1), sqr1, 20, 4, nbrOfChannel - 1)
    {
      LengthWritten(sqr1, nbrOfChannel - 1);
      sqr1 := SetL(sqr1, nbrOfChannel - 1);
    }

    /** The sample-time half of both channel configurations. */
    method SetSampleTime(channel: nat, time: nat)
      requires IsChannel(channel)
      modifies this`smpr1, this`smpr2
      ensures View() == Timed(old(View()), channel, time)
      ensures IsSampleTime(time) ==> TimeSet(old(View()), View(), channel, time)
    {
      TimeWritten(View(), channel, time);
      if channel > 9 {
        smpr1 := Rewrite(smpr1, 3, time, 3 * (channel - 10));
      } else {
        smpr2 := Rewrite(smpr2, 3, time, 3 * channel);
      }
    }

    method RegularChannelConfig(channel: nat, rank: nat, time: nat)
      requires Legal(Regular(channel, rank, time))
      modifies this`smpr1, this`smpr2, this`sqr1, this`sqr2, this`sqr3
      ensures View() == Exec(old(View()), Regular(channel, rank, time))
      ensures TimeSet(old(View()), View(), channel, time)
      ensures if channel < 10 then smpr1 == old(smpr1) else smpr2 == old(smpr2)
      ensures RankSet(old(View()), View(), rank, channel)
      ensures (rank > 6 ==> sqr3 == old(sqr3)) && (rank <= 12 ==> sqr1 == old(sqr1))
    {
      SetSampleTime(channel, time);
      SetRank(channel, rank);
    }

    /** The rank's half of it. */
    method SetRank(channel: nat, rank: nat)
      requires IsChannel(channel) && IsRank(rank)
      modifies this`sqr1, this`sqr2, this`sqr3
      ensures View() == Ranked(old(View()), channel, rank)
      ensures RankSet(old(View()), View(), rank, channel)
      ensures (rank > 6 ==> sqr3 == old(sqr3)) && (rank <= 12 ==> sqr1 == old(sqr1))
    {
      RankWritten(View(), channel, rank);
      if rank < 7 {
        sqr3 := Rewrite(sqr3, 5, channel, 5 * (rank - 1));
      } else if rank < 13 {
        sqr2 := Rewrite(sqr2, 5, channel, 5 * (rank - 7));
      } else {
        sqr1 := Rewrite(sqr1, 5, channel, 5 * (rank - 13));
      }
    }

    method InjectedChannelConfig(channel: nat, rank: nat, time: nat)
      requires Legal(Injected(channel, rank, time))
      modifies this`smpr1, this`smpr2, this`jsqr
      ensures View() == Exec(old(View()), Injected(channel, rank, time))
      ensures TimeSet(old(View()), View(), channel, time)
      ensures if channel < 10 then smpr1 == old(smpr1) else smpr2 == old(smpr2)
      ensures SlotSet(old(jsqr), jsqr, rank, channel)
    {
      SetSampleTime(channel, time);
      SetInjectedSlot(channel, rank);
    }

    /** The rank's half of it. */
    method SetInjectedSlot(channel: nat, rank: nat)
      requires IsChannel(channel) && 1 <= rank <= 4
      modifies this`jsqr
      ensures View() == Slotted(old(View()), channel, rank)
      ensures SlotSet(old(jsqr), jsqr, rank, channel)
    {
      SlotWritten(jsqr, channel, rank);
      jsqr := SetSlot(jsqr, channel, rank);
    }

    method InjectedSequencerLengthConfig(length: nat)
      requires Legal(SetInjectedLength(length))
      modifies this`jsqr
      ensures View() == Exec(old(View()), SetInjectedLength(length))
      ensures FieldSet(old(jsqr), jsqr, 20, 2, length - 1)
    {
      SmallPowers();
      FieldWritten(jsqr, 20, 2, length - 1);
      jsqr := SetJl(jsqr, length - 1);
    }
  }

  // ---------- the constants of the source ----------

  const SQR1_CLEAR_MASK: Word := Not(Shl(Mask(4), 20))
  const JSQR_JL_SET: Word := Shl(Mask(2), 20)
  const JSQR_JL_RESET: Word := Not(Shl(Mask(2), 20))

  lemma MaskConstant(w: nat, n: nat)
    requires n == Pow2(w) - 1
    ensures W(n) == Mask(w)
  {
    Ones(w);
  }

  lemma FieldMasks(smpSet: nat, sqSet: nat)
    requires smpSet == 0x0000_0007 && sqSet == 0x0000_001F
    ensures W(smpSet) == Mask(3) && W(sqSet) == Mask(5)
  {
    SmallPowers();
    MaskConstant(3, smpSet);
    MaskConstant(5, sqSet);
  }

  lemma LengthMasks(jlSet: nat, jlReset: nat, sqr1Clear: nat)
    requires jlSet == 0x0030_0000 && jlReset == 0xFFCF_FFFF && sqr1Clear == 0xFF0F_FFFF
    ensures W(jlSet) == JSQR_JL_SET && W(jlReset) == JSQR_JL_RESET && W(sqr1Clear) == SQR1_CLEAR_MASK
  {
    SmallPowers();
    Powers();
    FieldConstant(2, Pow2(2) - 1, jlSet);
    FieldConstant(4, Pow2(4) - 1, 0xFFFF_FFFF - sqr1Clear);
  }

  lemma FieldShifted(w: nat, ones: nat)
    requires ones == Pow2(w) - 1
    ensures W(ones * 0x10_0000) == Shl(Mask(w), 20)
  {
    SmallPowers();
    Powers();
    MaskConstant(w, ones);
    ShiftedConstant(ones, 20);
  }

  lemma FieldConstant(w: nat, ones: nat, field: nat)
    requires ones == Pow2(w) - 1 && field == ones * 0x10_0000 && field < 0x1_0000_0000
    ensures W(field) == Shl(Mask(w), 20) && W(0xFFFF_FFFF - field) == Not(Shl(Mask(w), 20))
  {
    SmallPowers();
    Powers();
    FieldShifted(w, ones);
    ComplementedConstant(field);
  }

  // Register values, apart from where they are kept.

  method SetL(sqr1: Word, n: nat) returns (tmpreg1: Word)
    ensures tmpreg1 == Put(sqr1, 4, n, 20)
  {
    tmpreg1 := And(sqr1, SQR1_CLEAR_MASK);
    tmpreg1 := Or(tmpreg1, Shl(W(n), 20));
  }

  method SetJl(jsqr: Word, n: nat) returns (tmpreg1: Word)
    ensures tmpreg1 == Put(jsqr, 2, n, 20)
  {
    tmpreg1 := And(jsqr, JSQR_JL_RESET);
    tmpreg1 := Or(tmpreg1, Shl(W(n), 20));
  }

  method SetSlot(jsqr: Word, channel: nat, rank: nat) returns (t: Word)
    requires IsChannel(channel) && 1 <= rank <= 4
    ensures At(jsqr, 20, 2) <= 3 && t == Put(jsqr, 5, channel, 5 * ((rank + 3) - (At(jsqr, 20, 2) + 1)))
  {
    var tmpreg3 := ReadJl(jsqr);
    t := Rewrite(jsqr, 5, channel, 5 * ((rank + 3) - (tmpreg3 + 1)));
  }

  method ReadJl(jsqr: Word) returns (tmpreg3: nat)
    ensures tmpreg3 == At(jsqr, 20, 2) && tmpreg3 <= 3
  {
    tmpreg3 := Num(Shr(And(jsqr, JSQR_JL_SET), 20));
    MaskedRead(jsqr, 2, 20);
    NumBound(jsqr[20..22]);
    SmallPowers();
  }

  // ---------- what a call does to the meaning ----------

  predicate WritesChannel(c: Call, rank: nat) {
    c.Regular? && c.rank == rank
  }

  predicate WritesTime(c: Call, channel: nat) {
    (c.Regular? || c.Injected?) && c.channel == channel
  }

  /** Five-bit fields side by side. */
  lemma FieldOfFive(r: Word, n: nat, a: nat, b: nat)
    requires n < 32 && a < 6 && b < 6
    ensures At(Put(r, 5, n, 5 * a), 5 * b, 5) == if b == a then n else At(r, 5 * b, 5)
  {
    SmallPowers();
    ReadField(r, 5, n, 5 * a, 5 * b);
  }

  lemma RankedChannel(r: Regs, channel: nat, rank: nat, k: nat)
    requires IsChannel(channel) && IsRank(rank) && IsRank(k)
    ensures Channel(Ranked(r, channel, rank), k) == if k == rank then channel else Channel(r, k)
  {
    if rank < 7 && k < 7 {
      FieldOfFive(r.sqr3, channel, rank - 1, k - 1);
    } else if 7 <= rank < 13 && 7 <= k < 13 {
      FieldOfFive(r.sqr2, channel, rank - 7, k - 7);
    } else if 13 <= rank && 13 <= k {
      FieldOfFive(r.sqr1, channel, rank - 13, k - 13);
    }
  }

  lemma TimedTime(r: Regs, channel: nat, time: nat, ch: nat)
    requires IsChannel(channel) && IsSampleTime(time) && IsChannel(ch)
    ensures SampleTime(Timed(r, channel, time), ch) == if ch == channel then time else SampleTime(r, ch)
  {
    SmallPowers();
    if channel > 9 && ch > 9 {
      ReadField(r.smpr1, 3, time, 3 * (channel - 10), 3 * (ch - 10));
    } else if channel <= 9 && ch <= 9 {
      ReadField(r.smpr2, 3, time, 3 * channel, 3 * ch);
    }
  }

  lemma InitChannel(r: Regs, n: nat, k: nat)
    requires 1 <= n <= 16 && IsRank(k)
    ensures Channel(Exec(r, Init(n)), k) == Channel(r, k)
  {
    SmallPowers();
    if k >= 13 {
      PutAt(r.sqr1, 4, n - 1, 20, 5 * (k - 13), 5 * (k - 13) + 5);
    }
  }

  lemma InitLength(r: Regs, n: nat)
    requires 1 <= n <= 16
    ensures Length(Exec(r, Init(n))) == n
  {
    SmallPowers();
    PutAt(r.sqr1, 4, n - 1, 20, 0, 0);
  }

  lemma ChannelEffect(r: Regs, c: Call, k: nat)
    requires Legal(c) && IsRank(k)
    ensures Channel(Exec(r, c), k) == if WritesChannel(c, k) then c.channel else Channel(r, k)
  {
    if c.Init? {
      InitChannel(r, c.length, k);
    } else if c.Regular? {
      RankedChannel(Timed(r, c.channel, c.time), c.channel, c.rank, k);
    }
  }

  lemma TimeEffect(r: Regs, c: Call, ch: nat)
    requires Legal(c) && IsChannel(ch)
    ensures SampleTime(Exec(r, c), ch) == if WritesTime(c, ch) then c.time else SampleTime(r, ch)
  {
    if c.Regular? || c.Injected? {
      TimedTime(r, c.channel, c.time, ch);
    }
  }

  lemma TimedSpare(r: Regs, channel: nat, time: nat)
    requires IsChannel(channel) && IsSampleTime(time)
    ensures SameSpare(r, Timed(r, channel, time))
  {
    SmallPowers();
    if channel > 9 {
      PutAt(r.smpr1, 3, time, 3 * (channel - 10), 24, 32);
    } else {
      PutAt(r.smpr2, 3, time, 3 * channel, 30, 32);
    }
  }

  lemma RankedSpare(r: Regs, channel: nat, rank: nat)
    requires IsChannel(channel) && IsRank(rank)
    ensures SameSpare(r, Ranked(r, channel, rank))
  {
    SmallPowers();
    if rank < 7 {
      PutAt(r.sqr3, 5, channel, 5 * (rank - 1), 30, 32);
    } else if rank < 13 {
      PutAt(r.sqr2, 5, channel, 5 * (rank - 7), 30, 32);
    } else {
      PutAt(r.sqr1, 5, channel, 5 * (rank - 13), 24, 32);
    }
  }

  lemma RankedLength(r: Regs, channel: nat, rank: nat)
    requires IsChannel(channel) && IsRank(rank)
    ensures Length(Ranked(r, channel, rank)) == Length(r)
  {
    SmallPowers();
    if rank >= 13 {
      PutAt(r.sqr1, 5, channel, 5 * (rank - 13), 20, 24);
    }
  }

  lemma InitSpare(r: Regs, n: nat)
    requires 1 <= n <= 16
    ensures SameSpare(r, Exec(r, Init(n)))
  {
    SmallPowers();
    PutAt(r.sqr1, 4, n - 1, 20, 24, 32);
  }

  lemma SpareEffect(r: Regs, c: Call)
    requires Legal(c)
    ensures SameSpare(r, Exec(r, c))
  {
    if c.Init? {
      InitSpare(r, c.length);
    } else if c.Regular? || c.Injected? {
      TimedSpare(r, c.channel, c.time);
      if c.Regular? {
        RankedSpare(Timed(r, c.channel, c.time), c.channel, c.rank);
      }
    }
  }

  lemma LengthEffect(r: Regs, c: Call)
    requires Legal(c)
    ensures Length(Exec(r, c)) == if c.Init? then c.length else Length(r)
  {
    if c.Init? {
      InitLength(r, c.length);
    } else if c.Regular? {
      RankedLength(Timed(r, c.channel, c.time), c.channel, c.rank);
    }
  }

  // ---------- any sequence of calls ----------

  function ExecAll(r: Regs, cs: seq<Call>): Regs
    requires forall c <- cs :: Legal(c)
  {
    if cs == [] then r else Exec(ExecAll(r, cs[..|cs| - 1]), cs[|cs| - 1])
  }

  /** What the last call that wrote a rank wrote there, if any did. */
  function LastChannel(cs: seq<Call>, rank: nat, otherwise: nat): nat {
    if cs == [] then otherwise
    else if WritesChannel(cs[|cs| - 1], rank) then cs[|cs| - 1].channel
    else LastChannel(cs[..|cs| - 1], rank, otherwise)
  }

  function LastTime(cs: seq<Call>, channel: nat, otherwise: nat): nat {
    if cs == [] then otherwise
    else if WritesTime(cs[|cs| - 1], channel) then cs[|cs| - 1].time
    else LastTime(cs[..|cs| - 1], channel, otherwise)
  }

  function LastLength(cs: seq<Call>, otherwise: nat): nat {
    if cs == [] then otherwise
    else if cs[|cs| - 1].Init? then cs[|cs| - 1].length
    else LastLength(cs[..|cs| - 1], otherwise)
  }

  /** After any legal calls, every rank converts the channel last configured for it, every
      channel has the sample time last configured for it, the length is the one ADC_Init last
      set, and the bits outside these fields are as they were. */
  lemma {:induction false} RegularSequencer(r: Regs, cs: seq<Call>, rank: nat, channel: nat)
    requires (forall c <- cs :: Legal(c)) && IsRank(rank) && IsChannel(channel)
    ensures var t := ExecAll(r, cs);
            && Channel(t, rank) == LastChannel(cs, rank, Channel(r, rank))
            && SampleTime(t, channel) == LastTime(cs, channel, SampleTime(r, channel))
            && Length(t) == LastLength(cs, Length(r))
            && SameSpare(r, t)
  {
    if cs != [] {
      RegularSequencer(r, cs[..|cs| - 1], rank, channel);
      var before, last := ExecAll(r, cs[..|cs| - 1]), cs[|cs| - 1];
      assert last in cs;
      ChannelEffect(before, last, rank);
      TimeEffect(before, last, channel);
      LengthEffect(before, last);
      SpareEffect(before, last);
    }
  }

  // ---------- the injected sequencer ----------

  /** JSQR after an injected configuration. */
  lemma InjectedWord(r: Regs, c: Call)
    requires Legal(c) && c.Injected?
    ensures 1 <= InjectedLength(r) <= 4
    ensures Exec(r, c).jsqr == Put(r.jsqr, 5, c.channel, 5 * SlotOf(r, c.rank))
  {
    InjectedLengthRange(r);
    var q := Timed(r, c.channel, c.time);
    assert q.jsqr == r.jsqr;
    assert SlotOf(q, c.rank) == SlotOf(r, c.rank);
    assert Exec(r, c) == Slotted(q, c.channel, c.rank);
  }

  /** What a field in slot s leaves of JSQR. */
  lemma WithinSlots(jsqr: Word, channel: nat, s: nat, i: nat)
    requires channel < 32 && s < 4 && i < 4
    ensures var t := Put(jsqr, 5, channel, 5 * s);
            && At(t, 5 * i, 5) == (if i == s then channel else At(jsqr, 5 * i, 5))
            && At(t, 20, 2) == At(jsqr, 20, 2) && t[20..32] == jsqr[20..32]
  {
    SmallPowers();
    ReadField(jsqr, 5, channel, 5 * s, 5 * i);
    PutAt(jsqr, 5, channel, 5 * s, 20, 22);
    PutAt(jsqr, 5, channel, 5 * s, 20, 32);
  }

  /** Within the set length, a rank's slot is written and nothing else in JSQR is. */
  lemma InjectedWithin(r: Regs, c: Call, i: nat)
    requires Legal(c) && c.Injected? && c.rank <= InjectedLength(r) && i < 4
    ensures var t := Exec(r, c);
            && Slot(t, i) == (if i == SlotOf(r, c.rank) then c.channel else Slot(r, i))
            && InjectedLength(t) == InjectedLength(r)
            && t.jsqr[20..32] == r.jsqr[20..32]
  {
    InjectedWord(r, c);
    WithinSlots(r.jsqr, c.channel, SlotOf(r, c.rank), i);
  }

  /** Beyond the set length no slot is written, and a rank one past the end overwrites the length
      field with the low bits of the channel. */
  lemma InjectedBeyond(r: Regs, c: Call, i: nat)
    requires Legal(c) && c.Injected? && c.rank > InjectedLength(r) && i < 4
    ensures var t := Exec(r, c);
            && Slot(t, i) == Slot(r, i)
            && InjectedLength(t) == if c.rank == InjectedLength(r) + 1 then c.channel % 4 + 1 else InjectedLength(r)
  {
    InjectedWord(r, c);
    SmallPowers();
    BeyondSlots(r.jsqr, c.channel, 5 * SlotOf(r, c.rank), i);
  }

  /** What a field past the last slot leaves of the slots and makes of the length. */
  lemma BeyondSlots(jsqr: Word, channel: nat, shift: nat, i: nat)
    requires channel < Pow2(5) && shift >= 20 && i < 4
    ensures var t := Put(jsqr, 5, channel, shift);
            && At(t, 5 * i, 5) == At(jsqr, 5 * i, 5)
            && (shift == 20 ==> At(t, 20, 2) == channel % 4)
            && (shift >= 25 ==> At(t, 20, 2) == At(jsqr, 20, 2))
  {
    var t := Put(jsqr, 5, channel, shift);
    forall k: nat | k < 22
      ensures t[k] == if shift == 20 <= k then Low(channel, 5)[k - 20] else if k < shift then jsqr[k] else t[k]
    {
      PutBit(jsqr, 5, channel, shift, k);
    }
    assert t[5 * i..5 * i + 5] == jsqr[5 * i..5 * i + 5];
    if shift == 20 {
      assert t[20..22] == Low(channel, 5)[..2] == Low(channel, 2);
      NumTwoBits(channel);
    } else if shift >= 25 {
      assert t[20..22] == jsqr[20..22];
    }
  }

  lemma NumTwoBits(n: nat)
    ensures Num(Low(n, 2)) == n % 4
  {
    var s := Low(n, 2);
    assert s[1..] == Low(n / 2, 1);
    assert Low(n / 2, 1) == [n / 2 % 2 == 1];
    assert Num([n / 2 % 2 == 1]) == n / 2 % 2;
  }

  lemma LengthSet(r: Regs, n: nat, i: nat)
    requires 1 <= n <= 4 && i < 4
    ensures var t := Exec(r, SetInjectedLength(n)); InjectedLength(t) == n && Slot(t, i) == Slot(r, i)
  {
    SmallPowers();
    PutAt(r.jsqr, 2, n - 1, 20, 5 * i, 5 * i + 5);
  }

  function LastInjected(cs: seq<Call>, rank: nat, otherwise: nat): nat {
    if cs == [] then otherwise
    else if cs[|cs| - 1].Injected? && cs[|cs| - 1].rank == rank then cs[|cs| - 1].channel
    else LastInjected(cs[..|cs| - 1], rank, otherwise)
  }

  /** Calls that leave the injected length alone and configure ranks 1..n only. */
  predicate WithinLength(c: Call, n: nat) {
    !c.SetInjectedLength? && (c.Injected? ==> c.rank <= n)
  }

  lemma InjectedStep(b: Regs, c: Call, n: nat, i: nat)
    requires Legal(c) && WithinLength(c, n) && InjectedLength(b) == n && i < 4
    ensures var t := Exec(b, c);
            && InjectedLength(t) == n
            && Slot(t, i) == if c.Injected? && i == c.rank + 3 - n then c.channel else Slot(b, i)
  {
    if c.Injected? {
      InjectedWithin(b, c, i);
    } else {
      assert Exec(b, c).jsqr == b.jsqr;
    }
  }

  /** Once the length is n, configuring ranks 1..n in any order, with repeats and any other
      calls in between, leaves the last n slots holding the channels in rank order; length and
      unused slots stay as they were. */
  lemma {:induction false} InjectedSequencer(r: Regs, n: nat, cs: seq<Call>, i: nat)
    requires 1 <= n <= 4 && i < 4 && (forall c <- cs :: Legal(c)) && (forall c <- cs :: WithinLength(c, n))
    ensures var t := ExecAll(Exec(r, SetInjectedLength(n)), cs);
            && InjectedLength(t) == n
            && Slot(t, i) == if i < 4 - n then Slot(r, i) else LastInjected(cs, i + n - 3, Slot(r, i))
  {
    if cs == [] {
      LengthSet(r, n, i);
    } else {
      var before, last := cs[..|cs| - 1], cs[|cs| - 1];
      InjectedSequencer(r, n, before, i);
      assert last in cs;
      InjectedStep(ExecAll(Exec(r, SetInjectedLength(n)), before), last, n, i);
    }
  }
}
