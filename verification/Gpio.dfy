/**
 GPIO pin modes: four bits per pin, pins 0-7 in CRL and 8-15 in CRH, set by two loops over a pin
 mask; pull-up and pull-down modes also set or reset the pin's output bit. And the EXTI port
 selection, four bits per line in four registers.
 */
module Gpio {
  import opened Bits

  const MODE_AIN := 0x00
  const MODE_IN_FLOATING := 0x04
  const MODE_IPD := 0x28
  const MODE_IPU := 0x48
  const MODE_OUT_OD := 0x14
  const MODE_OUT_PP := 0x10
  const MODE_AF_OD := 0x1C
  const MODE_AF_PP := 0x18

  predicate IsMode(m: nat) {
    m in {MODE_AIN, MODE_IN_FLOATING, MODE_IPD, MODE_IPU, MODE_OUT_OD, MODE_OUT_PP, MODE_AF_OD, MODE_AF_PP}
  }

  predicate IsOutput(m: nat) {
    m / 0x10 % 2 == 1
  }

  datatype Call = Call(pins: Word, mode: nat, speed: nat)

  /** What the library's parameter checks demand; the pin mask is a 16-bit number. */
  predicate Legal(c: Call) {
    && (forall p :: 16 <= p < 32 ==> !c.pins[p])
    && IsMode(c.mode)
    && (IsOutput(c.mode) ==> 1 <= c.speed <= 3)
  }

  function BitOr(a: nat, b: nat): nat {
    if a == 0 then b else if b == 0 then a
    else 2 * BitOr(a / 2, b / 2) + if a % 2 == 1 || b % 2 == 1 then 1 else 0
  }

  /** The four mode bits written for a pin. */
  function Nibble(c: Call): nat {
    var currentmode := c.mode % 0x10;
    if IsOutput(c.mode) then BitOr(currentmode, c.speed) else currentmode
  }

  lemma BitOrDisjoint(a: nat, b: nat)
    requires a % 4 == 0 && b < 4
    ensures BitOr(a, b) == a + b
  {
    if a > 0 && b > 0 {
      assert a / 2 > 0 && (a / 2) / 2 > 0;
      assert BitOr(a / 2 / 2, b / 2 / 2) == a / 4;
      assert BitOr(a / 2, b / 2) == a / 2 + b / 2;
    }
  }

  /** The configuration bits sit above the speed bits and do not meet them. */
  lemma NibbleValue(c: Call)
    requires Legal(c)
    ensures Nibble(c) == c.mode % 0x10 + (if IsOutput(c.mode) then c.speed else 0) < 0x10
  {
    if IsOutput(c.mode) {
      BitOrDisjoint(c.mode % 0x10, c.speed);
    }
  }

  /** The same as a number: configuration bits, and the speed of an output. */
  function ModeBits(mode: nat, speed: nat): nat {
    mode % 16 + if mode in {0x10, 0x14, 0x18, 0x1C} then speed else 0
  }

  lemma NibbleIs(c: Call)
    requires Legal(c)
    ensures Nibble(c) == ModeBits(c.mode, c.speed)
  {
    NibbleValue(c);
  }

  /** A port: its two control registers and its output register. */
  datatype Port = Port(crl: Word, crh: Word, odr: Word)

  function Mode(t: Port, p: nat): nat
    requires p < 16
  {
    if p < 8 then At(t.crl, 4 * p, 4) else At(t.crh, 4 * (p - 8), 4)
  }

  // ---------- the loops, as functions ----------

  /** One control register after the first n of its eight pins. */
  function Configured(r: Word, c: Call, base: nat, n: nat): Word
    requires base + n <= 16
  {
    if n == 0 then r else
    var before := Configured(r, c, base, n - 1);
    if c.pins[base + n - 1] then Put(before, 4, Nibble(c), 4 * (n - 1)) else before
  }

  /** Writing a bit to BRR resets that output bit, writing it to BSRR sets it. */
  function Driven(odr: Word, c: Call, base: nat, n: nat): Word
    requires base + n <= 16
  {
    if n == 0 then odr else
    var before := Driven(odr, c, base, n - 1);
    if !c.pins[base + n - 1] then before
    else if c.mode == MODE_IPD then And(before, Not(Shl(Mask(1), base + n - 1)))
    else if c.mode == MODE_IPU then Or(before, Shl(Mask(1), base + n - 1))
    else before
  }

  function Exec(t: Port, c: Call): Port {
    Port(Configured(t.crl, c, 0, 8), Configured(t.crh, c, 8, 8), Driven(Driven(t.odr, c, 0, 8), c, 8, 8))
  }

  lemma {:induction false} NothingSelected(r: Word, odr: Word, c: Call, base: nat, n: nat)
    requires base + n <= 16 && forall p :: base <= p < base + n ==> !c.pins[p]
    ensures Configured(r, c, base, n) == r && Driven(odr, c, base, n) == odr
  {
    if n > 0 {
      NothingSelected(r, odr, c, base, n - 1);
    }
  }

  class Registers {
    var crl: Word
    var crh: Word
    var odr: Word

    function View(): Port
      reads this
    {
      Port(crl, crh, odr)
    }

    /** One of the two loops of GPIO_Init, over the pins of one control register. */
    method ConfigureHalf(r: Word, c: Call, base: nat) returns (tmpreg: Word)
      requires base == 0 || base == 8
      modifies this`odr
      ensures tmpreg == Configured(r, c, base, 8) && odr == Driven(old(odr), c, base, 8)
    {
      tmpreg := r;
      for pinpos := 0 to 8
        invariant tmpreg == Configured(r, c, base, pinpos)
        invariant odr == Driven(old(odr), c, base, pinpos)
      {
        if c.pins[base + pinpos] {
          var pinmask := Shl(Mask(4), 4 * pinpos);
          tmpreg := And(tmpreg, Not(pinmask));
          tmpreg := Or(tmpreg, Shl(W(Nibble(c)), 4 * pinpos));
          if c.mode == MODE_IPD {
            odr := And(odr, Not(Shl(Mask(1), base + pinpos)));
          } else if c.mode == MODE_IPU {
            odr := Or(odr, Shl(Mask(1), base + pinpos));
          }
        }
      }
    }

    method Init(c: Call)
      requires Legal(c)
      modifies this
      ensures View() == Exec(old(View()), c)
      ensures forall p: nat :: p < 8 ==>
                At(crl, 4 * p, 4) == if c.pins[p] then ModeBits(c.mode, c.speed) else old(At(crl, 4 * p, 4))
      ensures forall p: nat :: p < 8 ==>
                At(crh, 4 * p, 4) == if c.pins[8 + p] then ModeBits(c.mode, c.speed) else old(At(crh, 4 * p, 4))
      ensures forall p: nat :: p < 16 ==>
                odr[p] == if c.pins[p] && c.mode in {0x28, 0x48} then c.mode == 0x48 else old(odr[p])
      ensures odr[16..] == old(odr[16..])
    {
      ghost var was := View();
      InitRegisters(was, c);
      if Num(c.pins[..8]) != 0 {
        crl := ConfigureHalf(crl, c, 0);
      } else {
        NumZero(c.pins[..8]);
        NothingSelected(crl, odr, c, 0, 8);
      }
      if Num(c.pins) > 0xFF {
        crh := ConfigureHalf(crh, c, 8);
      } else {
        NoHighBits(c.pins);
        NothingSelected(crh, odr, c, 8, 8);
      }
    }
  }

  lemma {:induction false} NumZero(s: seq<bool>)
    requires Num(s) == 0
    ensures forall k :: 0 <= k < |s| ==> !s[k]
  {
    if s != [] {
      NumZero(s[1..]);
      forall k | 0 <= k < |s| ensures !s[k] {
        if k > 0 {
          assert s[k] == s[1..][k - 1];
        }
      }
    }
  }

  lemma {:induction false} NumAtLeast(s: seq<bool>, k: nat)
    requires k < |s| && s[k]
    ensures Num(s) >= Pow2(k)
  {
    if k > 0 {
      NumAtLeast(s[1..], k - 1);
    }
  }

  lemma {:induction false} PowMonotone(a: nat, b: nat)
    requires a <= b
    ensures Pow2(a) <= Pow2(b)
  {
    if a < b {
      PowMonotone(a, b - 1);
    }
  }

  lemma NoHighBits(w: Word)
    requires Num(w) <= 0xFF
    ensures forall k :: 8 <= k < 32 ==> !w[k]
  {
    SmallPowers();
    PowAdd(4, 4);
    forall k | 8 <= k < 32 ensures !w[k] {
      PowMonotone(8, k);
      if w[k] {
        NumAtLeast(w, k);
        assert false;
      }
    }
  }

  // ---------- what they do ----------

  lemma NibbleField(r: Word, c: Call, q: nat, p: nat)
    requires Legal(c) && q < 8 && p < 8
    ensures At(Put(r, 4, Nibble(c), 4 * q), 4 * p, 4) == if p == q then Nibble(c) else At(r, 4 * p, 4)
  {
    SmallPowers();
    NibbleValue(c);
    ReadField(r, 4, Nibble(c), 4 * q, 4 * p);
  }

  lemma {:induction false} ConfiguredField(r: Word, c: Call, base: nat, n: nat, p: nat)
    requires Legal(c) && base + n <= 16 && n <= 8 && p < 8
    ensures At(Configured(r, c, base, n), 4 * p, 4) == if p < n && c.pins[base + p] then Nibble(c) else At(r, 4 * p, 4)
  {
    if n > 0 {
      ConfiguredField(r, c, base, n - 1, p);
      NibbleField(Configured(r, c, base, n - 1), c, n - 1, p);
    }
  }

  /** The level a call drives a pin to, if it drives it. */
  predicate Drives(c: Call, p: nat)
    requires p < 32
  {
    c.pins[p] && (c.mode == MODE_IPD || c.mode == MODE_IPU)
  }

  lemma OneBit(w: Word, k: nat, p: nat)
    requires k < 16 && p < 32
    ensures var one := Shl(Mask(1), k);
            And(w, Not(one))[p] == (p != k && w[p]) && Or(w, one)[p] == (p == k || w[p])
  {
    assert Shl(Mask(1), k)[p] == (p == k);
  }

  lemma {:induction false} DrivenBit(odr: Word, c: Call, base: nat, n: nat, p: nat)
    requires base + n <= 16 && p < 32
    ensures Driven(odr, c, base, n)[p] == if base <= p < base + n && Drives(c, p) then c.mode == MODE_IPU else odr[p]
  {
    if n > 0 {
      DrivenBit(odr, c, base, n - 1, p);
      OneBit(Driven(odr, c, base, n - 1), base + n - 1, p);
    }
  }

  /** GPIO_Init sets exactly the selected pins' modes, and drives exactly the selected pins'
      output bits, down for pull-down and up for pull-up. */
  lemma InitEffect(t: Port, c: Call, p: nat)
    requires Legal(c) && p < 16
    ensures Mode(Exec(t, c), p) == if c.pins[p] then Nibble(c) else Mode(t, p)
    ensures Exec(t, c).odr[p] == if Drives(c, p) then c.mode == MODE_IPU else t.odr[p]
    ensures Exec(t, c).odr[16..] == t.odr[16..]
  {
    if p < 8 {
      ConfiguredField(t.crl, c, 0, 8, p);
    } else {
      ConfiguredField(t.crh, c, 8, 8, p - 8);
    }
    forall q: nat | q < 32
      ensures Exec(t, c).odr[q] == if q < 16 && Drives(c, q) then c.mode == MODE_IPU else t.odr[q]
    {
      DrivenBit(t.odr, c, 0, 8, q);
      DrivenBit(Driven(t.odr, c, 0, 8), c, 8, 8, q);
    }
  }

  /** The same for all pins, register by register. */
  lemma InitRegisters(t: Port, c: Call)
    requires Legal(c)
    ensures forall p: nat :: p < 8 ==>
              At(Exec(t, c).crl, 4 * p, 4) == if c.pins[p] then ModeBits(c.mode, c.speed) else At(t.crl, 4 * p, 4)
    ensures forall p: nat :: p < 8 ==>
              At(Exec(t, c).crh, 4 * p, 4) == if c.pins[8 + p] then ModeBits(c.mode, c.speed) else At(t.crh, 4 * p, 4)
    ensures forall p: nat :: p < 16 ==>
              Exec(t, c).odr[p] == if c.pins[p] && c.mode in {0x28, 0x48} then c.mode == 0x48 else t.odr[p]
    ensures Exec(t, c).odr[16..] == t.odr[16..]
  {
    NibbleIs(c);
    InitEffect(t, c, 0);
    forall p: nat | p < 8
      ensures At(Exec(t, c).crl, 4 * p, 4) == if c.pins[p] then ModeBits(c.mode, c.speed) else At(t.crl, 4 * p, 4)
    {
      ConfiguredField(t.crl, c, 0, 8, p);
    }
    forall p: nat | p < 8
      ensures At(Exec(t, c).crh, 4 * p, 4) == if c.pins[8 + p] then ModeBits(c.mode, c.speed) else At(t.crh, 4 * p, 4)
    {
      ConfiguredField(t.crh, c, 8, 8, p);
    }
    forall p: nat | p < 16
      ensures Exec(t, c).odr[p] == if c.pins[p] && c.mode in {0x28, 0x48} then c.mode == 0x48 else t.odr[p]
    {
      InitEffect(t, c, p);
    }
  }

  // ---------- any sequence of calls ----------

  function ExecAll(t: Port, cs: seq<Call>): Port {
    if cs == [] then t else Exec(ExecAll(t, cs[..|cs| - 1]), cs[|cs| - 1])
  }

  function LastMode(cs: seq<Call>, p: nat, otherwise: nat): nat
    requires p < 16
  {
    if cs == [] then otherwise
    else if cs[|cs| - 1].pins[p] then Nibble(cs[|cs| - 1])
    else LastMode(cs[..|cs| - 1], p, otherwise)
  }

  function LastLevel(cs: seq<Call>, p: nat, otherwise: bool): bool
    requires p < 16
  {
    if cs == [] then otherwise
    else if Drives(cs[|cs| - 1], p) then cs[|cs| - 1].mode == MODE_IPU
    else LastLevel(cs[..|cs| - 1], p, otherwise)
  }

  /** After any legal calls every pin has the mode of the last call that selected it, and the
      level of the last that selected it with a pull. */
  lemma {:induction false} PinsLastWriter(t: Port, cs: seq<Call>, p: nat)
    requires (forall c <- cs :: Legal(c)) && p < 16
    ensures Mode(ExecAll(t, cs), p) == LastMode(cs, p, Mode(t, p))
    ensures ExecAll(t, cs).odr[p] == LastLevel(cs, p, t.odr[p])
  {
    if cs != [] {
      PinsLastWriter(t, cs[..|cs| - 1], p);
      assert cs[|cs| - 1] in cs;
      InitEffect(ExecAll(t, cs[..|cs| - 1]), cs[|cs| - 1], p);
    }
  }

  // ---------- EXTI lines ----------

  /** One of the four selections in a register is exchanged. */
  method SelectSource(r: Word, port: nat, slot: nat) returns (t: Word)
    requires port <= 6 && slot < 4
    ensures t == Put(r, 4, port, 4 * slot)
  {
    var tmp := Shl(Mask(4), 4 * slot);
    t := And(r, Not(tmp));
    t := Or(t, Shl(W(port), 4 * slot));
  }

  lemma SourceEffect(r: Word, port: nat, slot: nat, other: nat)
    requires port <= 6 && slot < 4 && other < 4
    ensures var t := Put(r, 4, port, 4 * slot);
            && At(t, 4 * other, 4) == (if other == slot then port else At(r, 4 * other, 4))
            && t[16..] == r[16..]
  {
    SmallPowers();
    ReadField(r, 4, port, 4 * slot, 4 * other);
    PutKept(r, 4, port, 4 * slot, 16, 32);
    var t := Put(r, 4, port, 4 * slot);
    assert t[16..] == t[16..32] && r[16..] == r[16..32];
  }

  class Afio {
    const exticr: array<Word>

    constructor ()
      ensures exticr.Length == 4 && fresh(exticr)
    {
      exticr := new Word[4](_ => Mask(0));
    }

    /** GPIO_EXTILineConfig: the selected line's port, and no other line's. */
    method LineConfig(port: nat, pin: nat)
      requires exticr.Length == 4 && port <= 6 && pin < 16
      modifies exticr
      ensures forall i: nat, k: nat :: i < 4 && k < 4 ==>
                At(exticr[i], 4 * k, 4) == if i == pin / 4 && k == pin % 4 then port else old(At(exticr[i], 4 * k, 4))
      ensures forall i :: 0 <= i < 4 ==> exticr[i][16..] == old(exticr[i][16..])
    {
      ghost var was := exticr[pin / 4];
      exticr[pin / 4] := SelectSource(exticr[pin / 4], port, pin % 4);
      forall k: nat | k < 4
        ensures At(exticr[pin / 4], 4 * k, 4) == if k == pin % 4 then port else At(was, 4 * k, 4)
      {
        SourceEffect(was, port, pin % 4, k);
      }
      forall i | 0 <= i < 4 ensures exticr[i][16..] == old(exticr[i][16..]) {
        SourceEffect(was, port, pin % 4, 0);
      }
    }
  }
}
