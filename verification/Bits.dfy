/**
 32-bit registers as their bits, least significant first, with the C operators on them, and the
 read-modify-write of a field that the drivers are made of.
 */
module Bits {
  type Word = w: seq<bool> | |w| == 32 witness seq(32, _ => false)

  function And(a: Word, b: Word): Word {
    seq(32, k requires 0 <= k < 32 => a[k] && b[k])
  }

  function Or(a: Word, b: Word): Word {
    seq(32, k requires 0 <= k < 32 => a[k] || b[k])
  }

  function Not(a: Word): Word {
    seq(32, k requires 0 <= k < 32 => !a[k])
  }

  function Shl(a: Word, n: nat): Word {
    seq(32, k requires 0 <= k < 32 => k >= n && a[k - n])
  }

  function Shr(a: Word, n: nat): Word {
    seq(32, k requires 0 <= k < 32 => k + n < 32 && a[k + n])
  }

  /** The number some bits denote. */
  function Num(s: seq<bool>): nat {
    if s == [] then 0 else (if s[0] then 1 else 0) + 2 * Num(s[1..])
  }

  /** The low w bits of a number. */
  function Low(n: nat, w: nat): (s: seq<bool>)
    ensures |s| == w
  {
    if w == 0 then [] else [n % 2 == 1] + Low(n / 2, w - 1)
  }

  /** A number as a register value. */
  function W(n: nat): Word {
    Low(n, 32)
  }

  function Pow2(w: nat): (p: nat)
    ensures p >= 1
  {
    if w == 0 then 1 else 2 * Pow2(w - 1)
  }

  lemma {:induction false} PowAdd(a: nat, b: nat)
    ensures Pow2(a + b) == Pow2(a) * Pow2(b)
  {
    if a > 0 {
      PowAdd(a - 1, b);
    }
  }

  lemma SmallPowers()
    ensures Pow2(2) == 4 && Pow2(3) == 8 && Pow2(4) == 16 && Pow2(5) == 32
  {
  }

  lemma Powers()
    ensures Pow2(20) == 0x10_0000 && Pow2(32) == 0x1_0000_0000
  {
    PowAdd(5, 5);
    PowAdd(10, 10);
    PowAdd(6, 6);
    PowAdd(12, 20);
  }

  lemma {:induction false} NumLow(n: nat, w: nat)
    requires n < Pow2(w)
    ensures Num(Low(n, w)) == n
  {
    if w > 0 {
      NumLow(n / 2, w - 1);
    }
  }

  lemma {:induction false} NumBound(s: seq<bool>)
    ensures Num(s) < Pow2(|s|)
  {
    if s != [] {
      NumBound(s[1..]);
    }
  }

  /** Bit k of a number. */
  predicate Bit(n: nat, k: nat) {
    if k == 0 then n % 2 == 1 else Bit(n / 2, k - 1)
  }

  lemma {:induction false} LowIsBits(n: nat, m: nat, k: nat)
    requires k < m
    ensures Low(n, m)[k] == Bit(n, k)
  {
    if k > 0 {
      LowIsBits(n / 2, m - 1, k - 1);
    }
  }

  lemma {:induction false} NoBitAbove(n: nat, w: nat, k: nat)
    requires n < Pow2(w) && k >= w
    ensures !Bit(n, k)
  {
    if k > 0 {
      NoBitAbove(n / 2, if w > 0 then w - 1 else 0, k - 1);
    }
  }

  /** A number below 2^w has no bit at w or above, and shows the same bits at any width. */
  lemma LowBit(n: nat, w: nat, m: nat, k: nat)
    requires n < Pow2(w) && k < m
    ensures Low(n, m)[k] == (k < w && Low(n, w)[k])
  {
    LowIsBits(n, m, k);
    if k < w {
      LowIsBits(n, w, k);
    } else {
      NoBitAbove(n, w, k);
    }
  }

  /** A mask of w ones. */
  function Mask(w: nat): Word {
    seq(32, k => k < w)
  }

  lemma {:induction false} OnesBit(w: nat, k: nat)
    ensures Bit(Pow2(w) - 1, k) == (k < w)
  {
    if w == 0 {
      NoBitAbove(0, 0, k);
    } else if k > 0 {
      assert (Pow2(w) - 1) / 2 == Pow2(w - 1) - 1;
      OnesBit(w - 1, k - 1);
    }
  }

  /** 2^w - 1 is the mask of w ones. */
  lemma Ones(w: nat)
    ensures W(Pow2(w) - 1) == Mask(w)
  {
    forall k: nat | k < 32 ensures W(Pow2(w) - 1)[k] == Mask(w)[k] {
      LowIsBits(Pow2(w) - 1, 32, k);
      OnesBit(w, k);
    }
  }

  /** Clear the w bits at the shift, then set them to a value. */
  function Put(r: Word, w: nat, n: nat, shift: nat): Word {
    Or(And(r, Not(Shl(Mask(w), shift))), Shl(W(n), shift))
  }

  /** The same in the drivers' steps. */
  method Rewrite(r: Word, w: nat, n: nat, shift: nat) returns (tmpreg1: Word)
    ensures tmpreg1 == Put(r, w, n, shift)
  {
    tmpreg1 := r;
    var tmpreg2 := Shl(Mask(w), shift);
    tmpreg1 := And(tmpreg1, Not(tmpreg2));
    tmpreg2 := Shl(W(n), shift);
    tmpreg1 := Or(tmpreg1, tmpreg2);
  }

  lemma KeptBit(r: Word, w: nat, shift: nat, k: nat)
    requires k < 32
    ensures And(r, Not(Shl(Mask(w), shift)))[k] == (r[k] && !(shift <= k < shift + w))
  {
    assert Shl(Mask(w), shift)[k] == (shift <= k < shift + w);
  }

  lemma ValueBit(n: nat, w: nat, shift: nat, k: nat)
    requires n < Pow2(w) && k < 32
    ensures Shl(W(n), shift)[k] == (shift <= k < shift + w && Low(n, w)[k - shift])
  {
    if shift <= k {
      LowBit(n, w, 32, k - shift);
    }
  }

  /** Bit by bit: the field at the shift holds the value, the rest is as it was. What would go
      past bit 31 is lost. */
  lemma PutBit(r: Word, w: nat, n: nat, shift: nat, k: nat)
    requires n < Pow2(w) && k < 32
    ensures Put(r, w, n, shift)[k] == if shift <= k < shift + w then Low(n, w)[k - shift] else r[k]
  {
    KeptBit(r, w, shift, k);
    ValueBit(n, w, shift, k);
  }

  /** The number in the w bits at a shift. */
  function At(r: Word, shift: nat, w: nat): nat
    requires shift + w <= 32
  {
    Num(r[shift..shift + w])
  }

  /** After a write, the field reads back as the value and any range beside it is untouched. */
  lemma PutAt(r: Word, w: nat, n: nat, shift: nat, lo: nat, hi: nat)
    requires n < Pow2(w) && shift + w <= 32
    requires lo <= hi <= shift || shift + w <= lo <= hi <= 32
    ensures var t := Put(r, w, n, shift); At(t, shift, w) == n && t[lo..hi] == r[lo..hi]
  {
    PutValue(r, w, n, shift);
    PutKept(r, w, n, shift, lo, hi);
  }

  lemma PutValue(r: Word, w: nat, n: nat, shift: nat)
    requires n < Pow2(w) && shift + w <= 32
    ensures At(Put(r, w, n, shift), shift, w) == n
  {
    var t := Put(r, w, n, shift);
    forall k: nat | k < w ensures t[shift + k] == Low(n, w)[k] {
      PutBit(r, w, n, shift, shift + k);
    }
    assert t[shift..shift + w] == Low(n, w);
    NumLow(n, w);
  }

  lemma PutKept(r: Word, w: nat, n: nat, shift: nat, lo: nat, hi: nat)
    requires n < Pow2(w) && (lo <= hi <= shift || shift + w <= lo <= hi) && hi <= 32
    ensures Put(r, w, n, shift)[lo..hi] == r[lo..hi]
  {
    var t := Put(r, w, n, shift);
    forall k: nat | lo <= k < hi ensures t[k] == r[k] {
      PutBit(r, w, n, shift, k);
    }
  }

  /** Of two fields of the same width, the written one reads back and one beside it is kept. */
  lemma ReadField(r: Word, w: nat, n: nat, s: nat, u: nat)
    requires n < Pow2(w) && s + w <= 32 && u + w <= 32
    requires s == u || s + w <= u || u + w <= s
    ensures At(Put(r, w, n, s), u, w) == if u == s then n else At(r, u, w)
  {
    if u == s {
      PutValue(r, w, n, s);
    } else {
      PutKept(r, w, n, s, u, u + w);
    }
  }

  /** n doubled s times. */
  function Doubled(n: nat, s: nat): nat {
    if s == 0 then n else 2 * Doubled(n, s - 1)
  }

  lemma {:induction false} DoubledIs(n: nat, s: nat)
    ensures Doubled(n, s) == n * Pow2(s)
  {
    if s > 0 {
      DoubledIs(n, s - 1);
    }
  }

  lemma {:induction false} BitShifted(n: nat, s: nat, k: nat)
    ensures Bit(Doubled(n, s), k) == (k >= s && Bit(n, k - s))
  {
    if s > 0 && k > 0 {
      BitShifted(n, s - 1, k - 1);
    }
  }

  /** A shifted constant. */
  lemma ShiftedConstant(n: nat, s: nat)
    ensures W(n * Pow2(s)) == Shl(W(n), s)
  {
    DoubledIs(n, s);
    forall k: nat | k < 32 ensures W(Doubled(n, s))[k] == Shl(W(n), s)[k] {
      LowIsBits(Doubled(n, s), 32, k);
      BitShifted(n, s, k);
      if k >= s {
        LowIsBits(n, 32, k - s);
      }
    }
  }

  lemma HalfComplement(p: nat, n: nat)
    requires n < 2 * p
    ensures (2 * p - 1 - n) / 2 == p - 1 - n / 2 && ((2 * p - 1 - n) % 2 == 1 <==> n % 2 == 0) && n / 2 < p
  {
  }

  lemma {:induction false} BitComplement(n: nat, m: nat, k: nat)
    requires n < Pow2(m) && k < m
    ensures Bit(Pow2(m) - 1 - n, k) == !Bit(n, k)
  {
    HalfComplement(Pow2(m - 1), n);
    if k > 0 {
      BitComplement(n / 2, m - 1, k - 1);
    }
  }

  lemma LowComplement(n: nat, m: nat, k: nat)
    requires n < Pow2(m) && k < m
    ensures Low(Pow2(m) - 1 - n, m)[k] == !Low(n, m)[k]
  {
    LowIsBits(Pow2(m) - 1 - n, m, k);
    LowIsBits(n, m, k);
    BitComplement(n, m, k);
  }

  /** A complemented constant. */
  lemma ComplementedConstant(n: nat)
    requires n < Pow2(32)
    ensures W(Pow2(32) - 1 - n) == Not(W(n))
  {
    forall k: nat | k < 32 ensures W(Pow2(32) - 1 - n)[k] == Not(W(n))[k] {
      LowComplement(n, 32, k);
    }
  }

  lemma {:induction false} NumZeros(s: seq<bool>, n: nat)
    requires n <= |s| && forall k :: n <= k < |s| ==> !s[k]
    ensures Num(s) == Num(s[..n])
  {
    if s != [] {
      if n == 0 {
        NumZeros(s[1..], 0);
      } else {
        NumZeros(s[1..], n - 1);
        assert s[..n][1..] == s[1..][..n - 1];
      }
    }
  }

  /** Reading a field: mask it out and shift it down. */
  lemma MaskedRead(r: Word, w: nat, shift: nat)
    requires shift + w <= 32
    ensures Num(Shr(And(r, Shl(Mask(w), shift)), shift)) == At(r, shift, w)
  {
    var t := Shr(And(r, Shl(Mask(w), shift)), shift);
    NumZeros(t, w);
    assert t[..w] == r[shift..shift + w];
  }
}
