/**
 The decimal parser m_atoi and the decimal printer m_itoa, on NUL-terminated strings and 32-bit
 integers. Additions and multiplications wrap around explicitly; division truncates toward zero.
 */
module Decimal {

  const INT_MIN: int := -0x8000_0000
  const INT_MAX: int := 0x7FFF_FFFF
  const NUL: char := 0 as char
  const ZERO: int := '0' as int

  predicate InInt(x: int) {
    INT_MIN <= x <= INT_MAX
  }

  type Int32 = x: int | InInt(x)

  function Wrap(x: int): Int32 {
    (x - INT_MIN) % 0x1_0000_0000 + INT_MIN
  }

  function Abs(n: int): nat {
    if n < 0 then -n else n
  }

  /** C's division and remainder by ten. */
  function Quot(n: int): int {
    if n < 0 then -(-n / 10) else n / 10
  }

  function Rem(n: int): int {
    if n < 0 then -(-n % 10) else n % 10
  }

  // ---------- meaning ----------

  predicate IsDigit(c: char) {
    '0' <= c <= '9'
  }

  predicate AllDigits(t: seq<char>) {
    forall i :: 0 <= i < |t| ==> IsDigit(t[i])
  }

  /** The number a digit string denotes. */
  function Value(t: seq<char>): int {
    if t == [] then 0 else 10 * Value(t[..|t| - 1]) + (t[|t| - 1] as int - ZERO)
  }

  /** The characters before the first NUL. */
  function CString(s: seq<char>): seq<char>
    requires NUL in s
  {
    if s[0] == NUL then [] else [s[0]] + CString(s[1..])
  }

  lemma {:induction false} CStringIs(s: seq<char>, n: nat)
    requires n < |s| && s[n] == NUL && forall j :: 0 <= j < n ==> s[j] != NUL
    ensures NUL in s && CString(s) == s[..n]
  {
    if n > 0 {
      CStringIs(s[1..], n - 1);
      assert s[..n] == [s[0]] + s[1..][..n - 1];
    }
  }

  function Pow10(n: nat): nat {
    if n == 0 then 1 else 10 * Pow10(n - 1)
  }

  /** Places to the left count ten times as much for each place to the right of them. */
  lemma {:induction false} ValueConcat(a: seq<char>, b: seq<char>)
    ensures Value(a + b) == Value(a) * Pow10(|b|) + Value(b)
  {
    if b == [] {
      assert a + b == a;
    } else {
      var front := b[..|b| - 1];
      ValueConcat(a, front);
      assert (a + b)[..|a + b| - 1] == a + front;
      assert Value(a + b) == 10 * Value(a + front) + (b[|b| - 1] as int - 48);
      assert 10 * (Value(a) * Pow10(|front|)) == Value(a) * (10 * Pow10(|front|));
    }
  }

  /** What m_atoi returns. */
  function Parsed(t: seq<char>): Int32 {
    if AllDigits(t) then Wrap(Value(t)) else -1
  }

  /** Digits as m_itoa writes them: below '0' for a negative number. */
  function Glyph(n: int, d: int): char
    requires 0 <= d <= 9
  {
    ((if n < 0 then ZERO - d else ZERO + d) as char)
  }

  /** The digits of n as text; empty for zero. */
  function Body(n: int): seq<char>
    decreases Abs(n)
  {
    if n == 0 then [] else Body(Quot(n)) + [Glyph(n, Abs(n) % 10)]
  }

  function Text(n: int): seq<char> {
    if n == 0 then "0" else Body(n)
  }

  // ---------- the parser ----------

  lemma WrapAbsorbs(x: int, d: int)
    ensures Wrap(Wrap(Wrap(10 * Wrap(x)) + d + ZERO) - ZERO) == Wrap(10 * x + d)
  {
    var k := (x - INT_MIN) / 0x1_0000_0000;
    assert x == Wrap(x) + k * 0x1_0000_0000;
    WrapShift(10 * Wrap(x), 10 * k);
    assert 10 * x == 10 * Wrap(x) + 10 * k * 0x1_0000_0000;
    var y := 10 * x;
    var j := (y - INT_MIN) / 0x1_0000_0000;
    assert y == Wrap(y) + j * 0x1_0000_0000;
    WrapShift(Wrap(y) + d, j);
    var z := Wrap(y) + d + ZERO;
    var i := (z - INT_MIN) / 0x1_0000_0000;
    assert z == Wrap(z) + i * 0x1_0000_0000;
    WrapShift(Wrap(z) - ZERO, i);
  }

  lemma WrapId(x: int)
    requires InInt(x)
    ensures Wrap(x) == x
  {
  }

  lemma WrapShift(x: int, k: int)
    ensures Wrap(x + k * 0x1_0000_0000) == Wrap(x)
  {
  }

  /** The first NUL is at n. */
  predicate Ends(s: seq<char>, n: nat) {
    n < |s| && s[n] == NUL && forall j :: 0 <= j < n ==> s[j] != NUL
  }

  /** A number modulo 2^32 for a string of digits, and -1 for any other. */
  predicate Reads(t: seq<char>, r: int) {
    if forall j :: 0 <= j < |t| ==> '0' <= t[j] <= '9' then (r - Value(t)) % 0x1_0000_0000 == 0 else r == -1
  }

  lemma ParsedReads(t: seq<char>)
    ensures Reads(t, Parsed(t))
  {
  }

  method Atoi(s: seq<char>) returns (r: Int32)
    requires NUL in s
    ensures r == Parsed(CString(s))
    ensures forall n: nat | Ends(s, n) :: Reads(s[..n], r)
  {
    r := Scan(s);
    ParsedReads(CString(s));
    forall n: nat | Ends(s, n) ensures Reads(s[..n], r) {
      CStringIs(s, n);
    }
  }

  /** The loop of m_atoi. */
  method Scan(s: seq<char>) returns (r: Int32)
    requires NUL in s
    ensures r == Parsed(CString(s))
  {
    var res: Int32, i := 0, 0;
    while s[i] != NUL
      invariant 0 <= i < |s| && NUL in s[i..]
      invariant forall j :: 0 <= j < i ==> s[j] != NUL && IsDigit(s[j])
      invariant res == Wrap(Value(s[..i]))
      decreases |s| - i
    {
      if s[i] < '0' || s[i] > '9' {
        NotAllDigits(s, i);
        return -1;
      }
      WrapAbsorbs(Value(s[..i]), s[i] as int - ZERO);
      assert s[..i + 1][..i] == s[..i];
      res := Wrap(Wrap(Wrap(res * 10) + s[i] as int) - ZERO);
      i := i + 1;
    }
    CStringIs(s, i);
    return res;
  }

  /** A character that is neither a digit nor NUL, before any NUL, makes the string no number. */
  lemma {:induction false} NotAllDigits(s: seq<char>, i: nat)
    requires NUL in s && i < |s| && s[i] != NUL && !IsDigit(s[i])
    requires forall j :: 0 <= j < i ==> s[j] != NUL
    ensures !AllDigits(CString(s))
  {
    if i == 0 {
      assert CString(s)[0] == s[0];
    } else {
      NotAllDigits(s[1..], i - 1);
      var j :| 0 <= j < |CString(s[1..])| && !IsDigit(CString(s[1..])[j]);
      assert CString(s)[j + 1] == CString(s[1..])[j];
    }
  }

  /** No intermediate result of res*10 + c - '0' leaves the 32-bit range. */
  ghost predicate NeverOverflows(t: seq<char>) {
    t == [] ||
    var before := Value(t[..|t| - 1]);
    var c := t[|t| - 1] as int;
    NeverOverflows(t[..|t| - 1]) && InInt(before * 10) && InInt(before * 10 + c) && InInt(before * 10 + c - ZERO)
  }

  lemma {:induction false} ValueNonNegative(t: seq<char>)
    requires AllDigits(t)
    ensures Value(t) >= 0
  {
    if t != [] {
      ValueNonNegative(t[..|t| - 1]);
    }
  }

  /** The parser computes without overflow exactly up to 2147483599, 48 short of the largest
      integer: the character is added before '0' is taken off. */
  lemma {:induction false} OverflowBound(t: seq<char>)
    requires AllDigits(t)
    ensures NeverOverflows(t) <==> Value(t) <= 2147483599
  {
    if t != [] {
      OverflowBound(t[..|t| - 1]);
      ValueNonNegative(t[..|t| - 1]);
    }
  }

  // ---------- the printer ----------

  /** The first loop of m_itoa. */
  method CountDigits(n: Int32) returns (len: nat)
    ensures len == |Body(n)|
  {
    len := 0;
    var tmp: int := n;
    while tmp != 0
      invariant len + |Body(tmp)| == |Body(n)|
      decreases Abs(tmp)
    {
      len := len + 1;
      tmp := Quot(tmp);
    }
  }

  /** The second loop of m_itoa, from the last digit to the first. */
  method WriteDigits(n: Int32, str: array<char>, len: nat)
    requires len == |Body(n)| <= str.Length
    modifies str
    ensures str[..] == Body(n) + old(str[len..])
  {
    ghost var digits := Body(n);
    var i, m: int := 0, n;
    while m != 0
      invariant 0 <= i <= len
      invariant Body(m) == digits[..len - i]
      invariant forall j :: len - i <= j < len ==> str[j] == digits[j]
      invariant forall j :: len <= j < str.Length ==> str[j] == old(str[j])
      decreases Abs(m)
    {
      str[len - 1 - i], m := SplitDigit(m, digits, len - i);
      i := i + 1;
    }
    assert |digits[..len - i]| == len - i == 0;
    Assembled(str[..], digits, old(str[..]));
  }

  lemma Assembled(now: seq<char>, digits: seq<char>, was: seq<char>)
    requires |digits| <= |now| == |was|
    requires forall j :: 0 <= j < |digits| ==> now[j] == digits[j]
    requires forall j :: |digits| <= j < |now| ==> now[j] == was[j]
    ensures now == digits + was[|digits|..]
  {
  }

  /** The last digit of a number and what stands before it. */
  method SplitDigit(m: int, ghost digits: seq<char>, k: nat) returns (d: char, q: int)
    requires m != 0 && k <= |digits| && Body(m) == digits[..k]
    ensures k > 0 && d == digits[k - 1] && Body(q) == digits[..k - 1] && Abs(q) < Abs(m)
  {
    LastDigit(m, digits, k);
    d, q := (Rem(m) + ZERO) as char, Quot(m);
  }

  lemma BodyLast(m: int)
    requires m != 0
    ensures Body(m) == Body(Quot(m)) + [(Rem(m) + ZERO) as char]
  {
  }

  lemma LastDigit(m: int, digits: seq<char>, k: nat)
    requires m != 0 && k <= |digits| && Body(m) == digits[..k]
    ensures k > 0 && digits[k - 1] == (Rem(m) + ZERO) as char && Body(Quot(m)) == digits[..k - 1]
  {
    BodyLast(m);
    assert digits[k - 1] == Body(m)[k - 1];
    assert Body(m)[..k - 1] == digits[..k - 1];
  }

  /** m_itoa. Zero is written without a look at `strlen`, so the buffer must have room for it; any
      other number is refused when it does not fit, however small `strlen` is. */
  method Itoa(n: Int32, str: array<char>, strlen: Int32) returns (r: Int32)
    requires InInt(strlen - 1) && strlen <= str.Length
    requires n == 0 ==> 2 <= str.Length
    modifies str
    ensures r == if n == 0 || |Text(n)| <= strlen - 1 then 0 else -1
    ensures r == 0 ==> |Text(n)| + 1 <= str.Length
    ensures r == 0 ==> str[..] == Text(n) + [NUL] + old(str[|Text(n)| + 1..])
    ensures r != 0 ==> str[..] == old(str[..])
  {
    if n == 0 {
      str[0] := '0';
      str[1] := NUL;
      return 0;
    }
    var len := CountDigits(n);
    if len > strlen - 1 {
      return -1;
    }
    WriteDigits(n, str, len);
    str[len] := NUL;
    return 0;
  }

  // ---------- they undo each other ----------

  lemma {:induction false} BodyOfNatural(n: nat)
    ensures AllDigits(Body(n)) && Value(Body(n)) == n
    ensures n > 0 ==> Body(n) != [] && Body(n)[0] != '0'
  {
    if n > 0 {
      BodyOfNatural(n / 10);
      assert Body(n)[..|Body(n)| - 1] == Body(n / 10);
    }
  }

  lemma {:induction false} BodyOfNegative(n: int)
    requires n < 0
    ensures Body(n) != [] && Body(n)[0] < '0'
    decreases -n
  {
    if Quot(n) != 0 {
      BodyOfNegative(Quot(n));
    }
  }

  lemma ValueSingle(t: seq<char>)
    requires |t| == 1
    ensures Value(t) == t[0] as int - 48
  {
    assert t[..0] == [];
  }

  /** Printing and parsing gives the number back exactly for n >= 0 and, since a negative number
      prints as no number at all and errors parse as -1, for n = -1. */
  lemma ParseText(n: Int32)
    ensures Parsed(Text(n)) == n <==> n >= -1
    ensures n >= 0 ==> AllDigits(Text(n)) && Value(Text(n)) == n
  {
    WrapId(n);
    if n > 0 {
      BodyOfNatural(n);
    } else if n < 0 {
      BodyOfNegative(n);
      assert !IsDigit(Text(n)[0]);
    } else {
      ValueSingle(Text(n));
    }
  }

  lemma {:induction false} BodyHasNoNul(n: int)
    ensures NUL !in Body(n)
    decreases Abs(n)
  {
    if n != 0 {
      BodyHasNoNul(Quot(n));
    }
  }

  /** A digit of a number of this sign. */
  predicate Signed(n: int, c: char) {
    if n >= 0 then 48 <= c as int <= 57 else 39 <= c as int <= 48
  }

  /** Read as signed digits, the printed text is the number, whatever its sign: a positive number
      is written with digits from 0 to 9, a negative one with the mirror images of its digits. */
  lemma {:induction false} TextDenotes(n: int)
    ensures Value(Text(n)) == n && Text(n) != []
    ensures forall i | 0 <= i < |Text(n)| :: Signed(n, Text(n)[i])
    decreases Abs(n)
  {
    if n == 0 {
      ValueSingle("0");
    } else {
      BodyDenotes(n);
    }
  }

  lemma {:induction false} BodyDenotes(n: int)
    ensures Value(Body(n)) == n && (n != 0 ==> Body(n) != [])
    ensures forall i | 0 <= i < |Body(n)| :: Signed(n, Body(n)[i])
    decreases Abs(n)
  {
    if n != 0 {
      BodyDenotes(Quot(n));
      assert Body(n)[..|Body(n)| - 1] == Body(Quot(n));
    }
  }

  /** What the printer leaves in a buffer, whatever follows the NUL, reads back as the number. */
  lemma PrintedReadsBack(n: Int32, rest: seq<char>)
    ensures var buffer := Text(n) + [NUL] + rest;
            NUL in buffer && CString(buffer) == Text(n) && (Parsed(CString(buffer)) == n <==> n >= -1)
  {
    var buffer := Text(n) + [NUL] + rest;
    BodyHasNoNul(n);
    forall j | 0 <= j < |Text(n)| ensures buffer[j] != NUL {
      assert buffer[j] == Text(n)[j];
    }
    CStringIs(buffer, |Text(n)|);
    ParseText(n);
  }

  /** A nonempty digit string without superfluous leading zeros. */
  predicate Canonical(t: seq<char>) {
    AllDigits(t) && t != [] && (|t| == 1 || t[0] != '0')
  }

  lemma BodySnoc(m: nat, d: nat)
    requires d <= 9 && (m > 0 || d > 0)
    ensures Body(10 * m + d) == Body(m) + [(ZERO + d) as char]
  {
  }

  lemma ValueSnoc(front: seq<char>, c: char)
    ensures Value(front + [c]) == 10 * Value(front) + (c as int - 48)
  {
    assert (front + [c])[..|front + [c]| - 1] == front;
  }

  lemma CanonicalSnoc(front: seq<char>, c: char)
    requires IsDigit(c) && Value(front) >= 0 && Body(Value(front)) == front
    requires front == [] ==> c != '0'
    ensures Value(front + [c]) > 0 && Body(Value(front + [c])) == front + [c]
  {
    var v, d := Value(front), c as int - 48;
    ValueSnoc(front, c);
    assert v == 0 ==> front == [];
    assert (ZERO + d) as char == c;
    BodySnoc(v, d);
  }

  lemma {:induction false} CanonicalPositive(t: seq<char>)
    requires AllDigits(t) && t != [] && t[0] != '0'
    ensures Value(t) > 0 && Body(Value(t)) == t
  {
    var front, c := t[..|t| - 1], t[|t| - 1];
    assert t == front + [c] && IsDigit(c);
    if front == [] {
      assert Body(Value(front)) == front;
    } else {
      CanonicalPositive(front);
    }
    CanonicalSnoc(front, c);
  }

  /** Parsing and printing gives the string back exactly for the canonical digit strings that
      denote a 32-bit integer, and for the one string that -1 prints as. */
  lemma TextParsed(t: seq<char>)
    ensures Text(Parsed(t)) == t <==> (Canonical(t) && Value(t) <= INT_MAX) || t == "/"
  {
    assert Body(-1) == Body(0) + [Glyph(-1, 1)] == "/";
    if AllDigits(t) {
      if Text(Parsed(t)) == t {
        TextIsCanonical(t);
      } else if Canonical(t) && Value(t) <= INT_MAX {
        CanonicalIsText(t);
      }
    } else {
      assert Parsed(t) == -1;
    }
  }

  lemma CanonicalIsText(t: seq<char>)
    requires Canonical(t) && Value(t) <= INT_MAX
    ensures Text(Parsed(t)) == t
  {
    ValueNonNegative(t);
    WrapId(Value(t));
    if t[0] != '0' {
      CanonicalPositive(t);
    } else {
      ValueSingle(t);
      assert t == "0";
    }
  }

  lemma TextIsCanonical(t: seq<char>)
    requires AllDigits(t) && Text(Parsed(t)) == t
    ensures Canonical(t) && Value(t) <= INT_MAX
  {
    var n := Parsed(t);
    if n < 0 {
      BodyOfNegative(n);
      assert false;
    } else if n > 0 {
      BodyOfNatural(n);
    } else {
      ValueSingle(t);
    }
  }
}
