/**
 * 64-bit machine words, as the engines use them for `us`, `them` and
 * `share` (Java `long`, Rust `u64`, Python `int` kept below 2^64).
 *
 * A word is its 64 bits, least significant first. The operations are the
 * ones the engines apply to words: or, and, complement, logical and
 * sign-extending right shift, left shift, addition modulo 2^64, the product
 * of a 0/1 word with a constant, and conversion to and from small naturals.
 */
module Words {

  type Word = w: seq<bool> | |w| == 64 witness seq(64, _ => false)

  function Zero(): (z: Word)
    ensures forall i :: 0 <= i < 64 ==> !z[i]
  {
    seq(64, _ => false)
  }

  /** The word whose set bits are exactly `s`, e.g. `Bits({0, 2, 6, 8})` for 0b101_000_101. */
  function Bits(s: set<nat>): (w: Word)
    ensures forall i :: 0 <= i < 64 ==> w[i] == (i in s)
  {
    seq(64, i requires 0 <= i < 64 => i in s)
  }

  /** The word with bits `lo..hi-1` set. */
  function Range(lo: nat, hi: nat): (w: Word)
    ensures forall i :: 0 <= i < 64 ==> w[i] == (lo <= i < hi)
  {
    seq(64, i requires 0 <= i < 64 => lo <= i < hi)
  }

  /** `1 << j`. */
  function Single(j: nat): (w: Word)
    requires j < 64
    ensures forall i :: 0 <= i < 64 ==> w[i] == (i == j)
  {
    seq(64, i requires 0 <= i < 64 => i == j)
  }

  function Or(a: Word, b: Word): (w: Word)
    ensures forall i :: 0 <= i < 64 ==> w[i] == (a[i] || b[i])
  {
    seq(64, i requires 0 <= i < 64 => a[i] || b[i])
  }

  function And(a: Word, b: Word): (w: Word)
    ensures forall i :: 0 <= i < 64 ==> w[i] == (a[i] && b[i])
  {
    seq(64, i requires 0 <= i < 64 => a[i] && b[i])
  }

  /** Bitwise complement (`~` in Java, `!` in Rust). */
  function Not(a: Word): (w: Word)
    ensures forall i :: 0 <= i < 64 ==> w[i] == !a[i]
  {
    seq(64, i requires 0 <= i < 64 => !a[i])
  }

  /** Logical right shift (`>>` on Rust `u64` and on non-negative Python integers). */
  function Shr(a: Word, k: nat): (w: Word)
    requires k < 64
    ensures forall i :: 0 <= i < 64 ==> w[i] == (i + k < 64 && a[i + k])
  {
    seq(64, i requires 0 <= i < 64 => i + k < 64 && a[i + k])
  }

  /** Arithmetic right shift (`>>` on Java `long`): vacated bits copy bit 63. */
  function Sar(a: Word, k: nat): (w: Word)
    requires k < 64
    ensures forall i :: 0 <= i < 64 ==> w[i] == (if i + k < 64 then a[i + k] else a[63])
  {
    seq(64, i requires 0 <= i < 64 => if i + k < 64 then a[i + k] else a[63])
  }

  /** Left shift, dropping the bits shifted past bit 63. */
  function Shl(a: Word, k: nat): (w: Word)
    requires k < 64
    ensures forall i :: 0 <= i < 64 ==> w[i] == (k <= i && a[i - k])
  {
    seq(64, i requires 0 <= i < 64 => k <= i && a[i - k])
  }

  /** Under a mask with no bit at 64 - k or above, the two right shifts by k agree. */
  lemma SarMasked(a: Word, k: nat, m: Word)
    requires k < 64 && forall i :: 64 - k <= i < 64 ==> !m[i]
    ensures And(Sar(a, k), m) == And(Shr(a, k), m)
  {
    assert forall i :: 0 <= i < 64 ==> And(Sar(a, k), m)[i] == And(Shr(a, k), m)[i];
  }

  /** On a word whose sign bit is clear the two right shifts agree. */
  lemma SarIsShr(a: Word, k: nat)
    requires k < 64 && !a[63]
    ensures Sar(a, k) == Shr(a, k)
  {
  }

  // ---------------------------------------------------------------------
  // Addition modulo 2^64, by ripple carry.

  function Carry(a: Word, b: Word, i: nat): bool
    requires i <= 64
  {
    if i == 0 then false
    else
      var c := Carry(a, b, i - 1);
      (a[i - 1] && b[i - 1]) || (a[i - 1] && c) || (b[i - 1] && c)
  }

  function Add(a: Word, b: Word): (w: Word)
    ensures forall i :: 0 <= i < 64 ==> w[i] == (a[i] != (b[i] != Carry(a, b, i)))
  {
    seq(64, i requires 0 <= i < 64 => a[i] != (b[i] != Carry(a, b, i)))
  }

  predicate Disjoint(a: Word, b: Word) {
    forall i :: 0 <= i < 64 ==> !(a[i] && b[i])
  }

  lemma {:induction false} NoCarry(a: Word, b: Word, i: nat)
    requires Disjoint(a, b) && i <= 64
    ensures !Carry(a, b, i)
  {
    if i > 0 {
      NoCarry(a, b, i - 1);
    }
  }

  /** Adding words with no common bit is or-ing them: nothing carries. */
  lemma AddDisjoint(a: Word, b: Word)
    requires Disjoint(a, b)
    ensures Add(a, b) == Or(a, b)
  {
    forall i | 0 <= i < 64 ensures Add(a, b)[i] == Or(a, b)[i] {
      NoCarry(a, b, i);
    }
  }

  /** A word that is 0 or 1, such as `(x >> k) & 1`. */
  predicate IsBit(x: Word) {
    forall i :: 1 <= i < 64 ==> !x[i]
  }

  /** The product `x * c` of a 0/1 word with a word. */
  function Times(x: Word, c: Word): (w: Word)
    requires IsBit(x)
    ensures w == (if x[0] then c else Zero())
  {
    if x[0] then c else Zero()
  }

  /** `(x >> k) & 1`, the bit-extraction idiom of all three engines, is a 0/1 word holding bit k. */
  lemma BitOfShr(x: Word, k: nat)
    requires k < 64
    ensures IsBit(And(Shr(x, k), Single(0)))
    ensures And(Shr(x, k), Single(0))[0] == x[k]
    ensures And(Shr(x, k), Single(0)) == (if x[k] then Single(0) else Zero())
  {
  }

  // ---------------------------------------------------------------------
  // Words and naturals.

  function Pow2(n: nat): (p: nat)
    ensures p >= 1
  {
    if n == 0 then 1 else 2 * Pow2(n - 1)
  }

  /** The natural number held in bits `0..n-1` of `w`. */
  function Low(w: Word, n: nat): nat
    requires n <= 64
  {
    if n == 0 then 0 else Low(w, n - 1) + (if w[n - 1] then Pow2(n - 1) else 0)
  }

  /** The value of a word as an unsigned number. */
  function Value(w: Word): nat {
    Low(w, 64)
  }

  lemma {:induction false} LowBound(w: Word, n: nat)
    requires n <= 64
    ensures Low(w, n) < Pow2(n)
  {
    if n > 0 {
      LowBound(w, n - 1);
    }
  }

  /** Bits at or above position n do not contribute to the low n bits. */
  lemma {:induction false} LowHigh(w: Word, n: nat, m: nat)
    requires n <= m <= 64
    requires forall i :: n <= i < m ==> !w[i]
    ensures Low(w, m) == Low(w, n)
  {
    if m > n {
      LowHigh(w, n, m - 1);
    }
  }

  /** Two words that agree on bits `0..n-1` have the same low value. */
  lemma {:induction false} LowCongruent(a: Word, b: Word, n: nat)
    requires n <= 64
    requires forall i :: 0 <= i < n ==> a[i] == b[i]
    ensures Low(a, n) == Low(b, n)
  {
    if n > 0 {
      LowCongruent(a, b, n - 1);
    }
  }

  /** The binary digits of a natural number, as a word (`(long) n` for n < 2^64). */
  function FromNat(n: nat): (w: Word)
  {
    seq(64, i requires 0 <= i < 64 => Digit(n, i))
  }

  /** Binary digit `i` of `n`. */
  function Digit(n: nat, i: nat): bool
  {
    if i == 0 then n % 2 == 1 else Digit(n / 2, i - 1)
  }

  /** The low k+1 digits of n are digit 0 followed by the low k digits of n / 2. */
  lemma {:induction false} LowHalve(n: nat, k: nat)
    requires 1 <= k <= 64
    ensures Low(FromNat(n), k) == 2 * Low(FromNat(n / 2), k - 1) + (if n % 2 == 1 then 1 else 0)
  {
    if k > 1 {
      LowHalve(n, k - 1);
      assert FromNat(n)[k - 1] == Digit(n / 2, k - 2) == FromNat(n / 2)[k - 2];
    }
  }

  lemma {:induction false} LowFromNat(n: nat, k: nat)
    requires k <= 64 && n < Pow2(k)
    ensures Low(FromNat(n), k) == n
  {
    if k > 0 {
      LowHalve(n, k);
      LowFromNat(n / 2, k - 1);
    }
  }

  lemma {:induction false} DigitHigh(n: nat, i: nat)
    requires n < Pow2(i)
    ensures !Digit(n, i)
  {
    if i > 0 {
      DigitHigh(n / 2, i - 1);
    }
  }

  lemma {:induction false} Pow2Monotone(i: nat, j: nat)
    requires i <= j
    ensures Pow2(i) <= Pow2(j)
  {
    if i < j {
      Pow2Monotone(i, j - 1);
    }
  }

  /** A natural below 2^k becomes a word whose bits from k up are clear and whose value is the natural. */
  lemma FromNatValue(n: nat, k: nat)
    requires k <= 64 && n < Pow2(k)
    ensures forall i :: k <= i < 64 ==> !FromNat(n)[i]
    ensures Value(FromNat(n)) == n
  {
    forall i | k <= i < 64 ensures !FromNat(n)[i] {
      Pow2Monotone(k, i);
      DigitHigh(n, i);
    }
    LowFromNat(n, k);
    LowHigh(FromNat(n), k, 64);
  }

  /** Two words with the same low value agree on the low bits. */
  lemma {:induction false} LowInjective(a: Word, b: Word, n: nat)
    requires n <= 64 && Low(a, n) == Low(b, n)
    ensures forall i :: 0 <= i < n ==> a[i] == b[i]
  {
    if n > 0 {
      LowBound(a, n - 1);
      LowBound(b, n - 1);
      assert a[n - 1] == b[n - 1];
      LowInjective(a, b, n - 1);
    }
  }

  /** Every word is the binary digits of its value. */
  lemma ValueFromNat(w: Word)
    ensures FromNat(Value(w)) == w
  {
    LowBound(w, 64);
    FromNatValue(Value(w), 64);
    LowInjective(FromNat(Value(w)), w, 64);
  }

  lemma {:induction false} Pow2Add(n: nat, m: nat)
    ensures Pow2(n + m) == Pow2(n) * Pow2(m)
  {
    if m > 0 {
      Pow2Add(n, m - 1);
      assert Pow2(n + m) == 2 * Pow2(n + m - 1);
    }
  }

  /** The low n + m bits are the low n bits plus 2^n times the next m bits. */
  lemma {:induction false} LowSplit(x: Word, n: nat, m: nat)
    requires n < 64 && n + m <= 64
    ensures Low(x, n + m) == Low(x, n) + Pow2(n) * Low(Shr(x, n), m)
  {
    if m > 0 {
      LowSplit(x, n, m - 1);
      Pow2Add(n, m - 1);
      var p, q := Pow2(n), Pow2(m - 1);
      var a := Low(Shr(x, n), m - 1);
      var e := if x[n + m - 1] then q else 0;
      assert Low(Shr(x, n), m) == a + e;
      var f := if x[n + m - 1] then Pow2(n + m - 1) else 0;
      assert f == p * e;
      assert Low(x, n + m) == Low(x, n + m - 1) + f;
      Distribute(p, a, e);
    }
  }

  lemma Distribute(p: int, a: int, e: int)
    ensures p * a + p * e == p * (a + e)
  {
  }
}
