/** Keys, hashes and the power-of-two size policy of the open-addressing tables. */
module Hashing {
  import opened Prober

  type Key(==, !new)

  /** Hash values are 64-bit words. */
  type Hash64 = x: nat | x < 0x1_0000_0000_0000_0000

  type Hasher = Key -> Hash64

  const SLOTS: nat := 15

  /** The group where probing for a hash starts: the top `exp` bits of the hash. */
  function Home(hash: Hash64, exp: nat): (g: nat)
    ensures g < Pow2(exp)
  {
    HomeInRange(hash, exp);
    TopBits(hash, exp)
  }

  /** Shifting right by 64 - exp. */
  function TopBits(hash: Hash64, exp: nat): nat {
    if exp <= 64 then Quotient(hash, Pow2(64 - exp)) else hash
  }

  function Quotient(x: nat, a: nat): nat
    requires a > 0
  {
    x / a
  }

  /** The tag stored in the metadata: the low byte, moved out of the reserved values 0 and 1. */
  function Tag(hash: Hash64): (t: nat)
    ensures 2 <= t < 256
    ensures t % 8 == Bit(hash)
  {
    TagOfByte(hash % 256)
  }

  function TagOfByte(low: nat): nat { if low < 2 then low + 8 else low }

  /** Which of the eight overflow bits a hash uses. */
  function Bit(hash: Hash64): (b: nat)
    ensures b < 8
  {
    hash % 8
  }

  function BitWidth(x: nat): nat {
    if x == 0 then 0 else 1 + BitWidth(x / 2)
  }

  /** Exponent of the group array that can index `groups` groups; at least two groups. */
  function ExponentFor(groups: nat): (exp: nat)
    ensures exp >= 1
  {
    if groups <= 2 then 1 else
      assert BitWidth(groups - 1) == 1 + BitWidth((groups - 1) / 2);
      BitWidth(groups - 1)
  }

  /** Exponent chosen for a requested element capacity (one slot is lost to the sentinel). */
  function ExponentForElements(n: nat): (exp: nat)
    ensures exp >= 1
  {
    ExponentFor(n / SLOTS + 1)
  }

  function CapacityOf(exp: nat): nat {
    SLOTS * Pow2(exp) - 1
  }

  function CapacityFor(n: nat): nat {
    CapacityOf(ExponentForElements(n))
  }

  /** The load above which an array of the given capacity is rehashed before inserting. */
  function InitialMaxLoad(capacity: nat): (ml: nat)
    ensures ml <= capacity
  {
    if capacity <= 2 * SLOTS - 1 then capacity else capacity * 7 / 8
  }

  /** n elements at the maximum load factor of 7/8, rounded up. */
  function AtMaxLoadFactor(n: nat): nat {
    (n * 8 + 6) / 7
  }

  // ------------------------------------------------------------------- lemmas

  lemma {:induction false} Pow2Sum(a: nat, b: nat)
    ensures Pow2(a) * Pow2(b) == Pow2(a + b)
  {
    if a > 0 {
      Pow2Sum(a - 1, b);
      assert Pow2(a) * Pow2(b) == 2 * (Pow2(a - 1) * Pow2(b));
    }
  }

  lemma {:induction false} Pow2Increases(a: nat, b: nat)
    requires a <= b
    ensures Pow2(a) <= Pow2(b)
  {
    if a < b {
      Pow2Increases(a, b - 1);
    }
  }

  lemma QuotientBelow(x: nat, a: nat, b: nat)
    requires a > 0 && x < a * b
    ensures Quotient(x, a) < b
  {
    var q := Quotient(x, a);
    assert q * a <= x;
    assert q >= b ==> q * a >= b * a;
  }

  lemma WordSize()
    ensures Pow2(64) == 0x1_0000_0000_0000_0000
  {
    assert Pow2(4) == 16;
    Pow2Sum(4, 4);
    Pow2Sum(8, 8);
    Pow2Sum(16, 16);
    Pow2Sum(32, 32);
  }

  lemma TopBitsBelow(hash: Hash64, exp: nat)
    requires exp <= 64
    ensures Quotient(hash, Pow2(64 - exp)) < Pow2(exp)
  {
    WordSize();
    Pow2Sum(64 - exp, exp);
    QuotientBelow(hash, Pow2(64 - exp), Pow2(exp));
  }

  lemma HomeInRange(hash: Hash64, exp: nat)
    ensures TopBits(hash, exp) < Pow2(exp)
  {
    if exp <= 64 {
      TopBitsBelow(hash, exp);
    } else {
      WordSize();
      Pow2Increases(64, exp);
    }
  }

  /** The home group is the top bits of the hash: all hashes of one group are one stretch of them. */
  lemma HomeIsTop(hash: Hash64, exp: nat)
    requires exp <= 64
    ensures Home(hash, exp) * Pow2(64 - exp) <= hash < (Home(hash, exp) + 1) * Pow2(64 - exp)
  {
    QuotientBounds(hash, Pow2(64 - exp));
  }

  lemma QuotientBounds(x: nat, a: nat)
    requires a > 0
    ensures Quotient(x, a) * a <= x < (Quotient(x, a) + 1) * a
  {
  }

  /** Two hashes share a tag only if they share their low byte, or their low bytes are 0 and 8, or 1 and 9. */
  lemma TagsCollideExactly(a: Hash64, b: Hash64)
    ensures Tag(a) == Tag(b) <==>
      var x, y := a % 256, b % 256;
      x == y || (x % 8 == y % 8 && x % 8 < 2 && x < 10 && y < 10)
  {
  }

  /** BitWidth is the least exponent whose power exceeds x. */
  lemma {:induction false} BitWidthExact(x: nat)
    ensures x < Pow2(BitWidth(x))
    ensures x > 0 ==> Pow2(BitWidth(x) - 1) <= x
  {
    if x > 0 {
      BitWidthExact(x / 2);
    }
  }

  /** The policy allocates enough groups, and the least power of two that is enough. */
  lemma ExponentExact(groups: nat)
    ensures Pow2(ExponentFor(groups)) >= groups
    ensures forall e: nat :: e >= 1 && Pow2(e) >= groups ==> ExponentFor(groups) <= e
  {
    assert Pow2(1) == 2;
    if groups > 2 {
      BitWidthExact(groups - 1);
      var w := BitWidth(groups - 1);
      forall e: nat | e >= 1 && Pow2(e) >= groups ensures w <= e {
        if e < w {
          Pow2Increases(e, w - 1);
        }
      }
    }
  }

  /** A requested capacity is always met. */
  lemma CapacitySuffices(n: nat)
    ensures CapacityFor(n) >= n
  {
    ExponentExact(n / SLOTS + 1);
  }

  /** A capacity is granted within the arrays of an exponent exactly when it fits them. */
  lemma CapacityExactly(n: nat, exp: nat)
    requires exp >= 1
    ensures CapacityFor(n) <= CapacityOf(exp) <==> n <= CapacityOf(exp)
  {
    var e := ExponentForElements(n);
    ExponentExact(n / SLOTS + 1);
    assert n <= CapacityOf(exp) <==> n / SLOTS + 1 <= Pow2(exp);
    if e <= exp {
      Pow2Increases(e, exp);
    } else {
      Pow2Increases(exp + 1, e);
    }
  }

  /** Asking again for a capacity already granted changes nothing. */
  lemma CapacityStable(exp: nat)
    requires exp >= 1
    ensures ExponentForElements(CapacityOf(exp)) == exp
  {
    assert CapacityOf(exp) / SLOTS + 1 == Pow2(exp);
    ExponentExact(Pow2(exp));
    var e := ExponentFor(Pow2(exp));
    assert e <= exp;
    if e < exp {
      Pow2Increases(e, exp - 1);
    }
  }

  /** The maximum load is the whole capacity up to 29 slots, and above that the most elements
   *  that fill seven eighths of the slots at the highest.
   */
  lemma MaxLoadExactly(capacity: nat, m: nat)
    ensures capacity < 30 ==> InitialMaxLoad(capacity) == capacity
    ensures capacity >= 30 ==> (m <= InitialMaxLoad(capacity) <==> 8 * m <= 7 * capacity)
  {
  }

  /** Room for n elements at the maximum load factor means the initial maximum load admits n. */
  lemma LoadSuffices(n: nat, capacity: nat)
    requires capacity >= AtMaxLoadFactor(n)
    ensures InitialMaxLoad(capacity) >= n
  {
  }
}
