/** Quadratic probing over a power-of-two range.
 *
 *  The prober walks the group array by triangular offsets.  The facts every
 *  other table module relies on are that the walk never repeats a group during
 *  its first 2^n positions, and therefore meets every group exactly once.
 */
module Prober {

  function Pow2(n: nat): (r: nat)
    ensures r >= 1
  {
    if n == 0 then 1 else 2 * Pow2(n - 1)
  }

  /** The j-th triangular number: the offset accumulated after j steps. */
  function Tri(j: nat): nat {
    if j == 0 then 0 else Tri(j - 1) + j
  }

  /** The group reached after j steps from `home` in a table of `size` groups. */
  function Position(home: nat, size: nat, j: nat): (p: nat)
    requires size > 0
    ensures p < size
  {
    (home + Tri(j)) % size
  }

  // ---------------------------------------------------------------- arithmetic

  lemma {:induction false} TriDifference(i: nat, j: nat)
    requires i <= j
    ensures Tri(i) <= Tri(j)
    ensures 2 * (Tri(j) - Tri(i)) == (j - i) * (j + i + 1)
  {
    if i < j {
      TriDifference(i, j - 1);
    }
  }

  /** An odd factor can be cancelled from a multiple of a power of two. */
  lemma {:induction false} OddCancel(n: nat, a: nat, b: nat, q: nat) returns (r: nat)
    requires a % 2 == 1
    requires a * b == q * Pow2(n)
    ensures b == r * Pow2(n)
  {
    if n == 0 {
      r := b;
    } else {
      var half := a / 2;
      assert a * b == b * (2 * half) + b by { assert a == 2 * half + 1; }
      DoubleProduct(b, half);
      DoubleProduct(q, Pow2(n - 1));
      var b' := b / 2;
      assert b == 2 * b';
      DoubleProduct(a, b');
      r := OddCancel(n - 1, a, b', q);
    }
  }

  lemma DoubleProduct(q: int, m: int)
    ensures q * (2 * m) == 2 * (q * m)
  {
  }

  lemma PositiveProduct(a: nat, b: nat)
    requires a > 0 && b > 0
    ensures a * b > 0
  {
  }

  lemma MultipleAtLeast(r: int, m: nat)
    requires r * m > 0
    ensures r >= 1 && r * m >= m
  {
    assert r <= 0 ==> r * m <= 0;
    assert r * m >= 1 * m;
  }

  /** Quotient and remainder are determined by their defining equation. */
  lemma DivisionUnique(z: nat, q: int, r: nat, m: nat)
    requires m > 0 && r < m && z == q * m + r
    ensures z / m == q && z % m == r
  {
    var d := q - z / m;
    assert d * m == q * m - (z / m) * m;
    assert z == (z / m) * m + z % m;
    assert d * m == z % m - r;
    if d > 0 { MultipleAtLeast(d, m); }
    if d < 0 {
      assert (-d) * m == -(d * m);
      assert d != 0 && m > 0 ==> d * m != 0;
      MultipleAtLeast(-d, m);
    }
  }

  lemma EqualModulo(x: nat, y: nat, m: nat) returns (q: int)
    requires m > 0 && x % m == y % m
    ensures y - x == q * m
  {
    q := y / m - x / m;
    assert x == (x / m) * m + x % m;
    assert y == (y / m) * m + y % m;
    assert q * m == (y / m) * m - (x / m) * m;
  }

  // ------------------------------------------------------------- the main facts

  /** No factorisation of a positive multiple of 2^(n+1) has this shape below 2^n. */
  lemma FactorsTooSmall(n: nat, i: nat, j: nat, q: nat)
    requires i < j < Pow2(n)
    ensures (j - i) * (j + i + 1) != q * Pow2(n + 1)
  {
    var a, b := j - i, j + i + 1;
    if a * b == q * Pow2(n + 1) {
      if a % 2 == 1 {
        var r := OddCancel(n + 1, a, b, q);
        MultipleAtLeast(r, Pow2(n + 1));
      } else {
        assert b * a == a * b;
        var r := OddCancel(n + 1, b, a, q);
        MultipleAtLeast(r, Pow2(n + 1));
      }
    }
  }

  /** Two triangular offsets below 2^n never differ by a multiple of 2^n. */
  lemma OffsetsDiffer(n: nat, i: nat, j: nat, q: int)
    requires i < j < Pow2(n)
    ensures Tri(j) - Tri(i) != q * Pow2(n)
  {
    TriDifference(i, j);
    var size := Pow2(n);
    DoubleProduct(q, size);
    PositiveProduct(j - i, j + i + 1);
    if Tri(j) - Tri(i) == q * size {
      MultipleAtLeast(q, size);
      FactorsTooSmall(n, i, j, q);
    }
  }

  /** The first 2^n probes are pairwise different. */
  lemma {:induction false} ProbesDistinct(home: nat, n: nat, i: nat, j: nat)
    requires i < j < Pow2(n)
    ensures Position(home, Pow2(n), i) != Position(home, Pow2(n), j)
  {
    if Position(home, Pow2(n), i) == Position(home, Pow2(n), j) {
      var q := EqualModulo(home + Tri(i), home + Tri(j), Pow2(n));
      OffsetsDiffer(n, i, j, q);
    }
  }

  ghost function Visited(home: nat, size: nat, k: nat): (s: set<nat>)
    requires size > 0
  {
    set j | 0 <= j < k :: Position(home, size, j)
  }

  lemma {:induction false} VisitedCount(home: nat, n: nat, k: nat)
    requires k <= Pow2(n)
    ensures |Visited(home, Pow2(n), k)| == k
  {
    if k > 0 {
      VisitedCount(home, n, k - 1);
      var p := Position(home, Pow2(n), k - 1);
      forall j | 0 <= j < k - 1 ensures Position(home, Pow2(n), j) != p {
        ProbesDistinct(home, n, j, k - 1);
      }
      assert Visited(home, Pow2(n), k) == Visited(home, Pow2(n), k - 1) + {p};
    }
  }

  ghost function Below(m: nat): (s: set<nat>)
    ensures forall x: nat :: x in s <==> x < m
  {
    if m == 0 then {} else Below(m - 1) + {m - 1}
  }

  lemma {:induction false} BelowCount(m: nat)
    ensures |Below(m)| == m
  {
    if m > 0 {
      BelowCount(m - 1);
    }
  }

  lemma SubsetSameSize<T>(a: set<T>, b: set<T>)
    requires a <= b && |a| == |b|
    ensures a == b
  {
    assert a + (b - a) == b;
    assert |b - a| == 0;
  }

  /** Every group is met by one of the first 2^n probes. */
  lemma ProbesCover(home: nat, n: nat, g: nat) returns (j: nat)
    requires g < Pow2(n)
    ensures j < Pow2(n) && Position(home, Pow2(n), j) == g
  {
    var size := Pow2(n);
    VisitedCount(home, n, size);
    BelowCount(size);
    SubsetSameSize(Visited(home, size, size), Below(size));
    assert g in Below(size);
    j :| 0 <= j < size && Position(home, size, j) == g;
  }

  /** Each group is met exactly once during a full walk. */
  lemma ProbeIsPermutation(home: nat, n: nat, g: nat)
    requires g < Pow2(n)
    ensures exists j: nat :: j < Pow2(n) && Position(home, Pow2(n), j) == g
    ensures forall i: nat, j: nat ::
              i < Pow2(n) && j < Pow2(n) && Position(home, Pow2(n), i) == g && Position(home, Pow2(n), j) == g
              ==> i == j
  {
    var w := ProbesCover(home, n, g);
    forall i: nat, j: nat
      | i < Pow2(n) && j < Pow2(n) && Position(home, Pow2(n), i) == g && Position(home, Pow2(n), j) == g
      ensures i == j
    {
      if i < j { ProbesDistinct(home, n, i, j); }
      if j < i { ProbesDistinct(home, n, j, i); }
    }
  }

  /** Bitwise and. */
  function And(x: nat, y: nat): nat {
    if x == 0 || y == 0 then 0
    else 2 * And(x / 2, y / 2) + if x % 2 == 1 && y % 2 == 1 then 1 else 0
  }

  lemma ModuloHalves(x: nat, half: nat)
    requires half > 0
    ensures x % (2 * half) == 2 * ((x / 2) % half) + x % 2
  {
    var q, r := (x / 2) / half, (x / 2) % half;
    DoubleProduct(q, half);
    DivisionUnique(x, q, 2 * r + x % 2, 2 * half);
  }

  lemma {:induction false} AndHalves(x: nat, half: nat)
    requires half > 0
    ensures And(x, 2 * half - 1) == 2 * And(x / 2, half - 1) + x % 2
  {
    assert (2 * half - 1) / 2 == half - 1 && (2 * half - 1) % 2 == 1;
  }

  /** Masking with 2^n - 1 is reduction modulo 2^n. */
  lemma {:induction false} MaskIsModulo(x: nat, n: nat)
    ensures And(x, Pow2(n) - 1) == x % Pow2(n)
  {
    if n > 0 {
      MaskIsModulo(x / 2, n - 1);
      ModuloHalves(x, Pow2(n - 1));
      AndHalves(x, Pow2(n - 1));
    }
  }

  /** The masked sum is the next position of the probe sequence. */
  lemma {:induction false} MaskedPosition(home: nat, n: nat, pos: nat, step: nat)
    requires pos == Position(home, Pow2(n), step)
    ensures And(pos + (step + 1), Pow2(n) - 1) == Position(home, Pow2(n), step + 1)
  {
    MaskIsModulo(pos + (step + 1), n);
    StepModulo(home + Tri(step), step + 1, Pow2(n));
  }

  lemma WalkStartsHome(home: nat, size: nat)
    requires home < size
    ensures Position(home, size, 0) == home
  {
    DivisionUnique(home, 0, home, size);
  }

  // ------------------------------------------------------------------ the prober

  /** The mutable prober: a position and a growing step. */
  class QuadraticProber {
    var pos: nat
    var step: nat
    ghost const home: nat

    constructor (pos0: nat)
      ensures pos == pos0 && step == 0 && home == pos0
    {
      pos, step, home := pos0, 0, pos0;
      new;
    }

    /** The incremental walk is on the closed-form probe sequence. */
    ghost predicate OnCourse(size: nat)
      requires size > 0
      reads this
    {
      pos == Position(home, size, step)
    }

    /** One step; false once the whole array of 2^n groups has been visited. */
    method Next(mask: nat, ghost n: nat) returns (more: bool)
      requires mask == Pow2(n) - 1
      requires OnCourse(Pow2(n))
      modifies this
      ensures OnCourse(Pow2(n))
      ensures step == old(step) + 1
      ensures more <==> step < Pow2(n)
    {
      MaskedPosition(home, n, pos, step);
      step := step + 1;
      pos := And(pos + step, mask);
      more := step <= mask;
    }
  }

  lemma StepModulo(x: nat, d: nat, m: nat)
    requires m > 0
    ensures (x % m + d) % m == (x + d) % m
  {
    var y := x % m + d;
    var q := x / m + y / m;
    assert q * m == (x / m) * m + (y / m) * m;
    DivisionUnique(x + d, q, y % m, m);
  }
}
