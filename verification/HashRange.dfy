/** Hashing a range of bytes: overloads for random access and for forward iterators.
 *
 *  The algorithms are written over word operations given as a record, so that the 32-bit
 *  and the 64-bit functions share what they have in common.
 */
module HashRange {

  /** The two running values: the hash h and the offset w. */
  datatype Sponge<W, H> = Sponge(h: H, w: W)

  /** Words W with bitwise or and shifts by whole bytes; states H. */
  datatype Ops<!W, !H> = Ops(
    zero: W,
    or: (W, W) -> W,
    up: (W, nat) -> W,              // shift left by whole bytes
    byte: bv8 -> W,
    next: W -> W,                   // w += q
    fold: (H, W, W) -> H,           // h ^= mul( v + w, k )
    addSize: (H, nat) -> H,         // h ^= n
    start: W -> Sponge<W, H>,
    finish: Sponge<W, H> -> W)

  ghost predicate OrUnit<W, H>(m: Ops<W, H>, a: W) { m.or(m.zero, a) == a }

  ghost predicate OrSame<W, H>(m: Ops<W, H>, a: W) { m.or(a, a) == a }

  ghost predicate OrSwap<W, H>(m: Ops<W, H>, a: W, b: W) { m.or(a, b) == m.or(b, a) }

  ghost predicate OrGroup<W, H>(m: Ops<W, H>, a: W, b: W, c: W) { m.or(m.or(a, b), c) == m.or(a, m.or(b, c)) }

  ghost predicate UpZero<W, H>(m: Ops<W, H>, n: nat) { m.up(m.zero, n) == m.zero }

  ghost predicate UpNone<W, H>(m: Ops<W, H>, a: W) { m.up(a, 0) == a }

  ghost predicate UpOr<W, H>(m: Ops<W, H>, a: W, b: W, n: nat) { m.up(m.or(a, b), n) == m.or(m.up(a, n), m.up(b, n)) }

  ghost predicate UpUp<W, H>(m: Ops<W, H>, a: W, i: nat, j: nat) { m.up(m.up(a, i), j) == m.up(a, i + j) }

  /** The laws of bitwise or and shifts that reading relies on. */
  ghost predicate WordLaws<W(!new), H>(m: Ops<W, H>) {
    && (forall a :: OrUnit(m, a))
    && (forall a :: OrSame(m, a))
    && (forall a, b :: OrSwap(m, a, b))
    && (forall a, b, c :: OrGroup(m, a, b, c))
    && (forall n: nat :: UpZero(m, n))
    && (forall a :: UpNone(m, a))
    && (forall a, b, n: nat :: UpOr(m, a, b, n))
    && (forall a, i: nat, j: nat :: UpUp(m, a, i, j))
  }

  ghost predicate SizeCommutesAt<W, H>(m: Ops<W, H>, h: H, n: nat, v: W, w: W) {
    m.fold(m.addSize(h, n), v, w) == m.addSize(m.fold(h, v, w), n)
  }

  /** Mixing in the length commutes with absorbing a word. */
  ghost predicate SizeCommutes<W(!new), H(!new)>(m: Ops<W, H>) {
    forall h, n, v, w :: SizeCommutesAt(m, h, n, v, w)
  }

  ghost predicate Lawful<W(!new), H(!new)>(m: Ops<W, H>) { WordLaws(m) && SizeCommutes(m) }

  // ---------------------------------------------------------------- what is hashed

  /** The value of a short run of bytes, least significant first. */
  function LittleEndian<W, H>(m: Ops<W, H>, s: seq<bv8>): W {
    if s == [] then m.zero else m.or(LittleEndian(m, s[..|s| - 1]), m.up(m.byte(s[|s| - 1]), |s| - 1))
  }

  function Absorb<W, H>(m: Ops<W, H>, t: Sponge<W, H>, v: W): Sponge<W, H> {
    var w := m.next(t.w);
    Sponge(m.fold(t.h, v, w), w)
  }

  /** All full words of s in order, then the short rest as one more word, even when it is empty. */
  function AbsorbAll<W, H>(m: Ops<W, H>, width: nat, t: Sponge<W, H>, s: seq<bv8>): Sponge<W, H>
    requires width > 0
    decreases |s|
  {
    if |s| < width then Absorb(m, t, LittleEndian(m, s))
    else AbsorbAll(m, width, Absorb(m, t, LittleEndian(m, s[..width])), s[width..])
  }

  /** The hash of s: its words, then its length, then a last mix. */
  function Hash<W, H>(m: Ops<W, H>, width: nat, seed: W, s: seq<bv8>): W
    requires width > 0
  {
    var t := AbsorbAll(m, width, m.start(seed), s);
    m.finish(Sponge(m.addSize(t.h, |s|), t.w))
  }

  lemma AbsorbCommutes<W(!new), H(!new)>(m: Ops<W, H>, t: Sponge<W, H>, n: nat, v: W)
    requires SizeCommutes(m)
    ensures Absorb(m, Sponge(m.addSize(t.h, n), t.w), v)
         == var u := Absorb(m, t, v); Sponge(m.addSize(u.h, n), u.w)
  {
    assert SizeCommutesAt(m, t.h, n, v, m.next(t.w));
  }

  /** The length may be mixed in before the first word or after the last. */
  lemma {:induction false} LengthCommutes<W(!new), H(!new)>(m: Ops<W, H>, width: nat, t: Sponge<W, H>, n: nat, s: seq<bv8>)
    requires width > 0 && SizeCommutes(m)
    ensures AbsorbAll(m, width, Sponge(m.addSize(t.h, n), t.w), s)
         == var u := AbsorbAll(m, width, t, s); Sponge(m.addSize(u.h, n), u.w)
    decreases |s|
  {
    if |s| < width {
      AbsorbCommutes(m, t, n, LittleEndian(m, s));
    } else {
      var v := LittleEndian(m, s[..width]);
      AbsorbCommutes(m, t, n, v);
      LengthCommutes(m, width, Absorb(m, t, v), n, s[width..]);
    }
  }

  // -------------------------------------------------------- every word shows

  /** Folding loses neither the state nor the word. */
  ghost predicate FoldApart<W, H>(m: Ops<W, H>, g: H, h: H, a: W, b: W, w: W) {
    && (g != h ==> m.fold(g, a, w) != m.fold(h, a, w))
    && (a != b ==> m.fold(g, a, w) != m.fold(g, b, w))
  }

  ghost predicate Lossless<W(!new), H(!new)>(m: Ops<W, H>) { forall g, h, a, b, w :: FoldApart(m, g, h, a, b, w) }

  /** States that agree but for the hash. */
  predicate Apart<W(==), H(==)>(t: Sponge<W, H>, u: Sponge<W, H>) { t.h != u.h && t.w == u.w }

  /** States that differ stay different whatever follows. */
  lemma {:induction false} StaysApart<W(!new), H(!new)>(m: Ops<W, H>, width: nat, t: Sponge<W, H>, u: Sponge<W, H>, s: seq<bv8>)
    requires width > 0 && Lossless(m) && Apart(t, u)
    ensures Apart(AbsorbAll(m, width, t, s), AbsorbAll(m, width, u, s))
    decreases |s|
  {
    var v := LittleEndian(m, if |s| < width then s else s[..width]);
    assert FoldApart(m, t.h, u.h, v, v, m.next(t.w));
    if |s| >= width {
      StaysApart(m, width, Absorb(m, t, v), Absorb(m, u, v), s[width..]);
    }
  }

  lemma BeforeApart<W(!new), H(!new)>(m: Ops<W, H>, width: nat, t: Sponge<W, H>, pre: seq<bv8>, a: seq<bv8>, b: seq<bv8>)
    requires 0 < width <= |pre|
    requires var next := Absorb(m, t, LittleEndian(m, pre[..width]));
      Apart(AbsorbAll(m, width, next, pre[width..] + a), AbsorbAll(m, width, next, pre[width..] + b))
    ensures Apart(AbsorbAll(m, width, t, pre + a), AbsorbAll(m, width, t, pre + b))
  {
    PrefixAbsorbed(m, width, t, pre, a);
    PrefixAbsorbed(m, width, t, pre, b);
  }

  /** Ranges that differ in their word k only lead to different states. */
  lemma {:induction false} ChangedWordShows<W(!new), H(!new)>(m: Ops<W, H>, width: nat, t: Sponge<W, H>, k: nat,
                                                              pre: seq<bv8>, x: seq<bv8>, y: seq<bv8>, rest: seq<bv8>)
    requires width > 0 && Lossless(m) && |pre| == k * width && |x| == |y| <= width && (|x| < width ==> rest == [])
    requires LittleEndian(m, x) != LittleEndian(m, y)
    ensures Apart(AbsorbAll(m, width, t, pre + (x + rest)), AbsorbAll(m, width, t, pre + (y + rest)))
    decreases k
  {
    if k == 0 {
      ChangedHeadShows(m, width, t, x, y, rest);
      assert pre + (x + rest) == x + rest && pre + (y + rest) == y + rest;
    } else {
      assert k * width == (k - 1) * width + width;
      ChangedWordShows(m, width, Absorb(m, t, LittleEndian(m, pre[..width])), k - 1, pre[width..], x, y, rest);
      BeforeApart(m, width, t, pre, x + rest, y + rest);
    }
  }

  lemma PrefixAbsorbed<W(!new), H(!new)>(m: Ops<W, H>, width: nat, t: Sponge<W, H>, pre: seq<bv8>, s: seq<bv8>)
    requires 0 < width <= |pre|
    ensures AbsorbAll(m, width, t, pre + s) == AbsorbAll(m, width, Absorb(m, t, LittleEndian(m, pre[..width])), pre[width..] + s)
  {
    assert (pre + s)[..width] == pre[..width] && (pre + s)[width..] == pre[width..] + s;
  }

  lemma ChangedHeadShows<W(!new), H(!new)>(m: Ops<W, H>, width: nat, t: Sponge<W, H>, x: seq<bv8>, y: seq<bv8>, rest: seq<bv8>)
    requires width > 0 && Lossless(m) && |x| == |y| <= width && (|x| < width ==> rest == [])
    requires LittleEndian(m, x) != LittleEndian(m, y)
    ensures Apart(AbsorbAll(m, width, t, x + rest), AbsorbAll(m, width, t, y + rest))
  {
    assert FoldApart(m, t.h, t.h, LittleEndian(m, x), LittleEndian(m, y), m.next(t.w));
    if |x| < width {
      assert x + rest == x && y + rest == y;
    } else {
      assert (x + rest)[..width] == x && (x + rest)[width..] == rest;
      assert (y + rest)[..width] == y && (y + rest)[width..] == rest;
      StaysApart(m, width, Absorb(m, t, LittleEndian(m, x)), Absorb(m, t, LittleEndian(m, y)), rest);
    }
  }

  // ------------------------------------------------------------------ reading words

  lemma {:induction false} Appended<W(!new), H>(m: Ops<W, H>, a: seq<bv8>, b: seq<bv8>)
    requires WordLaws(m)
    ensures LittleEndian(m, a + b) == m.or(LittleEndian(m, a), m.up(LittleEndian(m, b), |a|))
  {
    if b == [] {
      assert a + b == a;
      assert UpZero(m, |a|) && OrSwap(m, LittleEndian(m, a), m.zero) && OrUnit(m, LittleEndian(m, a));
    } else {
      var n := |b| - 1;
      Appended(m, a, b[..n]);
      assert (a + b)[..|a| + n] == a + b[..n];
      var low, mid, high := LittleEndian(m, a), LittleEndian(m, b[..n]), m.byte(b[n]);
      assert UpOr(m, mid, m.up(high, n), |a|) && UpUp(m, high, n, |a|);
      assert OrGroup(m, low, m.up(mid, |a|), m.up(high, n + |a|));
    }
  }

  /** Two words that overlap in the middle, or-ed together, give all their bytes. */
  lemma Overlapped<W(!new), H>(m: Ops<W, H>, a: seq<bv8>, mid: seq<bv8>, c: seq<bv8>)
    requires WordLaws(m)
    ensures m.or(m.up(LittleEndian(m, mid + c), |a|), LittleEndian(m, a + mid)) == LittleEndian(m, a + mid + c)
  {
    Appended(m, a, mid);
    Appended(m, mid, c);
    Appended(m, a + mid, c);
    var x, y, z := LittleEndian(m, a), m.up(LittleEndian(m, mid), |a|), m.up(LittleEndian(m, c), |mid| + |a|);
    assert UpOr(m, LittleEndian(m, mid), m.up(LittleEndian(m, c), |mid|), |a|) && UpUp(m, LittleEndian(m, c), |mid|, |a|);
    Idempotent(m, x, y, z);
  }

  lemma Idempotent<W(!new), H>(m: Ops<W, H>, x: W, y: W, z: W)
    requires WordLaws(m)
    ensures m.or(m.or(y, z), m.or(x, y)) == m.or(m.or(x, y), z)
  {
    assert OrSwap(m, m.or(y, z), m.or(x, y));
    assert OrGroup(m, x, y, m.or(y, z)) && OrGroup(m, y, y, z) && OrSame(m, y);
    assert OrGroup(m, x, y, z);
  }

  function Byte<W, H>(m: Ops<W, H>, s: seq<bv8>, p: nat, place: nat): W
    requires p < |s|
  {
    m.up(m.byte(s[p]), place)
  }

  function Read32<W, H>(m: Ops<W, H>, s: seq<bv8>, p: nat): W
    requires p + 4 <= |s|
  {
    m.or(m.or(m.or(m.byte(s[p]), Byte(m, s, p + 1, 1)), Byte(m, s, p + 2, 2)), Byte(m, s, p + 3, 3))
  }

  function Read64<W, H>(m: Ops<W, H>, s: seq<bv8>, p: nat): W
    requires p + 8 <= |s|
  {
    m.or(m.or(m.or(m.or(
      Read32(m, s, p), Byte(m, s, p + 4, 4)), Byte(m, s, p + 5, 5)), Byte(m, s, p + 6, 6)), Byte(m, s, p + 7, 7))
  }

  /** The first byte is the lowest: the rest is shifted up by one. */
  lemma HeadFirst<W(!new), H>(m: Ops<W, H>, s: seq<bv8>)
    requires WordLaws(m) && s != []
    ensures LittleEndian(m, s) == m.or(m.byte(s[0]), m.up(LittleEndian(m, s[1..]), 1))
  {
    assert s == s[..1] + s[1..] && s[0..1] == s[..1];
    Appended(m, s[..1], s[1..]);
    OneByte(m, s, 0);
  }

  // The number a run of bytes stands for, least significant first.

  function Value(s: seq<bv8>): nat {
    if s == [] then 0 else s[0] as nat + 256 * Value(s[1..])
  }

  function Pow256(n: nat): (p: nat)
    ensures p > 0
  {
    if n == 0 then 1 else 256 * Pow256(n - 1)
  }

  lemma {:induction false} ValueBound(s: seq<bv8>)
    ensures Value(s) < Pow256(|s|)
  {
    if s != [] {
      ValueBound(s[1..]);
    }
  }

  lemma SameDigits(a: bv8, m: nat, b: bv8, n: nat)
    requires a as nat + 256 * m == b as nat + 256 * n
    ensures a == b && m == n
  {
  }

  /** Runs of one length have different values unless they are the same. */
  lemma {:induction false} ValuesDiffer(s: seq<bv8>, t: seq<bv8>)
    requires |s| == |t| && Value(s) == Value(t)
    ensures s == t
  {
    if s != [] {
      SameDigits(s[0], Value(s[1..]), t[0], Value(t[1..]));
      ValuesDiffer(s[1..], t[1..]);
      assert s == [s[0]] + s[1..] && t == [t[0]] + t[1..];
    }
  }

  lemma OneMore<W, H>(m: Ops<W, H>, s: seq<bv8>, p: nat, n: nat)
    requires p + n < |s|
    ensures LittleEndian(m, s[p..p + n + 1]) == m.or(LittleEndian(m, s[p..p + n]), Byte(m, s, p + n, n))
  {
    assert s[p..p + n + 1][..n] == s[p..p + n];
  }

  lemma OneByte<W(!new), H>(m: Ops<W, H>, s: seq<bv8>, p: nat)
    requires WordLaws(m) && p < |s|
    ensures LittleEndian(m, s[p..p + 1]) == m.byte(s[p])
  {
    OneMore(m, s, p, 0);
    assert s[p..p] == [];
    assert OrUnit(m, Byte(m, s, p, 0)) && UpNone(m, m.byte(s[p]));
  }

  lemma Read32Reads<W(!new), H>(m: Ops<W, H>, s: seq<bv8>, p: nat)
    requires WordLaws(m) && p + 4 <= |s|
    ensures Read32(m, s, p) == LittleEndian(m, s[p..p + 4])
  {
    OneByte(m, s, p);
    OneMore(m, s, p, 1);
    OneMore(m, s, p, 2);
    OneMore(m, s, p, 3);
  }

  lemma Read64Reads<W(!new), H>(m: Ops<W, H>, s: seq<bv8>, p: nat)
    requires WordLaws(m) && p + 8 <= |s|
    ensures Read64(m, s, p) == LittleEndian(m, s[p..p + 8])
  {
    Read32Reads(m, s, p);
    OneMore(m, s, p, 4);
    OneMore(m, s, p, 5);
    OneMore(m, s, p, 6);
    OneMore(m, s, p, 7);
  }

  /** At most three bytes, read at three places of which some may coincide. */
  function ReadShort<W, H>(m: Ops<W, H>, s: seq<bv8>, p: nat): W
    requires 1 <= |s| - p < 4
  {
    var n := |s| - p;
    var x1 := (n - 1) / 2 % 2 * 2;     // ( n - 1 ) & 2
    var x2 := n / 2;
    m.or(m.or(Byte(m, s, p + x1, x1), Byte(m, s, p + x2, x2)), Byte(m, s, p, 0))
  }

  lemma ReadShortReads<W(!new), H>(m: Ops<W, H>, s: seq<bv8>, p: nat)
    requires WordLaws(m) && 1 <= |s| - p < 4
    ensures ReadShort(m, s, p) == LittleEndian(m, s[p..])
  {
    OneByte(m, s, p);
    assert s[p..] == s[p..|s|];
    var b0 := m.byte(s[p]);
    assert UpNone(m, b0) && OrSame(m, b0);
    if |s| - p == 2 {
      OneMore(m, s, p, 1);
      var b1 := Byte(m, s, p + 1, 1);
      assert OrSwap(m, m.or(b0, b1), b0) && OrGroup(m, b0, b0, b1);
    } else if |s| - p == 3 {
      OneMore(m, s, p, 1);
      OneMore(m, s, p, 2);
      var b1, b2 := Byte(m, s, p + 1, 1), Byte(m, s, p + 2, 2);
      assert OrGroup(m, b2, b1, b0) && OrSwap(m, b1, b0) && OrSwap(m, b2, m.or(b0, b1));
    }
  }

  /** Fewer than eight bytes: two overlapping words if there are four or more. */
  function ReadTail<W, H>(m: Ops<W, H>, s: seq<bv8>, p: nat): W
    requires 0 <= |s| - p < 8
  {
    var n := |s| - p;
    if n >= 4 then m.or(m.up(Read32(m, s, p + n - 4), n - 4), Read32(m, s, p))
    else if n >= 1 then ReadShort(m, s, p)
    else m.zero
  }

  lemma ReadTailReads<W(!new), H>(m: Ops<W, H>, s: seq<bv8>, p: nat)
    requires WordLaws(m) && 0 <= |s| - p < 8
    ensures ReadTail(m, s, p) == LittleEndian(m, s[p..])
  {
    var n := |s| - p;
    if n >= 4 {
      Read32Reads(m, s, p);
      Read32Reads(m, s, p + n - 4);
      var a, mid, c := s[p..p + n - 4], s[p + n - 4..p + 4], s[p + 4..];
      Overlapped(m, a, mid, c);
      assert mid + c == s[p + n - 4..p + n] && a + mid == s[p..p + 4] && a + mid + c == s[p..];
    } else if n >= 1 {
      ReadShortReads(m, s, p);
    }
  }

  // ------------------------------------------------------------------- the overloads

  lemma NextWord<W, H>(m: Ops<W, H>, width: nat, t: Sponge<W, H>, s: seq<bv8>, p: nat)
    requires width > 0 && p + width <= |s|
    ensures AbsorbAll(m, width, t, s[p..])
         == AbsorbAll(m, width, Absorb(m, t, LittleEndian(m, s[p..p + width])), s[p + width..])
  {
    assert s[p..][..width] == s[p..p + width] && s[p..][width..] == s[p + width..];
  }

  lemma LastWord<W, H>(m: Ops<W, H>, width: nat, t: Sponge<W, H>, s: seq<bv8>, p: nat)
    requires width > 0 && p <= |s| < p + width
    ensures AbsorbAll(m, width, t, s[p..]) == Absorb(m, t, LittleEndian(m, s[p..|s|]))
  {
    assert s[p..|s|] == s[p..];
  }

  /** Random access, 64 bits: the length goes in first, and the tail is read by overlapping words. */
  method RandomAccess64<W(!new), H(!new)>(m: Ops<W, H>, seed: W, s: seq<bv8>) returns (r: W)
    requires Lawful(m)
    ensures r == Hash(m, 8, seed, s)
  {
    var p, n := 0, |s|;
    var t := m.start(seed);
    LengthCommutes(m, 8, t, |s|, s);
    t := Sponge(m.addSize(t.h, n), t.w);
    ghost var first := t;
    assert s[0..] == s;
    while n >= 8
      invariant 0 <= p && 0 <= n && p + n == |s|
      invariant AbsorbAll(m, 8, t, s[p..]) == AbsorbAll(m, 8, first, s)
    {
      var v1 := Read64(m, s, p);
      Read64Reads(m, s, p);
      NextWord(m, 8, t, s, p);
      var w := m.next(t.w);
      t := Sponge(m.fold(t.h, v1, w), w);
      p := p + 8;
      n := n - 8;
    }
    var v1 := ReadTail(m, s, p);
    ReadTailReads(m, s, p);
    var w := m.next(t.w);
    t := Sponge(m.fold(t.h, v1, w), w);
    r := m.finish(t);
  }

  /** Random access, 32 bits. */
  method RandomAccess32<W(!new), H(!new)>(m: Ops<W, H>, seed: W, s: seq<bv8>) returns (r: W)
    requires Lawful(m)
    ensures r == Hash(m, 4, seed, s)
  {
    var p, n := 0, |s|;
    var t := m.start(seed);
    LengthCommutes(m, 4, t, |s|, s);
    t := Sponge(m.addSize(t.h, n), t.w);
    ghost var first := t;
    assert s[0..] == s;
    while n >= 4
      invariant 0 <= p && 0 <= n && p + n == |s|
      invariant AbsorbAll(m, 4, t, s[p..]) == AbsorbAll(m, 4, first, s)
    {
      var v1 := Read32(m, s, p);
      Read32Reads(m, s, p);
      NextWord(m, 4, t, s, p);
      var w := m.next(t.w);
      t := Sponge(m.fold(t.h, v1, w), w);
      p := p + 4;
      n := n - 4;
    }
    var v1 := m.zero;
    if n >= 1 {
      v1 := ReadShort(m, s, p);
      ReadShortReads(m, s, p);
    }
    var w := m.next(t.w);
    t := Sponge(m.fold(t.h, v1, w), w);
    r := m.finish(t);
  }

  /** Bytes or-ed in one at a time until the word is full or the range ends. */
  method GatherWord<W, H>(m: Ops<W, H>, width: nat, s: seq<bv8>, begin: nat) returns (v1: W, first: nat)
    requires begin <= |s|
    ensures begin <= first <= |s| && first <= begin + width
    ensures first < begin + width ==> first == |s|
    ensures v1 == LittleEndian(m, s[begin..first])
  {
    v1, first := m.zero, begin;
    var place := 0;
    while place < width && first != |s|
      invariant 0 <= place <= width && begin + place == first <= |s|
      invariant v1 == LittleEndian(m, s[begin..first])
    {
      OneMore(m, s, begin, place);
      v1 := m.or(v1, m.up(m.byte(s[first]), place));
      first := first + 1;
      place := place + 1;
    }
  }

  lemma GatheredWord<W, H>(m: Ops<W, H>, width: nat, t: Sponge<W, H>, s: seq<bv8>, begin: nat, first: nat)
    requires width > 0 && begin <= first <= |s| && (first == begin + width || (first < begin + width && first == |s|))
    ensures var u := Absorb(m, t, LittleEndian(m, s[begin..first]));
      AbsorbAll(m, width, t, s[begin..]) == if first == begin + width then AbsorbAll(m, width, u, s[first..]) else u
  {
    if first == begin + width {
      NextWord(m, width, t, s, begin);
    } else {
      LastWord(m, width, t, s, begin);
    }
  }

  /** Forward iteration: the bytes are counted on the way, and the length goes in before the last, partial word. */
  method Forward<W(!new), H(!new)>(m: Ops<W, H>, width: nat, seed: W, s: seq<bv8>) returns (r: W)
    requires width > 0 && SizeCommutes(m)
    ensures r == Hash(m, width, seed, s)
  {
    var n := 0;
    var t, v1 := m.start(seed), m.zero;
    ghost var all := AbsorbAll(m, width, t, s);
    assert s[0..] == s;
    var more := true;
    while more
      invariant 0 <= n <= |s|
      invariant if more then AbsorbAll(m, width, t, s[n..]) == all else n == |s| && Absorb(m, t, v1) == all
      decreases more, |s| - n
    {
      var first;
      v1, first := GatherWord(m, width, s, n);
      GatheredWord(m, width, t, s, n, first);
      more := first == n + width;
      n := first;
      if more {
        t := Absorb(m, t, v1);
      }
    }
    AbsorbCommutes(m, t, n, v1);
    t := Sponge(m.addSize(t.h, n), t.w);
    var w := m.next(t.w);
    t := Sponge(m.fold(t.h, v1, w), w);
    r := m.finish(t);
  }
}

/** The word operations of the two targets.  `mulx` and `mul32` are any functions of two words. */
module HashWords {
  import opened HashRange

  type Mix64 = (bv64, bv64) -> bv64
  type Mul32 = (bv32, bv32) -> bv64

  const Q64: bv64 := 0x9e3779b97f4a7c15
  const K64: bv64 := 0xdf442d22ce4859b9
  const Q32: bv32 := 0x9e3779b9
  const K32: bv32 := 0xe35e67b1

  /** The multipliers are the squares of the offset steps. */
  lemma MultipliersAreSquares()
    ensures K64 == Q64 * Q64 && K32 == Q32 * Q32
  {
  }

  function Word(n: nat): bv64
    requires n < 0x1_0000_0000_0000_0000
  {
    n as bv64
  }

  function Size(n: nat): bv64 { Word(n % 0x1_0000_0000_0000_0000) }

  // 64-bit words

  function Or64(a: bv64, b: bv64): bv64 { a | b }

  function Shift64(v: bv64): bv64 { v << 8 }

  function Up64(v: bv64, bytes: nat): bv64
    decreases bytes
  {
    if bytes == 0 then v else Up64(Shift64(v), bytes - 1)
  }

  function Byte64(b: bv8): bv64 { b as bv64 }

  function Plus64(a: bv64, b: bv64): bv64 { a + b }

  function Minus64(a: bv64, b: bv64): bv64 { a - b }

  function Next64(w: bv64): bv64 { Plus64(w, Q64) }

  function Xor64(a: bv64, b: bv64): bv64 { a ^ b }

  function Fold64(mulx: Mix64, h: bv64, v: bv64, w: bv64): bv64 { Xor64(h, mulx(Plus64(v, w), K64)) }

  function AddSize64(h: bv64, n: nat): bv64 { Xor64(h, Size(n)) }

  function Start64(mulx: Mix64, seed: bv64): Sponge<bv64, bv64> {
    var w := mulx(Plus64(seed, Q64), K64);
    Sponge(w, w)
  }

  function Finish64(mulx: Mix64, t: Sponge<bv64, bv64>): bv64 { mulx(Plus64(t.h, t.w), K64) }

  function Ops64(mulx: Mix64): Ops<bv64, bv64> {
    Ops(0, Or64, Up64, Byte64, Next64, (h: bv64, v: bv64, w: bv64) => Fold64(mulx, h, v, w), AddSize64,
        (seed: bv64) => Start64(mulx, seed), (t: Sponge<bv64, bv64>) => Finish64(mulx, t))
  }

  lemma ShiftLaws64(a: bv64, b: bv64)
    ensures Shift64(0) == 0
    ensures Shift64(Or64(a, b)) == Or64(Shift64(a), Shift64(b))
  {
  }

  lemma {:induction false} UpUp64(a: bv64, i: nat, j: nat)
    ensures Up64(Up64(a, i), j) == Up64(a, i + j)
    decreases i
  {
    if i > 0 {
      UpUp64(Shift64(a), i - 1, j);
    }
  }

  lemma {:induction false} UpOr64(a: bv64, b: bv64, i: nat)
    ensures Up64(0, i) == 0
    ensures Up64(Or64(a, b), i) == Or64(Up64(a, i), Up64(b, i))
    decreases i
  {
    if i > 0 {
      ShiftLaws64(a, b);
      UpOr64(Shift64(a), Shift64(b), i - 1);
    }
  }

  lemma OrLaws64(a: bv64, b: bv64, c: bv64)
    ensures Or64(0, a) == a && Or64(a, a) == a && Or64(a, b) == Or64(b, a)
    ensures Or64(Or64(a, b), c) == Or64(a, Or64(b, c))
  {
  }

  lemma WordLaws64(mulx: Mix64)
    ensures WordLaws(Ops64(mulx))
  {
    var m := Ops64(mulx);
    forall a ensures OrUnit(m, a) && OrSame(m, a) && UpNone(m, a) {
      OrLaws64(a, a, a);
    }
    forall a, b ensures OrSwap(m, a, b) {
      OrLaws64(a, b, b);
    }
    forall a, b, c ensures OrGroup(m, a, b, c) {
      OrLaws64(a, b, c);
    }
    forall n: nat ensures UpZero(m, n) {
      UpOr64(0, 0, n);
    }
    forall a, b, n: nat ensures UpOr(m, a, b, n) {
      UpOr64(a, b, n);
    }
    forall a, i: nat, j: nat ensures UpUp(m, a, i, j) {
      UpUp64(a, i, j);
    }
  }

  lemma ShiftOr64(w: bv64, b: bv8)
    requires w <= 0xFF_FFFF_FFFF_FFFF
    ensures ((w << 8) | (b as bv64)) as nat == 256 * (w as nat) + b as nat
  {
  }

  lemma OrShift64(w: bv64, b: bv8)
    ensures Or64(Byte64(b), Shift64(w)) == (w << 8) | (b as bv64)
  {
  }

  lemma SmallWord64(w: bv64)
    requires w as nat < 0x100_0000_0000_0000
    ensures w <= 0xFF_FFFF_FFFF_FFFF
  {
  }

  /** Or-ing a byte into the place a shift has cleared appends a digit. */
  lemma Digit64(w: bv64, b: bv8, x: bv64)
    requires w as nat < 0x100_0000_0000_0000 && x == Or64(Byte64(b), Shift64(w))
    ensures x as nat == b as nat + 256 * (w as nat)
  {
    SmallWord64(w);
    OrShift64(w, b);
    ShiftOr64(w, b);
  }

  lemma Pow256Of7()
    ensures Pow256(7) == 0x100_0000_0000_0000 && forall n: nat :: n <= 7 ==> Pow256(n) <= Pow256(7)
  {
    assert Pow256(2) == 0x1_0000 && Pow256(4) == 0x1_0000_0000;
    assert Pow256(3) == 0x100_0000 && Pow256(5) == 0x100_0000_0000 && Pow256(6) == 0x1_0000_0000_0000;
  }

  lemma HeadOfWord64(mulx: Mix64, s: seq<bv8>)
    requires s != []
    ensures LittleEndian(Ops64(mulx), s) == Or64(Byte64(s[0]), Shift64(LittleEndian(Ops64(mulx), s[1..])))
  {
    var m := Ops64(mulx);
    WordLaws64(mulx);
    HeadFirst(m, s);
    var w := LittleEndian(m, s[1..]);
    assert m.up(w, 1) == Up64(Shift64(w), 0);
  }

  /** A word of up to eight bytes is the number those bytes stand for. */
  lemma {:induction false} WordValue64(mulx: Mix64, s: seq<bv8>)
    requires |s| <= 8
    ensures LittleEndian(Ops64(mulx), s) as nat == Value(s)
  {
    if s != [] {
      HeadOfWord64(mulx, s);
      WordValue64(mulx, s[1..]);
      ValueBound(s[1..]);
      Pow256Of7();
      Digit64(LittleEndian(Ops64(mulx), s[1..]), s[0], LittleEndian(Ops64(mulx), s));
    }
  }

  /** Different runs of the same length, up to a word, make different words. */
  lemma WordsDiffer64(mulx: Mix64, s: seq<bv8>, t: seq<bv8>)
    requires |s| == |t| <= 8 && LittleEndian(Ops64(mulx), s) == LittleEndian(Ops64(mulx), t)
    ensures s == t
  {
    WordValue64(mulx, s);
    WordValue64(mulx, t);
    ValuesDiffer(s, t);
  }

  lemma ExclusiveOrsCommute(h: bv64, a: bv64, b: bv64)
    ensures Xor64(Xor64(h, a), b) == Xor64(Xor64(h, b), a)
  {
    calc {
      Xor64(Xor64(h, a), b);
      { assert Xor64(h, a) == h ^ a; }
      Xor64(h ^ a, b);
      (h ^ a) ^ b;
      (h ^ b) ^ a;
      Xor64(h ^ b, a);
      { assert Xor64(h, b) == h ^ b; }
      Xor64(Xor64(h, b), a);
    }
  }

  lemma SizeCommutes64(mulx: Mix64)
    ensures SizeCommutes(Ops64(mulx))
  {
    forall h, n, v, w ensures SizeCommutesAt(Ops64(mulx), h, n, v, w) {
      FoldAfterSize64(mulx, h, n, v, w);
    }
  }

  lemma FoldAfterSize64(mulx: Mix64, h: bv64, n: nat, v: bv64, w: bv64)
    ensures Fold64(mulx, AddSize64(h, n), v, w) == AddSize64(Fold64(mulx, h, v, w), n)
  {
    ExclusiveOrsCommute(h, Size(n), mulx(Plus64(v, w), K64));
  }

  /** Multiplying by the constant and folding the product sends no two words to one. */
  ghost predicate Mixes(mulx: Mix64) {
    forall a, b :: a != b ==> mulx(a, K64) != mulx(b, K64)
  }

  lemma XorApart(a: bv64, b: bv64, c: bv64)
    requires a != b
    ensures Xor64(a, c) != Xor64(b, c) && Xor64(c, a) != Xor64(c, b)
  {
  }

  lemma PlusIs(a: bv64, w: bv64)
    ensures Plus64(a, w) == a + w
  {
  }

  lemma SumBack(a: bv64, w: bv64)
    ensures Minus64(Plus64(a, w), w) == a
  {
    calc {
      Minus64(Plus64(a, w), w);
      { PlusIs(a, w); }
      Minus64(a + w, w);
      (a + w) - w;
      a;
    }
  }

  lemma SumApart(a: bv64, b: bv64, w: bv64)
    ensures a != b ==> Plus64(a, w) != Plus64(b, w)
  {
    SumBack(a, w);
    SumBack(b, w);
  }

  lemma FoldApart64(mulx: Mix64, g: bv64, h: bv64, a: bv64, b: bv64, w: bv64)
    requires Mixes(mulx)
    ensures FoldApart(Ops64(mulx), g, h, a, b, w)
  {
    if g != h {
      XorApart(g, h, mulx(Plus64(a, w), K64));
    }
    if a != b {
      SumApart(a, b, w);
      XorApart(mulx(Plus64(a, w), K64), mulx(Plus64(b, w), K64), g);
    }
  }

  lemma Lossless64(mulx: Mix64)
    requires Mixes(mulx)
    ensures Lossless(Ops64(mulx))
  {
    forall g, h, a, b, w ensures FoldApart(Ops64(mulx), g, h, a, b, w) {
      FoldApart64(mulx, g, h, a, b, w);
    }
  }

  lemma FinishApart(mulx: Mix64, n: nat, t: Sponge<bv64, bv64>, u: Sponge<bv64, bv64>)
    requires Mixes(mulx) && Apart(t, u)
    ensures Finish64(mulx, Sponge(AddSize64(t.h, n), t.w)) != Finish64(mulx, Sponge(AddSize64(u.h, n), u.w))
  {
    XorApart(t.h, u.h, Size(n));
    SumApart(AddSize64(t.h, n), AddSize64(u.h, n), t.w);
  }

  lemma StatesToHashes(mulx: Mix64, seed: bv64, a: seq<bv8>, b: seq<bv8>)
    requires Mixes(mulx) && |a| == |b|
    requires Apart(AbsorbAll(Ops64(mulx), 8, Start64(mulx, seed), a), AbsorbAll(Ops64(mulx), 8, Start64(mulx, seed), b))
    ensures Hash(Ops64(mulx), 8, seed, a) != Hash(Ops64(mulx), 8, seed, b)
  {
    FinishApart(mulx, |a|, AbsorbAll(Ops64(mulx), 8, Start64(mulx, seed), a), AbsorbAll(Ops64(mulx), 8, Start64(mulx, seed), b));
  }

  /** Different seeds lead to different first states. */
  lemma SeedShows64(mulx: Mix64, s: bv64, t: bv64)
    requires Mixes(mulx) && s != t
    ensures Start64(mulx, s).h != Start64(mulx, t).h
  {
    SumApart(s, t, Q64);
  }

  lemma OffsetMoves64(w: bv64)
    ensures Next64(w) != w
  {
    PlusIs(w, Q64);
  }

  lemma SumSwaps64(v: bv64, w: bv64)
    ensures Plus64(v, w) == Plus64(w, v)
  {
    calc {
      Plus64(v, w);
      { PlusIs(v, w); }
      v + w;
      w + v;
      { PlusIs(w, v); }
      Plus64(w, v);
    }
  }

  lemma XorTwice(h: bv64, a: bv64, b: bv64)
    ensures a != b ==> Xor64(Xor64(h, a), b) != h
  {
  }

  /** Two equal words in a row do not cancel out: the offset has moved between them. */
  lemma EqualWordsStay64(mulx: Mix64, t: Sponge<bv64, bv64>, v: bv64)
    requires Mixes(mulx)
    ensures Absorb(Ops64(mulx), Absorb(Ops64(mulx), t, v), v).h != t.h
  {
    var w := Next64(t.w);
    OffsetMoves64(w);
    SumSwaps64(v, w);
    SumSwaps64(v, Next64(w));
    SumApart(w, Next64(w), v);
    XorTwice(t.h, mulx(Plus64(v, w), K64), mulx(Plus64(v, Next64(w)), K64));
  }

  /** With a multiplication that mixes, ranges of one length that differ in one word only hash differently. */
  lemma ChangedWordShows64(mulx: Mix64, seed: bv64, k: nat, pre: seq<bv8>, x: seq<bv8>, y: seq<bv8>, rest: seq<bv8>)
    requires Mixes(mulx) && |pre| == k * 8 && |x| == |y| <= 8 && (|x| < 8 ==> rest == []) && x != y
    ensures Hash(Ops64(mulx), 8, seed, pre + (x + rest)) != Hash(Ops64(mulx), 8, seed, pre + (y + rest))
  {
    Lossless64(mulx);
    if LittleEndian(Ops64(mulx), x) == LittleEndian(Ops64(mulx), y) {
      WordsDiffer64(mulx, x, y);
    }
    ChangedWordShows(Ops64(mulx), 8, Start64(mulx, seed), k, pre, x, y, rest);
    StatesToHashes(mulx, seed, pre + (x + rest), pre + (y + rest));
  }

  lemma ZeroAdds64(w: bv64)
    ensures Or64(w, 0) == w && Byte64(0) == 0
  {
  }

  lemma ZeroIsSilent(mulx: Mix64, s: seq<bv8>)
    ensures LittleEndian(Ops64(mulx), s + [0]) == LittleEndian(Ops64(mulx), s)
  {
    assert (s + [0])[..|s|] == s;
    ZeroAdds64(LittleEndian(Ops64(mulx), s));
    UpOr64(0, 0, |s|);
  }

  lemma WordsToSeven()
    ensures Word(0) == 0 && Word(1) == 1 && Word(2) == 2 && Word(3) == 3
    ensures Word(4) == 4 && Word(5) == 5 && Word(6) == 6 && Word(7) == 7
  {
  }

  lemma SmallSize(n: nat)
    requires n < 8
    ensures Size(n) == Word(n)
  {
  }

  lemma SmallWordsDiffer(n: nat)
    requires n < 7
    ensures Word(n) != Word(n + 1)
  {
    WordsToSeven();
    if n == 0 {
    } else if n == 1 {
    } else if n == 2 {
    } else if n == 3 {
    } else if n == 4 {
    } else if n == 5 {
    } else {
    }
  }

  lemma SizesDiffer(n: nat)
    requires n < 7
    ensures Size(n) != Size(n + 1)
  {
    SmallSize(n);
    SmallSize(n + 1);
    SmallWordsDiffer(n);
  }

  lemma SizeApart(mulx: Mix64, a: nat, b: nat, t: Sponge<bv64, bv64>)
    requires Mixes(mulx) && Size(a) != Size(b)
    ensures Finish64(mulx, Sponge(AddSize64(t.h, a), t.w)) != Finish64(mulx, Sponge(AddSize64(t.h, b), t.w))
  {
    XorApart(Size(a), Size(b), t.h);
    SumApart(AddSize64(t.h, a), AddSize64(t.h, b), t.w);
  }

  /** The hash of a run of n bytes shorter than a word that make the word v. */
  function ShortHash64(mulx: Mix64, seed: bv64, v: bv64, n: nat): bv64 {
    var t := Absorb(Ops64(mulx), Start64(mulx, seed), v);
    Finish64(mulx, Sponge(AddSize64(t.h, n), t.w))
  }

  lemma ShortHash64Is(mulx: Mix64, seed: bv64, s: seq<bv8>, v: bv64)
    requires |s| < 8 && v == LittleEndian(Ops64(mulx), s)
    ensures Hash(Ops64(mulx), 8, seed, s) == ShortHash64(mulx, seed, v, |s|)
  {
  }

  lemma ShortHashesDiffer(mulx: Mix64, seed: bv64, v: bv64, n: nat)
    requires Mixes(mulx) && n < 7
    ensures ShortHash64(mulx, seed, v, n) != ShortHash64(mulx, seed, v, n + 1)
  {
    SizesDiffer(n);
    SizeApart(mulx, n, n + 1, Absorb(Ops64(mulx), Start64(mulx, seed), v));
  }

  lemma LongerShows64(mulx: Mix64, seed: bv64, s: seq<bv8>, t: seq<bv8>)
    requires Mixes(mulx) && |s| + 1 == |t| < 8 && LittleEndian(Ops64(mulx), s) == LittleEndian(Ops64(mulx), t)
    ensures Hash(Ops64(mulx), 8, seed, s) != Hash(Ops64(mulx), 8, seed, t)
  {
    var v := LittleEndian(Ops64(mulx), s);
    ShortHash64Is(mulx, seed, s, v);
    ShortHash64Is(mulx, seed, t, v);
    ShortHashesDiffer(mulx, seed, v, |s|);
  }

  /** A zero byte at the end changes no word, but it shows: the length is part of the hash. */
  lemma LengthShows64(mulx: Mix64, seed: bv64, s: seq<bv8>)
    requires Mixes(mulx) && |s| < 7
    ensures Hash(Ops64(mulx), 8, seed, s) != Hash(Ops64(mulx), 8, seed, s + [0])
  {
    ZeroIsSilent(mulx, s);
    LongerShows64(mulx, seed, s, s + [0]);
  }

  // 32-bit words, with 64-bit products

  function Or32(a: bv32, b: bv32): bv32 { a | b }

  function Shift32(v: bv32): bv32 { v << 8 }

  function Up32(v: bv32, bytes: nat): bv32
    decreases bytes
  {
    if bytes == 0 then v else Up32(Shift32(v), bytes - 1)
  }

  function Byte32(b: bv8): bv32 { b as bv32 }

  function Plus32(a: bv32, b: bv32): bv32 { a + b }

  function Minus32(a: bv32, b: bv32): bv32 { a - b }

  function Next32(w: bv32): bv32 { Plus32(w, Q32) }

  function Fold32(mul32: Mul32, h: bv64, v: bv32, w: bv32): bv64 { Xor64(h, mul32(Plus32(v, w), K32)) }

  function Size32(n: nat): bv64 { Word(n % 0x1_0000_0000) }

  function AddSize32(h: bv64, n: nat): bv64 { Xor64(h, Size32(n)) }

  function Low(h: bv64): bv32 { (h & 0xFFFF_FFFF) as bv32 }

  function High(h: bv64): bv32 { (h >> 32) as bv32 }

  function Start32(mul32: Mul32, seed: bv32): Sponge<bv32, bv64> {
    var h := mul32(Plus32(seed, Q32), K32);
    Sponge(h, Low(h))
  }

  function Finish32(mul32: Mul32, t: Sponge<bv32, bv64>): bv32 {
    var w := t.w + Q32;
    var h := Xor64(t.h, mul32(Low(t.h) + w, High(t.h) + w + K32));
    Low(h) ^ High(h)
  }

  function Ops32(mul32: Mul32): Ops<bv32, bv64> {
    Ops(0, Or32, Up32, Byte32, Next32, (h: bv64, v: bv32, w: bv32) => Fold32(mul32, h, v, w), AddSize32,
        (seed: bv32) => Start32(mul32, seed), (t: Sponge<bv32, bv64>) => Finish32(mul32, t))
  }

  lemma ShiftLaws32(a: bv32, b: bv32)
    ensures Shift32(0) == 0
    ensures Shift32(Or32(a, b)) == Or32(Shift32(a), Shift32(b))
  {
  }

  lemma {:induction false} UpUp32(a: bv32, i: nat, j: nat)
    ensures Up32(Up32(a, i), j) == Up32(a, i + j)
    decreases i
  {
    if i > 0 {
      UpUp32(Shift32(a), i - 1, j);
    }
  }

  lemma {:induction false} UpOr32(a: bv32, b: bv32, i: nat)
    ensures Up32(0, i) == 0
    ensures Up32(Or32(a, b), i) == Or32(Up32(a, i), Up32(b, i))
    decreases i
  {
    if i > 0 {
      ShiftLaws32(a, b);
      UpOr32(Shift32(a), Shift32(b), i - 1);
    }
  }

  lemma OrLaws32(a: bv32, b: bv32, c: bv32)
    ensures Or32(0, a) == a && Or32(a, a) == a && Or32(a, b) == Or32(b, a)
    ensures Or32(Or32(a, b), c) == Or32(a, Or32(b, c))
  {
  }

  lemma WordLaws32(mul32: Mul32)
    ensures WordLaws(Ops32(mul32))
  {
    var m := Ops32(mul32);
    forall a ensures OrUnit(m, a) && OrSame(m, a) && UpNone(m, a) {
      OrLaws32(a, a, a);
    }
    forall a, b ensures OrSwap(m, a, b) {
      OrLaws32(a, b, b);
    }
    forall a, b, c ensures OrGroup(m, a, b, c) {
      OrLaws32(a, b, c);
    }
    forall n: nat ensures UpZero(m, n) {
      UpOr32(0, 0, n);
    }
    forall a, b, n: nat ensures UpOr(m, a, b, n) {
      UpOr32(a, b, n);
    }
    forall a, i: nat, j: nat ensures UpUp(m, a, i, j) {
      UpUp32(a, i, j);
    }
  }

  lemma ShiftOr32(w: bv32, b: bv8)
    requires w <= 0xFF_FFFF
    ensures ((w << 8) | (b as bv32)) as nat == 256 * (w as nat) + b as nat
  {
  }

  lemma OrShift32(w: bv32, b: bv8)
    ensures Or32(Byte32(b), Shift32(w)) == (w << 8) | (b as bv32)
  {
  }

  lemma SmallWord32(w: bv32)
    requires w as nat < 0x100_0000
    ensures w <= 0xFF_FFFF
  {
  }

  /** Or-ing a byte into the place a shift has cleared appends a digit. */
  lemma Digit32(w: bv32, b: bv8, x: bv32)
    requires w as nat < 0x100_0000 && x == Or32(Byte32(b), Shift32(w))
    ensures x as nat == b as nat + 256 * (w as nat)
  {
    SmallWord32(w);
    OrShift32(w, b);
    ShiftOr32(w, b);
  }

  lemma HeadOfWord32(mul32: Mul32, s: seq<bv8>)
    requires s != []
    ensures LittleEndian(Ops32(mul32), s) == Or32(Byte32(s[0]), Shift32(LittleEndian(Ops32(mul32), s[1..])))
  {
    var m := Ops32(mul32);
    WordLaws32(mul32);
    HeadFirst(m, s);
    var w := LittleEndian(m, s[1..]);
    assert m.up(w, 1) == Up32(Shift32(w), 0);
  }

  /** A word of up to four bytes is the number those bytes stand for. */
  lemma {:induction false} WordValue32(mul32: Mul32, s: seq<bv8>)
    requires |s| <= 4
    ensures LittleEndian(Ops32(mul32), s) as nat == Value(s)
  {
    if s != [] {
      HeadOfWord32(mul32, s);
      WordValue32(mul32, s[1..]);
      ValueBound(s[1..]);
      Pow256Of3();
      Digit32(LittleEndian(Ops32(mul32), s[1..]), s[0], LittleEndian(Ops32(mul32), s));
    }
  }

  lemma Pow256Of3()
    ensures Pow256(3) == 0x100_0000 && forall n: nat :: n <= 3 ==> Pow256(n) <= Pow256(3)
  {
    assert Pow256(2) == 0x1_0000;
  }

  /** Different runs of the same length, up to a word, make different words. */
  lemma WordsDiffer32(mul32: Mul32, s: seq<bv8>, t: seq<bv8>)
    requires |s| == |t| <= 4 && LittleEndian(Ops32(mul32), s) == LittleEndian(Ops32(mul32), t)
    ensures s == t
  {
    WordValue32(mul32, s);
    WordValue32(mul32, t);
    ValuesDiffer(s, t);
  }

  lemma SizeCommutes32(mul32: Mul32)
    ensures SizeCommutes(Ops32(mul32))
  {
    forall h, n, v, w ensures SizeCommutesAt(Ops32(mul32), h, n, v, w) {
      FoldAfterSize32(mul32, h, n, v, w);
    }
  }

  lemma FoldAfterSize32(mul32: Mul32, h: bv64, n: nat, v: bv32, w: bv32)
    ensures Fold32(mul32, AddSize32(h, n), v, w) == AddSize32(Fold32(mul32, h, v, w), n)
  {
    ExclusiveOrsCommute(h, Size32(n), mul32(Plus32(v, w), K32));
  }

  /** Multiplying by the constant sends no two words to one product. */
  ghost predicate Mixes32(mul32: Mul32) {
    forall a, b :: a != b ==> mul32(a, K32) != mul32(b, K32)
  }

  lemma PlusIs32(a: bv32, w: bv32)
    ensures Plus32(a, w) == a + w
  {
  }

  lemma SumBack32(a: bv32, w: bv32)
    ensures Minus32(Plus32(a, w), w) == a
  {
    calc {
      Minus32(Plus32(a, w), w);
      { PlusIs32(a, w); }
      Minus32(a + w, w);
      (a + w) - w;
      a;
    }
  }

  lemma SumApart32(a: bv32, b: bv32, w: bv32)
    ensures a != b ==> Plus32(a, w) != Plus32(b, w)
  {
    SumBack32(a, w);
    SumBack32(b, w);
  }

  lemma FoldApart32(mul32: Mul32, g: bv64, h: bv64, a: bv32, b: bv32, w: bv32)
    requires Mixes32(mul32)
    ensures FoldApart(Ops32(mul32), g, h, a, b, w)
  {
    if g != h {
      XorApart(g, h, mul32(Plus32(a, w), K32));
    }
    if a != b {
      SumApart32(a, b, w);
      XorApart(mul32(Plus32(a, w), K32), mul32(Plus32(b, w), K32), g);
    }
  }

  /** Different seeds lead to different first states. */
  lemma SeedShows32(mul32: Mul32, s: bv32, t: bv32)
    requires Mixes32(mul32) && s != t
    ensures Start32(mul32, s).h != Start32(mul32, t).h
  {
    SumApart32(s, t, Q32);
  }

  lemma OffsetMoves32(w: bv32)
    ensures Next32(w) != w
  {
    PlusIs32(w, Q32);
  }

  lemma SumSwaps32(v: bv32, w: bv32)
    ensures Plus32(v, w) == Plus32(w, v)
  {
    calc {
      Plus32(v, w);
      { PlusIs32(v, w); }
      v + w;
      w + v;
      { PlusIs32(w, v); }
      Plus32(w, v);
    }
  }

  /** Two equal words in a row do not cancel out: the offset has moved between them. */
  lemma EqualWordsStay32(mul32: Mul32, t: Sponge<bv32, bv64>, v: bv32)
    requires Mixes32(mul32)
    ensures Absorb(Ops32(mul32), Absorb(Ops32(mul32), t, v), v).h != t.h
  {
    var w := Next32(t.w);
    OffsetMoves32(w);
    SumSwaps32(v, w);
    SumSwaps32(v, Next32(w));
    SumApart32(w, Next32(w), v);
    XorTwice(t.h, mul32(Plus32(v, w), K32), mul32(Plus32(v, Next32(w)), K32));
  }

  /** Lengths below a word are told apart by what they add to the state. */
  lemma LengthShows32(h: bv64, n: nat)
    requires n < 4
    ensures AddSize32(h, n) != AddSize32(h, n + 1)
  {
    SmallSize32(n);
    SmallSize32(n + 1);
    SmallWordsDiffer(n);
    XorApart(Size32(n), Size32(n + 1), h);
  }

  lemma SmallSize32(n: nat)
    requires n < 8
    ensures Size32(n) == Word(n)
  {
  }

  /** The same for 32-bit words, up to the state that the last mix, which halves it, is made from. */
  lemma ChangedWordShows32(mul32: Mul32, seed: bv32, k: nat, pre: seq<bv8>, x: seq<bv8>, y: seq<bv8>, rest: seq<bv8>)
    requires Mixes32(mul32) && |pre| == k * 4 && |x| == |y| <= 4 && (|x| < 4 ==> rest == []) && x != y
    ensures Apart(AbsorbAll(Ops32(mul32), 4, Start32(mul32, seed), pre + (x + rest)),
                  AbsorbAll(Ops32(mul32), 4, Start32(mul32, seed), pre + (y + rest)))
  {
    forall g, h, a, b, w ensures FoldApart(Ops32(mul32), g, h, a, b, w) {
      FoldApart32(mul32, g, h, a, b, w);
    }
    if LittleEndian(Ops32(mul32), x) == LittleEndian(Ops32(mul32), y) {
      WordsDiffer32(mul32, x, y);
    }
    ChangedWordShows(Ops32(mul32), 4, Start32(mul32, seed), k, pre, x, y, rest);
  }

  // --------------------------------------------------------------- the two overloads

  /** Both overloads for a 64-bit target give the same hash, for every seed and range. */
  method BothOverloads64(mulx: Mix64, seed: bv64, s: seq<bv8>) returns (random: bv64, forward: bv64)
    ensures random == forward == Hash(Ops64(mulx), 8, seed, s)
  {
    WordLaws64(mulx);
    SizeCommutes64(mulx);
    random := RandomAccess64(Ops64(mulx), seed, s);
    forward := Forward(Ops64(mulx), 8, seed, s);
  }

  /** Both overloads for a 32-bit target give the same hash, for every seed and range. */
  method BothOverloads32(mul32: Mul32, seed: bv32, s: seq<bv8>) returns (random: bv32, forward: bv32)
    ensures random == forward == Hash(Ops32(mul32), 4, seed, s)
  {
    WordLaws32(mul32);
    SizeCommutes32(mul32);
    random := RandomAccess32(Ops32(mul32), seed, s);
    forward := Forward(Ops32(mul32), 4, seed, s);
  }
}
