/** The metadata word of a group of 15 slots, in its two physical layouts.
 *
 *  The plain layout keeps 16 bytes: one reduced hash per slot and an overflow
 *  byte.  The portable layout interleaves the bits of those bytes into two
 *  64-bit words so that matching needs no SIMD.  The module proves that the
 *  interleaved layout refines the plain one along every history of updates.
 */
module Group15 {
  import Hashing

  const LAST: bv4 := 14
  const OVERFLOW: bv4 := 15
  const AVAILABLE: bv8 := 0
  const SENTINEL: bv8 := 1

  /** Reduction of a hash to a tag: the low byte, moved out of the two reserved values. */
  function ReducedHash(hash: bv64): (r: bv8)
    ensures r >= 2
    ensures r & 7 == Bucket(hash)
  {
    ReducedByte((hash & 0xFF) as bv8)
  }

  function ReducedByte(low: bv8): bv8 { if low < 2 then low + 8 else low }

  /** The tag of the tables, on machine bytes. */
  lemma TagOnBytes(low: bv8)
    ensures ReducedByte(low) as nat == Hashing.TagOfByte(low as nat)
  {
  }

  /** hash % 8: which overflow bit a hash uses. */
  function Bucket(hash: bv64): (b: bv8)
    ensures b < 8
  {
    (hash & 7) as bv8
  }

  predicate BitSet(x: bv8, b: bv8)
    requires b < 8
  {
    (x >> b) & 1 == 1
  }

  function WithBit(x: bv8, b: bv8): bv8
    requires b < 8
  {
    x | (1 << b)
  }

  function WithBit4(x: bv4, b: bv8): bv4
    requires b < 4
  {
    x | (1 << b)
  }

  function Low(v: bv8): bv4 { (v & 0xF) as bv4 }

  function High(v: bv8): bv4 { (v >> 4) as bv4 }

  // ------------------------------------------------------------- plain layout

  /** Sixteen bytes: slots 0..14 and the overflow byte at 15. */
  datatype Bytes = Bytes(at: bv4 -> bv8) {

    function Store(pos: bv4, v: bv8): Bytes {
      Bytes((p: bv4) => if p == pos then v else at(p))
    }

    function MarkOverflow(hash: bv64): Bytes {
      Store(OVERFLOW, WithBit(at(OVERFLOW), Bucket(hash)))
    }

    predicate IsSentinel(pos: bv4) { at(pos) == SENTINEL }

    predicate IsOccupied(pos: bv4) { at(pos) != AVAILABLE }

    predicate IsNotOverflowed(hash: bv64) { !BitSet(at(OVERFLOW), Bucket(hash)) }

    predicate MaybeCausedOverflow(pos: bv4) { BitSet(at(OVERFLOW), at(pos) & 7) }

    function MatchTag(n: bv8): bv32 {
      MoveMask((p: bv4) => at(p) == n) & 0x7FFF
    }

    function Match(hash: bv64): bv32 { MatchTag(ReducedHash(hash)) }

    function MatchAvailable(): bv32 { MatchTag(AVAILABLE) }

    function MatchOccupied(): bv32 { !MatchAvailable() & 0x7FFF }
  }

  function Flag(b: bool, weight: bv32): bv32 { if b then weight else 0 }

  /** One result bit per byte, as the SIMD movemask instruction yields. */
  function MoveMask(f: bv4 -> bool): bv32 {
    Flag(f(0), 0x1) | Flag(f(1), 0x2) | Flag(f(2), 0x4) | Flag(f(3), 0x8) |
    Flag(f(4), 0x10) | Flag(f(5), 0x20) | Flag(f(6), 0x40) | Flag(f(7), 0x80) |
    Flag(f(8), 0x100) | Flag(f(9), 0x200) | Flag(f(10), 0x400) | Flag(f(11), 0x800) |
    Flag(f(12), 0x1000) | Flag(f(13), 0x2000) | Flag(f(14), 0x4000) | Flag(f(15), 0x8000)
  }

  // ------------------------------------------------------- interleaved layout

  /** The table of set masks: bit c of the index moves to bit 16 * c. */
  function Spread(n: bv4): bv64 {
    var m := n as bv64;
    (m & 1) | ((m & 2) << 15) | ((m & 4) << 30) | ((m & 8) << 45)
  }

  /** The table of match masks: bit c of the index fills the 16-bit lane c. */
  function Smear(n: bv4): bv64 {
    (if n & 1 == 0 then 0 else 0xFFFF) |
    (if n & 2 == 0 then 0 else 0xFFFF_0000) |
    (if n & 4 == 0 then 0 else 0xFFFF_0000_0000) |
    (if n & 8 == 0 then 0 else 0xFFFF_0000_0000_0000)
  }

  function SetNibble(x: bv64, pos: bv4, n: bv4): bv64 {
    (x | (Spread(n) << pos)) & !(Spread(!n) << pos)
  }

  /** The four bits interleaved at `pos` of one word. */
  function NibbleAt(x: bv64, pos: bv4): bv4 {
    var y := x >> pos;
    ((y & 1) | ((y >> 15) & 2) | ((y >> 30) & 4) | ((y >> 45) & 8)) as bv4
  }

  /** The four 16-bit lanes of x folded together by AND, as the matchers do. */
  function FoldLanes(x: bv64): bv32 {
    var y := ((x & (x >> 32)) & 0xFFFF_FFFF) as bv32;
    (y & (y >> 16)) & 0x7FFF
  }

  /** Top bit of the 16-bit lane c set. */
  function MarkLane(x: bv64, c: bv8): bv64
    requires c < 4
  {
    x | (0x8000 << (16 * c))
  }

  /** Two 64-bit words holding the low and the high nibbles of the sixteen bytes. */
  datatype Words = Words(m0: bv64, m1: bv64) {

    function Store(pos: bv4, v: bv8): Words {
      Words(SetNibble(m0, pos, Low(v)), SetNibble(m1, pos, High(v)))
    }

    /** Lane hash % 8 of the eight 16-bit lanes, top bit set. */
    function MarkOverflow(hash: bv64): Words {
      var b := Bucket(hash);
      if b < 4 then Words(MarkLane(m0, b), m1) else Words(m0, MarkLane(m1, b - 4))
    }

    predicate IsSentinel(pos: bv4) {
      && pos == LAST
      && m0 & 0x4000_4000_4000_4000 == 0x4000
      && m1 & 0x4000_4000_4000_4000 == 0
    }

    predicate IsOccupied(pos: bv4) {
      (m0 | m1) & (0x0001_0001_0001_0001 << pos) != 0
    }

    predicate IsNotOverflowed(hash: bv64) {
      var b := Bucket(hash);
      if b < 4 then (m0 >> (16 * b)) & 0x8000 == 0
      else (m1 >> (16 * (b - 4))) & 0x8000 == 0
    }

    predicate MaybeCausedOverflow(pos: bv4) {
      var x := (m0 >> pos) & 0x0001_0001_0001;
      var y := (x | (x >> 15) | (x >> 30)) & 0xFFFF_FFFF;
      !IsNotOverflowed(y)
    }

    function MatchTag(n: bv8): bv32 { FoldLanes(TagDifference(m0, m1, Low(n), High(n))) }

    function Match(hash: bv64): bv32 { MatchTag(ReducedHash(hash)) }

    function MatchAvailable(): bv32 { FoldLanes(!(m0 | m1)) }

    function MatchOccupied(): bv32 {
      var x := m0 | m1;
      var y := ((x | (x >> 32)) & 0xFFFF_FFFF) as bv32;
      (y | (y >> 16)) & 0x7FFF
    }
  }

  /** Four ones at each position where the nibbles of x and y are a and b. */
  function TagDifference(x: bv64, y: bv64, a: bv4, b: bv4): bv64 {
    !((y ^ Smear(b)) | (x ^ Smear(a)))
  }

  predicate SameAt(b: Bytes, w: Words, p: bv4) {
    Low(b.at(p)) == NibbleAt(w.m0, p) && High(b.at(p)) == NibbleAt(w.m1, p)
  }

  /** The two layouts describe the same logical 128-bit word. */
  ghost predicate Same(b: Bytes, w: Words) {
    forall p: bv4 :: SameAt(b, w, p)
  }

  // --------------------------------------------------- nibble-wise bit algebra

  lemma NibbleNot(x: bv64, p: bv4)
    ensures NibbleAt(!x, p) == !NibbleAt(x, p)
  {
  }

  lemma NibbleOr(x: bv64, y: bv64, p: bv4)
    ensures NibbleAt(x | y, p) == NibbleAt(x, p) | NibbleAt(y, p)
  {
  }

  lemma NibbleXor(x: bv64, a: bv4, p: bv4)
    ensures NibbleAt(x ^ Smear(a), p) == NibbleAt(x, p) ^ a
  {
  }

  lemma NibbleStored(x: bv64, pos: bv4, n: bv4)
    ensures NibbleAt(SetNibble(x, pos, n), pos) == n
  {
  }

  lemma NibbleKept(x: bv64, pos: bv4, n: bv4, p: bv4)
    requires p != pos
    ensures NibbleAt(SetNibble(x, pos, n), p) == NibbleAt(x, p)
  {
  }

  lemma EqualHalves(v: bv8, n: bv8)
    ensures v == n <==> Low(v) == Low(n) && High(v) == High(n)
  {
  }

  predicate MaskBit(x: bv32, p: bv4) { (x >> p) & 1 == 1 }

  lemma FoldLanesBit(x: bv64, p: bv4)
    ensures MaskBit(FoldLanes(x), p) == (NibbleAt(x, p) == 15 && p != OVERFLOW)
  {
  }

  lemma MoveMaskBit(f: bv4 -> bool, p: bv4)
    ensures MaskBit(MoveMask(f) & 0x7FFF, p) == (f(p) && p != OVERFLOW)
  {
    if p < 4 {
      assert p == 0 || p == 1 || p == 2 || p == 3;
    } else if p < 8 {
      assert p == 4 || p == 5 || p == 6 || p == 7;
    } else if p < 12 {
      assert p == 8 || p == 9 || p == 10 || p == 11;
    } else {
      assert p == 12 || p == 13 || p == 14 || p == 15;
    }
  }

  lemma MaskEqualBits(a: bv32, b: bv32)
    requires a <= 0x7FFF && b <= 0x7FFF
    requires MaskBit(a, 0) == MaskBit(b, 0) && MaskBit(a, 1) == MaskBit(b, 1) && MaskBit(a, 2) == MaskBit(b, 2)
    requires MaskBit(a, 3) == MaskBit(b, 3) && MaskBit(a, 4) == MaskBit(b, 4) && MaskBit(a, 5) == MaskBit(b, 5)
    requires MaskBit(a, 6) == MaskBit(b, 6) && MaskBit(a, 7) == MaskBit(b, 7) && MaskBit(a, 8) == MaskBit(b, 8)
    requires MaskBit(a, 9) == MaskBit(b, 9) && MaskBit(a, 10) == MaskBit(b, 10) && MaskBit(a, 11) == MaskBit(b, 11)
    requires MaskBit(a, 12) == MaskBit(b, 12) && MaskBit(a, 13) == MaskBit(b, 13) && MaskBit(a, 14) == MaskBit(b, 14)
    ensures a == b
  {
  }

  /** Two 15-bit masks with the same bits are the same mask. */
  lemma MaskEqual(a: bv32, b: bv32)
    requires a <= 0x7FFF && b <= 0x7FFF
    requires forall p: bv4 :: MaskBit(a, p) == MaskBit(b, p)
    ensures a == b
  {
    MaskEqualBits(a, b);
  }

  // ------------------------------------------------------------------ updates

  lemma StoreRefines(b: Bytes, w: Words, pos: bv4, v: bv8)
    requires Same(b, w)
    ensures Same(b.Store(pos, v), w.Store(pos, v))
  {
    forall p: bv4 ensures SameAt(b.Store(pos, v), w.Store(pos, v), p) {
      assert SameAt(b, w, p);
      if p == pos {
        NibbleStored(w.m0, pos, Low(v));
        NibbleStored(w.m1, pos, High(v));
      } else {
        NibbleKept(w.m0, pos, Low(v), p);
        NibbleKept(w.m1, pos, High(v), p);
      }
    }
  }

  lemma LaneMarked(x: bv64, c: bv8, p: bv4)
    requires c < 4
    ensures NibbleAt(MarkLane(x, c), p) == if p == OVERFLOW then WithBit4(NibbleAt(x, p), c) else NibbleAt(x, p)
  {
  }

  lemma MarkedLow(v: bv8, c: bv8)
    requires c < 4
    ensures Low(WithBit(v, c)) == WithBit4(Low(v), c) && High(WithBit(v, c)) == High(v)
  {
  }

  lemma MarkedHigh(v: bv8, c: bv8)
    requires 4 <= c < 8
    ensures Low(WithBit(v, c)) == Low(v) && High(WithBit(v, c)) == WithBit4(High(v), c - 4)
  {
  }

  lemma MarkAt(b: Bytes, w: Words, hash: bv64, p: bv4)
    requires SameAt(b, w, p)
    ensures SameAt(b.MarkOverflow(hash), w.MarkOverflow(hash), p)
  {
    var c := Bucket(hash);
    if c < 4 {
      LaneMarked(w.m0, c, p);
      MarkedLow(b.at(p), c);
    } else {
      LaneMarked(w.m1, c - 4, p);
      MarkedHigh(b.at(p), c);
    }
  }

  lemma MarkRefines(b: Bytes, w: Words, hash: bv64)
    requires Same(b, w)
    ensures Same(b.MarkOverflow(hash), w.MarkOverflow(hash))
  {
    forall p: bv4 ensures SameAt(b.MarkOverflow(hash), w.MarkOverflow(hash), p) {
      assert SameAt(b, w, p);
      MarkAt(b, w, hash, p);
    }
  }

  // ------------------------------------------------------------------ queries

  lemma FoldLanesBound(x: bv64)
    ensures FoldLanes(x) <= 0x7FFF
  {
  }

  lemma MoveMaskBound(f: bv4 -> bool)
    ensures MoveMask(f) & 0x7FFF <= 0x7FFF
  {
  }

  lemma TagMatchRefines(b: Bytes, w: Words, n: bv8)
    requires Same(b, w)
    ensures b.MatchTag(n) == w.MatchTag(n)
  {
    forall p: bv4 ensures MaskBit(b.MatchTag(n), p) == MaskBit(w.MatchTag(n), p) {
      assert SameAt(b, w, p);
      calc {
        MaskBit(b.MatchTag(n), p);
        { BytesTagBit(b, n, p); }
        b.at(p) == n && p != OVERFLOW;
        { WordsTagBit(w, n, p, b.at(p)); }
        MaskBit(w.MatchTag(n), p);
      }
    }
    FoldLanesBound(TagDifference(w.m0, w.m1, Low(n), High(n)));
    MoveMaskBound((p: bv4) => b.at(p) == n);
    MaskEqual(b.MatchTag(n), w.MatchTag(n));
  }

  lemma OccupiedIsComplement(x: bv64)
    ensures !FoldLanes(!x) & 0x7FFF
         == (var y := ((x | (x >> 32)) & 0xFFFF_FFFF) as bv32; (y | (y >> 16)) & 0x7FFF)
  {
  }

  lemma AvailableDifference(w: Words)
    ensures TagDifference(w.m0, w.m1, Low(AVAILABLE), High(AVAILABLE)) == !(w.m0 | w.m1)
  {
  }

  lemma AvailableRefines(b: Bytes, w: Words)
    requires Same(b, w)
    ensures b.MatchAvailable() == w.MatchAvailable()
  {
    TagMatchRefines(b, w, AVAILABLE);
    AvailableDifference(w);
  }

  lemma OccupiedRefines(b: Bytes, w: Words)
    requires b.MatchAvailable() == w.MatchAvailable()
    ensures b.MatchOccupied() == w.MatchOccupied()
  {
    OccupiedIsComplement(w.m0 | w.m1);
  }

  lemma LaneTop(x: bv64, c: bv8)
    requires c < 4
    ensures ((x >> (16 * c)) & 0x8000 != 0) == ((NibbleAt(x, OVERFLOW) >> c) & 1 == 1)
  {
  }

  lemma BitHalves(v: bv8, b: bv8)
    requires b < 8
    ensures BitSet(v, b) == if b < 4 then (Low(v) >> b) & 1 == 1 else (High(v) >> (b - 4)) & 1 == 1
  {
  }

  lemma OverflowRefines(b: Bytes, w: Words, hash: bv64)
    requires Same(b, w)
    ensures b.IsNotOverflowed(hash) == w.IsNotOverflowed(hash)
  {
    assert SameAt(b, w, OVERFLOW);
    var c := Bucket(hash);
    BitHalves(b.at(OVERFLOW), c);
    if c < 4 {
      LaneTop(w.m0, c);
    } else {
      LaneTop(w.m1, c - 4);
    }
  }

  /** The three bits gathered by shifts are the tag modulo 8. */
  lemma GatheredTag(x: bv64, pos: bv4, v: bv8)
    requires Low(v) == NibbleAt(x, pos)
    ensures var g := (x >> pos) & 0x0001_0001_0001;
            Bucket((g | (g >> 15) | (g >> 30)) & 0xFFFF_FFFF) == v & 7
  {
  }

  lemma CausedOverflowRefines(b: Bytes, w: Words, pos: bv4)
    requires Same(b, w)
    ensures b.MaybeCausedOverflow(pos) == w.MaybeCausedOverflow(pos)
  {
    assert SameAt(b, w, pos);
    GatheredTag(w.m0, pos, b.at(pos));
    var g := (w.m0 >> pos) & 0x0001_0001_0001;
    OverflowRefines(b, w, (g | (g >> 15) | (g >> 30)) & 0xFFFF_FFFF);
  }

  lemma OccupiedSlotRefines(b: Bytes, w: Words, pos: bv4)
    requires Same(b, w)
    ensures b.IsOccupied(pos) == w.IsOccupied(pos)
  {
    assert SameAt(b, w, pos);
    EqualHalves(b.at(pos), AVAILABLE);
    OccupiedWord(w.m0, w.m1, pos);
  }

  lemma OccupiedWord(x: bv64, y: bv64, p: bv4)
    ensures ((x | y) & (0x0001_0001_0001_0001 << p) != 0) == !(NibbleAt(x, p) == 0 && NibbleAt(y, p) == 0)
  {
  }

  lemma SentinelWord(x: bv64)
    ensures (x & 0x4000_4000_4000_4000 == 0x4000) == (NibbleAt(x, LAST) == 1)
    ensures (x & 0x4000_4000_4000_4000 == 0) == (NibbleAt(x, LAST) == 0)
  {
  }

  /** The sentinel tests agree exactly when no slot but the last carries the reserved tag 1. */
  lemma SentinelRefines(b: Bytes, w: Words, pos: bv4)
    requires Same(b, w)
    ensures b.IsSentinel(pos) == w.IsSentinel(pos) <==> pos == LAST || b.at(pos) != SENTINEL
  {
    assert SameAt(b, w, pos);
    SentinelWord(w.m0);
    SentinelWord(w.m1);
    EqualHalves(b.at(pos), SENTINEL);
  }

  // ------------------------------------------------------------- main theorem

  /** The updates the tables perform on a group. */
  datatype Update =
    | Set(pos: bv4, hash: bv64)
    | SetSentinel
    | Reset(pos: bv4)
    | MarkOverflow(hash: bv64)
  {
    /** Slots are 0..14. */
    predicate Legal() {
      match this
      case Set(pos, _) => pos <= LAST
      case Reset(pos) => pos <= LAST
      case _ => true
    }

    function OnBytes(b: Bytes): Bytes {
      match this
      case Set(pos, hash) => b.Store(pos, ReducedHash(hash))
      case SetSentinel => b.Store(LAST, SENTINEL)
      case Reset(pos) => b.Store(pos, AVAILABLE)
      case MarkOverflow(hash) => b.MarkOverflow(hash)
    }

    function OnWords(w: Words): Words {
      match this
      case Set(pos, hash) => w.Store(pos, ReducedHash(hash))
      case SetSentinel => w.Store(LAST, SENTINEL)
      case Reset(pos) => w.Store(pos, AVAILABLE)
      case MarkOverflow(hash) => w.MarkOverflow(hash)
    }
  }

  /** A freshly initialised group after a history of updates, oldest first. */
  function BytesAfter(history: seq<Update>): Bytes {
    if history == [] then Bytes((p: bv4) => 0)
    else history[|history| - 1].OnBytes(BytesAfter(history[..|history| - 1]))
  }

  function WordsAfter(history: seq<Update>): Words {
    if history == [] then Words(0, 0)
    else history[|history| - 1].OnWords(WordsAfter(history[..|history| - 1]))
  }

  ghost predicate LegalHistory(history: seq<Update>) {
    forall i :: 0 <= i < |history| ==> history[i].Legal()
  }

  lemma {:induction false} HistoryRefines(history: seq<Update>)
    ensures Same(BytesAfter(history), WordsAfter(history))
  {
    if history != [] {
      var last := history[|history| - 1];
      var rest := history[..|history| - 1];
      HistoryRefines(rest);
      match last
      case Set(pos, hash) => StoreRefines(BytesAfter(rest), WordsAfter(rest), pos, ReducedHash(hash));
      case SetSentinel => StoreRefines(BytesAfter(rest), WordsAfter(rest), LAST, SENTINEL);
      case Reset(pos) => StoreRefines(BytesAfter(rest), WordsAfter(rest), pos, AVAILABLE);
      case MarkOverflow(hash) => MarkRefines(BytesAfter(rest), WordsAfter(rest), hash);
    }
  }

  lemma {:induction false} OnlyLastIsSentinel(history: seq<Update>, pos: bv4)
    requires LegalHistory(history)
    requires pos < LAST
    ensures BytesAfter(history).at(pos) != SENTINEL
  {
    if history != [] {
      OnlyLastIsSentinel(history[..|history| - 1], pos);
    }
  }

  /** After any history of updates the two layouts answer every query alike. */
  lemma LayoutsAgree(history: seq<Update>, hash: bv64, pos: bv4)
    requires LegalHistory(history)
    requires pos <= LAST
    ensures var b, w := BytesAfter(history), WordsAfter(history);
            && b.Match(hash) == w.Match(hash)
            && b.MatchAvailable() == w.MatchAvailable()
            && b.MatchOccupied() == w.MatchOccupied()
            && b.IsSentinel(pos) == w.IsSentinel(pos)
            && b.IsOccupied(pos) == w.IsOccupied(pos)
            && b.IsNotOverflowed(hash) == w.IsNotOverflowed(hash)
            && b.MaybeCausedOverflow(pos) == w.MaybeCausedOverflow(pos)
  {
    var b, w := BytesAfter(history), WordsAfter(history);
    HistoryRefines(history);
    TagMatchRefines(b, w, ReducedHash(hash));
    AvailableRefines(b, w);
    OccupiedRefines(b, w);
    SentinelRefines(b, w, pos);
    OccupiedSlotRefines(b, w, pos);
    OverflowRefines(b, w, hash);
    CausedOverflowRefines(b, w, pos);
    if pos < LAST {
      OnlyLastIsSentinel(history, pos);
    }
  }

  /** A slot answers for overflow exactly as the hash stored in it: reduction keeps hash % 8. */
  lemma CausedOverflowByHash(history: seq<Update>, pos: bv4, hash: bv64)
    requires pos <= LAST
    ensures var w := WordsAfter(history + [Set(pos, hash)]);
            w.MaybeCausedOverflow(pos) == !w.IsNotOverflowed(hash)
  {
    var full := history + [Set(pos, hash)];
    assert full[..|full| - 1] == history;
    HistoryRefines(full);
    CausedOverflowRefines(BytesAfter(full), WordsAfter(full), pos);
    OverflowRefines(BytesAfter(full), WordsAfter(full), hash);
  }

  // -------------------------------------------- the bits of a match, one by one

  lemma NoDifference(c: bv4, b: bv4, d: bv4, a: bv4)
    ensures !((c ^ b) | (d ^ a)) == 15 <==> d == a && c == b
  {
  }

  lemma NibbleNor(u: bv64, v: bv64, p: bv4)
    ensures NibbleAt(!(u | v), p) == !(NibbleAt(u, p) | NibbleAt(v, p))
  {
    calc {
      NibbleAt(!(u | v), p);
      { NibbleNot(u | v, p); }
      !NibbleAt(u | v, p);
      { NibbleOr(u, v, p); }
      !(NibbleAt(u, p) | NibbleAt(v, p));
    }
  }

  lemma NorOfDifferences(u: bv64, v: bv64, x: bv64, y: bv64, a: bv4, b: bv4, p: bv4)
    requires u == (y ^ Smear(b)) && v == (x ^ Smear(a))
    ensures NibbleAt(!(u | v), p) == !((NibbleAt(y, p) ^ b) | (NibbleAt(x, p) ^ a))
  {
    NibbleNor(u, v, p);
    NibbleXor(y, b, p);
    NibbleXor(x, a, p);
  }

  lemma TagDifferenceAt(x: bv64, y: bv64, a: bv4, b: bv4, p: bv4)
    ensures NibbleAt(TagDifference(x, y, a, b), p) == NibbleAt(!((y ^ Smear(b)) | (x ^ Smear(a))), p)
  {
  }

  lemma DifferenceNibble(x: bv64, y: bv64, a: bv4, b: bv4, p: bv4)
    ensures NibbleAt(TagDifference(x, y, a, b), p) == !((NibbleAt(y, p) ^ b) | (NibbleAt(x, p) ^ a))
  {
    TagDifferenceAt(x, y, a, b, p);
    NorOfDifferences(y ^ Smear(b), x ^ Smear(a), x, y, a, b, p);
  }

  lemma WordsMatchBit(x: bv64, y: bv64, a: bv4, b: bv4, p: bv4)
    ensures MaskBit(FoldLanes(TagDifference(x, y, a, b)), p)
         == (NibbleAt(x, p) == a && NibbleAt(y, p) == b && p != OVERFLOW)
  {
    FoldLanesBit(TagDifference(x, y, a, b), p);
    DifferenceNibble(x, y, a, b, p);
    NoDifference(NibbleAt(y, p), b, NibbleAt(x, p), a);
  }

  lemma WordsTagBit(w: Words, n: bv8, p: bv4, v: bv8)
    requires Low(v) == NibbleAt(w.m0, p) && High(v) == NibbleAt(w.m1, p)
    ensures MaskBit(w.MatchTag(n), p) == (v == n && p != OVERFLOW)
  {
    calc {
      MaskBit(w.MatchTag(n), p);
      { WordsMatchBit(w.m0, w.m1, Low(n), High(n), p); }
      NibbleAt(w.m0, p) == Low(n) && NibbleAt(w.m1, p) == High(n) && p != OVERFLOW;
      Low(v) == Low(n) && High(v) == High(n) && p != OVERFLOW;
      { EqualHalves(v, n); }
      v == n && p != OVERFLOW;
    }
  }

  lemma BytesTagBit(b: Bytes, n: bv8, p: bv4)
    ensures MaskBit(b.MatchTag(n), p) == (b.at(p) == n && p != OVERFLOW)
  {
    var f := (q: bv4) => b.at(q) == n;
    calc {
      MaskBit(b.MatchTag(n), p);
      { assert b.MatchTag(n) == MoveMask(f) & 0x7FFF; }
      MaskBit(MoveMask(f) & 0x7FFF, p);
      { MoveMaskBit(f, p); }
      b.at(p) == n && p != OVERFLOW;
    }
  }

  // ------------------------------------------------ what a group remembers

  /** Some insertion passing the group had this overflow bit. */
  ghost predicate PassedWith(history: seq<Update>, b: bv8) {
    exists i :: 0 <= i < |history| && history[i].MarkOverflow? && Bucket(history[i].hash) == b
  }

  lemma MarkedBit(x: bv8, b: bv8, c: bv8)
    requires b < 8 && c < 8
    ensures BitSet(WithBit(x, b), c) == (BitSet(x, c) || b == c)
  {
  }

  lemma NothingMarked(c: bv8)
    requires c < 8
    ensures !BitSet(0, c)
  {
  }

  lemma PassedOnce(history: seq<Update>, b: bv8)
    requires history != []
    ensures PassedWith(history, b) <==>
      var last := history[|history| - 1];
      PassedWith(history[..|history| - 1], b) || (last.MarkOverflow? && Bucket(last.hash) == b)
  {
    var n := |history| - 1;
    assert forall i :: 0 <= i < n ==> history[..n][i] == history[i];
  }

  lemma {:induction false} BytesRememberMarks(history: seq<Update>, b: bv8)
    requires LegalHistory(history) && b < 8
    ensures BitSet(BytesAfter(history).at(OVERFLOW), b) <==> PassedWith(history, b)
  {
    if history == [] {
      NothingMarked(b);
    } else {
      var last, rest := history[|history| - 1], history[..|history| - 1];
      BytesRememberMarks(rest, b);
      PassedOnce(history, b);
      if last.MarkOverflow? {
        MarkedBit(BytesAfter(rest).at(OVERFLOW), Bucket(last.hash), b);
      }
    }
  }

  /** The group reports overflow for a hash exactly when it has been marked for one with the same bit. */
  lemma OverflowIsRemembered(history: seq<Update>, hash: bv64)
    requires LegalHistory(history)
    ensures !WordsAfter(history).IsNotOverflowed(hash) <==> PassedWith(history, Bucket(hash))
  {
    HistoryRefines(history);
    OverflowRefines(BytesAfter(history), WordsAfter(history), hash);
    BytesRememberMarks(history, Bucket(hash));
  }

  predicate Writes(u: Update, pos: bv4) {
    match u
    case Set(p, _) => p == pos
    case Reset(p) => p == pos
    case SetSentinel => pos == LAST
    case MarkOverflow(_) => false
  }

  /** The last update of the slot stored a hash with this tag. */
  ghost predicate LastStored(history: seq<Update>, pos: bv4, tag: bv8) {
    exists i :: 0 <= i < |history| && history[i].Set? && history[i].pos == pos && ReducedHash(history[i].hash) == tag
                && forall j :: i < j < |history| ==> !Writes(history[j], pos)
  }

  lemma StoredOnce(history: seq<Update>, pos: bv4, tag: bv8)
    requires history != []
    ensures LastStored(history, pos, tag) <==>
      var last := history[|history| - 1];
      if Writes(last, pos) then last.Set? && ReducedHash(last.hash) == tag
      else LastStored(history[..|history| - 1], pos, tag)
  {
    var n := |history| - 1;
    var rest := history[..n];
    assert forall i :: 0 <= i < n ==> rest[i] == history[i];
    if !Writes(history[n], pos) && LastStored(rest, pos, tag) {
      var i :| 0 <= i < n && rest[i].Set? && rest[i].pos == pos && ReducedHash(rest[i].hash) == tag
               && forall j :: i < j < n ==> !Writes(rest[j], pos);
      assert history[i].Set?;
      forall j | i < j < |history| ensures !Writes(history[j], pos) {
        assert j < n ==> rest[j] == history[j];
      }
    }
  }

  lemma {:induction false} BytesRememberTags(history: seq<Update>, pos: bv4, tag: bv8)
    requires LegalHistory(history) && pos <= LAST && tag >= 2
    ensures BytesAfter(history).at(pos) == tag <==> LastStored(history, pos, tag)
  {
    if history != [] {
      BytesRememberTags(history[..|history| - 1], pos, tag);
      StoredOnce(history, pos, tag);
    }
  }

  /** A match finds exactly the slots whose last update stored a hash with the same tag. */
  lemma MatchFindsStored(history: seq<Update>, hash: bv64, pos: bv4)
    requires LegalHistory(history) && pos <= LAST
    ensures MaskBit(WordsAfter(history).Match(hash), pos) <==> LastStored(history, pos, ReducedHash(hash))
  {
    var b, w := BytesAfter(history), WordsAfter(history);
    HistoryRefines(history);
    assert SameAt(b, w, pos);
    WordsTagBit(w, ReducedHash(hash), pos, b.at(pos));
    BytesRememberTags(history, pos, ReducedHash(hash));
  }
}
