/** The group and element arrays of a table as a value, and what it means for
 *  them to be consistent.  Slot x belongs to group x / 15.
 */
module TableLayout {
  import opened Prober
  import opened Hashing
  import opened Optional

  type Value(==, !new)

  datatype Entry = Entry(key: Key, value: Value)

  const FREE: nat := 0
  const SENTINEL: nat := 1

  /** `dummy` marks the shared placeholder groups of a table without storage. */
  datatype Layout = Layout(
    exp: nat,
    dummy: bool,
    tags: seq<nat>,
    overflow: seq<set<nat>>,
    elems: seq<Option<Entry>>)

  ghost predicate Shape(L: Layout) {
    && L.exp >= 1
    && |L.overflow| == Pow2(L.exp)
    && |L.tags| == SLOTS * Pow2(L.exp)
    && |L.elems| == |L.tags|
  }

  /** Slot i of group g. */
  function SlotAt(g: nat, i: nat): nat { g * SLOTS + i }

  /** The lowest slot of a mask. */
  predicate IsLeast(n: nat, mask: set<nat>) { n in mask && forall m :: m in mask ==> n <= m }

  predicate SentinelSlot(L: Layout, x: nat) {
    x + 1 == |L.tags| || (L.dummy && x % SLOTS == SLOTS - 1)
  }

  function Capacity(L: Layout): nat {
    if L.dummy then 0 else CapacityOf(L.exp)
  }

  function ProbeGroup(exp: nat, hash: Hash64, j: nat): (g: nat)
    ensures g < Pow2(exp)
  {
    Position(Home(hash, exp), Pow2(exp), j)
  }

  /** Every group met before probe j is marked as overflowed for this hash. */
  ghost predicate Passed(exp: nat, overflow: seq<set<nat>>, hash: Hash64, j: nat)
    requires |overflow| == Pow2(exp)
  {
    forall i: nat :: i < j ==> Bit(hash) in overflow[ProbeGroup(exp, hash, i)]
  }

  /** A lookup for this hash is led to group g by the overflow marks. */
  ghost predicate Reachable(exp: nat, overflow: seq<set<nat>>, hash: Hash64, g: nat)
    requires |overflow| == Pow2(exp)
  {
    exists j: nat :: ProbeGroup(exp, hash, j) == g && Passed(exp, overflow, hash, j)
  }

  ghost predicate Settled(L: Layout, h: Hasher, x: nat)
    requires Shape(L) && x < |L.tags|
  {
    if SentinelSlot(L, x) then
      L.tags[x] == SENTINEL && L.elems[x] == None
    else
      match L.elems[x]
      case None => L.tags[x] == FREE
      case Some(e) => L.tags[x] == Tag(h(e.key)) && Reachable(L.exp, L.overflow, h(e.key), x / SLOTS)
  }

  ghost predicate HasKey(elems: seq<Option<Entry>>, x: nat, k: Key) {
    x < |elems| && elems[x].Some? && elems[x].value.key == k
  }

  /** No two slots hold equal keys. */
  ghost predicate Distinct(elems: seq<Option<Entry>>) {
    forall x: nat, y: nat, k: Key :: HasKey(elems, x, k) && HasKey(elems, y, k) ==> x == y
  }

  /** The arrays of a table at rest. */
  ghost predicate WellPlaced(L: Layout, h: Hasher) {
    && Shape(L)
    && (forall x: nat :: x < |L.tags| ==> Settled(L, h, x))
    && Distinct(L.elems)
    && (L.dummy ==> forall x :: 0 <= x < |L.elems| ==> L.elems[x] == None)
  }

  ghost function Live(elems: seq<Option<Entry>>): (s: set<nat>) {
    set x: nat | x < |elems| && elems[x].Some?
  }

  ghost function KeysOf(elems: seq<Option<Entry>>): (s: set<Key>)
    ensures forall x: nat, k: Key :: HasKey(elems, x, k) ==> k in s
    ensures forall k :: k in s ==> exists x: nat :: HasKey(elems, x, k)
  {
    set x: nat | x < |elems| && elems[x].Some? && HasKey(elems, x, elems[x].value.key) :: elems[x].value.key
  }

  /** The map the arrays stand for. */
  ghost function ContentsOf(elems: seq<Option<Entry>>): (m: map<Key, Value>)
    requires Distinct(elems)
    ensures m.Keys == KeysOf(elems)
    ensures forall x: nat, k: Key :: HasKey(elems, x, k) ==> k in m && m[k] == elems[x].value.value
  {
    map k | k in KeysOf(elems) :: var x: nat :| HasKey(elems, x, k); elems[x].value.value
  }

  /** Key k is in no slot of group g. */
  ghost predicate Absent(elems: seq<Option<Entry>>, k: Key, g: nat) {
    forall x: nat :: x / SLOTS == g ==> !HasKey(elems, x, k)
  }

  ghost function EmptyLayout(n: nat): (L: Layout) {
    var exp := ExponentForElements(n);
    Layout(exp, n == 0,
           seq(SLOTS * Pow2(exp), x requires x >= 0 => if x + 1 == SLOTS * Pow2(exp) || (n == 0 && x % SLOTS == SLOTS - 1) then SENTINEL else FREE),
           seq(Pow2(exp), _ => {}),
           seq(SLOTS * Pow2(exp), _ => None))
  }

  // ------------------------------------------------------------------- search

  /** An element in group g is on the probe sequence of its own key. */
  lemma HolderOnPath(L: Layout, h: Hasher, x: nat) returns (j: nat)
    requires WellPlaced(L, h) && x < |L.elems| && L.elems[x].Some?
    ensures ProbeGroup(L.exp, h(L.elems[x].value.key), j) == x / SLOTS
    ensures Passed(L.exp, L.overflow, h(L.elems[x].value.key), j)
  {
    assert Settled(L, h, x);
    j :| ProbeGroup(L.exp, h(L.elems[x].value.key), j) == x / SLOTS && Passed(L.exp, L.overflow, h(L.elems[x].value.key), j);
  }

  /** The first probe of a full walk that meets a given group. */
  lemma ProbeMeets(exp: nat, hash: Hash64, g: nat) returns (i: nat)
    requires g < Pow2(exp)
    ensures i < Pow2(exp) && ProbeGroup(exp, hash, i) == g
  {
    i := ProbesCover(Home(hash, exp), exp, g);
  }

  lemma GroupInRange(L: Layout, x: nat)
    requires Shape(L) && x < |L.tags|
    ensures x / SLOTS < Pow2(L.exp)
  {
  }

  lemma PresentInGroup(elems: seq<Option<Entry>>, k: Key, x: nat, g: nat)
    requires HasKey(elems, x, k) && x / SLOTS == g
    ensures !Absent(elems, k, g)
  {
  }

  /** A search that meets an unmarked group, or has met every group, is complete. */
  lemma SearchComplete(L: Layout, h: Hasher, k: Key, j: nat)
    requires WellPlaced(L, h)
    requires forall i: nat :: i <= j ==> Absent(L.elems, k, ProbeGroup(L.exp, h(k), i))
    requires Bit(h(k)) !in L.overflow[ProbeGroup(L.exp, h(k), j)] || j + 1 >= Pow2(L.exp)
    ensures k !in ContentsOf(L.elems)
  {
    if k in ContentsOf(L.elems) {
      var x: nat :| HasKey(L.elems, x, k);
      var i := HolderOnPath(L, h, x);
      if i > j {
        GroupInRange(L, x);
        i := ProbeMeets(L.exp, h(k), x / SLOTS);
      }
      PresentInGroup(L.elems, k, x, ProbeGroup(L.exp, h(k), i));
    }
  }

  // ----------------------------------------------------------------- updates

  lemma ContentsPut(elems: seq<Option<Entry>>, x: nat, e: Entry)
    requires Distinct(elems) && x < |elems| && elems[x] == None
    requires e.key !in ContentsOf(elems)
    ensures Distinct(elems[x := Some(e)])
    ensures ContentsOf(elems[x := Some(e)]) == ContentsOf(elems)[e.key := e.value]
    ensures Live(elems[x := Some(e)]) == Live(elems) + {x} && x !in Live(elems)
  {
    var after := elems[x := Some(e)];
    assert forall y: nat, k: Key :: HasKey(after, y, k) <==> if y == x then k == e.key else HasKey(elems, y, k);
    var m, m' := ContentsOf(elems), ContentsOf(after);
    forall k | k in m ensures k in m' && m'[k] == m[k] {
      var y: nat :| HasKey(elems, y, k);
      assert HasKey(after, y, k);
    }
    assert HasKey(after, x, e.key);
  }

  lemma ContentsDrop(elems: seq<Option<Entry>>, x: nat)
    requires Distinct(elems) && x < |elems| && elems[x].Some?
    ensures Distinct(elems[x := None])
    ensures ContentsOf(elems[x := None]) == ContentsOf(elems) - {elems[x].value.key}
    ensures Live(elems[x := None]) == Live(elems) - {x} && x in Live(elems)
  {
    var after := elems[x := None];
    assert HasKey(elems, x, elems[x].value.key);
    assert forall y: nat, k: Key :: HasKey(after, y, k) <==> y != x && HasKey(elems, y, k);
    var m, m' := ContentsOf(elems), ContentsOf(after);
    forall k | k in m && k != elems[x].value.key ensures k in m' && m'[k] == m[k] {
      var y: nat :| HasKey(elems, y, k);
      assert HasKey(after, y, k);
    }
    forall k | k in m' ensures k in m && k != elems[x].value.key {
      var y: nat :| HasKey(after, y, k);
      assert HasKey(elems, y, k);
    }
  }

  /** As many live slots as keys. */
  lemma {:induction false} LiveCount(elems: seq<Option<Entry>>)
    requires Distinct(elems)
    ensures |Live(elems)| == |ContentsOf(elems)|
    decreases |Live(elems)|
  {
    if x :| x in Live(elems) {
      ContentsDrop(elems, x);
      var m := ContentsOf(elems);
      var k := elems[x].value.key;
      assert HasKey(elems, x, k);
      assert m.Keys == (m - {k}).Keys + {k};
      LiveCount(elems[x := None]);
    } else {
      assert forall x: nat, k: Key :: HasKey(elems, x, k) ==> x in Live(elems);
      assert ContentsOf(elems).Keys == {};
    }
  }

  /** Overflow marks only accumulate, so whatever was reachable stays reachable. */
  lemma ReachableGrows(exp: nat, before: seq<set<nat>>, after: seq<set<nat>>, hash: Hash64, g: nat)
    requires |before| == |after| == Pow2(exp)
    requires forall i :: 0 <= i < |before| ==> before[i] <= after[i]
    requires Reachable(exp, before, hash, g)
    ensures Reachable(exp, after, hash, g)
  {
    var j: nat :| ProbeGroup(exp, hash, j) == g && Passed(exp, before, hash, j);
    assert Passed(exp, after, hash, j);
  }

  lemma SettledGrows(L: Layout, L': Layout, h: Hasher, x: nat)
    requires Shape(L) && x < |L.tags| && Settled(L, h, x)
    requires L'.exp == L.exp && L'.dummy == L.dummy && |L'.tags| == |L.tags| && |L'.elems| == |L.elems|
    requires |L'.overflow| == |L.overflow|
    requires forall i :: 0 <= i < |L.overflow| ==> L.overflow[i] <= L'.overflow[i]
    requires L'.tags[x] == L.tags[x] && L'.elems[x] == L.elems[x]
    ensures Settled(L', h, x)
  {
    if !SentinelSlot(L, x) && L.elems[x].Some? {
      ReachableGrows(L.exp, L.overflow, L'.overflow, h(L.elems[x].value.key), x / SLOTS);
    }
  }

  /** Storing a new key in a free slot that its probe sequence leads to. */
  lemma PutSettles(L: Layout, h: Hasher, x: nat, e: Entry)
    requires WellPlaced(L, h) && x < |L.tags|
    requires L.elems[x] == None && !SentinelSlot(L, x) && !L.dummy
    requires e.key !in ContentsOf(L.elems)
    requires Reachable(L.exp, L.overflow, h(e.key), x / SLOTS)
    ensures var L' := L.(tags := L.tags[x := Tag(h(e.key))], elems := L.elems[x := Some(e)]);
            && WellPlaced(L', h)
            && ContentsOf(L'.elems) == ContentsOf(L.elems)[e.key := e.value]
            && Live(L'.elems) == Live(L.elems) + {x} && x !in Live(L.elems)
  {
    var L' := L.(tags := L.tags[x := Tag(h(e.key))], elems := L.elems[x := Some(e)]);
    ContentsPut(L.elems, x, e);
    forall y: nat | y < |L'.tags| ensures Settled(L', h, y) {
      assert Settled(L, h, y);
      if y != x { SettledGrows(L, L', h, y); }
    }
  }

  /** Emptying a slot; overflow marks stay. */
  lemma DropSettles(L: Layout, h: Hasher, x: nat)
    requires WellPlaced(L, h) && x < |L.tags| && L.elems[x].Some?
    ensures var L' := L.(tags := L.tags[x := FREE], elems := L.elems[x := None]);
            && WellPlaced(L', h)
            && ContentsOf(L'.elems) == ContentsOf(L.elems) - {L.elems[x].value.key}
            && Live(L'.elems) == Live(L.elems) - {x} && x in Live(L.elems)
  {
    var L' := L.(tags := L.tags[x := FREE], elems := L.elems[x := None]);
    ContentsDrop(L.elems, x);
    forall y: nat | y < |L'.tags| ensures Settled(L', h, y) {
      assert Settled(L, h, y);
      if y != x { SettledGrows(L, L', h, y); }
    }
  }

  lemma MarkSettles(L: Layout, h: Hasher, g: nat, b: nat)
    requires WellPlaced(L, h) && g < |L.overflow|
    ensures WellPlaced(L.(overflow := L.overflow[g := L.overflow[g] + {b}]), h)
  {
    var L' := L.(overflow := L.overflow[g := L.overflow[g] + {b}]);
    forall y: nat | y < |L'.tags| ensures Settled(L', h, y) {
      assert Settled(L, h, y);
      SettledGrows(L, L', h, y);
    }
  }

  lemma EmptySettles(n: nat, h: Hasher)
    ensures WellPlaced(EmptyLayout(n), h)
    ensures ContentsOf(EmptyLayout(n).elems) == map[]
    ensures Live(EmptyLayout(n).elems) == {}
  {
    var L := EmptyLayout(n);
    assert forall x: nat, k: Key :: !HasKey(L.elems, x, k);
    assert ContentsOf(L.elems).Keys == {};
    assert forall x: nat :: x < |L.tags| ==> Settled(L, h, x);
  }

  /** A table that is not full has a free slot. */
  lemma FreeSlotExists(L: Layout, h: Hasher) returns (x: nat)
    requires WellPlaced(L, h) && |Live(L.elems)| < Capacity(L)
    ensures x < |L.tags| && L.tags[x] == FREE
  {
    var all := Below(Capacity(L));
    BelowCount(Capacity(L));
    if all <= Live(L.elems) {
      SubsetBound(all, Live(L.elems));
    }
    x :| x in all && x !in Live(L.elems);
    assert Settled(L, h, x);
  }

  lemma SubsetBound<T>(a: set<T>, b: set<T>)
    requires a <= b
    ensures |a| <= |b|
  {
    assert a + (b - a) == b;
  }
}
