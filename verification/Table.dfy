/** The hash table object: arrays, size control and the operations on them.
 *
 *  Every operation is specified by the plain map the table stands for, so any
 *  sequence of operations keeps the table equal to that map.
 */
module Tables {
  import opened Prober
  import opened Hashing
  import opened TableLayout
  import opened Optional
  import opened TableCore

  /** Fresh arrays for n elements; no storage when n is zero. */
  method NewArrays(n: nat)
    returns (exp: nat, dummy: bool, tags: array<nat>, overflow: array<set<nat>>, elems: array<Option<Entry>>)
    ensures fresh(tags) && fresh(overflow) && fresh(elems)
    ensures LayoutOf(exp, dummy, tags, overflow, elems) == EmptyLayout(n)
  {
    exp, dummy := ExponentForElements(n), n == 0;
    var size := SLOTS * Pow2(exp);
    tags := new nat[size](x requires x >= 0 => if x + 1 == size || (n == 0 && x % SLOTS == SLOTS - 1) then SENTINEL else FREE);
    overflow := new set<nat>[Pow2(exp)](_ => {});
    elems := new Option<Entry>[size](_ => None);
    assert tags[..] == EmptyLayout(n).tags;
    assert overflow[..] == EmptyLayout(n).overflow;
    assert elems[..] == EmptyLayout(n).elems;
  }

  class Table {
    const hasher: Hasher
    var exp: nat
    var dummy: bool
    var tags: array<nat>
    var overflow: array<set<nat>>
    var elems: array<Option<Entry>>
    var size: nat
    var ml: nat

    ghost function View(): Layout
      reads this, tags, overflow, elems
    {
      LayoutOf(exp, dummy, tags, overflow, elems)
    }

    ghost predicate Valid()
      reads this, tags, overflow, elems
    {
      && WellPlaced(View(), hasher)
      && size == |Live(elems[..])|
      && size <= ml <= Capacity(View())
    }

    /** The map this table stands for. */
    ghost function Contents(): (m: map<Key, Value>)
      requires Valid()
      reads this, tags, overflow, elems
    {
      ContentsOf(elems[..])
    }

    constructor (h: Hasher, n: nat)
      ensures Valid() && Contents() == map[] && hasher == h && size == 0
      ensures Capacity(View()) == (if n == 0 then 0 else CapacityFor(n)) && ml == InitialMaxLoad(Capacity(View()))
      ensures fresh(tags) && fresh(overflow) && fresh(elems)
    {
      var exp', dummy', tags', overflow', elems' := NewArrays(n);
      hasher, size := h, 0;
      exp, dummy, tags, overflow, elems := exp', dummy', tags', overflow', elems';
      ml := InitialMaxLoad(if n == 0 then 0 else CapacityOf(ExponentForElements(n)));
      new;
      EmptySettles(n, h);
    }

    function MaxCapacity(): nat
      reads this
    {
      if dummy then 0 else CapacityOf(exp)
    }

    // --------------------------------------------------------------- lookup

    /** Compare the key with every slot of the mask, lowest slot first. */
    method ScanMask(k: Key, g: nat, matched: set<nat>) returns (found: Option<nat>)
      requires Valid() && g < Pow2(exp) && matched == MatchSet(tags[..], g, Tag(hasher(k)))
      ensures found.Some? ==> HasKey(elems[..], found.value, k)
      ensures found.None? ==> Absent(elems[..], k, g)
    {
      var mask := matched;
      while mask != {}
        invariant mask <= matched
        invariant forall i :: i in matched - mask ==> !HasKey(elems[..], SlotAt(g, i), k)
      {
        LeastExists(mask);
        var n :| IsLeast(n, mask);
        assert Settled(View(), hasher, SlotAt(g, n));
        var p := elems[SlotAt(g, n)].value;
        if p.key == k {
          return Some(SlotAt(g, n));
        }
        mask := mask - {n};
      }
      UnmatchedAbsent(View(), hasher, k, g, matched);
      return None;
    }

    /** One group of the probe sequence. */
    method SearchGroup(k: Key, hash: Hash64, g: nat) returns (found: Option<nat>)
      requires Valid() && hash == hasher(k) && g < Pow2(exp)
      ensures found.Some? ==> HasKey(elems[..], found.value, k)
      ensures found.None? ==> Absent(elems[..], k, g)
    {
      GroupFits(exp, g);
      var mask := Match(tags, g, Tag(hash));
      if mask != {} {
        found := ScanMask(k, g, mask);
      } else {
        UnmatchedAbsent(View(), hasher, k, g, {});
        found := None;
      }
    }

    /** Every group met before the prober's position is free of k. */
    ghost predicate Searched(k: Key, pb: QuadraticProber)
      requires Valid()
      reads this, tags, overflow, elems, pb
    {
      && pb.home == Home(hasher(k), exp) && pb.OnCourse(Pow2(exp)) && pb.step < Pow2(exp)
      && AbsentBefore(elems[..], exp, hasher(k), k, pb.step)
    }

    method Find(k: Key) returns (found: Option<nat>)
      requires Valid()
      ensures found.Some? <==> k in Contents()
      ensures found.Some? ==> HasKey(elems[..], found.value, k)
    {
      var hash := hasher(k);
      var pb := new QuadraticProber(Home(hash, exp));
      WalkStartsHome(Home(hash, exp), Pow2(exp));
      var more := true;
      while more
        invariant fresh(pb) && (more ==> Searched(k, pb))
        invariant !more ==> k !in Contents()
        decreases more, Pow2(exp) - pb.step
      {
        found := SearchGroup(k, hash, pb.pos);
        if found.Some? {
          return;
        }
        if Bit(hash) !in overflow[pb.pos] {
          SearchComplete(View(), hasher, k, pb.step);
          return None;
        }
        more := pb.Next(Pow2(exp) - 1, exp);
        if !more {
          SearchComplete(View(), hasher, k, pb.step - 1);
        }
      }
      found := None;
    }

    // -------------------------------------------------------------- removal

    /** Free an occupied slot.  If its element may have caused overflow the maximum
     *  load drops by one, so that repeated erasures cannot let probe lengths drift.
     */
    method EraseSlot(x: nat)
      requires Valid() && x < elems.Length && elems[x].Some?
      modifies this`size, this`ml, tags, elems
      ensures Valid()
      ensures Contents() == old(Contents()) - {old(elems[x]).value.key}
      ensures elems[..] == old(elems[..])[x := None]
      ensures size == old(size) - 1
      ensures ml == old(ml) - (if Bit(hasher(old(elems[x]).value.key)) in overflow[x / SLOTS] then 1 else 0)
    {
      ghost var L := View();
      DropSettles(L, hasher, x);
      assert Settled(L, hasher, x);
      GroupInRange(L, x);
      assert |Live(L.elems) - {x}| == |Live(L.elems)| - 1;
      var caused := tags[x] % 8 in overflow[x / SLOTS];
      elems[x] := None;
      ml := if caused then ml - 1 else ml;
      tags[x] := FREE;
      size := size - 1;
      assert View() == L.(tags := L.tags[x := FREE], elems := L.elems[x := None]);
    }

    method Erase(k: Key) returns (erased: nat)
      requires Valid()
      modifies this`size, this`ml, tags, elems
      ensures Valid()
      ensures Contents() == old(Contents()) - {k}
      ensures erased == if k in old(Contents()) then 1 else 0
      ensures size == old(size) - erased
      ensures erased == 0 ==> View() == old(View()) && ml == old(ml)
      ensures erased == 1 ==>
        exists x: nat :: old(HasKey(elems[..], x, k)) && elems[..] == old(elems[..])[x := None]
                         && ml == old(ml) - (if Bit(hasher(k)) in overflow[x / SLOTS] then 1 else 0)
    {
      var found := Find(k);
      if found.Some? {
        EraseSlot(found.value);
        erased := 1;
      } else {
        assert Contents() - {k} == Contents();
        erased := 0;
      }
    }

    /** Empty every slot and every overflow byte, and put the sentinel back. */
    method WipeArrays()
      requires Valid() && !dummy
      modifies tags, overflow, elems
      ensures forall x :: 0 <= x < elems.Length ==> elems[x] == None
      ensures forall x :: 0 <= x < tags.Length ==> tags[x] == if x + 1 == tags.Length then SENTINEL else FREE
      ensures forall g :: 0 <= g < overflow.Length ==> overflow[g] == {}
    {
      for x := 0 to tags.Length
        modifies tags, elems
        invariant forall y :: 0 <= y < x ==> tags[y] == FREE && elems[y] == None
      {
        tags[x], elems[x] := FREE, None;
      }
      for g := 0 to overflow.Length
        modifies overflow
        invariant forall i :: 0 <= i < g ==> overflow[i] == {}
      {
        overflow[g] := {};
      }
      tags[tags.Length - 1] := SENTINEL;
    }

    /** Empty every group, overflow marks included, and restore the initial maximum load. */
    method Clear()
      requires Valid()
      modifies this`size, this`ml, tags, overflow, elems
      ensures Valid() && Contents() == map[] && size == 0
      ensures ml == InitialMaxLoad(Capacity(View()))
      ensures !dummy ==> forall g :: 0 <= g < overflow.Length ==> overflow[g] == {}
    {
      if !dummy {
        WipeArrays();
      }
      EmptyElements(elems[..]);
      assert forall x: nat :: x < |View().tags| ==> Settled(View(), hasher, x);
      ml, size := InitialMaxLoad(MaxCapacity()), 0;
    }

    // ------------------------------------------------------------ rehashing

    /** Replace the arrays by arrays for n elements holding the same map. */
    method UncheckedRehash(n: nat)
      requires Valid() && (n == 0 ==> size == 0) && (n > 0 ==> size <= InitialMaxLoad(CapacityFor(n)))
      modifies this
      ensures Valid() && Contents() == old(Contents())
      ensures fresh(tags) && fresh(overflow) && fresh(elems)
      ensures Capacity(View()) == if n == 0 then 0 else CapacityFor(n)
      ensures ml == InitialMaxLoad(Capacity(View())) && size == old(size)
    {
      assert map[] + Contents() == Contents();
      exp, dummy, tags, overflow, elems := Rebuilt(hasher, View(), dummy, tags, elems, n, None);
      ml := InitialMaxLoad(MaxCapacity());
    }

    /** Growth: the new element goes in first, then the others are moved. */
    method UncheckedEmplaceWithRehash(e: Entry)
      requires Valid() && e.key !in Contents()
      modifies this
      ensures Valid() && Contents() == old(Contents())[e.key := e.value]
      ensures fresh(tags) && fresh(overflow) && fresh(elems)
      ensures Capacity(View()) == CapacityFor(GrowthTarget(old(size)))
      ensures ml == InitialMaxLoad(Capacity(View())) && size == old(size) + 1
    {
      GrowthSuffices(size);
      assert map[e.key := e.value] + Contents() == Contents()[e.key := e.value];
      exp, dummy, tags, overflow, elems := Rebuilt(hasher, View(), dummy, tags, elems, GrowthTarget(size), Some(e));
      ml, size := InitialMaxLoad(MaxCapacity()), size + 1;
    }

    /** Reserve room for at least n elements of capacity; may shrink, never below the load. */
    method Rehash(n: nat)
      requires Valid()
      modifies this
      ensures Valid() && Contents() == old(Contents()) && size == old(size)
      ensures tags == old(tags) || (fresh(tags) && fresh(overflow) && fresh(elems))
      ensures tags == old(tags) ==> overflow == old(overflow) && elems == old(elems)
      ensures var m := if AtMaxLoadFactor(size) > n then AtMaxLoadFactor(size) else n;
              Capacity(View()) == if m == 0 then 0 else CapacityFor(m)
      ensures tags == old(tags) <==> Capacity(View()) == old(Capacity(View()))
      ensures ml == if tags == old(tags) then old(ml) else InitialMaxLoad(Capacity(View()))
    {
      var m := AtMaxLoadFactor(size);
      if m <= n {
        m := n;
      }
      var target := if m == 0 then 0 else CapacityFor(m);
      if m != 0 {
        CapacityStable(ExponentForElements(m));
        CapacitySuffices(m);
        LoadSuffices(size, target);
      }
      if target != MaxCapacity() {
        UncheckedRehash(target);
      }
    }

    /** Grow when the table is full; afterwards an insertion is admitted. */
    method RehashIfFull()
      requires Valid()
      modifies this
      ensures Valid() && Contents() == old(Contents()) && size == old(size)
      ensures size < ml
      ensures old(size) < old(ml) ==> tags == old(tags) && overflow == old(overflow) && elems == old(elems) && ml == old(ml)
      ensures old(size) == old(ml) ==> Capacity(View()) == CapacityFor(GrowthTarget(size)) && ml == InitialMaxLoad(Capacity(View()))
    {
      if size == ml {
        GrowthSuffices(size);
        UncheckedRehash(GrowthTarget(size));
      }
    }

    /** Insert unless an equal key is present; grows when the load is at its maximum. */
    method Emplace(e: Entry) returns (inserted: bool)
      requires Valid()
      modifies this, tags, overflow, elems
      ensures Valid()
      ensures inserted <==> e.key !in old(Contents())
      ensures Contents() == if inserted then old(Contents())[e.key := e.value] else old(Contents())
      ensures size == old(size) + if inserted then 1 else 0
      ensures tags == old(tags) || fresh(tags)
      ensures overflow == old(overflow) || fresh(overflow)
      ensures elems == old(elems) || fresh(elems)
      ensures !inserted ==> tags == old(tags) && overflow == old(overflow) && elems == old(elems) && View() == old(View())
      ensures !inserted || old(size) < old(ml) ==> tags == old(tags) && ml == old(ml)
      ensures inserted && old(size) == old(ml) ==>
        Capacity(View()) == CapacityFor(GrowthTarget(old(size))) && ml == InitialMaxLoad(Capacity(View()))
    {
      var found := Find(e.key);
      if found.Some? {
        return false;
      }
      if size < ml {
        var _, _ := EmplaceAt(hasher, exp, tags, overflow, elems, e);
        size := size + 1;
      } else {
        UncheckedEmplaceWithRehash(e);
      }
      inserted := true;
    }

    // ------------------------------------------------------ two-table operations

    ghost predicate Apart(x: Table)
      reads this, x
    {
      x != this && tags != x.tags && overflow != x.overflow && elems != x.elems
    }

    /** State of a merge after the first i slots of x have been offered to this table. */
    ghost predicate Merging(x: Table, source: seq<Option<Entry>>, mine: map<Key, Value>, i: nat)
      reads this, tags, overflow, elems, x, x.tags, x.overflow, x.elems
    {
      && Valid() && x.Valid() && Apart(x)
      && MergedUpTo(source, mine, i, Contents(), x.Contents(), x.elems[..])
    }

    /** Move one element of x unless its key is already here. */
    method MoveSlot(x: Table, i: nat)
      requires Valid() && x.Valid() && Apart(x) && i < x.elems.Length && x.elems[i].Some?
      modifies this, tags, overflow, elems, x`size, x`ml, x.tags, x.elems
      ensures Valid() && x.Valid() && Apart(x)
      ensures var e := old(x.elems[i]).value;
              if e.key in old(Contents()) then
                Contents() == old(Contents()) && x.elems[..] == old(x.elems[..]) && size == old(size) && x.size == old(x.size)
              else
                && Contents() == old(Contents())[e.key := e.value] && size == old(size) + 1
                && x.elems[..] == old(x.elems[..])[i := None] && x.size == old(x.size) - 1
                && x.Contents() == old(x.Contents()) - {e.key}
      ensures tags == old(tags) || fresh(tags)
      ensures overflow == old(overflow) || fresh(overflow)
      ensures elems == old(elems) || fresh(elems)
    {
      var inserted := Emplace(x.elems[i].value);
      if inserted {
        x.EraseSlot(i);
      }
    }

    /** Offer one slot of x to this table. */
    method MergeSlot(x: Table, i: nat, ghost source: seq<Option<Entry>>, ghost mine: map<Key, Value>)
      requires Merging(x, source, mine, i) && i < |source| && !x.dummy
      modifies this, tags, overflow, elems, x`size, x`ml, x.tags, x.elems
      ensures Merging(x, source, mine, i + 1)
      ensures size + x.size == old(size + x.size) && size >= old(size)
      ensures tags == old(tags) || fresh(tags)
      ensures overflow == old(overflow) || fresh(overflow)
      ensures elems == old(elems) || fresh(elems)
    {
      assert Settled(x.View(), x.hasher, i);
      ghost var target, rest, slots := Contents(), x.Contents(), x.elems[..];
      if x.tags[i] != FREE && i + 1 != x.tags.Length {
        MoveSlot(x, i);
      }
      MergedNext(source, mine, i, target, rest, slots);
    }

    /** Move into this table every element of x whose key is not here yet. */
    method Merge(x: Table) returns (moved: nat)
      requires Valid() && x.Valid() && Apart(x)
      modifies this, tags, overflow, elems, x`size, x`ml, x.tags, x.elems
      ensures Valid() && x.Valid()
      ensures Contents() == old(x.Contents()) + old(Contents())
      ensures x.Contents() == old(x.Contents()) - (old(x.Contents()).Keys - old(Contents()).Keys)
      ensures moved == size - old(size)
      ensures size + x.size == old(size + x.size)
    {
      var before := size;
      ghost var mine, source, total := Contents(), x.elems[..], size + x.size;
      WholePrefix(source);
      UnmovedAll(ContentsOf(source), mine);
      if x.dummy {
        NoElements(x.View(), x.hasher);
      } else {
        assert map[] + mine == mine;
        for i := 0 to x.tags.Length
          invariant Merging(x, source, mine, i) && x.elems.Length == |source|
          invariant size + x.size == total && size >= before
          invariant tags == old(tags) || fresh(tags)
          invariant overflow == old(overflow) || fresh(overflow)
          invariant elems == old(elems) || fresh(elems)
        {
          MergeSlot(x, i, source, mine);
        }
      }
      moved := size - before;
    }

    /** Merging a table with itself: both locks are the same, every key is found, and nothing moves. */
    method MergeItself() returns (moved: nat)
      requires Valid()
      modifies this, tags, overflow, elems
      ensures Valid() && Contents() == old(Contents()) && size == old(size) && View() == old(View())
      ensures moved == 0
    {
      var before := size;
      if !dummy {
        for i := 0 to tags.Length
          invariant Valid() && View() == old(View()) && size == before && !dummy
          invariant tags == old(tags) && overflow == old(overflow) && elems == old(elems)
        {
          assert Settled(View(), hasher, i);
          if tags[i] != FREE && i + 1 != tags.Length {
            var e := elems[i].value;
            assert HasKey(elems[..], i, e.key);
            var inserted := Emplace(e);
            assert !inserted;    // so the slot is not erased either
          }
        }
      }
      moved := size - before;
    }

    /** The element of one slot, if any, is in y with an equal value. */
    method SlotFoundIn(y: Table, i: nat) returns (ok: bool)
      requires Valid() && y.Valid() && !dummy && i < tags.Length
      ensures ok <==> elems[i].Some? ==>
                var e := elems[i].value; e.key in y.Contents() && y.Contents()[e.key] == e.value
    {
      assert Settled(View(), hasher, i);
      ok := true;
      if tags[i] != FREE && i + 1 != tags.Length {
        var e := elems[i].value;
        var loc := y.Find(e.key);
        ok := loc.Some? && y.elems[loc.value].value.value == e.value;
      }
    }

    /** Look every element up in y, stopping at the first miss. */
    method ContainedIn(y: Table) returns (ok: bool)
      requires Valid() && y.Valid()
      ensures ok <==> ContainedUpTo(elems[..], elems.Length, y.Contents())
    {
      ok := true;
      if !dummy {
        for i := 0 to tags.Length
          modifies {}
          invariant ok && ContainedUpTo(elems[..], i, y.Contents())
        {
          ok := SlotFoundIn(y, i);
          if !ok {
            return;
          }
        }
      }
    }

    /** Equality by size and one-way lookup. */
    method Equals(y: Table) returns (equal: bool)
      requires Valid() && y.Valid()
      ensures equal <==> Contents() == y.Contents()
    {
      LiveCount(elems[..]);
      LiveCount(y.elems[..]);
      if size != y.size {
        return false;
      }
      equal := ContainedIn(y);
      ContainedExactly(elems[..], y.Contents());
    }

    // --------------------------------------------------------------- visitation

    /** One lookup per key: the entries visited, in key order. */
    method VisitEach(keys: seq<Key>) returns (visited: seq<Entry>)
      requires Valid()
      ensures visited == VisitsOf(keys, Contents())
    {
      visited := [];
      assert keys[..|keys|] == keys;
      for t := 0 to |keys|
        modifies {}
        invariant visited == VisitsOf(keys[..t], Contents())
      {
        VisitsExtend(keys, t, Contents());
        var found := Find(keys[t]);
        if found.Some? {
          visited := visited + [elems[found.value].value];
        }
      }
    }

    /** Leave a group without the key: the search is over, or goes on with the next group. */
    method LeaveGroup(k: Key, hash: Hash64, pb: QuadraticProber) returns (over: bool)
      requires Valid() && hash == hasher(k) && Searched(k, pb) && Absent(elems[..], k, pb.pos)
      modifies pb
      ensures over ==> k !in Contents()
      ensures !over ==> Searched(k, pb) && pb.step > old(pb.step)
    {
      AbsentOneMore(elems[..], exp, hash, k, pb.step);
      if Bit(hash) !in overflow[pb.pos] {
        SearchComplete(View(), hasher, k, pb.step);
        return true;
      }
      var more := pb.Next(Pow2(exp) - 1, exp);
      if !more {
        SearchComplete(View(), hasher, k, pb.step - 1);
        return true;
      }
      over := false;
    }

    /** Skip whole groups until the next one with a match, or until the search is over. */
    method SkipGroups(k: Key, hash: Hash64, pb: QuadraticProber) returns (over: bool, mask: set<nat>)
      requires Valid() && hash == hasher(k) && Searched(k, pb) && Absent(elems[..], k, pb.pos)
      modifies pb
      ensures over ==> k !in Contents()
      ensures !over ==> Searched(k, pb) && pb.step > old(pb.step) && mask == MatchSet(tags[..], pb.pos, Tag(hash))
    {
      mask := {};
      while mask == {}
        invariant Searched(k, pb) && old(pb.step) <= pb.step
        invariant mask == {} ==> Absent(elems[..], k, pb.pos)
        invariant mask != {} ==> pb.step > old(pb.step) && mask == MatchSet(tags[..], pb.pos, Tag(hash))
        decreases Pow2(exp) - pb.step, mask == {}
      {
        over := LeaveGroup(k, hash, pb);
        if over {
          return;
        }
        GroupFits(exp, pb.pos);
        mask := Match(tags, pb.pos, Tag(hash));
        if mask == {} {
          UnmatchedAbsent(View(), hasher, k, pb.pos, {});
        }
      }
      over := false;
    }

    /** The search of bulk visitation, from a position and a mask computed earlier. */
    method BulkSearch(k: Key, hash: Hash64, pos0: nat, mask0: set<nat>) returns (found: Option<nat>)
      requires Valid() && hash == hasher(k) && pos0 == Home(hash, exp)
      requires mask0 == MatchSet(tags[..], pos0, Tag(hash))
      ensures found.Some? <==> k in Contents()
      ensures found.Some? ==> HasKey(elems[..], found.value, k)
    {
      var mask := mask0;
      var pb := new QuadraticProber(pos0);
      WalkStartsHome(pos0, Pow2(exp));
      while true
        invariant Valid() && fresh(pb) && Searched(k, pb)
        invariant mask == MatchSet(tags[..], pb.pos, Tag(hash))
        decreases Pow2(exp) - pb.step
      {
        if mask != {} {
          found := ScanMask(k, pb.pos, mask);
          if found.Some? {
            return;
          }
        } else {
          UnmatchedAbsent(View(), hasher, k, pb.pos, {});
        }
        var over;
        over, mask := SkipGroups(k, hash, pb);
        if over {
          return None;
        }
      }
    }

    /** Hash and position of a chunk of keys, the buffers being filled from the back. */
    method HashChunk(keys: seq<Key>, first: nat, m: nat) returns (hashes: array<Hash64>, positions: array<nat>)
      requires m < 2 * BULK_VISIT_SIZE && first + m <= |keys|
      ensures fresh(hashes) && fresh(positions)
      ensures hashes.Length == positions.Length == 2 * BULK_VISIT_SIZE - 1
      ensures forall j :: 0 <= j < m ==>
                hashes[j] == hasher(keys[first + (m - 1 - j)]) && positions[j] == Home(hashes[j], exp)
    {
      hashes, positions := new Hash64[2 * BULK_VISIT_SIZE - 1], new nat[2 * BULK_VISIT_SIZE - 1];
      var i, it := m, first;
      while i != 0
        modifies hashes, positions
        invariant 0 <= i <= m && it == first + (m - i)
        invariant forall j :: i <= j < m ==>
                    hashes[j] == hasher(keys[first + (m - 1 - j)]) && positions[j] == Home(hashes[j], exp)
      {
        i := i - 1;
        hashes[i] := hasher(keys[it]);
        positions[i] := Home(hashes[i], exp);
        it := it + 1;
      }
    }

    /** The first match of each key of a chunk. */
    method MatchChunk(hashes: array<Hash64>, positions: array<nat>, m: nat) returns (masks: array<set<nat>>)
      requires Valid() && m <= hashes.Length == positions.Length == 2 * BULK_VISIT_SIZE - 1
      requires forall j :: 0 <= j < m ==> positions[j] == Home(hashes[j], exp)
      ensures fresh(masks) && masks.Length == hashes.Length
      ensures forall j :: 0 <= j < m ==> masks[j] == MatchSet(tags[..], positions[j], Tag(hashes[j]))
    {
      masks := new set<nat>[2 * BULK_VISIT_SIZE - 1];
      var i := m;
      while i != 0
        modifies masks
        invariant 0 <= i <= m
        invariant forall j :: i <= j < m ==> masks[j] == MatchSet(tags[..], positions[j], Tag(hashes[j]))
      {
        i := i - 1;
        GroupFits(exp, positions[i]);
        masks[i] := Match(tags, positions[i], Tag(hashes[i]));
      }
    }

    /** Visit m keys starting at `first`; hashes, positions and masks of the whole chunk are computed up front. */
    method BulkChunk(keys: seq<Key>, first: nat, m: nat) returns (visited: seq<Entry>)
      requires Valid() && m < 2 * BULK_VISIT_SIZE && first + m <= |keys|
      ensures visited == VisitsOf(keys[first..first + m], Contents())
    {
      var hashes, positions := HashChunk(keys, first, m);
      var masks := MatchChunk(hashes, positions, m);
      visited := [];
      var i, it := m, first;
      while i != 0
        modifies {}
        invariant 0 <= i <= m && it == first + (m - i)
        invariant visited == VisitsOf(keys[first..it], Contents())
      {
        i := i - 1;
        VisitsNext(keys, first, it, Contents());
        var found := BulkSearch(keys[it], hashes[i], positions[i], masks[i]);
        if found.Some? {
          visited := visited + [elems[found.value].value];
        }
        it := it + 1;
      }
    }

    /** Chunks of 16, the last one of up to 31 keys. */
    method BulkVisit(keys: seq<Key>) returns (count: nat, visited: seq<Entry>)
      requires Valid()
      ensures visited == VisitsOf(keys, Contents())
      ensures count == |visited|
    {
      var n, first := |keys|, 0;
      count, visited := 0, [];
      while n != 0
        invariant 0 <= first && 0 <= n && first + n == |keys|
        invariant visited == VisitsOf(keys[..first], Contents()) && count == |visited|
      {
        var m := if n < 2 * BULK_VISIT_SIZE then n else BULK_VISIT_SIZE;
        var chunk := BulkChunk(keys, first, m);
        VisitsChunk(keys, first, m, Contents());
        count, visited := count + |chunk|, visited + chunk;
        n, first := n - m, first + m;
      }
      assert keys[..first] == keys;
    }
  }

  ghost predicate ContainedUpTo(elems: seq<Option<Entry>>, n: nat, m: map<Key, Value>) {
    forall j :: 0 <= j < n && j < |elems| && elems[j].Some? ==>
      elems[j].value.key in m && m[elems[j].value.key] == elems[j].value.value
  }

  /** One-way containment of equally many elements is equality. */
  lemma ContainedExactly(elems: seq<Option<Entry>>, m: map<Key, Value>)
    requires Distinct(elems) && |ContentsOf(elems)| == |m|
    ensures ContainedUpTo(elems, |elems|, m) <==> ContentsOf(elems) == m
  {
    assert forall i: nat :: i < |elems| && elems[i].Some? ==> HasKey(elems, i, elems[i].value.key);
    if ContainedUpTo(elems, |elems|, m) {
      forall k | k in ContentsOf(elems) ensures k in m && ContentsOf(elems)[k] == m[k] {
        var x: nat :| HasKey(elems, x, k);
      }
      SubmapSameSize(ContentsOf(elems), m);
    }
  }

  const BULK_VISIT_SIZE: nat := 16

  /** The entries a visitation of these keys meets, in order. */
  ghost function VisitsOf(keys: seq<Key>, m: map<Key, Value>): seq<Entry> {
    if keys == [] then [] else
      var k := keys[|keys| - 1];
      VisitsOf(keys[..|keys| - 1], m) + if k in m then [Entry(k, m[k])] else []
  }

  lemma VisitsExtend(keys: seq<Key>, t: nat, m: map<Key, Value>)
    requires t < |keys|
    ensures VisitsOf(keys[..t + 1], m)
         == VisitsOf(keys[..t], m) + if keys[t] in m then [Entry(keys[t], m[keys[t]])] else []
  {
    assert keys[..t + 1][..t] == keys[..t];
  }

  lemma VisitsNext(keys: seq<Key>, first: nat, it: nat, m: map<Key, Value>)
    requires first <= it < |keys|
    ensures VisitsOf(keys[first..it + 1], m)
         == VisitsOf(keys[first..it], m) + if keys[it] in m then [Entry(keys[it], m[keys[it]])] else []
  {
    VisitsExtend(keys[first..], it - first, m);
    assert keys[first..][..it - first] == keys[first..it];
    assert keys[first..][..it - first + 1] == keys[first..it + 1];
  }

  lemma VisitsChunk(keys: seq<Key>, first: nat, n: nat, m: map<Key, Value>)
    requires first + n <= |keys|
    ensures VisitsOf(keys[..first + n], m) == VisitsOf(keys[..first], m) + VisitsOf(keys[first..first + n], m)
  {
    VisitsConcat(keys[..first], keys[first..first + n], m);
    assert keys[..first] + keys[first..first + n] == keys[..first + n];
  }

  lemma {:induction false} VisitsConcat(a: seq<Key>, b: seq<Key>, m: map<Key, Value>)
    ensures VisitsOf(a + b, m) == VisitsOf(a, m) + VisitsOf(b, m)
  {
    if b == [] {
      assert a + b == a;
    } else {
      var last := |b| - 1;
      VisitsConcat(a, b[..last], m);
      assert (a + b)[..|a + b| - 1] == a + b[..last];
    }
  }

  lemma SubmapSameSize(a: map<Key, Value>, b: map<Key, Value>)
    requires |a| == |b|
    requires forall k :: k in a ==> k in b && a[k] == b[k]
    ensures a == b
  {
    SubsetSameSize(a.Keys, b.Keys);
  }

  /** Every group met before probe j is free of k. */
  ghost predicate AbsentBefore(elems: seq<Option<Entry>>, exp: nat, hash: Hash64, k: Key, j: nat) {
    forall i: nat :: i < j ==> Absent(elems, k, ProbeGroup(exp, hash, i))
  }

  lemma AbsentOneMore(elems: seq<Option<Entry>>, exp: nat, hash: Hash64, k: Key, j: nat)
    requires AbsentBefore(elems, exp, hash, k, j) && Absent(elems, k, ProbeGroup(exp, hash, j))
    ensures AbsentBefore(elems, exp, hash, k, j + 1)
  {
  }

  lemma EmptyElements(elems: seq<Option<Entry>>)
    requires forall x :: 0 <= x < |elems| ==> elems[x] == None
    ensures Distinct(elems) && ContentsOf(elems) == map[] && Live(elems) == {}
  {
    assert forall x: nat, k: Key :: !HasKey(elems, x, k);
    assert ContentsOf(elems).Keys == {};
  }

  /** What a merge has done after the first i slots of the source. */
  ghost predicate MergedUpTo(source: seq<Option<Entry>>, mine: map<Key, Value>, i: nat,
                             target: map<Key, Value>, rest: map<Key, Value>, slots: seq<Option<Entry>>)
  {
    && Distinct(source) && i <= |source| && Distinct(source[..i])
    && target == ContentsOf(source[..i]) + mine
    && rest == Unmoved(ContentsOf(source), ContentsOf(source[..i]), mine)
    && SameFrom(source, slots, i)
  }

  /** The next slot: nothing happens if it is free or its key is already here, otherwise its element moves. */
  lemma MergedNext(source: seq<Option<Entry>>, mine: map<Key, Value>, i: nat,
                   target: map<Key, Value>, rest: map<Key, Value>, slots: seq<Option<Entry>>)
    requires MergedUpTo(source, mine, i, target, rest, slots) && i < |source|
    ensures i < |slots| && slots[i] == source[i]
    ensures match slots[i]
            case None => MergedUpTo(source, mine, i + 1, target, rest, slots)
            case Some(e) =>
              if e.key in target then MergedUpTo(source, mine, i + 1, target, rest, slots)
              else MergedUpTo(source, mine, i + 1, target[e.key := e.value], rest - {e.key}, slots[i := None])
  {
    MergeStep(source, i, mine, ContentsOf(source));
  }

  ghost predicate SameFrom(a: seq<Option<Entry>>, b: seq<Option<Entry>>, i: nat) {
    |a| == |b| && forall j :: i <= j < |a| ==> a[j] == b[j]
  }

  /** What is left of a source map once the keys of `done` have been offered to `mine`. */
  ghost function Unmoved(theirs: map<Key, Value>, done: map<Key, Value>, mine: map<Key, Value>): map<Key, Value> {
    map k | k in theirs && (k in done ==> k in mine) :: theirs[k]
  }

  lemma UnmovedAll(theirs: map<Key, Value>, mine: map<Key, Value>)
    ensures Unmoved(theirs, theirs, mine) == theirs - (theirs.Keys - mine.Keys)
    ensures Unmoved(theirs, map[], mine) == theirs
  {
  }

  lemma MergeMaps(m: map<Key, Value>, mine: map<Key, Value>, theirs: map<Key, Value>, k: Key, v: Value)
    requires k !in m
    ensures k in m + mine <==> k in mine
    ensures k in mine ==> m[k := v] + mine == m + mine && Unmoved(theirs, m[k := v], mine) == Unmoved(theirs, m, mine)
    ensures k !in mine ==> m[k := v] + mine == (m + mine)[k := v]
    ensures k !in mine ==> Unmoved(theirs, m[k := v], mine) == Unmoved(theirs, m, mine) - {k}
  {
  }

  lemma MergeStep(source: seq<Option<Entry>>, i: nat, mine: map<Key, Value>, theirs: map<Key, Value>)
    requires Distinct(source) && i < |source|
    ensures Distinct(source[..i]) && Distinct(source[..i + 1])
    ensures var m, m' := ContentsOf(source[..i]), ContentsOf(source[..i + 1]);
            match source[i]
            case None => m' == m
            case Some(e) =>
              && (e.key in m + mine <==> e.key in mine)
              && m' + mine == (if e.key in mine then m + mine else (m + mine)[e.key := e.value])
              && Unmoved(theirs, m', mine)
                 == (if e.key in mine then Unmoved(theirs, m, mine) else Unmoved(theirs, m, mine) - {e.key})
  {
    PrefixContents(source, i);
    if source[i].Some? {
      MergeMaps(ContentsOf(source[..i]), mine, theirs, source[i].value.key, source[i].value.value);
    }
  }

  /** Elements requested when growing: the present ones, one more, and a 1/61 margin
   *  against coming back to the same capacity after erasures.
   */
  function GrowthTarget(size: nat): nat {
    AtMaxLoadFactor(size + size / 61 + 1)
  }

  /** After growth there is room for the present elements and one more. */
  lemma GrowthSuffices(size: nat)
    ensures GrowthTarget(size) > 0
    ensures size + 1 <= InitialMaxLoad(CapacityFor(GrowthTarget(size)))
  {
    CapacitySuffices(GrowthTarget(size));
    LoadSuffices(size + size / 61 + 1, CapacityFor(GrowthTarget(size)));
  }

  /** Growth stays within the arrays of an exponent exactly when the present elements, a 61st of
   *  them and one more fill no more than seven eighths of the slots.
   */
  lemma GrowthJumpsExactly(size: nat, exp: nat)
    requires exp >= 1
    ensures CapacityFor(GrowthTarget(size)) <= CapacityOf(exp) <==> 8 * (size + size / 61 + 1) <= 7 * CapacityOf(exp)
  {
    CapacityExactly(GrowthTarget(size), exp);
  }

  function OptionMap(extra: Option<Entry>): map<Key, Value> {
    if extra.None? then map[] else map[extra.value.key := extra.value.value]
  }

  /** Fresh arrays for n elements that hold the optional new element only. */
  method FreshWith(h: Hasher, n: nat, extra: Option<Entry>)
    returns (exp: nat, dummy: bool, tags: array<nat>, overflow: array<set<nat>>, elems: array<Option<Entry>>)
    requires extra.Some? ==> n > 0
    ensures fresh(tags) && fresh(overflow) && fresh(elems)
    ensures exp == ExponentForElements(n) && dummy == (n == 0)
    ensures WellPlaced(LayoutOf(exp, dummy, tags, overflow, elems), h)
    ensures ContentsOf(elems[..]) == OptionMap(extra)
    ensures |Live(elems[..])| == if extra.Some? then 1 else 0
  {
    exp, dummy, tags, overflow, elems := NewArrays(n);
    EmptySettles(n, h);
    if extra.Some? {
      CapacitySuffices(n);
      var _, _ := EmplaceAt(h, exp, tags, overflow, elems, extra.value);
    }
  }

  /** Fresh arrays for n elements that hold the optional new element and all old ones. */
  method Rebuilt(h: Hasher, ghost from: Layout, from_dummy: bool, old_tags: array<nat>, old_elems: array<Option<Entry>>,
                 n: nat, extra: Option<Entry>)
    returns (exp: nat, dummy: bool, tags: array<nat>, overflow: array<set<nat>>, elems: array<Option<Entry>>)
    requires WellPlaced(from, h) && from.dummy == from_dummy && from.tags == old_tags[..] && from.elems == old_elems[..]
    requires extra.Some? ==> extra.value.key !in ContentsOf(from.elems)
    requires var m := |Live(from.elems)| + if extra.Some? then 1 else 0;
             if n == 0 then m == 0 else m <= CapacityFor(n)
    requires extra.Some? ==> n > 0
    ensures fresh(tags) && fresh(overflow) && fresh(elems)
    ensures exp == ExponentForElements(n) && dummy == (n == 0)
    ensures WellPlaced(LayoutOf(exp, dummy, tags, overflow, elems), h)
    ensures ContentsOf(elems[..]) == OptionMap(extra) + ContentsOf(from.elems)
    ensures |Live(elems[..])| == |Live(from.elems)| + if extra.Some? then 1 else 0
  {
    exp, dummy, tags, overflow, elems := FreshWith(h, n, extra);
    if from_dummy || n == 0 {
      // no element to move
      NoElements(from, h);
    } else {
      TransferAll(h, from, old_tags, old_elems, exp, tags, overflow, elems);
    }
  }

  lemma NoElements(from: Layout, h: Hasher)
    requires WellPlaced(from, h)
    requires from.dummy || |Live(from.elems)| == 0
    ensures ContentsOf(from.elems) == map[] && |Live(from.elems)| == 0
  {
    if from.dummy {
      assert Live(from.elems) == {};
    }
    LiveCount(from.elems);
    assert ContentsOf(from.elems).Keys == {};
  }

  // ---------------------------------------------------- sequences of operations

  datatype Op = Put(e: Entry) | Drop(k: Key) | Wipe | Resize(n: nat)

  /** What an operation does to the plain map. */
  function Applied(m: map<Key, Value>, op: Op): map<Key, Value> {
    match op
    case Put(e) => if e.key in m then m else m[e.key := e.value]
    case Drop(k) => m - {k}
    case Wipe => map[]
    case Resize(_) => m
  }

  function AllApplied(m: map<Key, Value>, ops: seq<Op>): map<Key, Value> {
    if ops == [] then m else Applied(AllApplied(m, ops[..|ops| - 1]), ops[|ops| - 1])
  }

  method Perform(t: Table, op: Op)
    requires t.Valid()
    modifies t, t.tags, t.overflow, t.elems
    ensures t.Valid()
    ensures t.Contents() == Applied(old(t.Contents()), op)
    ensures t.tags == old(t.tags) || fresh(t.tags)
    ensures t.overflow == old(t.overflow) || fresh(t.overflow)
    ensures t.elems == old(t.elems) || fresh(t.elems)
  {
    match op
    case Put(e) => var _ := t.Emplace(e);
    case Drop(k) => var _ := t.Erase(k);
    case Wipe => t.Clear();
    case Resize(n) => t.Rehash(n);
  }

  /** After any sequence of operations on any table, a lookup finds a key exactly when the plain map has it. */
  method FindAfter(t: Table, ops: seq<Op>, k: Key) returns (found: Option<nat>)
    requires t.Valid()
    modifies t, t.tags, t.overflow, t.elems
    ensures t.Valid() && t.Contents() == AllApplied(old(t.Contents()), ops)
    ensures found.Some? <==> k in AllApplied(old(t.Contents()), ops)
    ensures found.Some? ==> HasKey(t.elems[..], found.value, k)
                            && t.elems[found.value].value.value == AllApplied(old(t.Contents()), ops)[k]
  {
    for i := 0 to |ops|
      invariant t.Valid() && t.Contents() == AllApplied(old(t.Contents()), ops[..i])
      invariant t.tags == old(t.tags) || fresh(t.tags)
      invariant t.overflow == old(t.overflow) || fresh(t.overflow)
      invariant t.elems == old(t.elems) || fresh(t.elems)
    {
      Perform(t, ops[i]);
      assert ops[..i + 1][..i] == ops[..i];
    }
    assert ops[..|ops|] == ops;
    found := t.Find(k);
  }
}
