/** What a successful scan means, without the scanner.
 *
 *  An assignment of lines to the positive directives explains an output when each
 *  directive fits its line and no CHECK-NOT matches a line it is held against.  The
 *  scan passes with an assignment exactly when that assignment explains the output.
 */
module CheckMeaning {
  import opened RunChecks
  import opened Optional

  type Found = map<nat, nat>

  // ------------------------------------------------------------- the description

  /** j .. k are CHECK-DAG directives without a break, so their order is not enforced. */
  predicate SameGroup(ds: seq<Directive>, j: nat, k: nat) {
    k < |ds| && forall m :: j <= m <= k ==> ds[m].kind == Dag
  }

  /** Directive q comes before j and is not in the same group. */
  predicate EarlierUnit(ds: seq<Directive>, q: nat, j: nat) { q < j && !SameGroup(ds, q, j) }

  /** Lines are assigned to exactly the positive directives before n. */
  ghost predicate Recorded(ds: seq<Directive>, found: Found, n: nat) {
    n <= |ds| && forall j: nat :: j in found <==> j < n && ds[j].kind != Not
  }

  /** Line l lies after everything found before directive j and its group. */
  ghost predicate AfterEarlier(ds: seq<Directive>, found: Found, j: nat, l: nat) {
    forall q: nat :: q in found && EarlierUnit(ds, q, j) ==> found[q] < l
  }

  /** Only CHECK-NOT directives lie between j and n. */
  predicate OnlyNots(ds: seq<Directive>, j: nat, n: nat) {
    n <= |ds| && forall k :: j < k < n ==> ds[k].kind == Not
  }

  /** Directive j lies after label a and before the next label. */
  predicate Under(ds: seq<Directive>, a: nat, j: nat) {
    j < |ds| && LastLabel(ds, a, j) && ds[j].kind != Label
  }

  /** a is the last label before i. */
  predicate LastLabel(ds: seq<Directive>, a: nat, i: nat) {
    a < i <= |ds| && ds[a].kind == Label && forall k :: a < k < i ==> ds[k].kind != Label
  }

  /** Where the region of label a ends: at the first later line the next label can match. */
  ghost function RegionEnd(lines: seq<Line>, ds: seq<Directive>, found: Found, a: nat): (e: nat)
    requires a < |ds| && a in found
    ensures e <= |lines|
  {
    Bound(lines, ds, found[a] + 1, a + 1)
  }

  ghost predicate TakesFirst(lines: seq<Line>, ds: seq<Directive>, found: Found, j: nat)
    requires j < |ds| && j in found
  {
    forall l: nat :: l < found[j] && AfterEarlier(ds, found, j, l) ==> !HitAt(lines, ds[j].pattern, l)
  }

  /** The line is 0 or the one after the furthest line found so far. */
  ghost predicate RightAfter(found: Found, j: nat)
    requires j in found
  {
    found[j] > 0 ==> exists q: nat :: q in found && q < j && found[q] + 1 == found[j]
  }

  ghost predicate InRegion(lines: seq<Line>, ds: seq<Directive>, found: Found, j: nat)
    requires j in found
  {
    forall a: nat :: a in found && Under(ds, a, j) ==> found[j] < RegionEnd(lines, ds, found, a)
  }

  /** Directive j matches its line, after all earlier ones; a CHECK-NEXT the very next line, any other
   *  directive the first line it can, and a CHECK or CHECK-DAG only inside its region.
   */
  ghost predicate Fits(lines: seq<Line>, ds: seq<Directive>, found: Found, j: nat)
    requires j < |ds| && j in found
  {
    && HitAt(lines, ds[j].pattern, found[j])
    && AfterEarlier(ds, found, j, found[j])
    && (ds[j].kind == Next ==> RightAfter(found, j))
    && (ds[j].kind != Next ==> TakesFirst(lines, ds, found, j))
    && (ds[j].kind == Check || ds[j].kind == Dag ==> InRegion(lines, ds, found, j))
  }

  /** p is the last positive directive before n. */
  ghost predicate LastBefore(ds: seq<Directive>, found: Found, p: nat, n: nat) {
    p in found && p < n && OnlyNots(ds, p, n)
  }

  /** Line l was scanned for p's group: not after everything the group found. */
  ghost predicate ReachedBy(ds: seq<Directive>, found: Found, p: nat, l: nat) {
    exists r: nat :: r in found && (r == p || SameGroup(ds, r, p)) && r <= p && l <= found[r]
  }

  /** The lines CHECK-NOT n is held against: those scanned for the positive directive or group before it, and
   *  if no positive directive follows, all after these as well.
   */
  ghost predicate HeldAgainst(ds: seq<Directive>, found: Found, n: nat, l: nat) {
    && (forall p: nat :: LastBefore(ds, found, p, n) ==> AfterEarlier(ds, found, p, l))
    && (OnlyNots(ds, n, |ds|) || exists p: nat :: LastBefore(ds, found, p, n) && ReachedBy(ds, found, p, l))
  }

  ghost predicate Obeyed(lines: seq<Line>, ds: seq<Directive>, found: Found, n: nat)
    requires n < |ds|
  {
    ds[n].pattern.Regex? && forall l: nat :: HeldAgainst(ds, found, n, l) ==> !HitAt(lines, ds[n].pattern, l)
  }

  ghost predicate AllFit(lines: seq<Line>, ds: seq<Directive>, found: Found) {
    forall j: nat :: j in found ==> j < |ds| && Fits(lines, ds, found, j)
  }

  /** The assignment accounts for every directive. */
  ghost predicate Explains(lines: seq<Line>, ds: seq<Directive>, found: Found) {
    && Recorded(ds, found, |ds|) && AllFit(lines, ds, found)
    && (forall n: nat :: n < |ds| && ds[n].kind == Not ==> Obeyed(lines, ds, found, n))
  }

  // ------------------------------------------------------------- the invariant

  /** The scanner never stops inside a group. */
  predicate AtBoundary(ds: seq<Directive>, i: nat) {
    0 < i < |ds| && ds[i].kind == Dag ==> ds[i - 1].kind != Dag
  }

  /** Position pos comes right after everything found. */
  ghost predicate Tight(found: Found, pos: nat) {
    && (forall q: nat :: q in found ==> found[q] < pos)
    && (pos > 0 ==> exists q: nat :: q in found && found[q] + 1 == pos)
  }

  /** The window starts right after everything found before the last group; at 0 if nothing was found. */
  ghost predicate WindowOf(ds: seq<Directive>, s: State, p: nat) {
    LastBefore(ds, s.found, p, s.i) ==>
      && AfterEarlier(ds, s.found, p, s.windowStart)
      && (s.windowStart > 0 ==> exists q: nat :: q in s.found && EarlierUnit(ds, q, p) && s.found[q] + 1 == s.windowStart)
  }

  /** CHECK-NOT n has been dealt with, or waits in the list. */
  ghost predicate NotKept(lines: seq<Line>, ds: seq<Directive>, s: State, n: nat)
    requires n < |ds|
  {
    if OnlyNots(ds, n, s.i) then n in s.pending else Passes(lines, ds, s.found, n)
  }

  /** CHECK-NOT n matches no line scanned for the positive directive or group before it. */
  ghost predicate Passes(lines: seq<Line>, ds: seq<Directive>, found: Found, n: nat)
    requires n < |ds|
  {
    && ds[n].pattern.Regex?
    && forall p: nat, l: nat :: LastBefore(ds, found, p, n) && AfterEarlier(ds, found, p, l) && ReachedBy(ds, found, p, l) ==>
         !HitAt(lines, ds[n].pattern, l)
  }

  ghost predicate Region(lines: seq<Line>, ds: seq<Directive>, s: State) {
    && (forall a: nat :: a in s.found && LastLabel(ds, a, s.i) ==> s.regionEnd == RegionEnd(lines, ds, s.found, a))
    && ((forall a: nat :: a < s.i && a < |ds| ==> ds[a].kind != Label) ==> s.regionEnd == |lines|)
  }

  ghost predicate Windows(ds: seq<Directive>, s: State) {
    && (forall p: nat :: WindowOf(ds, s, p))
    && (s.found == map[] ==> s.windowStart == 0)
  }

  ghost predicate NotsKept(lines: seq<Line>, ds: seq<Directive>, s: State)
    requires s.i <= |ds|
  {
    && (forall n: nat :: n < s.i && ds[n].kind == Not ==> NotKept(lines, ds, s, n))
    && (forall k :: 0 <= k < |s.pending| ==> OnlyNots(ds, s.pending[k], s.i))
  }

  ghost predicate Inv(lines: seq<Line>, ds: seq<Directive>, s: State) {
    && Valid(lines, ds, s) && Recorded(ds, s.found, s.i) && AtBoundary(ds, s.i)
    && Tight(s.found, s.pos) && Region(lines, ds, s)
    && AllFit(lines, ds, s.found) && Windows(ds, s) && NotsKept(lines, ds, s)
  }

  // ------------------------------------------- what later directives do not change

  /** more extends found by directives from i on. */
  ghost predicate Extends(found: Found, more: Found, i: nat) {
    && (forall j: nat :: j in found ==> j < i && j in more && more[j] == found[j])
    && (forall j: nat :: j in more && j < i ==> j in found)
  }

  lemma EarlierStays(ds: seq<Directive>, found: Found, more: Found, i: nat, j: nat, l: nat)
    requires Extends(found, more, i) && j <= i
    ensures AfterEarlier(ds, more, j, l) <==> AfterEarlier(ds, found, j, l)
  {
  }

  lemma FitsStays(lines: seq<Line>, ds: seq<Directive>, found: Found, more: Found, i: nat, j: nat)
    requires Extends(found, more, i) && j < i && j < |ds| && j in found
    requires Fits(lines, ds, found, j)
    ensures Fits(lines, ds, more, j)
  {
    forall l: nat ensures AfterEarlier(ds, more, j, l) <==> AfterEarlier(ds, found, j, l) {
      EarlierStays(ds, found, more, i, j, l);
    }
  }

  lemma PassesStays(lines: seq<Line>, ds: seq<Directive>, found: Found, more: Found, i: nat, n: nat)
    requires Extends(found, more, i) && n < i && n < |ds|
    requires Passes(lines, ds, found, n)
    ensures Passes(lines, ds, more, n)
  {
    forall p: nat, l: nat | LastBefore(ds, more, p, n) && AfterEarlier(ds, more, p, l) && ReachedBy(ds, more, p, l)
      ensures !HitAt(lines, ds[n].pattern, l)
    {
      assert LastBefore(ds, found, p, n);
      EarlierStays(ds, found, more, i, p, l);
      assert ReachedBy(ds, found, p, l);
    }
  }

  // ------------------------------------------------------------ one directive more

  lemma TightBelow(found: Found, pos: nat, l: nat)
    requires Tight(found, pos) && forall q: nat :: q in found ==> found[q] < l
    ensures pos <= l
  {
  }

  lemma FirstFits(lines: seq<Line>, ds: seq<Directive>, found: Found, pos: nat, i: nat, l: nat)
    requires Recorded(ds, found, i) && Tight(found, pos) && i < |ds| && ds[i].kind != Dag
    requires forall k :: pos <= k < l ==> !HitAt(lines, ds[i].pattern, k)
    ensures TakesFirst(lines, ds, found[i := l], i)
  {
    var more := found[i := l];
    forall k: nat | k < l && AfterEarlier(ds, more, i, k) ensures !HitAt(lines, ds[i].pattern, k) {
      assert forall q: nat :: q in found ==> EarlierUnit(ds, q, i) && more[q] == found[q];
      TightBelow(found, pos, k);
    }
  }

  lemma InRegionNow(lines: seq<Line>, ds: seq<Directive>, s: State, i: nat, l: nat)
    requires Recorded(ds, s.found, s.i) && Region(lines, ds, s) && s.i <= i < |ds| && l < s.regionEnd
    requires forall k :: s.i <= k <= i ==> ds[k].kind != Label
    ensures forall a: nat :: a in s.found && Under(ds, a, i) ==> l < RegionEnd(lines, ds, s.found, a)
  {
    forall a: nat | a in s.found && Under(ds, a, i) ensures l < RegionEnd(lines, ds, s.found, a) {
      assert LastLabel(ds, a, s.i);
    }
  }

  /** What the scanner records for directive i. */
  lemma FitsNow(lines: seq<Line>, ds: seq<Directive>, s: State, l: nat)
    requires Recorded(ds, s.found, s.i) && Tight(s.found, s.pos) && Region(lines, ds, s)
    requires s.i < |ds| && ds[s.i].kind != Not && ds[s.i].kind != Dag
    requires s.pos <= l && HitAt(lines, ds[s.i].pattern, l)
    requires ds[s.i].kind == Next ==> l == s.pos
    requires ds[s.i].kind != Next ==> forall k :: s.pos <= k < l ==> !HitAt(lines, ds[s.i].pattern, k)
    requires ds[s.i].kind == Check ==> l < s.regionEnd
    ensures Fits(lines, ds, s.found[s.i := l], s.i)
  {
    var i, more := s.i, s.found[s.i := l];
    if ds[i].kind != Next {
      FirstFits(lines, ds, s.found, s.pos, i, l);
    } else if l > 0 {
      var q: nat :| q in s.found && s.found[q] + 1 == s.pos;
      assert q in more && q < i && more[q] + 1 == more[i];
    }
    if ds[i].kind == Check {
      StaysInRegion(lines, ds, s, more, i, l);
    }
  }

  lemma TightNow(ds: seq<Directive>, found: Found, pos: nat, i: nat, l: nat)
    requires Recorded(ds, found, i) && Tight(found, pos) && pos <= l
    ensures Tight(found[i := l], l + 1)
  {
    assert found[i := l][i] + 1 == l + 1;
  }

  /** The facts about a scanner that has gone from s over the positive directives up to t.i. */
  ghost predicate Advanced(lines: seq<Line>, ds: seq<Directive>, s: State, t: State) {
    && s.i < t.i <= |ds| && t.pending == [] && t.windowStart == s.pos
    && (forall k :: s.i <= k < t.i ==> ds[k].kind != Not)
    && (t.i == s.i + 1 || forall k :: s.i <= k < t.i ==> ds[k].kind == Dag)
    && Recorded(ds, t.found, t.i) && AtBoundary(ds, t.i) && Valid(lines, ds, t)
    && Extends(s.found, t.found, s.i) && Tight(t.found, t.pos) && Region(lines, ds, t)
    && (forall j: nat :: j in t.found && j >= s.i ==> Fits(lines, ds, t.found, j))
  }

  lemma {:induction false} FlushedClean(lines: seq<Line>, ds: seq<Directive>, s: State, to: nat, k: nat, n: nat)
    requires Valid(lines, ds, s) && to <= |lines| && k <= |s.pending| && n in s.pending[k..]
    requires FlushFrom(lines, ds, s, to, k).None?
    ensures n < |ds| && ds[n].pattern.Regex? && forall l :: s.windowStart <= l < to ==> !HitAt(lines, ds[n].pattern, l)
    decreases |s.pending| - k
  {
    if s.pending[k] != n {
      assert n in s.pending[k + 1..];
      FlushedClean(lines, ds, s, to, k + 1, n);
    }
  }

  /** Lines scanned for p's group lie in the window. */
  lemma ScannedInWindow(ds: seq<Directive>, s: State, n: nat, p: nat, l: nat)
    requires OnlyNots(ds, n, s.i) && n < s.i && n < |ds| && ds[n].kind == Not && Tight(s.found, s.pos) && WindowOf(ds, s, p)
    requires LastBefore(ds, s.found, p, n) && AfterEarlier(ds, s.found, p, l)
    ensures s.windowStart <= l
    ensures ReachedBy(ds, s.found, p, l) ==> l < s.pos
  {
    assert LastBefore(ds, s.found, p, s.i);
  }

  /** When a positive directive comes, the CHECK-NOTs before it have been held against what was scanned. */
  lemma FlushPasses(lines: seq<Line>, ds: seq<Directive>, s: State, n: nat)
    requires Inv(lines, ds, s) && n < s.i && ds[n].kind == Not && FlushFrom(lines, ds, s, s.pos, 0).None?
    ensures Passes(lines, ds, s.found, n)
  {
    assert NotKept(lines, ds, s, n);
    if OnlyNots(ds, n, s.i) {
      assert s.pending[0..] == s.pending;
      FlushedClean(lines, ds, s, s.pos, 0, n);
      forall p: nat, l: nat | LastBefore(ds, s.found, p, n) && AfterEarlier(ds, s.found, p, l) && ReachedBy(ds, s.found, p, l)
        ensures !HitAt(lines, ds[n].pattern, l)
      {
        assert WindowOf(ds, s, p);
        ScannedInWindow(ds, s, n, p, l);
      }
    }
  }

  /** Directives i .. e are one group or one directive: what is earlier than them is before i. */
  lemma UnitStarts(ds: seq<Directive>, i: nat, e: nat, q: nat, p: nat)
    requires AtBoundary(ds, i) && i <= p < e <= |ds| && q < p
    requires e == i + 1 || forall k :: i <= k < e ==> ds[k].kind == Dag
    ensures EarlierUnit(ds, q, p) <==> q < i
  {
  }

  lemma WindowMoves(lines: seq<Line>, ds: seq<Directive>, s: State, t: State, p: nat)
    requires Recorded(ds, s.found, s.i) && AtBoundary(ds, s.i) && Tight(s.found, s.pos) && Advanced(lines, ds, s, t)
    ensures WindowOf(ds, t, p)
  {
    if LastBefore(ds, t.found, p, t.i) {
      assert ds[s.i].kind != Not;
      assert p >= s.i;
      forall q: nat | q in t.found && EarlierUnit(ds, q, p) ensures t.found[q] < s.pos {
        UnitStarts(ds, s.i, t.i, q, p);
      }
      if s.pos > 0 {
        var q: nat :| q in s.found && s.found[q] + 1 == s.pos;
        UnitStarts(ds, s.i, t.i, q, p);
        assert q in t.found && EarlierUnit(ds, q, p);
      }
    }
  }

  /** Going over a group or a directive keeps the invariant. */
  lemma AdvancedKeeps(lines: seq<Line>, ds: seq<Directive>, s: State, t: State)
    requires Inv(lines, ds, s) && FlushFrom(lines, ds, s, s.pos, 0).None? && Advanced(lines, ds, s, t)
    ensures Inv(lines, ds, t)
  {
    forall j: nat | j in t.found ensures j < |ds| && Fits(lines, ds, t.found, j) {
      if j < s.i {
        FitsStays(lines, ds, s.found, t.found, s.i, j);
      }
    }
    forall p: nat ensures WindowOf(ds, t, p) {
      WindowMoves(lines, ds, s, t, p);
    }
    forall n: nat | n < t.i && ds[n].kind == Not ensures NotKept(lines, ds, t, n) {
      assert n < s.i && ds[s.i].kind != Not;
      assert !OnlyNots(ds, n, t.i);
      FlushPasses(lines, ds, s, n);
      PassesStays(lines, ds, s.found, t.found, s.i, n);
    }
    assert s.i in t.found;
  }

  lemma PositiveMatches(lines: seq<Line>, ds: seq<Directive>, s: State) returns (t: State, l: nat)
    requires Valid(lines, ds, s) && s.i < |ds| && ds[s.i].kind != Not && ds[s.i].kind != Dag && Positive(lines, ds, s).Go?
    ensures Positive(lines, ds, s) == Go(t) && Valid(lines, ds, t)
    ensures s.pos <= l && HitAt(lines, ds[s.i].pattern, l) && t.pos == l + 1
    ensures ds[s.i].kind == Next ==> l == s.pos
    ensures ds[s.i].kind != Next ==> forall k :: s.pos <= k < l ==> !HitAt(lines, ds[s.i].pattern, k)
    ensures ds[s.i].kind == Check ==> l < s.regionEnd
    ensures t.i == s.i + 1 && t.found == s.found[s.i := l] && t.pending == s.pending && t.windowStart == s.windowStart
    ensures t.regionEnd == if ds[s.i].kind == Label then Bound(lines, ds, l + 1, s.i + 1) else s.regionEnd
  {
    t := Positive(lines, ds, s).s;
    l := t.pos - 1;
  }

  /** Without a label in between the region stays the same. */
  lemma RegionStays(lines: seq<Line>, ds: seq<Directive>, s: State, t: State)
    requires Recorded(ds, s.found, s.i) && Region(lines, ds, s) && s.i <= t.i <= |ds| && Recorded(ds, t.found, t.i)
    requires t.regionEnd == s.regionEnd && Extends(s.found, t.found, s.i)
    requires forall k :: s.i <= k < t.i ==> ds[k].kind != Label
    ensures Region(lines, ds, t)
  {
    forall a: nat | a in t.found && LastLabel(ds, a, t.i) ensures t.regionEnd == RegionEnd(lines, ds, t.found, a) {
      assert a in s.found && LastLabel(ds, a, s.i);
    }
  }

  lemma RegionOpens(lines: seq<Line>, ds: seq<Directive>, t: State, i: nat, l: nat)
    requires i < |ds| && ds[i].kind == Label && t.i == i + 1 && t.regionEnd == Bound(lines, ds, l + 1, i + 1)
    requires Recorded(ds, t.found, t.i) && i in t.found && t.found[i] == l
    ensures Region(lines, ds, t)
  {
    forall a: nat | a in t.found && LastLabel(ds, a, t.i) ensures t.regionEnd == RegionEnd(lines, ds, t.found, a) {
      assert a == i;
    }
  }

  lemma RegionNow(lines: seq<Line>, ds: seq<Directive>, s: State, t: State, l: nat)
    requires Recorded(ds, s.found, s.i) && Region(lines, ds, s) && s.i < |ds| && ds[s.i].kind != Not
    requires t.i == s.i + 1 && t.found == s.found[s.i := l]
    requires t.regionEnd == if ds[s.i].kind == Label then Bound(lines, ds, l + 1, s.i + 1) else s.regionEnd
    ensures Region(lines, ds, t)
  {
    if ds[s.i].kind == Label {
      RegionOpens(lines, ds, t, s.i, l);
    } else {
      RegionStays(lines, ds, s, t);
    }
  }

  lemma PositiveAdvances(lines: seq<Line>, ds: seq<Directive>, s: State)
    requires Valid(lines, ds, s) && s.i < |ds| && ds[s.i].kind != Not && ds[s.i].kind != Dag && s.pending == []
    requires Recorded(ds, s.found, s.i) && Tight(s.found, s.pos) && Region(lines, ds, s) && s.windowStart == s.pos
    ensures var r := Positive(lines, ds, s); r.Go? ==> Advanced(lines, ds, s, r.s)
  {
    if Positive(lines, ds, s).Go? {
      var t, l := PositiveMatches(lines, ds, s);
      OneAdvances(lines, ds, s, t, l);
    }
  }

  lemma OneAdvances(lines: seq<Line>, ds: seq<Directive>, s: State, t: State, l: nat)
    requires s.i < |ds| && ds[s.i].kind != Not && ds[s.i].kind != Dag && s.windowStart == s.pos && s.pending == []
    requires Recorded(ds, s.found, s.i) && Tight(s.found, s.pos) && Region(lines, ds, s)
    requires t.i == s.i + 1 && t.pos == l + 1 && t.found == s.found[s.i := l] && t.pending == [] && t.windowStart == s.windowStart
    requires t.regionEnd == if ds[s.i].kind == Label then Bound(lines, ds, l + 1, s.i + 1) else s.regionEnd
    requires Valid(lines, ds, s) && Valid(lines, ds, t) && s.pos <= l && HitAt(lines, ds[s.i].pattern, l)
    requires ds[s.i].kind == Next ==> l == s.pos
    requires ds[s.i].kind != Next ==> forall k :: s.pos <= k < l ==> !HitAt(lines, ds[s.i].pattern, k)
    requires ds[s.i].kind == Check ==> l < s.regionEnd
    ensures Advanced(lines, ds, s, t)
  {
    FitsNow(lines, ds, s, l);
    TightNow(ds, s.found, s.pos, s.i, l);
    RegionNow(lines, ds, s, t, l);
    OneMoreExtends(ds, s.found, s.found, s.i, s.i, l);
  }

  // --------------------------------------------------------------- a whole group

  /** Where a group can start. */
  ghost predicate GroupStart(lines: seq<Line>, ds: seq<Directive>, s: State) {
    s.i <= |ds| && AtBoundary(ds, s.i) && Recorded(ds, s.found, s.i) && Tight(s.found, s.pos) && Region(lines, ds, s)
  }

  /** A scanner inside a group: directives begin .. d have been looked up from line `from` on. */
  ghost predicate InGroup(lines: seq<Line>, ds: seq<Directive>, s: State, t: State, d: nat) {
    && s.i <= d <= |ds| && (forall k :: s.i <= k < d ==> ds[k].kind == Dag)
    && Valid(lines, ds, t) && t.pending == [] && t.windowStart == s.pos && t.regionEnd == s.regionEnd
    && Recorded(ds, t.found, d) && Extends(s.found, t.found, s.i) && Tight(t.found, t.pos) && s.pos <= t.pos
    && GroupFit(lines, ds, t.found, s.i)
  }

  /** What is earlier than a member of the group was found before the group. */
  lemma EarlierThanGroup(ds: seq<Directive>, before: Found, more: Found, i: nat, d: nat, l: nat)
    requires AtBoundary(ds, i) && i <= d < |ds| && (forall k :: i <= k <= d ==> ds[k].kind == Dag)
    requires Recorded(ds, before, i) && Extends(before, more, i)
    ensures AfterEarlier(ds, more, d, l) <==> forall q: nat :: q in before ==> before[q] < l
  {
    forall q: nat | q in more && q < d ensures EarlierUnit(ds, q, d) <==> q in before {
      UnitStarts(ds, i, d + 1, q, d);
    }
  }

  lemma GroupTakesFirst(lines: seq<Line>, ds: seq<Directive>, before: Found, more: Found, pos: nat, i: nat, d: nat, l: nat)
    requires AtBoundary(ds, i) && i <= d < |ds| && (forall k :: i <= k <= d ==> ds[k].kind == Dag)
    requires Recorded(ds, before, i) && Extends(before, more, i) && Tight(before, pos)
    requires d in more && more[d] == l && pos <= l && forall k :: pos <= k < l ==> !HitAt(lines, ds[d].pattern, k)
    ensures AfterEarlier(ds, more, d, l) && TakesFirst(lines, ds, more, d)
  {
    EarlierThanGroup(ds, before, more, i, d, l);
    forall k: nat | k < l && AfterEarlier(ds, more, d, k) ensures !HitAt(lines, ds[d].pattern, k) {
      EarlierThanGroup(ds, before, more, i, d, k);
      TightBelow(before, pos, k);
    }
  }

  lemma GroupFits(lines: seq<Line>, ds: seq<Directive>, s: State, more: Found, d: nat, l: nat)
    requires AtBoundary(ds, s.i) && s.i <= d < |ds| && (forall k :: s.i <= k <= d ==> ds[k].kind == Dag)
    requires Recorded(ds, s.found, s.i) && Extends(s.found, more, s.i) && Tight(s.found, s.pos) && Region(lines, ds, s)
    requires s.regionEnd <= |lines| && First(lines, ds[d].pattern, s.pos, s.regionEnd) == Some(l)
    requires d in more && more[d] == l
    ensures Fits(lines, ds, more, d)
  {
    GroupTakesFirst(lines, ds, s.found, more, s.pos, s.i, d, l);
    StaysInRegion(lines, ds, s, more, d, l);
  }

  lemma StaysInRegion(lines: seq<Line>, ds: seq<Directive>, s: State, more: Found, d: nat, l: nat)
    requires s.i <= d < |ds| && (forall k :: s.i <= k <= d ==> ds[k].kind != Label)
    requires Recorded(ds, s.found, s.i) && Extends(s.found, more, s.i) && Region(lines, ds, s)
    requires l < s.regionEnd && d in more && more[d] == l
    ensures InRegion(lines, ds, more, d)
  {
    InRegionNow(lines, ds, s, d, l);
    forall a: nat | a in more && Under(ds, a, d) ensures l < RegionEnd(lines, ds, more, a) {
      assert a < s.i;
    }
  }

  lemma GroupTight(found: Found, pos: nat, d: nat, l: nat)
    requires Tight(found, pos) && d !in found
    ensures Tight(found[d := l], if l < pos then pos else l + 1)
  {
    var more := found[d := l];
    if l < pos {
      var q: nat :| q in found && found[q] + 1 == pos;
      assert q in more && more[q] + 1 == pos;
    } else {
      assert more[d] + 1 == l + 1;
    }
  }

  lemma OneMoreExtends(ds: seq<Directive>, before: Found, found: Found, i: nat, d: nat, l: nat)
    requires Recorded(ds, found, d) && Extends(before, found, i) && i <= d < |ds| && ds[d].kind != Not
    ensures Recorded(ds, found[d := l], d + 1) && Extends(before, found[d := l], i) && Extends(found, found[d := l], d)
  {
  }

  ghost predicate GroupFit(lines: seq<Line>, ds: seq<Directive>, found: Found, i: nat) {
    forall j: nat :: j in found && j >= i ==> j < |ds| && Fits(lines, ds, found, j)
  }

  lemma GroupFitOneMore(lines: seq<Line>, ds: seq<Directive>, s: State, found: Found, d: nat, l: nat)
    requires GroupStart(lines, ds, s) && s.i <= d < |ds| && (forall k :: s.i <= k <= d ==> ds[k].kind == Dag)
    requires Recorded(ds, found, d) && Extends(s.found, found, s.i) && GroupFit(lines, ds, found, s.i)
    requires s.regionEnd <= |lines| && First(lines, ds[d].pattern, s.pos, s.regionEnd) == Some(l)
    ensures GroupFit(lines, ds, found[d := l], s.i)
  {
    var more := found[d := l];
    OneMoreExtends(ds, s.found, found, s.i, d, l);
    forall j: nat | j in more && j >= s.i ensures Fits(lines, ds, more, j) {
      if j == d {
        GroupFits(lines, ds, s, more, d, l);
      } else {
        FitsStays(lines, ds, found, more, d, j);
      }
    }
  }

  lemma GroupOneMore(lines: seq<Line>, ds: seq<Directive>, s: State, t: State, d: nat, l: nat)
    requires GroupStart(lines, ds, s) && InGroup(lines, ds, s, t, d) && d < |ds| && ds[d].kind == Dag
    requires First(lines, ds[d].pattern, s.pos, s.regionEnd) == Some(l)
    ensures InGroup(lines, ds, s, Looked(t, d, l), d + 1)
  {
    OneMoreExtends(ds, s.found, t.found, s.i, d, l);
    GroupTight(t.found, t.pos, d, l);
    GroupFitOneMore(lines, ds, s, t.found, d, l);
  }

  lemma DagUnrolls(lines: seq<Line>, ds: seq<Directive>, t: State, d: nat, e: nat, from: nat)
    requires Valid(lines, ds, t) && d < e <= |ds|
    ensures DagFrom(lines, ds, t, d, e, from).Go? ==>
      First(lines, ds[d].pattern, from, t.regionEnd).Some?
      && var u := Looked(t, d, First(lines, ds[d].pattern, from, t.regionEnd).value);
         Valid(lines, ds, u) && DagFrom(lines, ds, t, d, e, from) == DagFrom(lines, ds, u, d + 1, e, from)
  {
  }

  lemma DagEnds(lines: seq<Line>, ds: seq<Directive>, t: State, e: nat, from: nat)
    requires Valid(lines, ds, t) && e <= |ds|
    ensures DagFrom(lines, ds, t, e, e, from) == Go(t.(i := e))
  {
  }

  lemma {:induction false} GroupAdvances(lines: seq<Line>, ds: seq<Directive>, s: State, t: State, d: nat, e: nat)
    requires GroupStart(lines, ds, s) && InGroup(lines, ds, s, t, d) && d <= e <= |ds| && (forall k :: d <= k < e ==> ds[k].kind == Dag)
    ensures var r := DagFrom(lines, ds, t, d, e, s.pos); r.Go? ==> InGroup(lines, ds, s, r.s, e) && r.s.i == e
    decreases e - d
  {
    if d == e {
      DagEnds(lines, ds, t, e, s.pos);
      GroupEnds(lines, ds, s, t, e);
    } else {
      DagUnrolls(lines, ds, t, d, e, s.pos);
      if DagFrom(lines, ds, t, d, e, s.pos).Go? {
        var l := First(lines, ds[d].pattern, s.pos, s.regionEnd).value;
        GroupOneMore(lines, ds, s, t, d, l);
        GroupAdvances(lines, ds, s, Looked(t, d, l), d + 1, e);
      }
    }
  }

  lemma GroupEnds(lines: seq<Line>, ds: seq<Directive>, s: State, t: State, e: nat)
    requires InGroup(lines, ds, s, t, e)
    ensures InGroup(lines, ds, s, t.(i := e), e)
  {
  }

  // --------------------------------------------------------- the scan is explained

  lemma StepAdvances(lines: seq<Line>, ds: seq<Directive>, s: State)
    requires Inv(lines, ds, s) && s.i < |ds| && ds[s.i].kind != Not
    ensures var r := StepFrom(lines, ds, s); r.Go? ==> FlushFrom(lines, ds, s, s.pos, 0).None? && Advanced(lines, ds, s, r.s)
  {
    var r := StepFrom(lines, ds, s);
    var t := s.(pending := [], windowStart := s.pos);
    if r.Go? {
      if ds[s.i].kind == Dag {
        assert Extends(s.found, s.found, s.i);
        assert InGroup(lines, ds, s, t, s.i);
        GroupAdvances(lines, ds, s, t, s.i, GroupEnd(ds, s.i));
        RegionStays(lines, ds, s, r.s);
      } else {
        PositiveAdvances(lines, ds, t);
      }
    }
  }

  lemma NotStepWindows(ds: seq<Directive>, s: State, t: State)
    requires Windows(ds, s) && Recorded(ds, s.found, s.i) && t.found == s.found && t.windowStart == s.windowStart
    requires t.i == s.i + 1 <= |ds| && ds[s.i].kind == Not
    ensures Windows(ds, t)
  {
    forall p: nat ensures WindowOf(ds, t, p) {
      assert WindowOf(ds, s, p);
    }
  }

  lemma NotStepKept(lines: seq<Line>, ds: seq<Directive>, s: State, t: State)
    requires s.i < |ds| && NotsKept(lines, ds, s) && ds[s.i].kind == Not
    requires t == s.(pending := s.pending + [s.i], i := s.i + 1)
    ensures NotsKept(lines, ds, t)
  {
    forall n: nat | n < t.i && ds[n].kind == Not ensures NotKept(lines, ds, t, n) {
      assert n < s.i ==> NotKept(lines, ds, s, n);
      assert n < s.i ==> (OnlyNots(ds, n, t.i) <==> OnlyNots(ds, n, s.i));
      assert t.pending[|s.pending|] == s.i;
    }
    forall k | 0 <= k < |t.pending| ensures OnlyNots(ds, t.pending[k], t.i) {
      assert k < |s.pending| ==> OnlyNots(ds, s.pending[k], s.i);
    }
  }

  lemma NotStep(lines: seq<Line>, ds: seq<Directive>, s: State)
    requires Inv(lines, ds, s) && s.i < |ds| && ds[s.i].kind == Not
    ensures Inv(lines, ds, s.(pending := s.pending + [s.i], i := s.i + 1))
  {
    var t := s.(pending := s.pending + [s.i], i := s.i + 1);
    NotStepPlace(lines, ds, s, t);
    NotStepWindows(ds, s, t);
    NotStepKept(lines, ds, s, t);
  }

  lemma NotStepValid(lines: seq<Line>, ds: seq<Directive>, s: State, t: State)
    requires Valid(lines, ds, s)
    requires s.i < |ds| && ds[s.i].kind == Not && t == s.(pending := s.pending + [s.i], i := s.i + 1)
    ensures Valid(lines, ds, t)
  {
    forall k | 0 <= k < |t.pending| ensures t.pending[k] < t.i && ds[t.pending[k]].kind == Not {
      assert k < |s.pending| ==> t.pending[k] == s.pending[k];
    }
  }

  lemma NotStepRecorded(ds: seq<Directive>, found: Found, i: nat)
    requires Recorded(ds, found, i) && i < |ds| && ds[i].kind == Not
    ensures Recorded(ds, found, i + 1) && AtBoundary(ds, i + 1) && Extends(found, found, i)
  {
  }

  lemma NotStepPlace(lines: seq<Line>, ds: seq<Directive>, s: State, t: State)
    requires Valid(lines, ds, s) && Recorded(ds, s.found, s.i) && Region(lines, ds, s)
    requires s.i < |ds| && ds[s.i].kind == Not && t == s.(pending := s.pending + [s.i], i := s.i + 1)
    ensures Valid(lines, ds, t) && Recorded(ds, t.found, t.i) && AtBoundary(ds, t.i) && Region(lines, ds, t)
  {
    NotStepValid(lines, ds, s, t);
    NotStepRecorded(ds, s.found, s.i);
    RegionStays(lines, ds, s, t);
  }

  lemma StepOfNot(lines: seq<Line>, ds: seq<Directive>, s: State)
    requires Valid(lines, ds, s) && s.i < |ds| && ds[s.i].kind == Not
    ensures StepFrom(lines, ds, s) == Go(s.(pending := s.pending + [s.i], i := s.i + 1))
  {
  }

  lemma UnitKeeps(lines: seq<Line>, ds: seq<Directive>, s: State, r: Step)
    requires Inv(lines, ds, s) && s.i < |ds| && ds[s.i].kind != Not
    requires r.Go? ==> FlushFrom(lines, ds, s, s.pos, 0).None? && Advanced(lines, ds, s, r.s)
    ensures r.Go? ==> Inv(lines, ds, r.s)
  {
    if r.Go? {
      AdvancedKeeps(lines, ds, s, r.s);
    }
  }

  lemma StepKeeps(lines: seq<Line>, ds: seq<Directive>, s: State)
    requires Inv(lines, ds, s) && s.i < |ds|
    ensures var r := StepFrom(lines, ds, s); r.Go? ==> Inv(lines, ds, r.s)
  {
    if ds[s.i].kind == Not {
      NotStep(lines, ds, s);
      StepOfNot(lines, ds, s);
    } else {
      StepAdvances(lines, ds, s);
      UnitKeeps(lines, ds, s, StepFrom(lines, ds, s));
    }
  }

  /** At the end the last window reaches to the end of the output. */
  lemma RegionAtEnd(lines: seq<Line>, ds: seq<Directive>, s: State)
    requires Recorded(ds, s.found, s.i) && Region(lines, ds, s) && s.i == |ds|
    ensures s.regionEnd == |lines|
  {
    if exists a: nat :: a < |ds| && ds[a].kind == Label {
      var a := LabelBefore(ds, |ds|);
      assert a in s.found && NextLabel(ds, a + 1) == |ds|;
      assert LastLabel(ds, a, s.i);
    }
  }

  /** The last positive directive before n, if there is any. */
  lemma {:induction false} LastPositive(ds: seq<Directive>, found: Found, i: nat, n: nat, j: nat) returns (p: nat)
    requires Recorded(ds, found, i) && n <= i && j in found && j < n
    ensures LastBefore(ds, found, p, n)
  {
    if ds[n - 1].kind != Not {
      p := n - 1;
    } else {
      p := LastPositive(ds, found, i, n - 1, j);
    }
  }

  /** The window of a trailing CHECK-NOT reaches over everything it is held against. */
  lemma HeldInWindow(ds: seq<Directive>, s: State, n: nat, l: nat)
    requires Recorded(ds, s.found, s.i) && Tight(s.found, s.pos) && Windows(ds, s)
    requires s.i == |ds| && n < |ds| && ds[n].kind == Not && OnlyNots(ds, n, |ds|)
    requires HeldAgainst(ds, s.found, n, l)
    ensures s.windowStart <= l
  {
    if s.found != map[] {
      var j :| j in s.found;
      var p := LastPositive(ds, s.found, s.i, n, j);
      assert WindowOf(ds, s, p);
      ScannedInWindow(ds, s, n, p, l);
    }
  }

  lemma EndObeys(lines: seq<Line>, ds: seq<Directive>, s: State, n: nat)
    requires Inv(lines, ds, s) && s.i == |ds| && FlushFrom(lines, ds, s, |lines|, 0).None?
    requires n < |ds| && ds[n].kind == Not
    ensures Obeyed(lines, ds, s.found, n)
  {
    assert NotKept(lines, ds, s, n);
    if OnlyNots(ds, n, |ds|) {
      assert s.pending[0..] == s.pending;
      FlushedClean(lines, ds, s, |lines|, 0, n);
      forall l: nat | HeldAgainst(ds, s.found, n, l) ensures !HitAt(lines, ds[n].pattern, l) {
        HeldInWindow(ds, s, n, l);
      }
    }
  }

  lemma {:induction false} RunExplains(lines: seq<Line>, ds: seq<Directive>, s: State)
    requires Inv(lines, ds, s)
    ensures var r := Run(lines, ds, s); r.Passed? ==> Explains(lines, ds, r.found)
    decreases |ds| - s.i
  {
    if s.i == |ds| {
      RegionAtEnd(lines, ds, s);
      if Run(lines, ds, s).Passed? {
        forall n: nat | n < |ds| && ds[n].kind == Not ensures Obeyed(lines, ds, s.found, n) {
          EndObeys(lines, ds, s, n);
        }
      }
    } else {
      StepValid(lines, ds, s);
      StepKeeps(lines, ds, s);
      var r := StepFrom(lines, ds, s);
      if r.Go? {
        RunExplains(lines, ds, r.s);
      }
    }
  }

  lemma StartHolds(lines: seq<Line>, ds: seq<Directive>)
    ensures Inv(lines, ds, Start(lines))
  {
  }

  // ------------------------------------------------------ an explanation is found

  /** The first match, given one. */
  lemma FirstIs(lines: seq<Line>, p: Pattern, from: nat, to: nat, l: nat)
    requires from <= l < to <= |lines| && HitAt(lines, p, l) && forall k :: from <= k < l ==> !HitAt(lines, p, k)
    ensures First(lines, p, from, to) == Some(l)
  {
  }

  lemma WindowIsAfter(ds: seq<Directive>, s: State, f: Found, n: nat, p: nat, l: nat)
    requires Windows(ds, s) && Extends(s.found, f, s.i) && n < s.i <= |ds| && ds[n].kind == Not && OnlyNots(ds, n, s.i)
    requires LastBefore(ds, f, p, n) && s.windowStart <= l
    ensures AfterEarlier(ds, f, p, l)
  {
    assert LastBefore(ds, s.found, p, s.i);
    assert WindowOf(ds, s, p);
    EarlierStays(ds, s.found, f, s.i, p, l);
  }

  /** What the window holds, the CHECK-NOTs in the list are held against. */
  lemma WindowIsHeld(ds: seq<Directive>, s: State, f: Found, n: nat, l: nat)
    requires Recorded(ds, s.found, s.i) && Tight(s.found, s.pos) && Windows(ds, s) && Extends(s.found, f, s.i)
    requires n < s.i && ds[n].kind == Not && OnlyNots(ds, n, s.i) && s.windowStart <= l
    requires s.i < |ds| ==> l < s.pos
    ensures HeldAgainst(ds, f, n, l)
  {
    forall p: nat | LastBefore(ds, f, p, n) ensures AfterEarlier(ds, f, p, l) {
      WindowIsAfter(ds, s, f, n, p, l);
    }
    if s.i < |ds| {
      var q: nat :| q in s.found && s.found[q] + 1 == s.pos;
      var p := LastPositive(ds, s.found, s.i, n, q);
      LastReaches(ds, s, n, p, q, l);
      assert LastBefore(ds, f, p, n) && ReachedBy(ds, f, p, l);
    }
  }

  /** The furthest line belongs to the last group. */
  lemma LastReaches(ds: seq<Directive>, s: State, n: nat, p: nat, q: nat, l: nat)
    requires Recorded(ds, s.found, s.i) && Windows(ds, s) && n < s.i && OnlyNots(ds, n, s.i)
    requires LastBefore(ds, s.found, p, n) && ds[n].kind == Not
    requires q in s.found && s.found[q] + 1 == s.pos && s.windowStart <= l < s.pos
    ensures q <= p && (q == p || SameGroup(ds, q, p)) && l <= s.found[q]
  {
    assert LastBefore(ds, s.found, p, s.i);
    assert WindowOf(ds, s, p);
  }

  lemma {:induction false} FlushIsEmpty(lines: seq<Line>, ds: seq<Directive>, s: State, f: Found, to: nat, k: nat)
    requires Inv(lines, ds, s) && Extends(s.found, f, s.i)
    requires forall j :: 0 <= j < |s.pending| ==> Obeyed(lines, ds, f, s.pending[j])
    requires to == (if s.i < |ds| then s.pos else |lines|) && k <= |s.pending|
    ensures FlushFrom(lines, ds, s, to, k).None?
    decreases |s.pending| - k
  {
    if k < |s.pending| {
      var n := s.pending[k];
      forall l: nat | s.windowStart <= l < to ensures !HitAt(lines, ds[n].pattern, l) {
        WindowIsHeld(ds, s, f, n, l);
      }
      FlushIsEmpty(lines, ds, s, f, to, k + 1);
    }
  }

  /** An explanation puts directive i inside the region the scanner is in. */
  lemma InsideRegion(lines: seq<Line>, ds: seq<Directive>, s: State, f: Found, i: nat)
    requires Recorded(ds, s.found, s.i) && Region(lines, ds, s) && Extends(s.found, f, s.i)
    requires s.i <= i < |ds| && (forall k :: s.i <= k <= i ==> ds[k].kind != Label)
    requires i in f && f[i] < |lines| && InRegion(lines, ds, f, i)
    ensures f[i] < s.regionEnd
  {
    if exists a: nat :: a < s.i && ds[a].kind == Label {
      var a := LabelBefore(ds, s.i);
      assert LastLabel(ds, a, s.i) && a in s.found && s.found[a] == f[a];
      assert s.regionEnd == RegionEnd(lines, ds, f, a);
      assert Under(ds, a, i);
    }
  }

  lemma {:induction false} LabelBefore(ds: seq<Directive>, i: nat) returns (a: nat)
    requires i <= |ds| && exists b: nat :: b < i && ds[b].kind == Label
    ensures a < i && ds[a].kind == Label && forall k :: a < k < i ==> ds[k].kind != Label
  {
    if ds[i - 1].kind == Label {
      a := i - 1;
    } else {
      a := LabelBefore(ds, i - 1);
    }
  }

  lemma LiesAhead(lines: seq<Line>, ds: seq<Directive>, s: State, f: Found)
    requires Recorded(ds, s.found, s.i) && Tight(s.found, s.pos) && Extends(s.found, f, s.i)
    requires s.i < |ds| && ds[s.i].kind != Dag && s.i in f && Fits(lines, ds, f, s.i)
    ensures s.pos <= f[s.i]
    ensures ds[s.i].kind == Next ==> f[s.i] == s.pos
    ensures ds[s.i].kind != Next ==> forall k :: s.pos <= k < f[s.i] ==> !HitAt(lines, ds[s.i].pattern, k)
  {
    var i := s.i;
    assert forall q: nat :: q in s.found ==> EarlierUnit(ds, q, i) && f[q] == s.found[q];
    TightBelow(s.found, s.pos, f[i]);
    forall k: nat | s.pos <= k < f[i] ensures AfterEarlier(ds, f, i, k) {
    }
  }

  lemma PositiveGoes(lines: seq<Line>, ds: seq<Directive>, s: State, f: Found)
    requires Valid(lines, ds, s) && Recorded(ds, s.found, s.i) && Tight(s.found, s.pos) && Region(lines, ds, s)
    requires s.i < |ds| && ds[s.i].kind != Not && ds[s.i].kind != Dag
    requires Extends(s.found, f, s.i) && s.i in f && Fits(lines, ds, f, s.i)
    ensures var r := Positive(lines, ds, s); r.Go? && r.s.found == s.found[s.i := f[s.i]]
  {
    var i := s.i;
    LiesAhead(lines, ds, s, f);
    if ds[i].kind == Label {
      FirstIs(lines, ds[i].pattern, s.pos, |lines|, f[i]);
    } else if ds[i].kind == Check {
      InsideRegion(lines, ds, s, f, i);
      FirstIs(lines, ds[i].pattern, s.pos, s.regionEnd, f[i]);
    }
  }

  lemma GroupMemberFirst(lines: seq<Line>, ds: seq<Directive>, s: State, f: Found, d: nat)
    requires AtBoundary(ds, s.i) && s.i <= d < |ds| && (forall k :: s.i <= k <= d ==> ds[k].kind == Dag)
    requires Valid(lines, ds, s) && Recorded(ds, s.found, s.i) && Tight(s.found, s.pos) && Region(lines, ds, s)
    requires Extends(s.found, f, s.i) && d in f && Fits(lines, ds, f, d)
    ensures First(lines, ds[d].pattern, s.pos, s.regionEnd) == Some(f[d])
  {
    EarlierThanGroup(ds, s.found, f, s.i, d, f[d]);
    TightBelow(s.found, s.pos, f[d]);
    forall k: nat | s.pos <= k < f[d] ensures !HitAt(lines, ds[d].pattern, k) {
      EarlierThanGroup(ds, s.found, f, s.i, d, k);
    }
    InsideRegion(lines, ds, s, f, d);
    FirstIs(lines, ds[d].pattern, s.pos, s.regionEnd, f[d]);
  }

  lemma ExtendsOneMore(ds: seq<Directive>, found: Found, f: Found, d: nat)
    requires Extends(found, f, d) && d in f
    ensures Extends(found[d := f[d]], f, d + 1)
  {
  }

  ghost predicate FirstAt(lines: seq<Line>, ds: seq<Directive>, from: nat, to: nat, f: Found, d: nat)
    requires to <= |lines| && d < |ds|
  {
    d in f && ds[d].pattern.Regex? && First(lines, ds[d].pattern, from, to) == Some(f[d])
  }

  lemma {:induction false} GroupGoes(lines: seq<Line>, ds: seq<Directive>, t: State, f: Found, d: nat, e: nat, from: nat)
    requires Valid(lines, ds, t) && d <= e <= |ds| && Extends(t.found, f, d)
    requires forall j: nat :: d <= j < e ==> FirstAt(lines, ds, from, t.regionEnd, f, j)
    ensures var r := DagFrom(lines, ds, t, d, e, from); r.Go? && Extends(r.s.found, f, e)
    decreases e - d
  {
    if d < e {
      assert FirstAt(lines, ds, from, t.regionEnd, f, d);
      var l := f[d];
      ExtendsOneMore(ds, t.found, f, d);
      GroupGoes(lines, ds, Looked(t, d, l), f, d + 1, e, from);
    }
  }

  lemma GroupStepGoes(lines: seq<Line>, ds: seq<Directive>, s: State, t: State, f: Found)
    requires Valid(lines, ds, s) && GroupStart(lines, ds, s) && s.i < |ds| && ds[s.i].kind == Dag && Extends(s.found, f, s.i)
    requires forall j: nat :: s.i <= j < GroupEnd(ds, s.i) ==> j in f && Fits(lines, ds, f, j)
    requires t == s.(pending := [], windowStart := s.pos)
    ensures var e := GroupEnd(ds, s.i); var r := DagFrom(lines, ds, t, s.i, e, s.pos);
      r.Go? && Extends(r.s.found, f, e) && r.s.i == e
  {
    var e := GroupEnd(ds, s.i);
    forall j: nat | s.i <= j < e ensures FirstAt(lines, ds, s.pos, s.regionEnd, f, j) {
      GroupMemberFirst(lines, ds, s, f, j);
    }
    GroupGoes(lines, ds, t, f, s.i, e, s.pos);
    DagValid(lines, ds, t, s.i, e, s.pos);
  }

  lemma PositiveStepGoes(lines: seq<Line>, ds: seq<Directive>, s: State, f: Found)
    requires Valid(lines, ds, s) && Recorded(ds, s.found, s.i) && Tight(s.found, s.pos) && Region(lines, ds, s)
    requires s.i < |ds| && ds[s.i].kind != Not && ds[s.i].kind != Dag
    requires Extends(s.found, f, s.i) && s.i in f && Fits(lines, ds, f, s.i)
    ensures var r := Positive(lines, ds, s); r.Go? && Extends(r.s.found, f, s.i + 1) && r.s.i == s.i + 1
  {
    PositiveGoes(lines, ds, s, f);
    var t, l := PositiveMatches(lines, ds, s);
    ExtendsOneMore(ds, s.found, f, s.i);
  }

  /** A positive directive's step, once nothing pending was violated. */
  lemma StepIs(lines: seq<Line>, ds: seq<Directive>, s: State)
    requires Valid(lines, ds, s) && s.i < |ds| && ds[s.i].kind != Not && FlushFrom(lines, ds, s, s.pos, 0).None?
    ensures var t := s.(pending := [], windowStart := s.pos);
      StepFrom(lines, ds, s)
      == if ds[s.i].kind == Dag then DagFrom(lines, ds, t, s.i, GroupEnd(ds, s.i), s.pos) else Positive(lines, ds, t)
  {
  }

  /** A boundary does not split a group. */
  lemma GroupWithin(ds: seq<Directive>, i: nat, n: nat)
    requires i < n <= |ds| && AtBoundary(ds, n)
    ensures GroupEnd(ds, i) <= n
  {
  }

  lemma UnitGoes(lines: seq<Line>, ds: seq<Directive>, s: State, f: Found, n: nat)
    requires Valid(lines, ds, s) && GroupStart(lines, ds, s) && s.i < |ds| && ds[s.i].kind != Not
    requires Extends(s.found, f, s.i) && Recorded(ds, f, n) && s.i < n && AtBoundary(ds, n) && AllFit(lines, ds, f)
    requires FlushFrom(lines, ds, s, s.pos, 0).None?
    ensures var r := StepFrom(lines, ds, s); r.Go? && Extends(r.s.found, f, r.s.i) && r.s.i <= n
  {
    StepIs(lines, ds, s);
    var t := s.(pending := [], windowStart := s.pos);
    assert s.i in f;
    if ds[s.i].kind == Dag {
      GroupWithin(ds, s.i, n);
      GroupStepGoes(lines, ds, s, t, f);
    } else {
      PositiveStepGoes(lines, ds, t, f);
    }
  }

  lemma PendingObeyed(lines: seq<Line>, ds: seq<Directive>, s: State, f: Found)
    requires Valid(lines, ds, s) && Explains(lines, ds, f)
    ensures forall j :: 0 <= j < |s.pending| ==> Obeyed(lines, ds, f, s.pending[j])
  {
  }

  lemma NotExtends(ds: seq<Directive>, found: Found, f: Found, i: nat)
    requires Extends(found, f, i) && Recorded(ds, f, |ds|) && i < |ds| && ds[i].kind == Not
    ensures Extends(found, f, i + 1)
  {
  }

  lemma StepGoes(lines: seq<Line>, ds: seq<Directive>, s: State, f: Found)
    requires Inv(lines, ds, s) && s.i < |ds| && Explains(lines, ds, f) && Extends(s.found, f, s.i)
    ensures var r := StepFrom(lines, ds, s); r.Go? && Extends(r.s.found, f, r.s.i)
  {
    if ds[s.i].kind == Not {
      StepOfNot(lines, ds, s);
      NotExtends(ds, s.found, f, s.i);
    } else {
      PendingObeyed(lines, ds, s, f);
      FlushIsEmpty(lines, ds, s, f, s.pos, 0);
      UnitGoes(lines, ds, s, f, |ds|);
    }
  }

  lemma {:induction false} RunFinds(lines: seq<Line>, ds: seq<Directive>, s: State, f: Found)
    requires Inv(lines, ds, s) && Explains(lines, ds, f) && Extends(s.found, f, s.i)
    ensures Run(lines, ds, s) == Passed(f)
    decreases |ds| - s.i
  {
    if s.i == |ds| {
      RegionAtEnd(lines, ds, s);
      PendingObeyed(lines, ds, s, f);
      FlushIsEmpty(lines, ds, s, f, |lines|, 0);
      assert s.found == f;
    } else {
      StepGoes(lines, ds, s, f);
      StepValid(lines, ds, s);
      StepKeeps(lines, ds, s);
      RunFinds(lines, ds, StepFrom(lines, ds, s).s, f);
    }
  }

  /** The scan passes with an assignment exactly when the assignment explains the output. */
  lemma PassesExactly(lines: seq<Line>, ds: seq<Directive>, f: Found)
    ensures Outcomes(lines, ds) == Passed(f) <==> Explains(lines, ds, f)
  {
    StartHolds(lines, ds);
    RunExplains(lines, ds, Start(lines));
    if Explains(lines, ds, f) {
      RunFinds(lines, ds, Start(lines), f);
    }
  }
}
