/** What the directives promise, and exactly when they keep it. */
module CheckClaims {
  import opened RunChecks
  import opened Optional
  import opened CheckMeaning

  function KindsOf(ds: seq<Directive>): (kinds: seq<Kind>)
    ensures |kinds| == |ds| && forall i :: 0 <= i < |ds| ==> kinds[i] == ds[i].kind
  {
    seq(|ds|, i requires 0 <= i < |ds| => ds[i].kind)
  }

  // ------------------------------------------------------------------ CHECK-NEXT

  /** A CHECK-NEXT matched the line right after the furthest line matched before it, or line 0 if it comes first. */
  lemma NextFollows(lines: seq<Line>, ds: seq<Directive>, j: nat)
    requires Outcomes(lines, ds).Passed? && j < |ds| && ds[j].kind == Next
    ensures var found := Outcomes(lines, ds).found;
      && j in found && HitAt(lines, ds[j].pattern, found[j])
      && (forall q: nat :: q in found && q < j ==> found[q] < found[j])
      && (found[j] == 0 || exists q: nat :: q in found && q < j && found[q] + 1 == found[j])
  {
    var found := Outcomes(lines, ds).found;
    PassesExactly(lines, ds, found);
    assert Fits(lines, ds, found, j);
    assert forall q: nat :: q < j ==> EarlierUnit(ds, q, j);
  }

  // --------------------------------------------- greedy scanning finds what there is

  ghost predicate NoNotsOrLabels(kinds: seq<Kind>) {
    forall i :: 0 <= i < |kinds| ==> kinds[i] != Not && kinds[i] != Label
  }

  /** A CHECK-NEXT stands right after the furthest earlier line, or at line 0. */
  ghost predicate Adjacent(at: seq<nat>, j: nat)
    requires j < |at|
  {
    at[j] > 0 ==> exists q: nat :: q < j && at[q] + 1 == at[j]
  }

  /** Lines for all directives: matching, in order except inside groups, each CHECK-NEXT right after what precedes it. */
  ghost predicate Placed(lines: seq<Line>, ds: seq<Directive>, at: seq<nat>) {
    && |at| == |ds|
    && (forall j: nat :: j < |ds| ==> HitAt(lines, ds[j].pattern, at[j]))
    && (forall j: nat, k: nat :: j < k < |ds| ==> SameGroup(ds, j, k) || at[j] < at[k])
    && (forall j: nat :: j < |ds| && ds[j].kind == Next ==> Adjacent(at, j))
  }

  lemma PassedIsPlaced(lines: seq<Line>, ds: seq<Directive>) returns (at: seq<nat>)
    requires NoNotsOrLabels(KindsOf(ds)) && Outcomes(lines, ds).Passed?
    ensures Placed(lines, ds, at)
  {
    var found := Outcomes(lines, ds).found;
    PassesExactly(lines, ds, found);
    AllPositive(ds, found);
    at := seq(|ds|, j requires 0 <= j < |ds| => found[j]);
    forall j: nat, k: nat | j < k < |ds| ensures SameGroup(ds, j, k) || at[j] < at[k] {
      assert Fits(lines, ds, found, k);
    }
    forall j: nat | j < |ds| ensures HitAt(lines, ds[j].pattern, at[j]) && (ds[j].kind == Next ==> Adjacent(at, j)) {
      FitsAdjacent(lines, ds, found, at, j);
    }
  }

  lemma AllPositive(ds: seq<Directive>, found: Found)
    requires NoNotsOrLabels(KindsOf(ds)) && Recorded(ds, found, |ds|)
    ensures forall j: nat :: j < |ds| ==> j in found
  {
    var kinds := KindsOf(ds);
    assert forall j: nat :: j < |ds| ==> kinds[j] != Not;
  }

  lemma FitsAdjacent(lines: seq<Line>, ds: seq<Directive>, found: Found, at: seq<nat>, j: nat)
    requires Explains(lines, ds, found) && j < |ds| == |at| && forall q: nat :: q < |ds| ==> q in found && at[q] == found[q]
    ensures HitAt(lines, ds[j].pattern, at[j]) && (ds[j].kind == Next ==> Adjacent(at, j))
  {
    assert Fits(lines, ds, found, j);
    if ds[j].kind == Next && found[j] > 0 {
      var q: nat :| q in found && q < j && found[q] + 1 == found[j];
      assert at[q] + 1 == at[j];
    }
  }

  /** What a scanner at directive i can still be placed at. */
  ghost predicate Ahead(lines: seq<Line>, ds: seq<Directive>, at: seq<nat>, i: nat, pos: nat) {
    && |at| == |ds|
    && (forall j: nat :: i <= j < |ds| ==> pos <= at[j] && HitAt(lines, ds[j].pattern, at[j]))
    && (forall j: nat, k: nat :: i <= j < k < |ds| ==> SameGroup(ds, j, k) || at[j] < at[k])
  }

  lemma {:induction false} GroupFinds(lines: seq<Line>, ds: seq<Directive>, s: State, d: nat, e: nat, from: nat, at: seq<nat>)
    requires Valid(lines, ds, s) && d <= e <= |ds| && e == GroupEnd(ds, d) && s.regionEnd == |lines| && from <= s.pos
    requires Ahead(lines, ds, at, d, from) && forall k: nat :: e <= k < |ds| ==> s.pos <= at[k]
    ensures var r := DagFrom(lines, ds, s, d, e, from);
      r.Go? && r.s == s.(i := e, pos := r.s.pos, found := r.s.found) && forall k: nat :: e <= k < |ds| ==> r.s.pos <= at[k]
    decreases e - d
  {
    if d < e {
      assert HitAt(lines, ds[d].pattern, at[d]);
      var r := First(lines, ds[d].pattern, from, |lines|);
      assert r.Some? && r.value <= at[d];
      forall k: nat | e <= k < |ds| ensures r.value + 1 <= at[k] {
        assert ds[e].kind != Dag;
        assert !SameGroup(ds, d, k);
      }
      GroupFinds(lines, ds, Looked(s, d, r.value), d + 1, e, from, at);
    }
  }

  lemma {:induction false} GreedyFinds(lines: seq<Line>, ds: seq<Directive>, s: State, at: seq<nat>)
    requires Valid(lines, ds, s) && s.regionEnd == |lines| && s.pending == []
    requires forall j: nat :: s.i <= j < |ds| ==> ds[j].kind == Check || ds[j].kind == Dag
    requires Ahead(lines, ds, at, s.i, s.pos)
    ensures Run(lines, ds, s).Passed?
    decreases |ds| - s.i
  {
    if s.i < |ds| {
      StepValid(lines, ds, s);
      var t := s.(pending := [], windowStart := s.pos);
      if ds[s.i].kind == Dag {
        GroupFinds(lines, ds, t, s.i, GroupEnd(ds, s.i), s.pos, at);
      } else {
        assert HitAt(lines, ds[s.i].pattern, at[s.i]);
        var l := First(lines, ds[s.i].pattern, s.pos, |lines|);
        assert l.Some? && l.value <= at[s.i];
        assert forall k :: s.i < k < |ds| ==> !SameGroup(ds, s.i, k);
      }
      var r := StepFrom(lines, ds, s);
      GreedyFinds(lines, ds, r.s, at);
    }
  }

  /** No CHECK-NEXT comes after a CHECK or CHECK-DAG. */
  predicate NextsLead(kinds: seq<Kind>) {
    forall i, j :: 0 <= i < j < |kinds| && kinds[j] == Next ==> kinds[i] == Next
  }

  lemma NotGrouped(ds: seq<Directive>, j: nat, k: nat)
    requires j <= k < |ds| && ds[j].kind != Dag
    ensures !SameGroup(ds, j, k)
  {
  }

  lemma LeadersAhead(lines: seq<Line>, ds: seq<Directive>, at: seq<nat>, i: nat)
    requires Placed(lines, ds, at) && i <= |ds| && forall k: nat :: k < i ==> ds[k].kind == Next && at[k] == k
    ensures Ahead(lines, ds, at, i, i)
    ensures i < |ds| && ds[i].kind == Next ==> at[i] == i
  {
    forall j: nat | i <= j < |ds| ensures i <= at[j] {
      if i > 0 {
        var k: nat := i - 1;
        NotGrouped(ds, k, j);
      }
    }
  }

  lemma RestIsPlain(kinds: seq<Kind>, i: nat)
    requires NoNotsOrLabels(kinds) && NextsLead(kinds) && (i < |kinds| ==> kinds[i] != Next)
    ensures forall j :: i <= j < |kinds| ==> kinds[j] == Check || kinds[j] == Dag
  {
  }

  /** Where the leading CHECK-NEXTs end. */
  function Leaders(kinds: seq<Kind>, i: nat): (m: nat)
    requires i <= |kinds|
    ensures i <= m <= |kinds| && (m < |kinds| ==> kinds[m] != Next)
    ensures forall k :: i <= k < m ==> kinds[k] == Next
    decreases |kinds| - i
  {
    if i < |kinds| && kinds[i] == Next then Leaders(kinds, i + 1) else i
  }

  ghost predicate Led(lines: seq<Line>, ds: seq<Directive>, at: seq<nat>, m: nat) {
    m <= |ds| == |at| && forall k: nat :: k < m ==> ds[k].kind == Next && at[k] == k && HitAt(lines, ds[k].pattern, k)
  }

  /** A leading run of CHECK-NEXTs can only be placed at lines 0, 1, and so on. */
  lemma {:induction false} LeadersPlaced(lines: seq<Line>, ds: seq<Directive>, at: seq<nat>, m: nat)
    requires Placed(lines, ds, at) && m <= |ds| && forall k: nat :: k < m ==> ds[k].kind == Next
    ensures Led(lines, ds, at, m) && Ahead(lines, ds, at, m, m)
  {
    if m > 0 {
      LeadersPlaced(lines, ds, at, m - 1);
    }
    LeadersAhead(lines, ds, at, if m > 0 then m - 1 else 0);
    LeadersAhead(lines, ds, at, m);
  }

  lemma {:induction false} LeadersFinds(lines: seq<Line>, ds: seq<Directive>, s: State, at: seq<nat>, m: nat)
    requires Valid(lines, ds, s) && s.regionEnd == |lines| && s.pending == [] && s.pos == s.i <= m
    requires Led(lines, ds, at, m) && Ahead(lines, ds, at, m, m)
    requires forall j: nat :: m <= j < |ds| ==> ds[j].kind == Check || ds[j].kind == Dag
    ensures Run(lines, ds, s).Passed?
    decreases m - s.i
  {
    if s.i < m {
      LeaderSteps(lines, ds, s, at);
      LeadersFinds(lines, ds, StepFrom(lines, ds, s).s, at, m);
    } else {
      GreedyFinds(lines, ds, s, at);
    }
  }

  lemma LeaderSteps(lines: seq<Line>, ds: seq<Directive>, s: State, at: seq<nat>)
    requires Valid(lines, ds, s) && s.regionEnd == |lines| && s.pending == [] && s.i < |ds| && ds[s.i].kind == Next
    requires |at| == |ds| && at[s.i] == s.pos && HitAt(lines, ds[s.i].pattern, at[s.i])
    ensures var r := StepFrom(lines, ds, s);
      r.Go? && Valid(lines, ds, r.s) && r.s.pos == s.pos + 1 && r.s.i == s.i + 1 && r.s.regionEnd == s.regionEnd && r.s.pending == []
    ensures Run(lines, ds, s) == Run(lines, ds, StepFrom(lines, ds, s).s)
  {
    StepValid(lines, ds, s);
  }

  lemma GreedyIsComplete(lines: seq<Line>, ds: seq<Directive>)
    requires NoNotsOrLabels(KindsOf(ds)) && NextsLead(KindsOf(ds))
    ensures Outcomes(lines, ds).Passed? <==> exists at :: Placed(lines, ds, at)
  {
    if Outcomes(lines, ds).Passed? {
      var at := PassedIsPlaced(lines, ds);
    }
    if at :| Placed(lines, ds, at) {
      var kinds := KindsOf(ds);
      var m := Leaders(kinds, 0);
      RestIsPlain(kinds, m);
      assert forall j: nat :: j < |ds| ==> kinds[j] == ds[j].kind;
      LeadersPlaced(lines, ds, at, m);
      LeadersFinds(lines, ds, Start(lines), at, m);
    }
  }

  // ------------------------------------------------------- outputs made to measure

  /** A line that only the pattern named k matches. */
  function Name(k: nat): Line { seq(k, _ => 'x') }

  function Named(k: nat): Pattern { Regex((line: Line) => line == Name(k)) }

  function Distinct(kinds: seq<Kind>): (ds: seq<Directive>)
    ensures |ds| == |kinds| && forall i: nat :: i < |kinds| ==> ds[i] == Directive(kinds[i], Named(i))
  {
    seq(|kinds|, i requires 0 <= i < |kinds| => Directive(kinds[i], Named(i)))
  }

  function Output(names: seq<nat>): (lines: seq<Line>)
    ensures |lines| == |names| && forall l: nat :: l < |names| ==> lines[l] == Name(names[l])
  {
    seq(|names|, l requires 0 <= l < |names| => Name(names[l]))
  }

  lemma HitsItsName(names: seq<nat>, k: nat, l: nat)
    ensures HitAt(Output(names), Named(k), l) <==> l < |names| && names[l] == k
  {
    if l < |names| {
      assert |Name(names[l])| == names[l] && |Name(k)| == k;
    }
  }

  /** The output that repeats the line of the directive before j. */
  function Repeated(n: nat, j: nat): (names: seq<nat>)
    requires 0 < j < n
    ensures |names| == n + 1 && forall l: nat :: l <= n ==> names[l] == if l < j then l else l - 1
  {
    seq(n + 1, l requires 0 <= l <= n => if l < j then l else l - 1)
  }

  /** Directive j - 1 takes the first of its two lines, and the CHECK-NEXT after it does not match the second. */
  lemma ScanMisses(kinds: seq<Kind>, j: nat)
    requires NoNotsOrLabels(kinds) && 0 < j < |kinds| && kinds[j] == Next && kinds[j - 1] != Next
    ensures Outcomes(Output(Repeated(|kinds|, j)), Distinct(kinds)).Failed?
  {
    var names, ds := Repeated(|kinds|, j), Distinct(kinds);
    var lines := Output(names);
    var r := Outcomes(lines, ds);
    if r.Passed? {
      PassesExactly(lines, ds, r.found);
      forall q: nat | q < |kinds| ensures q in r.found && r.found[q] < |names| && names[r.found[q]] == q {
        assert Fits(lines, ds, r.found, q);
        HitsItsName(names, q, r.found[q]);
      }
      CannotBothFit(lines, ds, names, r.found, j);
    }
  }

  lemma FirstOfTwo(lines: seq<Line>, ds: seq<Directive>, names: seq<nat>, found: Found, j: nat)
    requires 0 < j < |ds| && ds[j - 1].kind != Next && ds[j - 1].pattern == Named(j - 1)
    requires names == Repeated(|ds|, j) && lines == Output(names)
    requires forall q: nat :: q < |ds| ==> q in found && found[q] < |names| && names[found[q]] == q
    requires Fits(lines, ds, found, j - 1)
    ensures found[j - 1] == j - 1
  {
    HitsItsName(names, j - 1, j - 1);
    assert AfterEarlier(ds, found, j - 1, j - 1);
  }

  lemma NotAdjacent(lines: seq<Line>, ds: seq<Directive>, names: seq<nat>, found: Found, j: nat)
    requires 0 < j < |ds| && ds[j].kind == Next && names == Repeated(|ds|, j)
    requires forall q: nat :: q < |ds| ==> q in found && found[q] < |names| && names[found[q]] == q
    requires found[j - 1] == j - 1
    ensures !Fits(lines, ds, found, j)
  {
    assert found[j] == j + 1;
    assert forall q: nat :: q < j ==> found[q] <= q;
  }

  lemma CannotBothFit(lines: seq<Line>, ds: seq<Directive>, names: seq<nat>, found: Found, j: nat)
    requires 0 < j < |ds| && ds[j - 1].kind != Next && ds[j - 1].pattern == Named(j - 1) && ds[j].kind == Next
    requires names == Repeated(|ds|, j) && lines == Output(names)
    requires forall q: nat :: q < |ds| ==> q in found && found[q] < |names| && names[found[q]] == q
    ensures !(Fits(lines, ds, found, j - 1) && Fits(lines, ds, found, j))
  {
    if Fits(lines, ds, found, j - 1) {
      FirstOfTwo(lines, ds, names, found, j);
      NotAdjacent(lines, ds, names, found, j);
    }
  }

  lemma PlacementExists(kinds: seq<Kind>, j: nat) returns (at: seq<nat>)
    requires NoNotsOrLabels(kinds) && 0 < j < |kinds| && kinds[j] == Next && kinds[j - 1] != Next
    ensures Placed(Output(Repeated(|kinds|, j)), Distinct(kinds), at)
  {
    var names, ds := Repeated(|kinds|, j), Distinct(kinds);
    at := seq(|kinds|, q requires 0 <= q < |kinds| => if q < j - 1 then q else q + 1);
    forall q: nat | q < |ds| ensures HitAt(Output(names), ds[q].pattern, at[q]) {
      HitsItsName(names, q, at[q]);
    }
    forall q: nat | q < |ds| && ds[q].kind == Next ensures Adjacent(at, q) {
      assert q > 0 ==> at[q - 1] + 1 == at[q];
    }
  }

  /** The first CHECK-NEXT after some other directive comes right after such a directive. */
  lemma {:induction false} FirstLateNext(kinds: seq<Kind>, i: nat, k: nat) returns (j: nat)
    requires i < k < |kinds| && kinds[k] == Next && kinds[i] != Next
    ensures i < j <= k && kinds[j] == Next && kinds[j - 1] != Next
  {
    if kinds[k - 1] == Next {
      j := FirstLateNext(kinds, i, k - 1);
    } else {
      j := k;
    }
  }

  /** The scan finds every placement there is, for all patterns and outputs, exactly when no CHECK-NEXT comes after
   *  a CHECK or CHECK-DAG: a condition on the list of directives alone.
   */
  lemma GreedyCompleteExactly(kinds: seq<Kind>)
    requires NoNotsOrLabels(kinds)
    ensures NextsLead(kinds)
      <==> forall lines, ds :: KindsOf(ds) == kinds ==> (Outcomes(lines, ds).Passed? <==> exists at :: Placed(lines, ds, at))
  {
    if NextsLead(kinds) {
      forall lines, ds | KindsOf(ds) == kinds ensures Outcomes(lines, ds).Passed? <==> exists at :: Placed(lines, ds, at) {
        GreedyIsComplete(lines, ds);
      }
    } else {
      var i: nat, k: nat :| i < k < |kinds| && kinds[k] == Next && kinds[i] != Next;
      var j := FirstLateNext(kinds, i, k);
      ScanMisses(kinds, j);
      var at := PlacementExists(kinds, j);
      assert KindsOf(Distinct(kinds)) == kinds;
    }
  }

  // -------------------------------------- an output with one line for each directive

  /** The positive directives before i. */
  function Positives(kinds: seq<Kind>, i: nat): seq<nat>
    requires i <= |kinds|
  {
    if i == 0 then [] else Positives(kinds, i - 1) + if kinds[i - 1] == Not then [] else [i - 1]
  }

  function Rank(kinds: seq<Kind>, i: nat): nat
    requires i <= |kinds|
  {
    |Positives(kinds, i)|
  }

  lemma {:induction false} RanksRise(kinds: seq<Kind>, i: nat, j: nat)
    requires i <= j <= |kinds|
    ensures Rank(kinds, i) <= Rank(kinds, j) && Positives(kinds, j)[..Rank(kinds, i)] == Positives(kinds, i)
    ensures i < j && kinds[i] != Not ==> Rank(kinds, i) < Rank(kinds, j) && Positives(kinds, j)[Rank(kinds, i)] == i
    decreases j
  {
    if i < j {
      RanksRise(kinds, i, j - 1);
    }
  }

  lemma {:induction false} PositivesAre(kinds: seq<Kind>, j: nat, x: nat)
    requires j <= |kinds| && x < Rank(kinds, j)
    ensures var p := Positives(kinds, j)[x]; p < j && kinds[p] != Not && Rank(kinds, p) == x
  {
    if x < Rank(kinds, j - 1) {
      PositivesAre(kinds, j - 1, x);
    }
  }

  /** Just before i stands the positive directive before it. */
  lemma {:induction false} RankBefore(kinds: seq<Kind>, i: nat) returns (q: nat)
    requires i <= |kinds| && Rank(kinds, i) > 0
    ensures q < i && kinds[q] != Not && Rank(kinds, q) + 1 == Rank(kinds, i) && forall k :: q < k < i ==> kinds[k] == Not
  {
    if kinds[i - 1] != Not {
      q := i - 1;
    } else {
      q := RankBefore(kinds, i - 1);
    }
  }

  /** One line for each positive directive, and the line named n before that of k. */
  function WithExtra(kinds: seq<Kind>, n: nat, k: nat): seq<nat>
    requires k <= |kinds|
  {
    RanksRise(kinds, k, |kinds|);
    var p := Positives(kinds, |kinds|);
    p[..Rank(kinds, k)] + [n] + p[Rank(kinds, k)..]
  }

  function RankWithExtra(kinds: seq<Kind>, k: nat, i: nat): nat
    requires i <= |kinds|
  {
    Rank(kinds, i) + if i < k then 0 else 1
  }

  lemma {:induction false} NamesWithExtra(kinds: seq<Kind>, n: nat, k: nat, i: nat, l: nat)
    requires n < k < |kinds| && i < |kinds| && kinds[n] == Not && kinds[k] != Not && l < |WithExtra(kinds, n, k)|
    ensures kinds[i] != Not ==> (WithExtra(kinds, n, k)[l] == i <==> l == RankWithExtra(kinds, k, i))
    ensures kinds[i] == Not ==> (WithExtra(kinds, n, k)[l] == i <==> i == n && l == Rank(kinds, k))
  {
    var total, r := |kinds|, Rank(kinds, k);
    RanksRise(kinds, k, total);
    RanksRise(kinds, i, total);
    if i <= k {
      RanksRise(kinds, i, k);
    } else {
      RanksRise(kinds, k, i);
    }
    if l < r {
      PositivesAre(kinds, total, l);
    } else if l > r {
      PositivesAre(kinds, total, l - 1);
    }
  }

  // ------------------------------------------------------------------- CHECK-NOT

  /** On success CHECK-NOT n matches no line it is held against: those scanned for the positive directive or group
   *  before it, and if no positive directive follows all after these to the end of the output.
   */
  lemma {:induction false} NotHolds(lines: seq<Line>, ds: seq<Directive>, n: nat, l: nat)
    requires Outcomes(lines, ds).Passed? && n < |ds| && ds[n].kind == Not
    requires HeldAgainst(ds, Outcomes(lines, ds).found, n, l)
    ensures ds[n].pattern.Regex? && !HitAt(lines, ds[n].pattern, l)
  {
    PassesExactly(lines, ds, Outcomes(lines, ds).found);
    assert Obeyed(lines, ds, Outcomes(lines, ds).found, n);
  }

  /** Line l lies between what the positive directives before n and those after n matched. */
  ghost predicate InGap(found: Found, n: nat, l: nat) {
    forall q: nat :: q in found ==> if q < n then found[q] < l else l < found[q]
  }

  /** The documented promise: no line between the surrounding positive matches is matched. */
  ghost predicate Honoured(lines: seq<Line>, ds: seq<Directive>, found: Found, n: nat)
    requires n < |ds|
  {
    forall l: nat :: InGap(found, n, l) ==> !HitAt(lines, ds[n].pattern, l)
  }

  function NextPositive(kinds: seq<Kind>, n: nat): (k: nat)
    requires n <= |kinds|
    ensures n <= k <= |kinds| && (k < |kinds| ==> kinds[k] != Not)
    ensures forall j :: n <= j < k ==> kinds[j] == Not
    decreases |kinds| - n
  {
    if n == |kinds| || kinds[n] != Not then n else NextPositive(kinds, n + 1)
  }

  lemma {:induction false} TrailingIsHonoured(lines: seq<Line>, ds: seq<Directive>, found: Found, n: nat)
    requires Explains(lines, ds, found) && n < |ds| && ds[n].kind == Not && OnlyNots(ds, n, |ds|)
    ensures Honoured(lines, ds, found, n)
  {
    forall l: nat | InGap(found, n, l) ensures !HitAt(lines, ds[n].pattern, l) {
      assert Obeyed(lines, ds, found, n);
      assert HeldAgainst(ds, found, n, l);
    }
  }

  lemma {:induction false} NoGapBeforeNext(ds: seq<Directive>, found: Found, n: nat, k: nat)
    requires n < k < |ds| && OnlyNots(ds, n, k) && ds[n].kind == Not && Recorded(ds, found, |ds|)
    requires k in found && RightAfter(found, k)
    ensures forall l: nat :: !InGap(found, n, l)
  {
    if found[k] > 0 {
      var q: nat :| q in found && q < k && found[q] + 1 == found[k];
      assert q < n;
    }
  }

  lemma {:induction false} BeforeNextIsHonoured(lines: seq<Line>, ds: seq<Directive>, found: Found, n: nat, k: nat)
    requires Explains(lines, ds, found) && n < k < |ds| && ds[n].kind == Not && OnlyNots(ds, n, k) && ds[k].kind == Next
    ensures Honoured(lines, ds, found, n)
  {
    assert Fits(lines, ds, found, k);
    NoGapBeforeNext(ds, found, n, k);
  }

  /** If no label after i matches at or before its line, directive i lies in its region. */
  lemma {:induction false} RegionLaid(lines: seq<Line>, ds: seq<Directive>, at: Found, i: nat)
    requires Recorded(ds, at, |ds|) && i in at && at[i] < |lines|
    requires forall b: nat, l: nat :: i < b < |ds| && ds[b].kind == Label && l <= at[i] ==> !HitAt(lines, ds[b].pattern, l)
    ensures InRegion(lines, ds, at, i)
  {
    forall a: nat | a in at && Under(ds, a, i) ensures at[i] < RegionEnd(lines, ds, at, a) {
      var b := NextLabel(ds, a + 1);
      assert b > i;
    }
  }

  // an output in which a CHECK-NOT's own line stands right before the next positive directive's

  function Ranks(kinds: seq<Kind>, k: nat): Found {
    map i: nat | i < |kinds| && kinds[i] != Not :: RankWithExtra(kinds, k, i)
  }

  lemma {:induction false} RanksInOrder(kinds: seq<Kind>, n: nat, k: nat, i: nat)
    requires n < k < |kinds| && kinds[n] == Not && kinds[k] != Not && i in Ranks(kinds, k)
    ensures Ranks(kinds, k)[i] < |WithExtra(kinds, n, k)|
    ensures forall j: nat :: j < i && j in Ranks(kinds, k) ==> Ranks(kinds, k)[j] < Ranks(kinds, k)[i]
    ensures forall j: nat :: i < j && j in Ranks(kinds, k) ==> Ranks(kinds, k)[i] < Ranks(kinds, k)[j]
  {
    RanksRise(kinds, i, |kinds|);
    RanksRise(kinds, k, |kinds|);
    forall j: nat | j < i && j in Ranks(kinds, k) ensures Ranks(kinds, k)[j] < Ranks(kinds, k)[i] {
      RanksRise(kinds, j, i);
    }
    forall j: nat | i < j && j in Ranks(kinds, k) ensures Ranks(kinds, k)[i] < Ranks(kinds, k)[j] {
      RanksRise(kinds, i, j);
    }
  }

  /** The extra line comes right after everything before n and right before everything after it. */
  lemma {:induction false} ExtraInGap(kinds: seq<Kind>, n: nat, k: nat)
    requires n < k < |kinds| && kinds[n] == Not && k == NextPositive(kinds, n + 1)
    ensures InGap(Ranks(kinds, k), n, Rank(kinds, k))
  {
    forall q: nat | q in Ranks(kinds, k)
      ensures if q < n then Ranks(kinds, k)[q] < Rank(kinds, k) else Rank(kinds, k) < Ranks(kinds, k)[q]
    {
      if q < n {
        RanksRise(kinds, q, k);
      } else {
        RanksRise(kinds, k, q);
      }
    }
  }

  lemma {:induction false} FitsItsLine(kinds: seq<Kind>, n: nat, k: nat, i: nat)
    requires n < k < |kinds| && kinds[n] == Not && kinds[k] != Not && kinds[k] != Next && k == NextPositive(kinds, n + 1)
    requires i < |kinds| && kinds[i] != Not
    ensures Fits(Output(WithExtra(kinds, n, k)), Distinct(kinds), Ranks(kinds, k), i)
  {
    var names, ds, at := WithExtra(kinds, n, k), Distinct(kinds), Ranks(kinds, k);
    var lines := Output(names);
    RanksInOrder(kinds, n, k, i);
    forall l: nat | l <= at[i] ensures HitAt(lines, ds[i].pattern, l) <==> l == at[i] {
      HitsItsName(names, i, l);
      NamesWithExtra(kinds, n, k, i, l);
    }
    if kinds[i] == Next {
      RunsOn(kinds, n, k, i);
    }
    forall b: nat, l: nat | i < b < |ds| && ds[b].kind == Label && l <= at[i] ensures !HitAt(lines, ds[b].pattern, l) {
      HitsItsName(names, b, l);
      NamesWithExtra(kinds, n, k, b, l);
      assert b in at;
    }
    RegionLaid(lines, ds, at, i);
  }

  lemma {:induction false} RunsOn(kinds: seq<Kind>, n: nat, k: nat, i: nat)
    requires n < k < |kinds| && kinds[n] == Not && kinds[k] != Next && k == NextPositive(kinds, n + 1)
    requires i < |kinds| && kinds[i] == Next
    ensures RightAfter(Ranks(kinds, k), i)
  {
    var at := Ranks(kinds, k);
    if Rank(kinds, i) > 0 {
      var q := RankBefore(kinds, i);
      assert q in at && at[q] + 1 == at[i];
    } else if i > k {
      RanksRise(kinds, k, i);
    }
  }

  lemma {:induction false} ObeyedOnItsLine(kinds: seq<Kind>, n: nat, k: nat, m: nat)
    requires n < k < |kinds| && kinds[n] == Not && k == NextPositive(kinds, n + 1)
    requires m < |kinds| && kinds[m] == Not
    ensures Obeyed(Output(WithExtra(kinds, n, k)), Distinct(kinds), Ranks(kinds, k), m)
  {
    var names, ds, at := WithExtra(kinds, n, k), Distinct(kinds), Ranks(kinds, k);
    forall l: nat | HeldAgainst(ds, at, m, l) ensures !HitAt(Output(names), ds[m].pattern, l) {
      HitsItsName(names, m, l);
      if l < |names| {
        NamesWithExtra(kinds, n, k, m, l);
        if m == n {
          NotHeldAgainstExtra(kinds, n, k, l);
        }
      }
    }
  }

  lemma {:induction false} NotHeldAgainstExtra(kinds: seq<Kind>, n: nat, k: nat, l: nat)
    requires n < k < |kinds| && kinds[n] == Not && k == NextPositive(kinds, n + 1)
    requires HeldAgainst(Distinct(kinds), Ranks(kinds, k), n, l)
    ensures l != Rank(kinds, k)
  {
    var ds, at := Distinct(kinds), Ranks(kinds, k);
    assert !OnlyNots(ds, n, |ds|) by {
      assert ds[k].kind != Not;
    }
    var p: nat :| LastBefore(ds, at, p, n) && ReachedBy(ds, at, p, l);
    var r: nat :| r in at && r <= p && l <= at[r];
    RanksRise(kinds, r, k);
  }

  lemma {:induction false} ExtraExplains(kinds: seq<Kind>, n: nat, k: nat)
    requires n < k < |kinds| && kinds[n] == Not && kinds[k] != Next && k == NextPositive(kinds, n + 1)
    ensures Explains(Output(WithExtra(kinds, n, k)), Distinct(kinds), Ranks(kinds, k))
  {
    forall i: nat | i in Ranks(kinds, k) ensures Fits(Output(WithExtra(kinds, n, k)), Distinct(kinds), Ranks(kinds, k), i) {
      FitsItsLine(kinds, n, k, i);
    }
    forall m: nat | m < |kinds| && kinds[m] == Not
      ensures Obeyed(Output(WithExtra(kinds, n, k)), Distinct(kinds), Ranks(kinds, k), m)
    {
      ObeyedOnItsLine(kinds, n, k, m);
    }
  }

  /** The scan passes, although the line named n stands in the gap that CHECK-NOT n is documented to rule out. */
  lemma {:induction false} ExtraBreaksPromise(kinds: seq<Kind>, n: nat, k: nat)
    requires n < k < |kinds| && kinds[n] == Not && kinds[k] != Next && k == NextPositive(kinds, n + 1)
    ensures var r := Outcomes(Output(WithExtra(kinds, n, k)), Distinct(kinds));
      r.Passed? && !Honoured(Output(WithExtra(kinds, n, k)), Distinct(kinds), r.found, n)
  {
    var names, ds, at := WithExtra(kinds, n, k), Distinct(kinds), Ranks(kinds, k);
    ExtraExplains(kinds, n, k);
    PassesExactly(Output(names), ds, at);
    ExtraInGap(kinds, n, k);
    RanksRise(kinds, k, |kinds|);
    NamesWithExtra(kinds, n, k, n, Rank(kinds, k));
    HitsItsName(names, n, Rank(kinds, k));
  }

  /** A successful scan honours CHECK-NOT n as documented, for all patterns and outputs, exactly when the next positive
   *  directive is a CHECK-NEXT or there is none: a condition on the list of directives alone.
   */
  lemma {:induction false} NotHonouredExactly(kinds: seq<Kind>, n: nat)
    requires n < |kinds| && kinds[n] == Not
    ensures (var k := NextPositive(kinds, n + 1); k == |kinds| || kinds[k] == Next)
      <==> forall lines, ds :: KindsOf(ds) == kinds && Outcomes(lines, ds).Passed? ==>
             Honoured(lines, ds, Outcomes(lines, ds).found, n)
  {
    var k := NextPositive(kinds, n + 1);
    if k == |kinds| || kinds[k] == Next {
      forall lines, ds | KindsOf(ds) == kinds && Outcomes(lines, ds).Passed?
        ensures Honoured(lines, ds, Outcomes(lines, ds).found, n)
      {
        HonouredAtEndOrNext(lines, ds, n, k);
      }
    } else {
      ExtraBreaksPromise(kinds, n, k);
      assert KindsOf(Distinct(kinds)) == kinds;
    }
  }

  lemma {:induction false} HonouredAtEndOrNext(lines: seq<Line>, ds: seq<Directive>, n: nat, k: nat)
    requires Outcomes(lines, ds).Passed? && n < k <= |ds| && ds[n].kind == Not && k == NextPositive(KindsOf(ds), n + 1)
    requires k < |ds| ==> ds[k].kind == Next
    ensures Honoured(lines, ds, Outcomes(lines, ds).found, n)
  {
    var found, kinds := Outcomes(lines, ds).found, KindsOf(ds);
    PassesExactly(lines, ds, found);
    assert forall j: nat :: n < j < k ==> kinds[j] == ds[j].kind;
    if k == |ds| {
      TrailingIsHonoured(lines, ds, found, n);
    } else {
      BeforeNextIsHonoured(lines, ds, found, n, k);
    }
  }

  // ---------------------------------------------------------------------- labels

  /** Directives of different groups match in order. */
  lemma {:induction false} InOrder(lines: seq<Line>, ds: seq<Directive>, found: Found, q: nat, j: nat)
    requires Explains(lines, ds, found) && q in found && j in found && q < j
    requires ds[q].kind != Dag || ds[j].kind != Dag
    ensures found[q] < found[j]
  {
    assert Fits(lines, ds, found, j);
    assert EarlierUnit(ds, q, j);
  }

  lemma {:induction false} AllBeforeNextLabel(lines: seq<Line>, ds: seq<Directive>, found: Found, a: nat, b: nat)
    requires Explains(lines, ds, found) && a < b < |ds| && ds[a].kind == Label && ds[b].kind == Label
    ensures a in found && b in found && found[a] < found[b]
    ensures forall j: nat :: j in found && a < j < b ==> found[a] < found[j] < found[b]
  {
    InOrder(lines, ds, found, a, b);
    forall j: nat | j in found && a < j < b ensures found[a] < found[j] < found[b] {
      InOrder(lines, ds, found, a, j);
      InOrder(lines, ds, found, j, b);
    }
  }

  lemma {:induction false} UnderIsBetween(ds: seq<Directive>, a: nat, j: nat)
    requires Under(ds, a, j)
    ensures var b := NextLabel(ds, a + 1); a < j < b && (b < |ds| ==> ds[b].kind == Label)
  {
  }

  /** Between two consecutive labels every positive directive matched strictly between the lines of the labels,
   *  and a CHECK or CHECK-DAG also before the first line after label a that matches label b.
   */
  lemma {:induction false} MatchedBetweenLabels(lines: seq<Line>, ds: seq<Directive>, a: nat, j: nat)
    requires Outcomes(lines, ds).Passed? && Under(ds, a, j) && ds[j].kind != Not
    ensures var found, b := Outcomes(lines, ds).found, NextLabel(ds, a + 1);
      && a in found && j in found && found[a] < found[j]
      && HitAt(lines, ds[j].pattern, found[j])
      && (b < |ds| ==> b in found && found[j] < found[b])
      && (b < |ds| && ds[j].kind != Next ==> forall l :: found[a] < l <= found[j] ==> !HitAt(lines, ds[b].pattern, l))
  {
    var found, b := Outcomes(lines, ds).found, NextLabel(ds, a + 1);
    PassesExactly(lines, ds, found);
    UnderIsBetween(ds, a, j);
    InOrder(lines, ds, found, a, j);
    assert Fits(lines, ds, found, j);
    if b < |ds| {
      InOrder(lines, ds, found, j, b);
      if ds[j].kind != Next {
        NoMatchBefore(lines, ds, found, a, b, found[j]);
      }
    }
  }

  lemma {:induction false} NoMatchBefore(lines: seq<Line>, ds: seq<Directive>, found: Found, a: nat, b: nat, e: nat)
    requires a in found && a < b < |ds| && b == NextLabel(ds, a + 1) && e < RegionEnd(lines, ds, found, a)
    ensures forall l :: found[a] < l <= e ==> !HitAt(lines, ds[b].pattern, l)
  {
  }

  /** The first later line the next label can match, when there is one. */
  lemma {:induction false} RegionEndsAtMatch(lines: seq<Line>, ds: seq<Directive>, found: Found, a: nat, b: nat, l: nat)
    requires a in found && a < b < |ds| && b == NextLabel(ds, a + 1) && found[a] < l && HitAt(lines, ds[b].pattern, l)
    ensures var e := RegionEnd(lines, ds, found, a);
      found[a] < e <= l && HitAt(lines, ds[b].pattern, e) && forall k :: found[a] < k < e ==> !HitAt(lines, ds[b].pattern, k)
  {
  }

  /** One step: the label matches where the region before it ends exactly when the scanner is not past that line. */
  lemma {:induction false} LabelStepExactly(lines: seq<Line>, ds: seq<Directive>, s: State, a: nat)
    requires Inv(lines, ds, s) && s.i < |ds| && ds[s.i].kind == Label && a in s.found && LastLabel(ds, a, s.i)
    ensures var r := StepFrom(lines, ds, s);
      r.Go? ==> s.i in r.s.found && (r.s.found[s.i] == RegionEnd(lines, ds, s.found, a) <==> s.pos <= s.regionEnd)
  {
    if StepFrom(lines, ds, s).Go? {
      var l := LabelStep(lines, ds, s);
      assert NextLabel(ds, a + 1) == s.i;
      RegionEndsAtMatch(lines, ds, s.found, a, s.i, l);
    }
  }

  lemma {:induction false} LabelStep(lines: seq<Line>, ds: seq<Directive>, s: State) returns (l: nat)
    requires Valid(lines, ds, s) && s.i < |ds| && ds[s.i].kind == Label && StepFrom(lines, ds, s).Go?
    ensures StepFrom(lines, ds, s).s.found == s.found[s.i := l]
    ensures s.pos <= l && HitAt(lines, ds[s.i].pattern, l) && forall k :: s.pos <= k < l ==> !HitAt(lines, ds[s.i].pattern, k)
  {
    l := First(lines, ds[s.i].pattern, s.pos, |lines|).value;
  }

  lemma {:induction false} LabelTakesRegionEnd(lines: seq<Line>, ds: seq<Directive>, found: Found, a: nat, b: nat)
    requires Explains(lines, ds, found) && a < b < |ds| && ds[a].kind == Label && b == NextLabel(ds, a + 1)
    requires a in found && b in found && found[a] < found[b]
    requires forall j: nat :: j in found && Under(ds, a, j) ==> found[j] < RegionEnd(lines, ds, found, a)
    ensures found[b] == RegionEnd(lines, ds, found, a)
  {
    assert Fits(lines, ds, found, b);
    RegionEndsAtMatch(lines, ds, found, a, b, found[b]);
    BeforeRegionEnd(lines, ds, found, a, b, RegionEnd(lines, ds, found, a));
  }

  /** The whole scan: the next label matched where the region of label a ends exactly when all that matched in
   *  between lies before that line.
   */
  lemma {:induction false} LabelMatchesRegionEnd(lines: seq<Line>, ds: seq<Directive>, a: nat)
    requires Outcomes(lines, ds).Passed? && a < |ds| && ds[a].kind == Label && NextLabel(ds, a + 1) < |ds|
    ensures var found, b := Outcomes(lines, ds).found, NextLabel(ds, a + 1);
      && a in found && b in found
      && (found[b] == RegionEnd(lines, ds, found, a) <==>
            forall j: nat :: j in found && Under(ds, a, j) ==> found[j] < RegionEnd(lines, ds, found, a))
  {
    var found, b := Outcomes(lines, ds).found, NextLabel(ds, a + 1);
    PassesExactly(lines, ds, found);
    AllBeforeNextLabel(lines, ds, found, a, b);
    forall j: nat | j in found && Under(ds, a, j) ensures found[j] < found[b] {
      UnderIsBetween(ds, a, j);
    }
    if forall j: nat :: j in found && Under(ds, a, j) ==> found[j] < RegionEnd(lines, ds, found, a) {
      LabelTakesRegionEnd(lines, ds, found, a, b);
    }
  }

  lemma {:induction false} BeforeRegionEnd(lines: seq<Line>, ds: seq<Directive>, found: Found, a: nat, b: nat, e: nat)
    requires Explains(lines, ds, found) && a < b < |ds| && ds[a].kind == Label && b == NextLabel(ds, a + 1)
    requires a in found && found[a] < e
    requires forall j: nat :: j in found && Under(ds, a, j) ==> found[j] < e
    ensures AfterEarlier(ds, found, b, e)
  {
    forall q: nat | q in found && EarlierUnit(ds, q, b) ensures found[q] < e {
      if q < a {
        InOrder(lines, ds, found, q, a);
      } else if q > a {
        assert Under(ds, a, q);
      }
    }
  }

  /** The last positive directive before b is a CHECK-NEXT. */
  ghost predicate NextComesLast(kinds: seq<Kind>, b: nat) {
    exists j: nat :: LastIsNext(kinds, j, b)
  }

  predicate LastIsNext(kinds: seq<Kind>, j: nat, b: nat) {
    j < b <= |kinds| && kinds[j] == Next && forall k :: j < k < b ==> kinds[k] == Not
  }

  ghost predicate ConsecutiveLabels(kinds: seq<Kind>, a: nat, b: nat) {
    a < b < |kinds| && kinds[a] == Label && kinds[b] == Label && forall k :: a < k < b ==> kinds[k] != Label
  }

  ghost predicate OnRegionEnd(lines: seq<Line>, ds: seq<Directive>, found: Found, a: nat, b: nat) {
    a < |ds| && a in found && b in found && found[b] == RegionEnd(lines, ds, found, a)
  }

  /** If something other than a CHECK-NEXT comes last, all that matched in between lies in the region. */
  lemma {:induction false} LastInRegion(lines: seq<Line>, ds: seq<Directive>, found: Found, a: nat, b: nat, j: nat)
    requires Explains(lines, ds, found) && ConsecutiveLabels(KindsOf(ds), a, b) && !NextComesLast(KindsOf(ds), b)
    requires a in found && j in found && Under(ds, a, j) && j < b
    ensures found[j] < RegionEnd(lines, ds, found, a)
  {
    var kinds := KindsOf(ds);
    var q := LastPositive(ds, found, |ds|, b, j);
    assert ds[q].kind == kinds[q];
    assert LastIsNext(kinds, q, b) <==> kinds[q] == Next;
    assert Fits(lines, ds, found, q) && Fits(lines, ds, found, j);
    assert j <= q && kinds[q] != Label;
    assert Under(ds, a, q);
    if !SameGroup(ds, j, q) && j != q {
      assert EarlierUnit(ds, j, q);
    }
    assert ds[j].kind != Dag ==> !SameGroup(ds, j, q) || j == q by {
      if ds[j].kind != Dag {
        NotGrouped(ds, j, q);
      }
    }
  }

  lemma {:induction false} LabelOnRegionEnd(lines: seq<Line>, ds: seq<Directive>, a: nat, b: nat)
    requires Outcomes(lines, ds).Passed? && ConsecutiveLabels(KindsOf(ds), a, b) && !NextComesLast(KindsOf(ds), b)
    ensures OnRegionEnd(lines, ds, Outcomes(lines, ds).found, a, b)
  {
    var found, kinds := Outcomes(lines, ds).found, KindsOf(ds);
    PassesExactly(lines, ds, found);
    NextLabelIs(kinds, ds, a, b);
    AllBeforeNextLabel(lines, ds, found, a, b);
    forall j: nat | j in found && Under(ds, a, j) ensures found[j] < RegionEnd(lines, ds, found, a) {
      LastInRegion(lines, ds, found, a, b, j);
    }
    LabelTakesRegionEnd(lines, ds, found, a, b);
  }

  lemma {:induction false} NextLabelIs(kinds: seq<Kind>, ds: seq<Directive>, a: nat, b: nat)
    requires kinds == KindsOf(ds) && ConsecutiveLabels(kinds, a, b)
    ensures b < |ds| && ds[a].kind == Label && NextLabel(ds, a + 1) == b
    ensures forall j: nat :: Under(ds, a, j) ==> j < b
  {
    var c := NextLabel(ds, a + 1);
    assert c < |ds| ==> kinds[c] == ds[c].kind;
    assert kinds[b] == ds[b].kind && kinds[a] == ds[a].kind;
  }

  // an output in which label b also matches the line of the CHECK-NEXT before it

  function Either(k: nat, m: nat): Pattern { Regex((line: Line) => line == Name(k) || line == Name(m)) }

  function WithSecond(kinds: seq<Kind>, j: nat, b: nat): seq<Directive>
    requires b < |kinds|
  {
    Distinct(kinds)[b := Directive(kinds[b], Either(b, j))]
  }

  lemma {:induction false} HitsEither(names: seq<nat>, k: nat, m: nat, l: nat)
    ensures HitAt(Output(names), Either(k, m), l) <==> l < |names| && (names[l] == k || names[l] == m)
  {
    HitsItsName(names, k, l);
    HitsItsName(names, m, l);
  }

  function AllPositives(kinds: seq<Kind>): seq<nat> { Positives(kinds, |kinds|) }

  function PlainRanks(kinds: seq<Kind>): Found {
    map i: nat | i < |kinds| && kinds[i] != Not :: Rank(kinds, i)
  }

  lemma {:induction false} PlainName(kinds: seq<Kind>, i: nat, l: nat)
    requires i < |kinds| && l < |AllPositives(kinds)|
    ensures AllPositives(kinds)[l] == i <==> kinds[i] != Not && l == Rank(kinds, i)
  {
    PositivesAre(kinds, |kinds|, l);
    RanksRise(kinds, i, |kinds|);
  }

  lemma {:induction false} PlainInOrder(kinds: seq<Kind>, i: nat)
    requires i in PlainRanks(kinds)
    ensures PlainRanks(kinds)[i] < |AllPositives(kinds)|
    ensures forall j: nat :: j < i && j in PlainRanks(kinds) ==> PlainRanks(kinds)[j] < PlainRanks(kinds)[i]
    ensures forall j: nat :: i < j && j in PlainRanks(kinds) ==> PlainRanks(kinds)[i] < PlainRanks(kinds)[j]
  {
    RanksRise(kinds, i, |kinds|);
    forall j: nat | j < i && j in PlainRanks(kinds) ensures PlainRanks(kinds)[j] < PlainRanks(kinds)[i] {
      RanksRise(kinds, j, i);
    }
    forall j: nat | i < j && j in PlainRanks(kinds) ensures PlainRanks(kinds)[i] < PlainRanks(kinds)[j] {
      RanksRise(kinds, i, j);
    }
  }

  /** Every pattern matches its own line, and that of label b also the line of directive j. */
  lemma {:induction false} HitsSecond(kinds: seq<Kind>, j: nat, b: nat, i: nat, l: nat)
    requires j < b < |kinds| && kinds[b] == Label && kinds[j] == Next && i < |kinds|
    ensures HitAt(Output(AllPositives(kinds)), WithSecond(kinds, j, b)[i].pattern, l) <==>
      l < |AllPositives(kinds)| && ((kinds[i] != Not && l == Rank(kinds, i)) || (i == b && l == Rank(kinds, j)))
  {
    var names := AllPositives(kinds);
    HitsItsName(names, i, l);
    HitsEither(names, b, j, l);
    if l < |names| {
      PlainName(kinds, i, l);
      PlainName(kinds, j, l);
    }
  }

  lemma {:induction false} FitsPlainLine(kinds: seq<Kind>, j: nat, b: nat, i: nat)
    requires b < |kinds| && LastIsNext(kinds, j, b) && kinds[b] == Label && i < |kinds| && kinds[i] != Not
    ensures Fits(Output(AllPositives(kinds)), WithSecond(kinds, j, b), PlainRanks(kinds), i)
  {
    var ds, at, lines := WithSecond(kinds, j, b), PlainRanks(kinds), Output(AllPositives(kinds));
    PlainInOrder(kinds, i);
    HitsSecond(kinds, j, b, i, at[i]);
    forall l: nat | l < at[i] && AfterEarlier(ds, at, i, l) ensures !HitAt(lines, ds[i].pattern, l) {
      HitsSecond(kinds, j, b, i, l);
      if i == b {
        NotGrouped(ds, j, b);
        assert EarlierUnit(ds, j, b) && j in at;
      }
    }
    if kinds[i] == Next && Rank(kinds, i) > 0 {
      var q := RankBefore(kinds, i);
      assert q in at && at[q] + 1 == at[i];
    }
    if kinds[i] == Check || kinds[i] == Dag {
      forall c: nat, l: nat | i < c < |ds| && ds[c].kind == Label && l <= at[i] ensures !HitAt(lines, ds[c].pattern, l) {
        HitsSecond(kinds, j, b, c, l);
        assert c in at && j in at;
        assert c == b ==> i < j;
      }
      RegionLaid(lines, ds, at, i);
    }
  }

  lemma {:induction false} SecondExplains(kinds: seq<Kind>, j: nat, b: nat)
    requires b < |kinds| && LastIsNext(kinds, j, b) && kinds[b] == Label
    ensures Explains(Output(AllPositives(kinds)), WithSecond(kinds, j, b), PlainRanks(kinds))
  {
    var ds, at, lines := WithSecond(kinds, j, b), PlainRanks(kinds), Output(AllPositives(kinds));
    forall i: nat | i in at ensures i < |ds| && Fits(lines, ds, at, i) {
      FitsPlainLine(kinds, j, b, i);
    }
    forall m: nat | m < |ds| && ds[m].kind == Not ensures Obeyed(lines, ds, at, m) {
      forall l: nat ensures !HitAt(lines, ds[m].pattern, l) {
        HitsSecond(kinds, j, b, m, l);
      }
    }
  }

  lemma {:induction false} SecondOffRegionEnd(kinds: seq<Kind>, a: nat, j: nat, b: nat)
    requires ConsecutiveLabels(kinds, a, b) && LastIsNext(kinds, j, b)
    ensures !OnRegionEnd(Output(AllPositives(kinds)), WithSecond(kinds, j, b), PlainRanks(kinds), a, b)
  {
    var ds, at, lines := WithSecond(kinds, j, b), PlainRanks(kinds), Output(AllPositives(kinds));
    assert KindsOf(ds) == kinds;
    NextLabelIs(kinds, ds, a, b);
    assert a < j && j in at && a in at && b in at;
    PlainInOrder(kinds, j);
    HitsSecond(kinds, j, b, b, at[j]);
    RegionEndsAtMatch(lines, ds, at, a, b, at[j]);
  }

  lemma {:induction false} SecondPassesRegionEnd(kinds: seq<Kind>, a: nat, j: nat, b: nat)
    requires ConsecutiveLabels(kinds, a, b) && LastIsNext(kinds, j, b)
    ensures var r := Outcomes(Output(AllPositives(kinds)), WithSecond(kinds, j, b));
      r.Passed? && !OnRegionEnd(Output(AllPositives(kinds)), WithSecond(kinds, j, b), r.found, a, b)
  {
    SecondExplains(kinds, j, b);
    PassesExactly(Output(AllPositives(kinds)), WithSecond(kinds, j, b), PlainRanks(kinds));
    SecondOffRegionEnd(kinds, a, j, b);
  }

  /** After every successful scan, for all patterns and outputs, label b matched the line where the region of the label
   *  before it ends, exactly when the last positive directive before b is not a CHECK-NEXT: a condition on the list alone.
   */
  lemma {:induction false} LabelOnRegionEndExactly(kinds: seq<Kind>, a: nat, b: nat)
    requires ConsecutiveLabels(kinds, a, b)
    ensures !NextComesLast(kinds, b)
      <==> forall lines, ds :: KindsOf(ds) == kinds && Outcomes(lines, ds).Passed? ==>
             OnRegionEnd(lines, ds, Outcomes(lines, ds).found, a, b)
  {
    if j: nat :| LastIsNext(kinds, j, b) {
      SecondPassesRegionEnd(kinds, a, j, b);
      assert KindsOf(WithSecond(kinds, j, b)) == kinds;
    } else {
      forall lines, ds | KindsOf(ds) == kinds && Outcomes(lines, ds).Passed?
        ensures OnRegionEnd(lines, ds, Outcomes(lines, ds).found, a, b)
      {
        LabelOnRegionEnd(lines, ds, a, b);
      }
    }
  }

  // -------------------------------------------------------------------- examples

  function Is(text: string): Pattern { Regex((line: Line) => line == text) }

  const AThenNoNThenB: seq<Directive> := [Directive(Check, Is("A")), Directive(Not, Is("N")), Directive(Check, Is("B"))]

  /** CHECK-NOT says nothing about the lines between the two matches around it. */
  lemma NotSkipsTheGap()
    ensures Outcomes(["A", "N", "B"], AThenNoNThenB).Passed?
  {
    var lines, ds := ["A", "N", "B"], AThenNoNThenB;
    FirstIs(lines, Is("A"), 0, 3, 0);
    var s1 := State(1, 1, 0, 3, 0, [], map[0 := 0]);
    assert StepFrom(lines, ds, Start(lines)) == Go(s1);
    var s2 := s1.(i := 2, pending := [1]);
    assert StepFrom(lines, ds, s1) == Go(s2);
    assert First(lines, Is("N"), 0, 1) == None;
    FirstIs(lines, Is("B"), 1, 3, 2);
    assert StepFrom(lines, ds, s2) == Go(State(3, 3, 0, 3, 1, [], map[0 := 0, 2 := 2]));
  }

  /** It is held against the lines scanned for the CHECK before it. */
  lemma NotReachesBack()
    ensures Outcomes(["N", "A", "B"], AThenNoNThenB).Failed?
  {
    var lines, ds := ["N", "A", "B"], AThenNoNThenB;
    FirstIs(lines, Is("A"), 0, 3, 1);
    var s1 := State(2, 1, 0, 3, 0, [], map[0 := 1]);
    assert StepFrom(lines, ds, Start(lines)) == Go(s1);
    var s2 := s1.(i := 2, pending := [1]);
    assert StepFrom(lines, ds, s1) == Go(s2);
    FirstIs(lines, Is("N"), 0, 2, 0);
    assert StepFrom(lines, ds, s2).Stop?;
  }

  /** A CHECK-NOT before the first positive directive is held against no line at all. */
  lemma LeadingNotIsEmpty()
    ensures Outcomes(["N", "A"], [Directive(Not, Is("N")), Directive(Check, Is("A"))]).Passed?
  {
    var lines, ds := ["N", "A"], [Directive(Not, Is("N")), Directive(Check, Is("A"))];
    var s1 := Start(lines).(i := 1, pending := [0]);
    assert StepFrom(lines, ds, Start(lines)) == Go(s1);
    assert First(lines, Is("N"), 0, 0) == None;
    FirstIs(lines, Is("A"), 0, 2, 1);
    assert StepFrom(lines, ds, s1) == Go(State(2, 2, 0, 2, 0, [], map[1 := 1]));
  }
}
