/** What a failed scan means, without the scanner: which directive is to blame, why, and
 *  which lines were searched for it.
 */
module CheckFailures {
  import opened RunChecks
  import opened CheckMeaning
  import opened Optional

  // ------------------------------------------------------------- the description

  predicate NoLabelBefore(ds: seq<Directive>, i: nat) {
    i <= |ds| && forall k :: 0 <= k < i ==> ds[k].kind != Label
  }

  /** The region directive i lies in: from the last label's line to where the next label can first
   *  match, or the whole output when no label has been met.
   */
  ghost predicate RegionIs(lines: seq<Line>, ds: seq<Directive>, found: Found, i: nat, lo: nat, hi: nat) {
    || (NoLabelBefore(ds, i) && lo == 0 && hi == |lines|)
    || exists a: nat :: a in found && LastLabel(ds, a, i) && lo == found[a] && hi == RegionEnd(lines, ds, found, a)
  }

  /** Line l comes after everything found. */
  ghost predicate Beyond(found: Found, l: nat) { forall q: nat :: q in found ==> found[q] < l }

  /** Line l comes right after everything found. */
  ghost predicate RightBeyond(found: Found, l: nat) {
    Beyond(found, l) && (l > 0 ==> exists q: nat :: q in found && found[q] + 1 == l)
  }

  /** Some line after everything found and before hi matches. */
  ghost predicate Ahead(lines: seq<Line>, p: Pattern, found: Found, hi: nat) {
    exists l: nat :: Beyond(found, l) && l < hi && HitAt(lines, p, l)
  }

  ghost predicate NotsObeyed(lines: seq<Line>, ds: seq<Directive>, found: Found, n: nat) {
    forall m: nat :: m < n && m < |ds| && ds[m].kind == Not ==> Obeyed(lines, ds, found, m)
  }

  /** Everything before i is accounted for, as far as directives that match are concerned, and i is where
   *  the next one, or the next group of CHECK-DAGs, or the end of the list is.
   */
  ghost predicate Reached(lines: seq<Line>, ds: seq<Directive>, found: Found, i: nat) {
    && Recorded(ds, found, i) && AllFit(lines, ds, found) && AtBoundary(ds, i)
    && (i < |ds| ==> ds[i].kind != Not)
  }

  /** CHECK-NOT d, one of those just before i, is the first that is bad or matches a line it is held against. */
  ghost predicate BlamesNot(lines: seq<Line>, ds: seq<Directive>, found: Found, i: nat, d: nat, why: Reason)
    requires d < |ds|
  {
    && ds[d].kind == Not && d < i && OnlyNots(ds, d, i) && NotsObeyed(lines, ds, found, d)
    && match why
       case BadPattern => ds[d].pattern.BadRegex?
       case NotMatched => ds[d].pattern.Regex? && exists l: nat :: HeldAgainst(ds, found, d, l) && HitAt(lines, ds[d].pattern, l)
       case _ => false
  }

  /** All CHECK-NOTs before are obeyed, and CHECK-DAG d is the first of the group at i that is bad or matches
   *  no line of the rest of the region.
   */
  ghost predicate BlamesDag(lines: seq<Line>, ds: seq<Directive>, found: Found, i: nat, hi: nat, d: nat, why: Reason)
    requires d < |ds|
  {
    && i <= d && SameGroup(ds, i, d) && NotsObeyed(lines, ds, found, i)
    && (forall m: nat :: i <= m < d ==> Ahead(lines, ds[m].pattern, found, hi))
    && match why
       case BadPattern => ds[d].pattern.BadRegex?
       case DagMissing => ds[d].pattern.Regex? && !Ahead(lines, ds[d].pattern, found, hi)
       case _ => false
  }

  /** All CHECK-NOTs before are obeyed, and the directive at i itself is to blame. */
  ghost predicate BlamesOne(lines: seq<Line>, ds: seq<Directive>, found: Found, i: nat, hi: nat, why: Reason)
    requires i < |ds|
  {
    var kind, p := ds[i].kind, ds[i].pattern;
    && kind != Not && kind != Dag && NotsObeyed(lines, ds, found, i)
    && match why
       case BadPattern => p.BadRegex? && (kind == Next ==> exists l: nat :: RightBeyond(found, l) && l < |lines|)
       case LabelMissing => kind == Label && p.Regex? && !Ahead(lines, p, found, |lines|)
       case CheckMissing => kind == Check && p.Regex? && !Ahead(lines, p, found, hi)
       case NextAtEnd => kind == Next && forall l: nat :: Beyond(found, l) ==> l >= |lines|
       case NextMismatch => kind == Next && p.Regex? && exists l: nat :: RightBeyond(found, l) && l < |lines| && !HitAt(lines, p, l)
       case _ => false
  }

  /** With these lines assigned to the directives before i, the failure is the one to report. */
  ghost predicate Blames(lines: seq<Line>, ds: seq<Directive>, found: Found, i: nat, f: Failure) {
    && f.directive < |ds| && RegionIs(lines, ds, found, i, f.regionStart, f.regionEnd)
    && (|| BlamesNot(lines, ds, found, i, f.directive, f.reason)
        || BlamesDag(lines, ds, found, i, f.regionEnd, f.directive, f.reason)
        || (f.directive == i && BlamesOne(lines, ds, found, i, f.regionEnd, f.reason)))
  }

  /** The output is refuted by this failure. */
  ghost predicate Refuted(lines: seq<Line>, ds: seq<Directive>, f: Failure) {
    exists found: Found, i: nat :: Reached(lines, ds, found, i) && Blames(lines, ds, found, i, f)
  }

  // ----------------------------------------------------------- two more invariants

  /** The list of pending CHECK-NOTs is the run of them right before i. */
  ghost predicate PendingRun(s: State) {
    |s.pending| <= s.i && forall k :: 0 <= k < |s.pending| ==> s.pending[k] == s.i - |s.pending| + k
  }

  ghost predicate StartsAtLabel(ds: seq<Directive>, s: State) {
    && (forall a: nat :: a in s.found && LastLabel(ds, a, s.i) ==> s.regionStart == s.found[a])
    && (NoLabelBefore(ds, s.i) ==> s.regionStart == 0)
  }

  ghost predicate FullInv(lines: seq<Line>, ds: seq<Directive>, s: State) {
    Inv(lines, ds, s) && PendingRun(s) && StartsAtLabel(ds, s)
  }

  lemma StartIsFull(lines: seq<Line>, ds: seq<Directive>)
    ensures FullInv(lines, ds, Start(lines))
  {
    StartHolds(lines, ds);
  }

  lemma {:induction false} DagKeepsStart(lines: seq<Line>, ds: seq<Directive>, t: State, d: nat, e: nat, from: nat)
    requires Valid(lines, ds, t) && d <= e <= |ds|
    ensures var r := DagFrom(lines, ds, t, d, e, from);
      r.Go? ==> r.s.regionStart == t.regionStart && r.s.pending == t.pending && r.s.i == e
    decreases e - d
  {
    if d < e && ds[d].pattern.Regex? && First(lines, ds[d].pattern, from, t.regionEnd).Some? {
      DagKeepsStart(lines, ds, Looked(t, d, First(lines, ds[d].pattern, from, t.regionEnd).value), d + 1, e, from);
    }
  }

  lemma LabelStays(ds: seq<Directive>, s: State, t: State)
    requires Recorded(ds, s.found, s.i) && StartsAtLabel(ds, s) && s.i <= t.i <= |ds| && Extends(s.found, t.found, s.i)
    requires t.regionStart == s.regionStart && forall k :: s.i <= k < t.i ==> ds[k].kind != Label
    ensures StartsAtLabel(ds, t)
  {
    forall a: nat | a in t.found && LastLabel(ds, a, t.i) ensures t.regionStart == t.found[a] {
      assert LastLabel(ds, a, s.i);
    }
  }

  lemma LabelOpens(ds: seq<Directive>, t: State, i: nat)
    requires i < |ds| && ds[i].kind == Label && t.i == i + 1 && i in t.found && t.regionStart == t.found[i]
    ensures StartsAtLabel(ds, t)
  {
    forall a: nat | a in t.found && LastLabel(ds, a, t.i) ensures a == i {
    }
  }

  lemma PositiveRegionStart(lines: seq<Line>, ds: seq<Directive>, t: State)
    requires Valid(lines, ds, t) && t.i < |ds| && ds[t.i].kind != Not && ds[t.i].kind != Dag && Positive(lines, ds, t).Go?
    ensures var u := Positive(lines, ds, t).s;
      u.regionStart == (if ds[t.i].kind == Label then u.pos - 1 else t.regionStart) && u.i == t.i + 1 && u.pending == t.pending
      && u.pos > 0 && u.found == t.found[t.i := u.pos - 1]
  {
  }

  lemma PositiveStartsAtLabel(lines: seq<Line>, ds: seq<Directive>, s: State, t: State)
    requires Recorded(ds, s.found, s.i) && StartsAtLabel(ds, s) && t == s.(pending := [], windowStart := s.pos)
    requires Valid(lines, ds, t) && s.i < |ds| && ds[s.i].kind != Not && ds[s.i].kind != Dag && Positive(lines, ds, t).Go?
    ensures StartsAtLabel(ds, Positive(lines, ds, t).s) && PendingRun(Positive(lines, ds, t).s)
  {
    PositiveRegionStart(lines, ds, t);
    var u := Positive(lines, ds, t).s;
    if ds[s.i].kind == Label {
      LabelOpens(ds, u, s.i);
    } else {
      LabelStays(ds, s, u);
    }
  }

  lemma DagStartsAtLabel(lines: seq<Line>, ds: seq<Directive>, s: State, t: State, u: State)
    requires Recorded(ds, s.found, s.i) && StartsAtLabel(ds, s) && t == s.(pending := [], windowStart := s.pos)
    requires Valid(lines, ds, t) && s.i < |ds| && ds[s.i].kind == Dag && Extends(s.found, u.found, s.i)
    requires DagFrom(lines, ds, t, s.i, GroupEnd(ds, s.i), s.pos) == Go(u)
    ensures StartsAtLabel(ds, u) && PendingRun(u)
  {
    DagKeepsStart(lines, ds, t, s.i, GroupEnd(ds, s.i), s.pos);
    LabelStays(ds, s, u);
  }

  lemma FullStep(lines: seq<Line>, ds: seq<Directive>, s: State)
    requires FullInv(lines, ds, s) && s.i < |ds|
    ensures var r := StepFrom(lines, ds, s); r.Go? ==> FullInv(lines, ds, r.s)
  {
    StepKeeps(lines, ds, s);
    var r := StepFrom(lines, ds, s);
    if r.Go? {
      if ds[s.i].kind == Not {
        LabelStays(ds, s, r.s);
      } else {
        StepAdvances(lines, ds, s);
        StepIs(lines, ds, s);
        var t := s.(pending := [], windowStart := s.pos);
        if ds[s.i].kind == Dag {
          DagStartsAtLabel(lines, ds, s, t, r.s);
        } else {
          PositiveStartsAtLabel(lines, ds, s, t);
        }
      }
    }
  }

  // ------------------------------------------------- the scanner's view of a failure

  /** What the scanner at s stops with, if it stops there. */
  function StopOf(lines: seq<Line>, ds: seq<Directive>, s: State): Option<Failure>
    requires Valid(lines, ds, s)
  {
    if s.i == |ds| then FlushFrom(lines, ds, s, s.regionEnd, 0)
    else match StepFrom(lines, ds, s) case Stop(f) => Some(f) case Go(_) => None
  }

  lemma RegionOfState(lines: seq<Line>, ds: seq<Directive>, s: State, lo: nat, hi: nat)
    requires Recorded(ds, s.found, s.i) && Region(lines, ds, s) && StartsAtLabel(ds, s)
    ensures RegionIs(lines, ds, s.found, s.i, lo, hi) <==> lo == s.regionStart && hi == s.regionEnd
  {
    if !NoLabelBefore(ds, s.i) {
      var b :| 0 <= b < s.i && ds[b].kind == Label;
      var a := LabelBefore(ds, s.i);
      assert LastLabel(ds, a, s.i) && a in s.found;
    }
  }

  /** Lines after everything found are those from the scan position on. */
  lemma BeyondIs(found: Found, pos: nat, l: nat)
    requires Tight(found, pos)
    ensures Beyond(found, l) <==> pos <= l
    ensures RightBeyond(found, l) <==> pos == l
  {
    if Beyond(found, l) {
      TightBelow(found, pos, l);
    }
  }

  lemma AheadIs(lines: seq<Line>, p: Pattern, found: Found, pos: nat, hi: nat)
    requires Tight(found, pos) && hi <= |lines|
    ensures Ahead(lines, p, found, hi) <==> First(lines, p, pos, hi).Some?
  {
    forall l: nat ensures Beyond(found, l) <==> pos <= l {
      BeyondIs(found, pos, l);
    }
    if First(lines, p, pos, hi).Some? {
      assert Beyond(found, First(lines, p, pos, hi).value);
    }
  }

  // pending CHECK-NOTs

  predicate WindowBlames(lines: seq<Line>, ds: seq<Directive>, s: State, to: nat, n: nat, f: Failure)
    requires n < |ds| && to <= |lines|
  {
    var p := ds[n].pattern;
    || (p.BadRegex? && f == Fail(s, n, BadPattern))
    || (p.Regex? && First(lines, p, s.windowStart, to).Some? && f == Fail(s, n, NotMatched))
  }

  predicate WindowClean(lines: seq<Line>, ds: seq<Directive>, s: State, to: nat, n: nat)
    requires n < |ds| && to <= |lines|
  {
    ds[n].pattern.Regex? && First(lines, ds[n].pattern, s.windowStart, to).None?
  }

  lemma {:induction false} FlushExactly(lines: seq<Line>, ds: seq<Directive>, s: State, to: nat, k: nat, f: Failure)
    requires Valid(lines, ds, s) && to <= |lines| && k <= |s.pending|
    ensures FlushFrom(lines, ds, s, to, k) == Some(f) <==>
      exists m: nat :: k <= m < |s.pending| && WindowBlames(lines, ds, s, to, s.pending[m], f)
                       && forall j :: k <= j < m ==> WindowClean(lines, ds, s, to, s.pending[j])
    ensures FlushFrom(lines, ds, s, to, k).None? <==>
      forall j :: k <= j < |s.pending| ==> WindowClean(lines, ds, s, to, s.pending[j])
    decreases |s.pending| - k
  {
    if k < |s.pending| {
      FlushExactly(lines, ds, s, to, k + 1, f);
    }
  }

  /** Where the window of the pending CHECK-NOTs ends. */
  function WindowEnd(lines: seq<Line>, ds: seq<Directive>, s: State): nat { if s.i < |ds| then s.pos else |lines| }

  /** The lines a pending CHECK-NOT is held against are those of the window. */
  lemma WindowIs(lines: seq<Line>, ds: seq<Directive>, s: State, n: nat, l: nat)
    requires Recorded(ds, s.found, s.i) && Tight(s.found, s.pos) && Windows(ds, s)
    requires n < s.i <= |ds| && ds[n].kind == Not && OnlyNots(ds, n, s.i) && l < |lines|
    requires s.i < |ds| ==> ds[s.i].kind != Not
    ensures HeldAgainst(ds, s.found, n, l) <==> s.windowStart <= l < WindowEnd(lines, ds, s)
  {
    if s.windowStart <= l < WindowEnd(lines, ds, s) {
      WindowIsHeld(ds, s, s.found, n, l);
    }
    if HeldAgainst(ds, s.found, n, l) {
      if s.i == |ds| {
        HeldInWindow(ds, s, n, l);
      } else {
        assert !OnlyNots(ds, n, |ds|);
        var p: nat :| LastBefore(ds, s.found, p, n) && ReachedBy(ds, s.found, p, l);
        assert WindowOf(ds, s, p);
        ScannedInWindow(ds, s, n, p, l);
      }
    }
  }

  lemma CleanIsObeyed(lines: seq<Line>, ds: seq<Directive>, s: State, n: nat)
    requires Recorded(ds, s.found, s.i) && Tight(s.found, s.pos) && Windows(ds, s) && s.pos <= |lines|
    requires n < s.i <= |ds| && ds[n].kind == Not && OnlyNots(ds, n, s.i)
    requires s.i < |ds| ==> ds[s.i].kind != Not
    ensures WindowClean(lines, ds, s, WindowEnd(lines, ds, s), n) <==> Obeyed(lines, ds, s.found, n)
  {
    forall l: nat | l < |lines|
      ensures HeldAgainst(ds, s.found, n, l) <==> s.windowStart <= l < WindowEnd(lines, ds, s)
    {
      WindowIs(lines, ds, s, n, l);
    }
  }

  lemma BlameIsHeld(lines: seq<Line>, ds: seq<Directive>, s: State, n: nat, f: Failure)
    requires Recorded(ds, s.found, s.i) && Tight(s.found, s.pos) && Windows(ds, s) && s.pos <= |lines|
    requires n < s.i <= |ds| && ds[n].kind == Not && OnlyNots(ds, n, s.i)
    requires s.i < |ds| ==> ds[s.i].kind != Not
    ensures WindowBlames(lines, ds, s, WindowEnd(lines, ds, s), n, f) <==>
      f == Fail(s, n, f.reason) &&
      match f.reason
      case BadPattern => ds[n].pattern.BadRegex?
      case NotMatched => ds[n].pattern.Regex? && exists l: nat :: HeldAgainst(ds, s.found, n, l) && HitAt(lines, ds[n].pattern, l)
      case _ => false
  {
    forall l: nat | l < |lines|
      ensures HeldAgainst(ds, s.found, n, l) <==> s.windowStart <= l < WindowEnd(lines, ds, s)
    {
      WindowIs(lines, ds, s, n, l);
    }
  }

  /** Pending are the CHECK-NOTs that only CHECK-NOTs separate from i. */
  lemma PendingIs(ds: seq<Directive>, s: State, n: nat)
    requires PendingRun(s) && s.i <= |ds| && n < s.i
    requires forall k :: 0 <= k < |s.pending| ==> s.pending[k] < s.i && ds[s.pending[k]].kind == Not
    requires ds[n].kind == Not && OnlyNots(ds, n, s.i) ==> n in s.pending
    ensures n in s.pending <==> s.i - |s.pending| <= n
    ensures n in s.pending <==> ds[n].kind == Not && OnlyNots(ds, n, s.i)
    ensures n in s.pending ==> s.pending[n - (s.i - |s.pending|)] == n
  {
    if s.i - |s.pending| <= n {
      assert s.pending[n - (s.i - |s.pending|)] == n;
      forall k | n < k < s.i ensures ds[k].kind == Not {
        assert s.pending[k - (s.i - |s.pending|)] == k;
      }
    }
  }

  lemma PendingNow(lines: seq<Line>, ds: seq<Directive>, s: State, n: nat)
    requires Valid(lines, ds, s) && PendingRun(s) && NotsKept(lines, ds, s) && n < s.i
    ensures n in s.pending <==> s.i - |s.pending| <= n
    ensures n in s.pending <==> ds[n].kind == Not && OnlyNots(ds, n, s.i)
    ensures n in s.pending ==> s.pending[n - (s.i - |s.pending|)] == n
  {
    if ds[n].kind == Not && OnlyNots(ds, n, s.i) {
      assert NotKept(lines, ds, s, n);
    }
    PendingIs(ds, s, n);
  }

  /** What has been flushed is obeyed. */
  lemma FlushedIsObeyed(lines: seq<Line>, ds: seq<Directive>, s: State, n: nat)
    requires Valid(lines, ds, s) && NotsKept(lines, ds, s) && n < s.i && ds[n].kind == Not && !OnlyNots(ds, n, s.i)
    ensures Obeyed(lines, ds, s.found, n)
  {
    assert NotKept(lines, ds, s, n);
    assert !OnlyNots(ds, n, |ds|);
    forall l: nat | HeldAgainst(ds, s.found, n, l) ensures !HitAt(lines, ds[n].pattern, l) {
      var p: nat :| LastBefore(ds, s.found, p, n) && ReachedBy(ds, s.found, p, l);
      assert AfterEarlier(ds, s.found, p, l);
    }
  }

  /** The facts about s that the meaning of its pending CHECK-NOTs rests on. */
  ghost predicate Settled(lines: seq<Line>, ds: seq<Directive>, s: State) {
    && Valid(lines, ds, s) && PendingRun(s) && NotsKept(lines, ds, s) && (s.i < |ds| ==> ds[s.i].kind != Not)
    && Recorded(ds, s.found, s.i) && Tight(s.found, s.pos) && Windows(ds, s)
  }

  /** The first m pending CHECK-NOTs are clean exactly when all CHECK-NOTs before the m-th are obeyed. */
  lemma CleanUpTo(lines: seq<Line>, ds: seq<Directive>, s: State, m: nat)
    requires Settled(lines, ds, s) && m <= |s.pending|
    ensures (forall j :: 0 <= j < m ==> WindowClean(lines, ds, s, WindowEnd(lines, ds, s), s.pending[j]))
       <==> NotsObeyed(lines, ds, s.found, s.i - |s.pending| + m)
  {
    var first := s.i - |s.pending|;
    forall n: nat | n < first + m && ds[n].kind == Not
      ensures Obeyed(lines, ds, s.found, n) <==> (n >= first ==> WindowClean(lines, ds, s, WindowEnd(lines, ds, s), n))
    {
      PendingNow(lines, ds, s, n);
      if n >= first {
        CleanIsObeyed(lines, ds, s, n);
      } else {
        FlushedIsObeyed(lines, ds, s, n);
      }
    }
    forall j | 0 <= j < m ensures s.pending[j] == first + j && ds[first + j].kind == Not {
      assert s.pending[j] == first + j;
    }
    if NotsObeyed(lines, ds, s.found, first + m) {
      forall j | 0 <= j < m ensures WindowClean(lines, ds, s, WindowEnd(lines, ds, s), s.pending[j]) {
        assert Obeyed(lines, ds, s.found, s.pending[j]);
      }
    } else {
      var n: nat :| n < first + m && n < |ds| && ds[n].kind == Not && !Obeyed(lines, ds, s.found, n);
      assert s.pending[n - first] == n;
    }
  }

  lemma FlushIsBlame(lines: seq<Line>, ds: seq<Directive>, s: State, f: Failure)
    requires Settled(lines, ds, s) && WindowEnd(lines, ds, s) <= |lines|
    ensures FlushFrom(lines, ds, s, WindowEnd(lines, ds, s), 0) == Some(f) <==>
      f == Fail(s, f.directive, f.reason) && f.directive < |ds| && BlamesNot(lines, ds, s.found, s.i, f.directive, f.reason)
    ensures FlushFrom(lines, ds, s, WindowEnd(lines, ds, s), 0).None? <==> NotsObeyed(lines, ds, s.found, s.i)
  {
    var to := WindowEnd(lines, ds, s);
    FlushExactly(lines, ds, s, to, 0, f);
    CleanUpTo(lines, ds, s, |s.pending|);
    if FlushFrom(lines, ds, s, to, 0) == Some(f) {
      var m: nat :| m < |s.pending| && WindowBlames(lines, ds, s, to, s.pending[m], f)
                    && forall j :: 0 <= j < m ==> WindowClean(lines, ds, s, to, s.pending[j]);
      PendingBlamed(lines, ds, s, m, f);
    }
    if f == Fail(s, f.directive, f.reason) && f.directive < |ds| && BlamesNot(lines, ds, s.found, s.i, f.directive, f.reason) {
      var m := BlamedPending(lines, ds, s, f);
    }
  }

  lemma BlamedPending(lines: seq<Line>, ds: seq<Directive>, s: State, f: Failure) returns (m: nat)
    requires Settled(lines, ds, s) && WindowEnd(lines, ds, s) <= |lines|
    requires f == Fail(s, f.directive, f.reason) && f.directive < |ds| && BlamesNot(lines, ds, s.found, s.i, f.directive, f.reason)
    ensures m < |s.pending| && WindowBlames(lines, ds, s, WindowEnd(lines, ds, s), s.pending[m], f)
    ensures forall j :: 0 <= j < m ==> WindowClean(lines, ds, s, WindowEnd(lines, ds, s), s.pending[j])
  {
    PendingNow(lines, ds, s, f.directive);
    m := f.directive - (s.i - |s.pending|);
    CleanUpTo(lines, ds, s, m);
    BlameIsHeld(lines, ds, s, f.directive, f);
  }

  lemma PendingBlamed(lines: seq<Line>, ds: seq<Directive>, s: State, m: nat, f: Failure)
    requires Settled(lines, ds, s) && m < |s.pending| && WindowEnd(lines, ds, s) <= |lines|
    requires WindowBlames(lines, ds, s, WindowEnd(lines, ds, s), s.pending[m], f)
    requires forall j :: 0 <= j < m ==> WindowClean(lines, ds, s, WindowEnd(lines, ds, s), s.pending[j])
    ensures f == Fail(s, f.directive, f.reason) && f.directive < |ds| && BlamesNot(lines, ds, s.found, s.i, f.directive, f.reason)
  {
    PendingNow(lines, ds, s, s.pending[m]);
    CleanUpTo(lines, ds, s, m);
    BlameIsHeld(lines, ds, s, s.pending[m], f);
  }

  // groups and single directives

  /** What a group stops with, read off the lines. */
  ghost predicate GroupBlames(lines: seq<Line>, ds: seq<Directive>, from: nat, to: nat, d: nat, e: nat, m: nat, why: Reason)
    requires e <= |ds| && to <= |lines|
  {
    && d <= m < e
    && (forall j :: d <= j < m ==> First(lines, ds[j].pattern, from, to).Some?)
    && match why
       case BadPattern => ds[m].pattern.BadRegex?
       case DagMissing => ds[m].pattern.Regex? && First(lines, ds[m].pattern, from, to).None?
       case _ => false
  }

  lemma {:induction false} DagStopsExactly(lines: seq<Line>, ds: seq<Directive>, t: State, d: nat, e: nat, from: nat, f: Failure)
    requires Valid(lines, ds, t) && d <= e <= |ds|
    ensures DagFrom(lines, ds, t, d, e, from) == Stop(f) <==>
      f == Fail(t, f.directive, f.reason) && GroupBlames(lines, ds, from, t.regionEnd, d, e, f.directive, f.reason)
    decreases e - d
  {
    if d < e {
      var r := First(lines, ds[d].pattern, from, t.regionEnd);
      if ds[d].pattern.BadRegex? {
        NoHits(lines, ds[d].pattern, from, t.regionEnd);
      } else if r.Some? {
        DagStopsExactly(lines, ds, Looked(t, d, r.value), d + 1, e, from, f);
      }
    }
  }

  lemma DagIsBlame(lines: seq<Line>, ds: seq<Directive>, s: State, t: State, f: Failure)
    requires Settled(lines, ds, s) && s.i < |ds| && ds[s.i].kind == Dag && t == s.(pending := [], windowStart := s.pos)
    requires NotsObeyed(lines, ds, s.found, s.i)
    ensures DagFrom(lines, ds, t, s.i, GroupEnd(ds, s.i), s.pos) == Stop(f) <==>
      f == Fail(s, f.directive, f.reason) && f.directive < |ds|
      && BlamesDag(lines, ds, s.found, s.i, s.regionEnd, f.directive, f.reason)
  {
    var e := GroupEnd(ds, s.i);
    DagStopsExactly(lines, ds, t, s.i, e, s.pos, f);
    forall m: nat | m < |ds| ensures Ahead(lines, ds[m].pattern, s.found, s.regionEnd)
                                <==> First(lines, ds[m].pattern, s.pos, s.regionEnd).Some?
    {
      AheadIs(lines, ds[m].pattern, s.found, s.pos, s.regionEnd);
    }
    if s.i <= f.directive {
      GroupIs(ds, s.i, f.directive);
    }
  }

  /** The members of the group at i. */
  lemma GroupIs(ds: seq<Directive>, i: nat, d: nat)
    requires i <= d && i <= |ds|
    ensures d < GroupEnd(ds, i) <==> SameGroup(ds, i, d)
  {
  }

  lemma PositiveIsBlame(lines: seq<Line>, ds: seq<Directive>, s: State, t: State, f: Failure)
    requires Settled(lines, ds, s) && s.i < |ds| && ds[s.i].kind != Dag && t == s.(pending := [], windowStart := s.pos)
    requires NotsObeyed(lines, ds, s.found, s.i)
    ensures Positive(lines, ds, t) == Stop(f) <==>
      f == Fail(s, s.i, f.reason) && BlamesOne(lines, ds, s.found, s.i, s.regionEnd, f.reason)
  {
    var p := ds[s.i].pattern;
    AheadIs(lines, p, s.found, s.pos, s.regionEnd);
    AheadIs(lines, p, s.found, s.pos, |lines|);
    forall l: nat ensures (Beyond(s.found, l) <==> s.pos <= l) && (RightBeyond(s.found, l) <==> s.pos == l) {
      BeyondIs(s.found, s.pos, l);
    }
    assert Beyond(s.found, s.pos) && RightBeyond(s.found, s.pos);
  }

  /** A scanner that has come to a unit of the list stops there with exactly the failure to blame. */
  lemma StopsExactly(lines: seq<Line>, ds: seq<Directive>, s: State, f: Failure)
    requires FullInv(lines, ds, s) && (s.i < |ds| ==> ds[s.i].kind != Not)
    ensures StopOf(lines, ds, s) == Some(f) <==> Blames(lines, ds, s.found, s.i, f)
  {
    RegionOfState(lines, ds, s, f.regionStart, f.regionEnd);
    FlushIsBlame(lines, ds, s, f);
    if s.i == |ds| {
      RegionAtEnd(lines, ds, s);
    } else if FlushFrom(lines, ds, s, s.pos, 0).None? {
      StepIs(lines, ds, s);
      var t := s.(pending := [], windowStart := s.pos);
      if ds[s.i].kind == Dag {
        DagIsBlame(lines, ds, s, t, f);
      } else {
        PositiveIsBlame(lines, ds, s, t, f);
      }
    }
  }

  // ------------------------------------------------------------ the whole scan

  lemma NoStopAtNot(lines: seq<Line>, ds: seq<Directive>, s: State)
    requires Valid(lines, ds, s) && s.i < |ds| && ds[s.i].kind == Not
    ensures StepFrom(lines, ds, s).Go?
  {
  }

  /** A scan that fails has come to the place where it fails. */
  lemma {:induction false} FailureIsBlamed(lines: seq<Line>, ds: seq<Directive>, s: State, f: Failure)
    requires FullInv(lines, ds, s) && Run(lines, ds, s) == Failed(f)
    ensures Refuted(lines, ds, f)
    decreases |ds| - s.i
  {
    if s.i == |ds| || StepFrom(lines, ds, s).Stop? {
      StopsExactly(lines, ds, s, f);
      assert Reached(lines, ds, s.found, s.i) && Blames(lines, ds, s.found, s.i, f);
    } else {
      FullStep(lines, ds, s);
      StepValid(lines, ds, s);
      FailureIsBlamed(lines, ds, StepFrom(lines, ds, s).s, f);
    }
  }

  /** The CHECK-NOTs that a scanner short of i may still have to flush are obeyed. */
  ghost predicate ObeyedSoFar(lines: seq<Line>, ds: seq<Directive>, found: Found, i: nat) {
    forall n: nat :: n < i && n < |ds| && ds[n].kind == Not && !OnlyNots(ds, n, i) ==> Obeyed(lines, ds, found, n)
  }

  lemma BlameObeys(lines: seq<Line>, ds: seq<Directive>, found: Found, i: nat, f: Failure)
    requires i <= |ds| && Blames(lines, ds, found, i, f)
    ensures ObeyedSoFar(lines, ds, found, i)
  {
    forall n: nat | n < i && ds[n].kind == Not && !OnlyNots(ds, n, i) ensures Obeyed(lines, ds, found, n) {
      if BlamesNot(lines, ds, found, i, f.directive, f.reason) {
        var k :| n < k < i && ds[k].kind != Not;
        assert k <= f.directive;
      }
    }
  }

  lemma ShortStep(lines: seq<Line>, ds: seq<Directive>, s: State, found: Found, i: nat)
    requires FullInv(lines, ds, s) && s.i < i && Reached(lines, ds, found, i) && Extends(s.found, found, s.i)
    requires ObeyedSoFar(lines, ds, found, i)
    ensures var r := StepFrom(lines, ds, s); r.Go? && FullInv(lines, ds, r.s) && s.i < r.s.i <= i && Extends(r.s.found, found, r.s.i)
  {
    StepValid(lines, ds, s);
    FullStep(lines, ds, s);
    if ds[s.i].kind != Not {
      forall j | 0 <= j < |s.pending| ensures Obeyed(lines, ds, found, s.pending[j]) {
        assert s.pending[j] < s.i < i && !OnlyNots(ds, s.pending[j], i);
      }
      FlushIsEmpty(lines, ds, s, found, s.pos, 0);
      UnitGoes(lines, ds, s, found, i);
    }
  }

  lemma BlamedStops(lines: seq<Line>, ds: seq<Directive>, s: State, f: Failure)
    requires FullInv(lines, ds, s) && (s.i < |ds| ==> ds[s.i].kind != Not) && Blames(lines, ds, s.found, s.i, f)
    ensures Run(lines, ds, s) == Failed(f)
  {
    StopsExactly(lines, ds, s, f);
    if s.i == |ds| {
      RegionAtEnd(lines, ds, s);
    }
  }

  lemma SameFound(ds: seq<Directive>, found: Found, more: Found, i: nat)
    requires Recorded(ds, found, i) && Recorded(ds, more, i) && Extends(found, more, i)
    ensures found == more
  {
  }

  lemma RunGoesOn(lines: seq<Line>, ds: seq<Directive>, s: State)
    requires Valid(lines, ds, s) && s.i < |ds| && StepFrom(lines, ds, s).Go?
    ensures Valid(lines, ds, StepFrom(lines, ds, s).s) && Run(lines, ds, s) == Run(lines, ds, StepFrom(lines, ds, s).s)
  {
    StepValid(lines, ds, s);
  }

  /** A scanner gets to wherever an assignment accounts for everything before. */
  lemma {:induction false} GetsThere(lines: seq<Line>, ds: seq<Directive>, s: State, found: Found, i: nat) returns (t: State)
    requires FullInv(lines, ds, s) && s.i <= i && Reached(lines, ds, found, i) && Extends(s.found, found, s.i)
    requires ObeyedSoFar(lines, ds, found, i)
    ensures FullInv(lines, ds, t) && t.i == i && t.found == found && Run(lines, ds, s) == Run(lines, ds, t)
    decreases i - s.i
  {
    if s.i == i {
      SameFound(ds, s.found, found, i);
      t := s;
    } else {
      ShortStep(lines, ds, s, found, i);
      RunGoesOn(lines, ds, s);
      t := GetsThere(lines, ds, StepFrom(lines, ds, s).s, found, i);
    }
  }

  /** The scan fails with a failure exactly when that failure refutes the output: what comes before the
   *  directive it names is accounted for, and that directive is the first that is not.
   */
  lemma FailsExactly(lines: seq<Line>, ds: seq<Directive>, f: Failure)
    ensures Outcomes(lines, ds) == Failed(f) <==> Refuted(lines, ds, f)
  {
    StartIsFull(lines, ds);
    if Outcomes(lines, ds) == Failed(f) {
      FailureIsBlamed(lines, ds, Start(lines), f);
    }
    if Refuted(lines, ds, f) {
      var found: Found, i: nat :| Reached(lines, ds, found, i) && Blames(lines, ds, found, i, f);
      BlameObeys(lines, ds, found, i, f);
      var s := GetsThere(lines, ds, Start(lines), found, i);
      BlamedStops(lines, ds, s, f);
    }
  }
}
