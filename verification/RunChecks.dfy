/** The engine that checks the output of a test against its CHECK directives.
 *
 *  The output is a list of lines.  A pattern either is a bad regular expression
 *  or tells of every line whether it matches.
 */
module RunChecks {
  import opened Optional

  type Line = string

  datatype Pattern = BadRegex | Regex(hits: Line -> bool)

  datatype Kind = Check | Next | Not | Dag | Label

  datatype Directive = Directive(kind: Kind, pattern: Pattern)

  datatype Reason = BadPattern | NotMatched | DagMissing | LabelMissing | NextAtEnd | NextMismatch | CheckMissing

  /** The error raised: which directive, why, and the region it reports. */
  datatype Failure = Failure(directive: nat, reason: Reason, regionStart: nat, regionEnd: nat)

  predicate Hits(p: Pattern, line: Line) { p.Regex? && p.hits(line) }

  // ------------------------------------------------------------- searching lines

  predicate HitAt(lines: seq<Line>, p: Pattern, k: int) {
    0 <= k < |lines| && Hits(p, lines[k])
  }

  /** The first line in [from, to) that matches. */
  function First(lines: seq<Line>, p: Pattern, from: nat, to: nat): (r: Option<nat>)
    requires to <= |lines|
    ensures r.Some? ==> from <= r.value < to && HitAt(lines, p, r.value) && forall k :: from <= k < r.value ==> !HitAt(lines, p, k)
    ensures r.None? ==> forall k :: from <= k < to ==> !HitAt(lines, p, k)
    decreases if from < to then to - from else 0
  {
    if from >= to then None
    else if HitAt(lines, p, from) then Some(from)
    else First(lines, p, from + 1, to)
  }

  method Search(lines: seq<Line>, p: Pattern, from: nat, to: nat) returns (r: Option<nat>)
    requires to <= |lines| && p.Regex?
    ensures r == First(lines, p, from, to)
  {
    var k := from;
    while k < to
      invariant from <= k && (k <= to || k == from)
      invariant First(lines, p, from, to) == First(lines, p, k, to)
    {
      if p.hits(lines[k]) {
        return Some(k);
      }
      k := k + 1;
    }
    return None;
  }

  // ------------------------------------------------------------- label regions

  /** The first label directive at or after i. */
  function NextLabel(ds: seq<Directive>, i: nat): (j: nat)
    requires i <= |ds|
    ensures i <= j <= |ds|
    ensures j < |ds| ==> ds[j].kind == Label
    ensures forall k :: i <= k < j ==> ds[k].kind != Label
    decreases |ds| - i
  {
    if i == |ds| || ds[i].kind == Label then i else NextLabel(ds, i + 1)
  }

  /** Where the region that starts at line `from` ends: at the first match of the next label, or never. */
  function Bound(lines: seq<Line>, ds: seq<Directive>, from: nat, i: nat): (b: nat)
    requires i <= |ds|
    ensures b <= |lines|
  {
    var j := NextLabel(ds, i);
    if j == |ds| then |lines|
    else
      match First(lines, ds[j].pattern, from, |lines|)
      case Some(k) => k
      case None => |lines|
  }

  method NextLabelBound(lines: seq<Line>, ds: seq<Directive>, from: nat, i: nat) returns (b: nat)
    requires i <= |ds|
    ensures b == Bound(lines, ds, from, i)
  {
    var j := i;
    while j < |ds|
      invariant i <= j <= |ds|
      invariant NextLabel(ds, i) == NextLabel(ds, j)
    {
      if ds[j].kind == Label {
        if ds[j].pattern.BadRegex? {
          NoHits(lines, ds[j].pattern, from, |lines|);
          return |lines|;
        }
        var r := Search(lines, ds[j].pattern, from, |lines|);
        return if r.Some? then r.value else |lines|;
      }
      j := j + 1;
    }
    return |lines|;
  }

  lemma NoHits(lines: seq<Line>, p: Pattern, from: nat, to: nat)
    requires to <= |lines| && p.BadRegex?
    ensures First(lines, p, from, to) == None
  {
  }

  // ------------------------------------------------------------ one pass over ds

  /** The scanner between two directives.  `found` records which line each directive matched. */
  datatype State = State(
    pos: nat,
    i: nat,
    regionStart: nat,
    regionEnd: nat,
    windowStart: nat,
    pending: seq<nat>,
    found: map<nat, nat>)

  datatype Step = Go(s: State) | Stop(why: Failure)

  datatype Outcome = Passed(found: map<nat, nat>) | Failed(why: Failure)

  ghost predicate Valid(lines: seq<Line>, ds: seq<Directive>, s: State) {
    && s.i <= |ds| && s.pos <= |lines| && s.regionEnd <= |lines|
    && forall k :: 0 <= k < |s.pending| ==> s.pending[k] < s.i && ds[s.pending[k]].kind == Not
  }

  function Fail(s: State, d: nat, why: Reason): Failure { Failure(d, why, s.regionStart, s.regionEnd) }

  /** The first pending CHECK-NOT, from the k-th on, that is bad or matches in [windowStart, to). */
  function FlushFrom(lines: seq<Line>, ds: seq<Directive>, s: State, to: nat, k: nat): Option<Failure>
    requires Valid(lines, ds, s) && to <= |lines| && k <= |s.pending|
    decreases |s.pending| - k
  {
    if k == |s.pending| then None
    else
      var p := ds[s.pending[k]].pattern;
      if p.BadRegex? then Some(Fail(s, s.pending[k], BadPattern))
      else if First(lines, p, s.windowStart, to).Some? then Some(Fail(s, s.pending[k], NotMatched))
      else FlushFrom(lines, ds, s, to, k + 1)
  }

  /** The end of the group of CHECK-DAG directives that i is in. */
  function GroupEnd(ds: seq<Directive>, i: nat): (e: nat)
    requires i <= |ds|
    ensures i <= e <= |ds|
    ensures forall k :: i <= k < e ==> ds[k].kind == Dag
    ensures e < |ds| ==> ds[e].kind != Dag
    decreases |ds| - i
  {
    if i < |ds| && ds[i].kind == Dag then GroupEnd(ds, i + 1) else i
  }

  /** Each of the directives d .. e is looked up in the same lines; pos moves past the furthest match so far. */
  function DagFrom(lines: seq<Line>, ds: seq<Directive>, s: State, d: nat, e: nat, from: nat): Step
    requires Valid(lines, ds, s) && d <= e <= |ds|
    decreases e - d
  {
    if d == e then Go(s.(i := e))
    else if ds[d].pattern.BadRegex? then Stop(Fail(s, d, BadPattern))
    else
      match First(lines, ds[d].pattern, from, s.regionEnd)
      case None => Stop(Fail(s, d, DagMissing))
      case Some(l) => DagFrom(lines, ds, Looked(s, d, l), d + 1, e, from)
  }

  /** Directive d of a group was found in line l. */
  function Looked(s: State, d: nat, l: nat): State {
    s.(pos := if l < s.pos then s.pos else l + 1, found := s.found[d := l])
  }

  /** What one directive other than CHECK-NOT and CHECK-DAG does. */
  function Positive(lines: seq<Line>, ds: seq<Directive>, s: State): Step
    requires Valid(lines, ds, s) && s.i < |ds| && ds[s.i].kind != Not && ds[s.i].kind != Dag
  {
    var p, i, kind := ds[s.i].pattern, s.i, ds[s.i].kind;
    if kind == Next && s.pos >= |lines| then Stop(Fail(s, i, NextAtEnd))
    else if p.BadRegex? then Stop(Fail(s, i, BadPattern))
    else if kind == Label then
      match First(lines, p, s.pos, |lines|)
      case None => Stop(Fail(s, i, LabelMissing))
      case Some(l) =>
        Go(s.(regionStart := l, pos := l + 1, i := i + 1, regionEnd := Bound(lines, ds, l + 1, i + 1), found := s.found[i := l]))
    else if kind == Next then
      if !Hits(p, lines[s.pos]) then Stop(Fail(s, i, NextMismatch))
      else Go(s.(pos := s.pos + 1, i := i + 1, found := s.found[i := s.pos]))
    else
      match First(lines, p, s.pos, s.regionEnd)
      case None => Stop(Fail(s, i, CheckMissing))
      case Some(l) => Go(s.(pos := l + 1, i := i + 1, found := s.found[i := l]))
  }

  function StepFrom(lines: seq<Line>, ds: seq<Directive>, s: State): Step
    requires Valid(lines, ds, s) && s.i < |ds|
  {
    if ds[s.i].kind == Not then Go(s.(pending := s.pending + [s.i], i := s.i + 1))
    else
      match FlushFrom(lines, ds, s, s.pos, 0)
      case Some(f) => Stop(f)
      case None =>
        var t := s.(pending := [], windowStart := s.pos);
        if ds[s.i].kind == Dag then DagFrom(lines, ds, t, s.i, GroupEnd(ds, s.i), s.pos)
        else Positive(lines, ds, t)
  }

  lemma {:induction false} DagValid(lines: seq<Line>, ds: seq<Directive>, s: State, d: nat, e: nat, from: nat)
    requires Valid(lines, ds, s) && d <= e <= |ds| && s.pending == []
    ensures var r := DagFrom(lines, ds, s, d, e, from); r.Go? ==> Valid(lines, ds, r.s) && r.s.i == e
    decreases e - d
  {
    if d < e && ds[d].pattern.Regex? {
      var r := First(lines, ds[d].pattern, from, s.regionEnd);
      if r.Some? {
        DagValid(lines, ds, Looked(s, d, r.value), d + 1, e, from);
      }
    }
  }

  lemma StepValid(lines: seq<Line>, ds: seq<Directive>, s: State)
    requires Valid(lines, ds, s) && s.i < |ds|
    ensures var r := StepFrom(lines, ds, s); r.Go? ==> Valid(lines, ds, r.s) && r.s.i > s.i
  {
    if ds[s.i].kind == Dag {
      DagValid(lines, ds, s.(pending := [], windowStart := s.pos), s.i, GroupEnd(ds, s.i), s.pos);
    }
  }

  function Run(lines: seq<Line>, ds: seq<Directive>, s: State): Outcome
    requires Valid(lines, ds, s)
    decreases |ds| - s.i
  {
    if s.i == |ds| then
      match FlushFrom(lines, ds, s, s.regionEnd, 0)
      case Some(f) => Failed(f)
      case None => Passed(s.found)
    else
      StepValid(lines, ds, s);
      match StepFrom(lines, ds, s)
      case Stop(f) => Failed(f)
      case Go(t) => Run(lines, ds, t)
  }

  function Start(lines: seq<Line>): State { State(0, 0, 0, |lines|, 0, [], map[]) }

  function Outcomes(lines: seq<Line>, ds: seq<Directive>): Outcome { Run(lines, ds, Start(lines)) }

  // --------------------------------------------------------- the scanner itself

  /** No pending CHECK-NOT may match in [from, to). */
  method AssertNotInWindow(lines: seq<Line>, ds: seq<Directive>, pending: seq<nat>, from: nat, to: nat, ghost s: State)
    returns (failed: Option<(nat, Reason)>)
    requires Valid(lines, ds, s) && to <= |lines| && s.pending == pending && s.windowStart == from
    ensures FlushFrom(lines, ds, s, to, 0) == if failed.Some? then Some(Fail(s, failed.value.0, failed.value.1)) else None
  {
    for k := 0 to |pending|
      invariant FlushFrom(lines, ds, s, to, 0) == FlushFrom(lines, ds, s, to, k)
    {
      var p := ds[pending[k]].pattern;
      if p.BadRegex? {
        return Some((pending[k], BadPattern));
      }
      var r := Search(lines, p, from, to);
      if r.Some? {
        return Some((pending[k], NotMatched));
      }
    }
    return None;
  }

  /** A maximal run of CHECK-DAG directives: each is looked up from the same line on. */
  method DagGroup(lines: seq<Line>, ds: seq<Directive>, begin: nat, pos: nat, regionEnd: nat, ghost s: State)
    returns (failed: Option<(nat, Reason)>, e: nat, last: nat, ghost found: map<nat, nat>)
    requires Valid(lines, ds, s) && s.i == begin < |ds| && s.pos == pos && s.regionEnd == regionEnd
    ensures failed.Some? ==>
      DagFrom(lines, ds, s, begin, GroupEnd(ds, begin), pos) == Stop(Fail(s, failed.value.0, failed.value.1))
    ensures failed.None? ==>
      DagFrom(lines, ds, s, begin, GroupEnd(ds, begin), pos) == Go(s.(i := e, pos := last, found := found))
  {
    ghost var t := s;
    ghost var all := DagFrom(lines, ds, s, begin, GroupEnd(ds, begin), pos);
    e, last := begin, pos;
    while e < |ds| && ds[e].kind == Dag
      invariant begin <= e <= GroupEnd(ds, begin)
      invariant t == s.(pos := last, found := t.found) && Valid(lines, ds, t)
      invariant all == DagFrom(lines, ds, t, e, GroupEnd(ds, begin), pos)
    {
      if ds[e].pattern.BadRegex? {
        return Some((e, BadPattern)), e, last, t.found;
      }
      var r := Search(lines, ds[e].pattern, pos, regionEnd);
      if r.None? {
        return Some((e, DagMissing)), e, last, t.found;
      }
      last := if r.value < last then last else r.value + 1;
      t := t.(pos := last, found := t.found[e := r.value]);
      e := e + 1;
    }
    return None, e, last, t.found;
  }

  /** CHECK-LABEL, CHECK-NEXT or CHECK: on success the line matched is the one before the new position. */
  method PositiveDirective(lines: seq<Line>, ds: seq<Directive>, i: nat, pos: nat, regionStart: nat, regionEnd: nat, ghost s: State)
    returns (why: Option<Reason>, pos': nat, start': nat, end': nat)
    requires Valid(lines, ds, s) && s.i == i < |ds| && ds[i].kind != Not && ds[i].kind != Dag
    requires s.pos == pos && s.regionStart == regionStart && s.regionEnd == regionEnd
    ensures why.Some? ==> Positive(lines, ds, s) == Stop(Fail(s, i, why.value))
    ensures why.None? ==>
      pos' > 0 &&
      Positive(lines, ds, s)
      == Go(s.(pos := pos', i := i + 1, regionStart := start', regionEnd := end', found := s.found[i := pos' - 1]))
  {
    var d := ds[i];
    pos', start', end' := pos, regionStart, regionEnd;
    if d.kind == Label {
      if d.pattern.BadRegex? {
        return Some(BadPattern), pos', start', end';
      }
      var r := Search(lines, d.pattern, pos, |lines|);
      if r.None? {
        return Some(LabelMissing), pos', start', end';
      }
      start' := r.value;
      pos' := r.value + 1;
      end' := NextLabelBound(lines, ds, pos', i + 1);
      return None, pos', start', end';
    }
    if d.kind == Next {
      if pos >= |lines| {
        return Some(NextAtEnd), pos', start', end';
      }
      if d.pattern.BadRegex? {
        return Some(BadPattern), pos', start', end';
      }
      if !d.pattern.hits(lines[pos]) {
        return Some(NextMismatch), pos', start', end';
      }
      return None, pos + 1, start', end';
    }
    if d.pattern.BadRegex? {
      return Some(BadPattern), pos', start', end';
    }
    var r := Search(lines, d.pattern, pos, regionEnd);
    if r.None? {
      return Some(CheckMissing), pos', start', end';
    }
    return None, r.value + 1, start', end';
  }

  /** Scans the output; fails at the first violated directive. */
  method RunChecks(lines: seq<Line>, ds: seq<Directive>) returns (failure: Option<Failure>)
    ensures failure == match Outcomes(lines, ds) case Passed(_) => None case Failed(f) => Some(f)
  {
    var pos: nat, i: nat, regionStart: nat, regionEnd: nat, windowStart: nat := 0, 0, 0, |lines|, 0;
    var pending: seq<nat> := [];
    ghost var found: map<nat, nat> := map[];
    while i < |ds|
      invariant Valid(lines, ds, State(pos, i, regionStart, regionEnd, windowStart, pending, found))
      invariant Outcomes(lines, ds) == Run(lines, ds, State(pos, i, regionStart, regionEnd, windowStart, pending, found))
    {
      var d := ds[i];
      ghost var s := State(pos, i, regionStart, regionEnd, windowStart, pending, found);
      StepValid(lines, ds, s);
      if d.kind == Not {
        pending := pending + [i];
        i := i + 1;
        continue;
      }
      var bad := AssertNotInWindow(lines, ds, pending, windowStart, pos, s);
      if bad.Some? {
        return Some(Failure(bad.value.0, bad.value.1, regionStart, regionEnd));
      }
      pending := [];
      windowStart := pos;

      if d.kind == Dag {
        var failed, e, last, found' := DagGroup(lines, ds, i, pos, regionEnd, s.(pending := [], windowStart := pos));
        if failed.Some? {
          return Some(Failure(failed.value.0, failed.value.1, regionStart, regionEnd));
        }
        i := e;
        pos := last;
        found := found';
        continue;
      }

      var why, pos', start', end' :=
        PositiveDirective(lines, ds, i, pos, regionStart, regionEnd, s.(pending := [], windowStart := pos));
      if why.Some? {
        return Some(Failure(i, why.value, regionStart, regionEnd));
      }
      pos, regionStart, regionEnd, found := pos', start', end', found[i := pos' - 1];
      i := i + 1;
    }
    ghost var s := State(pos, i, regionStart, regionEnd, windowStart, pending, found);
    var bad := AssertNotInWindow(lines, ds, pending, windowStart, regionEnd, s);
    return if bad.Some? then Some(Failure(bad.value.0, bad.value.1, regionStart, regionEnd)) else None;
  }
}
