/** Splitting the range of a parallel loop into blocks, one task per block. */
module Blocks {

  /** The indices a task calls its function on, in order. */
  function Indices(start: int, end: int): (s: seq<int>)
    ensures |s| == if start < end then end - start else 0
    ensures forall k :: 0 <= k < |s| ==> s[k] == start + k
    decreases end - start
  {
    if start < end then [start] + Indices(start + 1, end) else []
  }

  lemma {:induction false} IndicesSplit(a: int, b: int, c: int)
    requires a <= b <= c
    ensures Indices(a, b) + Indices(b, c) == Indices(a, c)
    decreases b - a
  {
    if a < b {
      IndicesSplit(a + 1, b, c);
      calc {
        Indices(a, b) + Indices(b, c);
        ([a] + Indices(a + 1, b)) + Indices(b, c);
        [a] + (Indices(a + 1, b) + Indices(b, c));
        [a] + Indices(a + 1, c);
        Indices(a, c);
      }
    } else {
      assert Indices(a, b) == [];
    }
  }

  class Blocks {
    const first: int
    const last: int
    const num: int
    const size: int
    const rem: int

    /** What the constructor sets up: the numbers are those of a division of the range. */
    ghost predicate Valid() {
      && (last <= first ==> num == 0)
      && (first < last ==> 1 <= num <= last - first && size >= 1 && 0 <= rem < num && last - first == num * size + rem)
    }

    constructor (first_: int, last_: int, wanted: nat)
      requires wanted > 0 || last_ <= first_
      ensures Valid() && first == first_ && last == last_
      ensures num == if last_ <= first_ then 0 else if wanted <= last_ - first_ then wanted else last_ - first_
    {
      var n: int, size', rem' := wanted, 0, 0;
      if last_ > first_ {
        var total := last_ - first_;
        n := if n <= total then n else total;
        size' := total / n;
        rem' := total % n;
        if size' == 0 {
          size' := 1;
          n := if total > 1 then total else 1;
        }
      } else {
        n := 0;
      }
      first, last, num, size, rem := first_, last_, n, size', rem';
      new;
      assert last_ > first_ ==> rem == (last_ - first_) % num;
    }

    function Start(b: int): int {
      first + b * size + if b < rem then b else rem
    }

    function End(b: int): int {
      if b == num - 1 then last else Start(b + 1)
    }
  }

  // ------------------------------------------------------------ what a split is

  lemma OneMoreTimes(b: int, size: int)
    ensures (b + 1) * size == b * size + size
  {
  }

  /** The first `rem` blocks have one index more than the others. */
  lemma BlockSize(s: Blocks, b: int)
    requires s.Valid() && 0 <= b < s.num
    ensures s.End(b) - s.Start(b) == s.size + if b < s.rem then 1 else 0
  {
    OneMoreTimes(b, s.size);
  }

  lemma {:induction false} StartsInRange(s: Blocks, b: int)
    requires s.Valid() && 0 <= b < s.num
    ensures s.first <= s.Start(b)
    decreases b
  {
    if b == 0 {
      assert s.Start(0) == s.first;
    } else {
      StartsInRange(s, b - 1);
      BlockSize(s, b - 1);
    }
  }

  lemma {:induction false} EndsInRange(s: Blocks, b: int)
    requires s.Valid() && 0 <= b < s.num
    ensures s.End(b) <= s.last
    decreases s.num - b
  {
    if b < s.num - 1 {
      BlockSize(s, b + 1);
      EndsInRange(s, b + 1);
    }
  }

  /** Blocks are adjacent, cover the range and are not empty. */
  lemma BlocksTile(s: Blocks, b: int)
    requires s.Valid() && 0 <= b < s.num
    ensures s.Start(0) == s.first && s.End(s.num - 1) == s.last
    ensures b + 1 < s.num ==> s.End(b) == s.Start(b + 1)
    ensures s.first <= s.Start(b) < s.End(b) <= s.last
  {
    BlockSize(s, b);
    StartsInRange(s, b);
    EndsInRange(s, b);
  }

  lemma SizesDifferByAtMostOne(s: Blocks, a: int, b: int)
    requires s.Valid() && 0 <= a < s.num && 0 <= b < s.num
    ensures -1 <= (s.End(a) - s.Start(a)) - (s.End(b) - s.Start(b)) <= 1
  {
    BlockSize(s, a);
    BlockSize(s, b);
  }

  lemma {:induction false} EarlierBlocksEndFirst(s: Blocks, a: int, b: int)
    requires s.Valid() && 0 <= a < b < s.num
    ensures s.End(a) <= s.Start(b)
    decreases b - a
  {
    BlocksTile(s, a);
    if a + 1 < b {
      BlocksTile(s, a + 1);
      EarlierBlocksEndFirst(s, a + 1, b);
    }
  }

  predicate InBlock(s: Blocks, b: int, i: int) {
    0 <= b < s.num && s.Start(b) <= i < s.End(b)
  }

  lemma {:induction false} SomeBlockUpTo(s: Blocks, n: int, i: int) returns (b: int)
    requires s.Valid() && 0 <= n < s.num && s.first <= i < s.End(n)
    ensures InBlock(s, b, i)
    decreases n
  {
    if s.Start(n) <= i {
      b := n;
    } else {
      BlocksTile(s, n);
      BlocksTile(s, if n > 0 then n - 1 else 0);
      b := SomeBlockUpTo(s, n - 1, i);
    }
  }

  /** Every index of the range lies in exactly one block, and no other index lies in any. */
  lemma ExactlyOneBlock(s: Blocks, i: int)
    requires s.Valid()
    ensures s.first <= i < s.last <==> exists b :: InBlock(s, b, i)
    ensures forall a, b :: InBlock(s, a, i) && InBlock(s, b, i) ==> a == b
  {
    if s.first <= i < s.last {
      BlocksTile(s, s.num - 1);
      var b := SomeBlockUpTo(s, s.num - 1, i);
    }
    forall b | InBlock(s, b, i) ensures s.first <= i < s.last {
      BlocksTile(s, b);
    }
    forall a, b | InBlock(s, a, i) && InBlock(s, b, i) ensures a == b {
      if a < b {
        EarlierBlocksEndFirst(s, a, b);
      }
      if b < a {
        EarlierBlocksEndFirst(s, b, a);
      }
    }
  }

  // ------------------------------------------------------------------ the tasks

  datatype LoopTask = LoopTask(start: int, end: int)

  /** What running the task calls the loop function on. */
  method RunLoopTask(t: LoopTask) returns (calls: seq<int>)
    ensures calls == Indices(t.start, t.end)
  {
    calls := [];
    var i := t.start;
    assert t.start < t.end ==> Indices(t.start, t.start) == [];
    while i < t.end
      invariant t.start <= i && (i <= t.end || i == t.start)
      invariant calls == Indices(t.start, i)
    {
      IndicesSplit(t.start, i, i + 1);
      calls := calls + [i];
      i := i + 1;
    }
  }

  /** All calls made when the tasks run one after another in this order. */
  function AllCalls(tasks: seq<LoopTask>): seq<int> {
    if tasks == [] then [] else Indices(tasks[0].start, tasks[0].end) + AllCalls(tasks[1..])
  }

  lemma {:induction false} AllCallsAppend(a: seq<LoopTask>, b: seq<LoopTask>)
    ensures AllCalls(a + b) == AllCalls(a) + AllCalls(b)
  {
    if a == [] {
      assert a + b == b;
    } else {
      assert (a + b)[1..] == a[1..] + b;
      AllCallsAppend(a[1..], b);
    }
  }

  lemma TakeOut(b: seq<LoopTask>, i: nat) returns (rest: seq<LoopTask>)
    requires i < |b|
    ensures |rest| == |b| - 1
    ensures multiset(b) == multiset(rest) + multiset{b[i]}
    ensures multiset(AllCalls(b)) == multiset(Indices(b[i].start, b[i].end)) + multiset(AllCalls(rest))
  {
    var head, tail := b[..i], b[i + 1..];
    rest := head + tail;
    assert b == head + ([b[i]] + tail);
    AllCallsAppend(head, [b[i]] + tail);
    AllCallsAppend(head, tail);
    assert ([b[i]] + tail)[1..] == tail;
  }

  lemma Cancel(a: multiset<LoopTask>, b: multiset<LoopTask>, t: LoopTask)
    requires a + multiset{t} == b + multiset{t}
    ensures a == b
  {
    assert a == (a + multiset{t}) - multiset{t};
    assert b == (b + multiset{t}) - multiset{t};
  }

  /** The order in which the tasks run does not change what is called how often. */
  lemma {:induction false} AnyOrderSameCalls(a: seq<LoopTask>, b: seq<LoopTask>)
    requires multiset(a) == multiset(b)
    ensures multiset(AllCalls(a)) == multiset(AllCalls(b))
    decreases |a|
  {
    if a == [] {
      assert |multiset(b)| == 0;
    } else {
      assert a[0] in multiset(a);
      assert a[0] in multiset(b);
      var i :| 0 <= i < |b| && b[i] == a[0];
      var rest := TakeOut(b, i);
      var others := TakeOut(a, 0);
      Cancel(multiset(others), multiset(rest), a[0]);
      AnyOrderSameCalls(others, rest);
    }
  }

  /** The tasks of a parallel loop; an unspecified number of blocks means one per thread. */
  method EnqueueLoop(first: int, last: int, wanted: nat, threads: nat) returns (tasks: seq<LoopTask>)
    requires threads > 0
    ensures AllCalls(tasks) == Indices(first, last)
    ensures first < last ==> |tasks| == var n := if wanted > 0 then wanted else threads; if n <= last - first then n else last - first
    ensures forall t :: t in tasks ==> first <= t.start < t.end <= last
    ensures forall t, u :: t in tasks && u in tasks ==> (t.end - t.start) - (u.end - u.start) <= 1
    ensures last <= first ==> tasks == []
  {
    tasks := [];
    if last > first {
      var blks := new Blocks(first, last, if wanted > 0 then wanted else threads);
      var num := blks.num;
      BlocksTile(blks, 0);
      for i := 0 to num
        invariant |tasks| == i
        invariant forall k :: 0 <= k < i ==> tasks[k] == LoopTask(blks.Start(k), blks.End(k))
        invariant i < num ==> AllCalls(tasks) == Indices(first, blks.Start(i))
        invariant i == num ==> AllCalls(tasks) == Indices(first, last)
      {
        BlocksTile(blks, i);
        var t := LoopTask(blks.Start(i), blks.End(i));
        AllCallsAppend(tasks, [t]);
        assert AllCalls([t]) == Indices(t.start, t.end);
        IndicesSplit(first, t.start, t.end);
        tasks := tasks + [t];
      }
      forall t | t in tasks ensures first <= t.start < t.end <= last {
        var k :| 0 <= k < num && tasks[k] == t;
        BlocksTile(blks, k);
      }
      forall t, u | t in tasks && u in tasks ensures (t.end - t.start) - (u.end - u.start) <= 1 {
        var k :| 0 <= k < num && tasks[k] == t;
        var l :| 0 <= l < num && tasks[l] == u;
        SizesDifferByAtMostOne(blks, k, l);
      }
    }
  }

  lemma {:induction false} OnceInIndices(first: int, last: int, i: int)
    ensures multiset(Indices(first, last))[i] == if first <= i < last then 1 else 0
    decreases last - first
  {
    if first < last {
      OnceInIndices(first + 1, last, i);
      assert multiset(Indices(first, last)) == multiset{first} + multiset(Indices(first + 1, last));
    }
  }

  /** The calls of several tasks, merged in any way that keeps the order of each task's own calls. */
  ghost predicate Interleaved(parts: seq<seq<int>>, calls: seq<int>)
    decreases |calls|
  {
    if calls == [] then forall p :: 0 <= p < |parts| ==> parts[p] == []
    else exists p :: 0 <= p < |parts| && Takes(parts, calls, p)
  }

  ghost predicate Takes(parts: seq<seq<int>>, calls: seq<int>, p: nat)
    requires calls != [] && p < |parts|
    decreases |calls|, 0
  {
    parts[p] != [] && parts[p][0] == calls[0] && Interleaved(parts[p := parts[p][1..]], calls[1..])
  }

  function Together(parts: seq<seq<int>>): multiset<int> {
    if parts == [] then multiset{} else multiset(parts[0]) + Together(parts[1..])
  }

  lemma {:induction false} NothingTogether(parts: seq<seq<int>>)
    requires forall p :: 0 <= p < |parts| ==> parts[p] == []
    ensures Together(parts) == multiset{}
  {
    if parts != [] {
      NothingTogether(parts[1..]);
    }
  }

  lemma {:induction false} OneTaken(parts: seq<seq<int>>, p: nat)
    requires p < |parts| && parts[p] != []
    ensures Together(parts) == Together(parts[p := parts[p][1..]]) + multiset{parts[p][0]}
  {
    var rest := parts[p := parts[p][1..]];
    if p > 0 {
      OneTaken(parts[1..], p - 1);
      assert rest[1..] == parts[1..][p - 1 := parts[p][1..]];
    } else {
      assert rest[1..] == parts[1..];
      assert parts[p] == [parts[p][0]] + parts[p][1..];
    }
  }

  /** An interleaving makes exactly the calls of its parts. */
  lemma {:induction false} InterleavingKeepsCalls(parts: seq<seq<int>>, calls: seq<int>)
    requires Interleaved(parts, calls)
    ensures multiset(calls) == Together(parts)
    decreases |calls|
  {
    if calls == [] {
      NothingTogether(parts);
    } else {
      var p: nat :| p < |parts| && Takes(parts, calls, p);
      InterleavingKeepsCalls(parts[p := parts[p][1..]], calls[1..]);
      OneTaken(parts, p);
      assert calls == [calls[0]] + calls[1..];
    }
  }

  /** The calls of each task. */
  function CallsOf(tasks: seq<LoopTask>): (parts: seq<seq<int>>)
    ensures |parts| == |tasks| && forall p :: 0 <= p < |tasks| ==> parts[p] == Indices(tasks[p].start, tasks[p].end)
  {
    seq(|tasks|, p requires 0 <= p < |tasks| => Indices(tasks[p].start, tasks[p].end))
  }

  lemma {:induction false} TogetherIsAll(tasks: seq<LoopTask>)
    ensures Together(CallsOf(tasks)) == multiset(AllCalls(tasks))
  {
    if tasks != [] {
      TogetherIsAll(tasks[1..]);
      assert CallsOf(tasks)[1..] == CallsOf(tasks[1..]);
    }
  }

  /** Whatever the order of the tasks and however their calls interleave, each index is called exactly once. */
  lemma EachIndexOnce(first: int, last: int, tasks: seq<LoopTask>, order: seq<LoopTask>, calls: seq<int>, i: int)
    requires AllCalls(tasks) == Indices(first, last)
    requires multiset(order) == multiset(tasks)
    requires Interleaved(CallsOf(order), calls)
    ensures multiset(calls)[i] == if first <= i < last then 1 else 0
  {
    InterleavingKeepsCalls(CallsOf(order), calls);
    TogetherIsAll(order);
    AnyOrderSameCalls(order, tasks);
    OnceInIndices(first, last, i);
  }
}
