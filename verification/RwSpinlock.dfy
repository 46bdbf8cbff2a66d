/** The reader-writer spinlock as a transition system.
 *
 *  Any number of threads run try_lock_shared, lock_shared, try_lock, lock and
 *  the two unlocks over one 32-bit word.  Every step is one atomic access:
 *  a load, a compare-exchange (the weak form may fail for no reason), a
 *  fetch-sub or a store.
 */
module RwSpinlock {

  const LOCKED_EXCLUSIVE: nat := 0x8000_0000
  const WRITER_PENDING: nat := 0x4000_0000
  const READER_COUNT_MASK: nat := 0x3FFF_FFFF
  const WORD_SIZE: nat := 0x1_0000_0000

  type Tid = nat

  /** Where a thread is.  `once` tells the try_ forms from the spinning ones. */
  datatype Pc =
    | Idle
    | WantShared(once: bool)
    | SharedLoaded(once: bool, st: nat)
    | HoldsShared
    | WantExclusive(once: bool)
    | ExclusiveLoaded(once: bool, st: nat)
    | HoldsExclusive

  datatype State = State(word: nat, pc: map<Tid, Pc>)

  predicate ExclusiveBit(st: nat) { (st / LOCKED_EXCLUSIVE) % 2 == 1 }

  predicate PendingBit(st: nat) { (st / WRITER_PENDING) % 2 == 1 }

  function ReaderCount(st: nat): nat { st % WRITER_PENDING }

  ghost function Readers(s: State): set<Tid> { set t | t in s.pc && s.pc[t] == HoldsShared }

  ghost function Writers(s: State): set<Tid> { set t | t in s.pc && s.pc[t] == HoldsExclusive }

  predicate Spinning(pc: Pc) {
    (pc.WantExclusive? || pc.ExclusiveLoaded?) && !pc.once
  }

  // -------------------------------------------------------------------- steps

  predicate Init(s: State) {
    s.word == 0 && forall t :: t in s.pc ==> s.pc[t] == Idle
  }

  /** Outcome of comparing the word with an expected value and replacing it. */
  ghost predicate CompareExchange(s: State, s': State, t: Tid, st: nat, newst: nat, won: Pc, lost: Pc) {
    || (s.word == st && s' == State(newst, s.pc[t := won]))
    || s' == State(s.word, s.pc[t := lost])
  }

  ghost predicate SharedStep(s: State, s': State, t: Tid)
    requires t in s.pc
  {
    match s.pc[t]
    case WantShared(once) => s' == s.(pc := s.pc[t := SharedLoaded(once, s.word)])
    case SharedLoaded(once, st) =>
      var retry := if once then Idle else WantShared(false);
      if st < READER_COUNT_MASK then
        && CompareExchange(s, s', t, st, st + 1, HoldsShared, retry)
        // the strong form used by try_lock_shared fails only on a changed word
        && (once && s.word == st ==> s'.pc[t] == HoldsShared)
      else
        s' == s.(pc := s.pc[t := retry])
    case HoldsShared =>
      s' == State((s.word + WORD_SIZE - 1) % WORD_SIZE, s.pc[t := Idle])
    case _ => false
  }

  ghost predicate ExclusiveStep(s: State, s': State, t: Tid)
    requires t in s.pc
  {
    match s.pc[t]
    case WantExclusive(once) => s' == s.(pc := s.pc[t := ExclusiveLoaded(once, s.word)])
    case ExclusiveLoaded(once, st) =>
      var retry := if once then Idle else WantExclusive(false);
      if ExclusiveBit(st) then
        s' == s.(pc := s.pc[t := retry])
      else if ReaderCount(st) == 0 then
        && CompareExchange(s, s', t, st, LOCKED_EXCLUSIVE, HoldsExclusive, retry)
        && (once && s.word == st ==> s'.pc[t] == HoldsExclusive)
      else if once || PendingBit(st) then
        s' == s.(pc := s.pc[t := retry])
      else
        CompareExchange(s, s', t, st, st + WRITER_PENDING, retry, retry)
    case HoldsExclusive => s' == State(0, s.pc[t := Idle])
    case _ => false
  }

  ghost predicate CallStep(s: State, s': State, t: Tid)
    requires t in s.pc
  {
    && s.pc[t] == Idle
    && exists once :: s' == s.(pc := s.pc[t := WantShared(once)]) || s' == s.(pc := s.pc[t := WantExclusive(once)])
  }

  ghost predicate StepOf(s: State, s': State, t: Tid) {
    t in s.pc && (CallStep(s, s', t) || SharedStep(s, s', t) || ExclusiveStep(s, s', t))
  }

  ghost predicate Next(s: State, s': State) {
    exists t :: StepOf(s, s', t)
  }

  /** A run of the lock, first state first. */
  ghost predicate Behavior(run: seq<State>) {
    && |run| > 0
    && Init(run[0])
    && forall i: nat :: i + 1 < |run| ==> NextAt(run, i)
  }

  ghost predicate NextAt(run: seq<State>, i: nat)
    requires i + 1 < |run|
  {
    Next(run[i], run[i + 1])
  }

  // ---------------------------------------------------------------- invariant

  /** The word is exactly what the holders determine, plus the pending bit. */
  ghost predicate WordMatchesHolders(s: State) {
    if Writers(s) != {} then
      |Writers(s)| == 1 && Readers(s) == {} && s.word == LOCKED_EXCLUSIVE
    else
      |Readers(s)| <= READER_COUNT_MASK
      && (s.word == |Readers(s)| || s.word == |Readers(s)| + WRITER_PENDING)
  }

  /** A pending bit always has a writer that is still trying. */
  ghost predicate PendingHasWriter(s: State) {
    PendingBit(s.word) ==> exists t :: t in s.pc && Spinning(s.pc[t])
  }

  ghost predicate Inv(s: State) {
    WordMatchesHolders(s) && PendingHasWriter(s)
  }

  lemma HoldersAfter(s: State, s': State, t: Tid, pc: Pc)
    requires t in s.pc && s'.pc == s.pc[t := pc]
    ensures Readers(s') == if pc == HoldsShared then Readers(s) + {t} else Readers(s) - {t}
    ensures Writers(s') == if pc == HoldsExclusive then Writers(s) + {t} else Writers(s) - {t}
  {
  }

  lemma PendingKept(s: State, s': State, t: Tid, pc: Pc)
    requires PendingHasWriter(s)
    requires t in s.pc && s'.pc == s.pc[t := pc]
    requires Spinning(s.pc[t]) ==> Spinning(pc)
    requires PendingBit(s'.word) ==> PendingBit(s.word)
    ensures PendingHasWriter(s')
  {
    if PendingBit(s'.word) {
      var w :| w in s.pc && Spinning(s.pc[w]);
      assert w in s'.pc && Spinning(s'.pc[w]);
    }
  }

  /** The bit tests on a word made of a reader count and an optional pending bit. */
  lemma WordBits(count: nat, pending: bool)
    requires count <= READER_COUNT_MASK
    ensures var w := if pending then count + WRITER_PENDING else count;
            && PendingBit(w) == pending && !ExclusiveBit(w) && ReaderCount(w) == count
            && (w < READER_COUNT_MASK <==> !pending && count < READER_COUNT_MASK)
  {
  }

  lemma WordOf(s: State) returns (pending: bool)
    requires WordMatchesHolders(s) && Writers(s) == {}
    ensures s.word == if pending then |Readers(s)| + WRITER_PENDING else |Readers(s)|
    ensures PendingBit(s.word) == pending && !ExclusiveBit(s.word) && ReaderCount(s.word) == |Readers(s)|
    ensures s.word < READER_COUNT_MASK <==> !pending && |Readers(s)| < READER_COUNT_MASK
  {
    pending := s.word != |Readers(s)|;
    WordBits(|Readers(s)|, pending);
  }

  lemma CallKeeps(s: State, s': State, t: Tid)
    requires Inv(s) && t in s.pc && CallStep(s, s', t)
    ensures Inv(s')
    ensures Readers(s') == Readers(s) && Writers(s') == Writers(s)
  {
    HoldersAfter(s, s', t, s'.pc[t]);
    PendingKept(s, s', t, s'.pc[t]);
  }

  /** A reader enters only on a word with neither the pending nor the exclusive bit. */
  lemma ReaderEnters(s: State, s': State, t: Tid)
    requires Inv(s) && t in s.pc && s.pc[t].SharedLoaded?
    requires s.pc[t].st < READER_COUNT_MASK && s.word == s.pc[t].st
    requires s' == State(s.word + 1, s.pc[t := HoldsShared])
    ensures Inv(s')
    ensures Writers(s) == {} && !PendingBit(s.word) && |Readers(s)| + 1 < WRITER_PENDING
  {
    HoldersAfter(s, s', t, HoldsShared);
    var p := WordOf(s);
    WordBits(|Readers(s)| + 1, false);
  }

  lemma ReaderLeaves(s: State, s': State, t: Tid)
    requires Inv(s) && t in s.pc && s.pc[t] == HoldsShared
    requires s' == State((s.word + WORD_SIZE - 1) % WORD_SIZE, s.pc[t := Idle])
    ensures Inv(s')
    ensures s'.word == s.word - 1
  {
    HoldersAfter(s, s', t, Idle);
    assert t in Readers(s);
    var p := WordOf(s);
    WordBits(|Readers(s)| - 1, p);
    PendingKept(s, s', t, Idle);
  }

  lemma SharedKeeps(s: State, s': State, t: Tid)
    requires Inv(s) && t in s.pc && SharedStep(s, s', t)
    ensures Inv(s')
  {
    if s.pc[t] == HoldsShared {
      ReaderLeaves(s, s', t);
    } else if s'.pc[t] == HoldsShared {
      ReaderEnters(s, s', t);
    } else {
      HoldersAfter(s, s', t, s'.pc[t]);
      PendingKept(s, s', t, s'.pc[t]);
    }
  }

  lemma WriterEnters(s: State, s': State, t: Tid)
    requires Inv(s) && t in s.pc && s.pc[t].ExclusiveLoaded?
    requires !ExclusiveBit(s.word) && ReaderCount(s.word) == 0
    requires s' == State(LOCKED_EXCLUSIVE, s.pc[t := HoldsExclusive])
    ensures Inv(s')
    ensures Writers(s) == {} && Readers(s) == {}
  {
    HoldersAfter(s, s', t, HoldsExclusive);
    assert ExclusiveBit(LOCKED_EXCLUSIVE) && !PendingBit(LOCKED_EXCLUSIVE);
    var p := WordOf(s);
    assert |Readers(s)| == 0;
  }

  lemma WriterLeaves(s: State, s': State, t: Tid)
    requires Inv(s) && t in s.pc && s.pc[t] == HoldsExclusive
    requires s' == State(0, s.pc[t := Idle])
    ensures Inv(s')
  {
    HoldersAfter(s, s', t, Idle);
    assert t in Writers(s);
    assert |Writers(s) - {t}| == 0;
    assert !PendingBit(0);
  }

  lemma PendingSet(s: State, s': State, t: Tid)
    requires Inv(s) && t in s.pc && s.pc[t].ExclusiveLoaded? && !s.pc[t].once
    requires !ExclusiveBit(s.word) && ReaderCount(s.word) != 0 && !PendingBit(s.word)
    requires s' == State(s.word + WRITER_PENDING, s.pc[t := WantExclusive(false)])
    ensures Inv(s')
  {
    HoldersAfter(s, s', t, WantExclusive(false));
    assert ExclusiveBit(LOCKED_EXCLUSIVE);
    var p := WordOf(s);
    assert t in s'.pc && Spinning(s'.pc[t]);
  }

  lemma ExclusiveKeeps(s: State, s': State, t: Tid)
    requires Inv(s) && t in s.pc && ExclusiveStep(s, s', t)
    ensures Inv(s')
  {
    if s.pc[t] == HoldsExclusive {
      WriterLeaves(s, s', t);
    } else if s'.pc[t] == HoldsExclusive {
      WriterEnters(s, s', t);
    } else if s'.word != s.word {
      PendingSet(s, s', t);
    } else {
      HoldersAfter(s, s', t, s'.pc[t]);
      PendingKept(s, s', t, s'.pc[t]);
    }
  }

  lemma StepKeeps(s: State, s': State, t: Tid)
    requires Inv(s) && StepOf(s, s', t)
    ensures Inv(s')
  {
    if CallStep(s, s', t) {
      CallKeeps(s, s', t);
    } else if SharedStep(s, s', t) {
      SharedKeeps(s, s', t);
    } else {
      ExclusiveKeeps(s, s', t);
    }
  }

  // ------------------------------------------------------------ main theorems

  /** In every state of every run the word is determined by the holders. */
  lemma {:induction false} RunKeepsInvariant(run: seq<State>, i: nat)
    requires Behavior(run) && i < |run|
    ensures Inv(run[i])
  {
    if i == 0 {
      assert Writers(run[0]) == {} && Readers(run[0]) == {};
      assert !PendingBit(0);
    } else {
      RunKeepsInvariant(run, i - 1);
      assert NextAt(run, i - 1);
      var t :| StepOf(run[i - 1], run[i], t);
      StepKeeps(run[i - 1], run[i], t);
    }
  }

  /** Safety over whole runs: the word, mutual exclusion and the bound on readers. */
  lemma MutualExclusion(run: seq<State>, i: nat)
    requires Behavior(run) && i < |run|
    ensures var s := run[i];
            && s.word == (if Writers(s) != {} then LOCKED_EXCLUSIVE
                          else |Readers(s)| + if PendingBit(s.word) then WRITER_PENDING else 0)
            && (Writers(s) == {} || Readers(s) == {})
            && |Writers(s)| <= 1
            && |Readers(s)| < WRITER_PENDING
  {
    RunKeepsInvariant(run, i);
    if Writers(run[i]) == {} {
      var p := WordOf(run[i]);
    }
  }

  lemma StepUnderPending(s: State, s': State, t: Tid)
    requires Inv(s) && StepOf(s, s', t) && PendingBit(s.word)
    ensures Readers(s') <= Readers(s)
  {
    if s.pc[t].SharedLoaded? && s'.pc[t] == HoldsShared {
      ReaderEnters(s, s', t);
    } else {
      HoldersAfter(s, s', t, s'.pc[t]);
    }
  }

  /** While the pending bit is set no reader enters; readers only drain away. */
  lemma NoReaderPassesPendingWriter(run: seq<State>, i: nat)
    requires Behavior(run) && i + 1 < |run|
    requires PendingBit(run[i].word)
    ensures Readers(run[i + 1]) <= Readers(run[i])
  {
    RunKeepsInvariant(run, i);
    assert NextAt(run, i);
    var t :| StepOf(run[i], run[i + 1], t);
    StepUnderPending(run[i], run[i + 1], t);
  }

  /** Once set, the pending bit is cleared only by a writer that takes the lock. */
  lemma PendingClearedByWriter(run: seq<State>, i: nat)
    requires Behavior(run) && i + 1 < |run|
    requires PendingBit(run[i].word) && !PendingBit(run[i + 1].word)
    ensures Writers(run[i]) == {} && Readers(run[i]) == {} && |Writers(run[i + 1])| == 1
  {
    RunKeepsInvariant(run, i);
    RunKeepsInvariant(run, i + 1);
    var s, s' := run[i], run[i + 1];
    assert !PendingBit(LOCKED_EXCLUSIVE);
    assert NextAt(run, i);
    var t :| StepOf(s, s', t);
    assert s.pc[t] == HoldsExclusive ==> t in Writers(s);
    if SharedStep(s, s', t) && s.pc[t] == HoldsShared {
      var p := WordOf(s);
      assert t in Readers(s);
      WordBits(|Readers(s)| - 1, p);
      ReaderLeaves(s, s', t);
    } else if SharedStep(s, s', t) && s'.pc[t] == HoldsShared {
      ReaderEnters(s, s', t);
    } else if s'.pc[t] == HoldsExclusive {
      WriterEnters(s, s', t);
      assert t in Writers(s');
    }
  }

  /** A blocked reader is never blocked for nothing: some thread holds the lock or a writer is still trying. */
  lemma ReaderBlockedByLiveThread(run: seq<State>, i: nat)
    requires Behavior(run) && i < |run|
    requires run[i].word >= READER_COUNT_MASK
    ensures Writers(run[i]) != {} || Readers(run[i]) != {}
         || exists t :: t in run[i].pc && Spinning(run[i].pc[t])
  {
    RunKeepsInvariant(run, i);
    if Writers(run[i]) == {} {
      var p := WordOf(run[i]);
    }
  }

  // ---------------------------------------------------- who is let in, and when

  ghost predicate MovesAt(run: seq<State>, i: nat, t: Tid)
    requires i + 1 < |run|
  {
    t in run[i].pc && t in run[i + 1].pc && run[i + 1].pc[t] != run[i].pc[t]
  }

  /** Thread t moves at state i, next at state j, and is at rest in between. */
  ghost predicate MovesNext(run: seq<State>, i: nat, j: nat, t: Tid)
    requires j + 1 < |run|
  {
    i < j && MovesAt(run, i, t) && MovesAt(run, j, t) && forall n: nat :: i < n < j ==> !MovesAt(run, n, t)
  }

  /** A reader may enter: no writer holds the lock or is announced, and one more reader fits below the bits of the writers. */
  ghost predicate FreeToShare(s: State) {
    Writers(s) == {} && !PendingBit(s.word) && |Readers(s)| + 1 < WRITER_PENDING
  }

  /** A writer may enter: nobody holds the lock. */
  ghost predicate FreeToOwn(s: State) { Writers(s) == {} && Readers(s) == {} }

  lemma StepMovesOne(s: State, s': State, t: Tid)
    requires StepOf(s, s', t)
    ensures t in s'.pc && s'.pc == s.pc[t := s'.pc[t]]
  {
  }

  /** Only a thread's own step changes where it is. */
  lemma MoverSteps(run: seq<State>, i: nat, t: Tid)
    requires Behavior(run) && i + 1 < |run| && MovesAt(run, i, t)
    ensures Inv(run[i]) && StepOf(run[i], run[i + 1], t)
  {
    RunKeepsInvariant(run, i);
    assert NextAt(run, i);
    var u :| StepOf(run[i], run[i + 1], u);
    StepMovesOne(run[i], run[i + 1], u);
  }

  lemma ThreadStays(run: seq<State>, i: nat, t: Tid)
    requires Behavior(run) && i + 1 < |run| && t in run[i].pc
    ensures t in run[i + 1].pc
  {
    assert NextAt(run, i);
    var u :| StepOf(run[i], run[i + 1], u);
    StepMovesOne(run[i], run[i + 1], u);
  }

  lemma {:induction false} AtRestBetween(run: seq<State>, i: nat, j: nat, t: Tid)
    requires Behavior(run) && i <= j < |run| && t in run[i].pc
    requires forall n: nat :: i <= n < j ==> !MovesAt(run, n, t)
    ensures t in run[j].pc && run[j].pc[t] == run[i].pc[t]
    decreases j - i
  {
    if i < j {
      AtRestBetween(run, i, j - 1, t);
      ThreadStays(run, j - 1, t);
      assert !MovesAt(run, j - 1, t);
    }
  }

  /** What a thread loads it still has in hand when it goes on. */
  lemma LoadedInHand(run: seq<State>, i: nat, j: nat, t: Tid)
    requires Behavior(run) && j + 1 < |run| && MovesNext(run, i, j, t)
    ensures t in run[j].pc && run[j].pc[t] == run[i + 1].pc[t]
    ensures run[i].pc[t].WantShared? ==> run[j].pc[t] == SharedLoaded(run[i].pc[t].once, run[i].word)
    ensures run[i].pc[t].WantExclusive? ==> run[j].pc[t] == ExclusiveLoaded(run[i].pc[t].once, run[i].word)
  {
    MoverSteps(run, i, t);
    AtRestBetween(run, i + 1, j, t);
  }

  lemma FreeToShareWord(s: State)
    requires Inv(s)
    ensures s.word < READER_COUNT_MASK <==> FreeToShare(s)
  {
    if Writers(s) == {} {
      var p := WordOf(s);
    }
  }

  lemma FreeToOwnWord(s: State)
    requires Inv(s)
    ensures !ExclusiveBit(s.word) && ReaderCount(s.word) == 0 <==> FreeToOwn(s)
  {
    if Writers(s) == {} {
      var p := WordOf(s);
    } else {
      assert ExclusiveBit(LOCKED_EXCLUSIVE);
    }
  }

  lemma SharedAttempt(s: State, s': State, t: Tid, once: bool, st: nat)
    requires Inv(s) && StepOf(s, s', t) && s.pc[t] == SharedLoaded(once, st)
    ensures s'.pc[t] == HoldsShared || s'.pc[t] == if once then Idle else WantShared(false)
    ensures s'.pc[t] == HoldsShared ==> s.word == st && FreeToShare(s)
    ensures once && s.word == st && FreeToShare(s) ==> s'.pc[t] == HoldsShared
  {
    FreeToShareWord(s);
  }

  lemma ExclusiveAttempt(s: State, s': State, t: Tid, once: bool, st: nat)
    requires Inv(s) && StepOf(s, s', t) && s.pc[t] == ExclusiveLoaded(once, st)
    ensures s'.pc[t] == HoldsExclusive || s'.pc[t] == if once then Idle else WantExclusive(false)
    ensures s'.pc[t] == HoldsExclusive ==> s.word == st && FreeToOwn(s)
    ensures once && s.word == st && FreeToOwn(s) ==> s'.pc[t] == HoldsExclusive
  {
    FreeToOwnWord(s);
  }

  /** try_lock_shared, loading at i and deciding at j, succeeds exactly when the word is at j what it
   *  was at i and no writer holds the lock, no writer is announced and the count has room.
   */
  lemma TryLockSharedExactly(run: seq<State>, i: nat, j: nat, t: Tid)
    requires Behavior(run) && j + 1 < |run| && MovesNext(run, i, j, t) && run[i].pc[t] == WantShared(true)
    ensures t in run[j + 1].pc
    ensures run[j + 1].pc[t] == if run[j].word == run[i].word && FreeToShare(run[j]) then HoldsShared else Idle
  {
    LoadedInHand(run, i, j, t);
    MoverSteps(run, j, t);
    SharedAttempt(run[j], run[j + 1], t, true, run[i].word);
  }

  /** try_lock, loading at i and deciding at j, succeeds exactly when the word is at j what it was
   *  at i and nobody holds the lock.
   */
  lemma TryLockExactly(run: seq<State>, i: nat, j: nat, t: Tid)
    requires Behavior(run) && j + 1 < |run| && MovesNext(run, i, j, t) && run[i].pc[t] == WantExclusive(true)
    ensures t in run[j + 1].pc
    ensures run[j + 1].pc[t] == if run[j].word == run[i].word && FreeToOwn(run[j]) then HoldsExclusive else Idle
  {
    LoadedInHand(run, i, j, t);
    MoverSteps(run, j, t);
    ExclusiveAttempt(run[j], run[j + 1], t, true, run[i].word);
  }

  /** An attempt of lock_shared can enter exactly when the word has not changed since the load and
   *  nothing keeps readers out; an attempt that does not enter tries again.
   */
  lemma LockSharedExactly(run: seq<State>, i: nat, j: nat, t: Tid)
    requires Behavior(run) && j + 1 < |run| && MovesNext(run, i, j, t) && run[i].pc[t] == WantShared(false)
    ensures t in run[j + 1].pc && (run[j + 1].pc[t] == HoldsShared || run[j + 1].pc[t] == WantShared(false))
    ensures (exists s' :: StepOf(run[j], s', t) && s'.pc[t] == HoldsShared)
              <==> run[j].word == run[i].word && FreeToShare(run[j])
  {
    LoadedInHand(run, i, j, t);
    MoverSteps(run, j, t);
    var s, st := run[j], run[i].word;
    SharedAttempt(s, run[j + 1], t, false, st);
    forall s' | StepOf(s, s', t) && s'.pc[t] == HoldsShared ensures s.word == st && FreeToShare(s) {
      SharedAttempt(s, s', t, false, st);
    }
    if s.word == st && FreeToShare(s) {
      FreeToShareWord(s);
      assert StepOf(s, State(st + 1, s.pc[t := HoldsShared]), t);
    }
  }

  /** An attempt of lock can enter exactly when the word has not changed since the load and nobody
   *  holds the lock.  If only readers stand in the way, it can announce itself; otherwise it tries
   *  again and changes nothing.
   */
  lemma LockExactly(run: seq<State>, i: nat, j: nat, t: Tid)
    requires Behavior(run) && j + 1 < |run| && MovesNext(run, i, j, t) && run[i].pc[t] == WantExclusive(false)
    ensures t in run[j + 1].pc && (run[j + 1].pc[t] == HoldsExclusive || run[j + 1].pc[t] == WantExclusive(false))
    ensures (exists s' :: StepOf(run[j], s', t) && s'.pc[t] == HoldsExclusive)
              <==> run[j].word == run[i].word && FreeToOwn(run[j])
    ensures (exists s' :: StepOf(run[j], s', t) && PendingBit(s'.word) && !PendingBit(run[j].word))
              <==> run[j].word == run[i].word && !PendingBit(run[j].word) && Writers(run[j]) == {} && Readers(run[j]) != {}
  {
    LoadedInHand(run, i, j, t);
    MoverSteps(run, j, t);
    var s, st := run[j], run[i].word;
    ExclusiveAttempt(s, run[j + 1], t, false, st);
    LockCanEnter(s, t, st);
    LockCanAnnounce(s, t, st);
  }

  lemma LockCanEnter(s: State, t: Tid, st: nat)
    requires Inv(s) && t in s.pc && s.pc[t] == ExclusiveLoaded(false, st)
    ensures (exists s' :: StepOf(s, s', t) && s'.pc[t] == HoldsExclusive) <==> s.word == st && FreeToOwn(s)
  {
    forall s' | StepOf(s, s', t) && s'.pc[t] == HoldsExclusive ensures s.word == st && FreeToOwn(s) {
      ExclusiveAttempt(s, s', t, false, st);
    }
    if s.word == st && FreeToOwn(s) {
      FreeToOwnWord(s);
      assert StepOf(s, State(LOCKED_EXCLUSIVE, s.pc[t := HoldsExclusive]), t);
    }
  }

  lemma LockCanAnnounce(s: State, t: Tid, st: nat)
    requires Inv(s) && t in s.pc && s.pc[t] == ExclusiveLoaded(false, st)
    ensures (exists s' :: StepOf(s, s', t) && PendingBit(s'.word) && !PendingBit(s.word))
              <==> s.word == st && !PendingBit(s.word) && Writers(s) == {} && Readers(s) != {}
  {
    assert !PendingBit(LOCKED_EXCLUSIVE);
    FreeToOwnWord(s);
    forall s' | StepOf(s, s', t) && PendingBit(s'.word) && !PendingBit(s.word)
      ensures s.word == st && Writers(s) == {} && Readers(s) != {}
    {
      assert s.word == st && s'.word == st + WRITER_PENDING;
      assert ExclusiveBit(LOCKED_EXCLUSIVE);
    }
    if s.word == st && !PendingBit(s.word) && Writers(s) == {} && Readers(s) != {} {
      var p := WordOf(s);
      WordBits(|Readers(s)|, true);
      assert StepOf(s, State(st + WRITER_PENDING, s.pc[t := WantExclusive(false)]), t);
    }
  }

  /** An unlock takes its own thread out of the holders and nobody else. */
  lemma UnlockReleases(run: seq<State>, i: nat, t: Tid)
    requires Behavior(run) && i + 1 < |run| && MovesAt(run, i, t)
    requires run[i].pc[t] == HoldsShared || run[i].pc[t] == HoldsExclusive
    ensures run[i + 1].pc[t] == Idle
    ensures Readers(run[i + 1]) == Readers(run[i]) - {t} && Writers(run[i + 1]) == Writers(run[i]) - {t}
    ensures PendingBit(run[i + 1].word) <==> PendingBit(run[i].word)
  {
    MoverSteps(run, i, t);
    var s, s' := run[i], run[i + 1];
    HoldersAfter(s, s', t, Idle);
    if s.pc[t] == HoldsShared {
      assert t in Readers(s);
      var p := WordOf(s);
      WordBits(|Readers(s)| - 1, p);
    } else {
      assert t in Writers(s) && !PendingBit(0) && !PendingBit(LOCKED_EXCLUSIVE);
    }
  }
}
