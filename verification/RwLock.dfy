/**
 The readers-writer lock built from a mutex, a manual-reset event, a critical section and a counter
 (the Windows branch), as atomic steps of any number of threads in any interleaving. A thread does
 not call the lock again before it has left it. Any wait may fail without acquiring anything.
 */
module RwLock {
  import opened Numbers
  import opened Serial

  /** Where a thread is. `Read`, `Runlock` and `Write` are named after the operation, followed by
      what the thread does next. */
  datatype Pc =
    | Idle
    | ReadWait | ReadEnter | ReadCount | ReadTest | ReadReset | ReadLeave | ReadRelease
    | Reading
    | RunlockEnter | RunlockCount | RunlockTest | RunlockSet | RunlockLeave
    | WriteWait | WriteDrain | WriteUndo
    | Writing

  /** `m_nReaders`, `m_hNobodyIsReading`, the owners of `m_hWritingMutex` and `m_csReading`, and the
      threads. */
  datatype Lock = Lock(readers: uint32, nobodyReading: bool, mutex: Option<nat>, section: Option<nat>,
                       threads: seq<Pc>)

  predicate HoldsMutex(pc: Pc) {
    pc in {ReadEnter, ReadCount, ReadTest, ReadReset, ReadLeave, ReadRelease, WriteDrain, WriteUndo, Writing}
  }

  predicate InSection(pc: Pc) {
    pc in {ReadCount, ReadTest, ReadReset, ReadLeave, RunlockCount, RunlockTest, RunlockSet, RunlockLeave}
  }

  /** The thread has been added to the number of readers and not yet been taken off. */
  predicate Registered(pc: Pc) {
    pc in {ReadTest, ReadReset, ReadLeave, ReadRelease, Reading, RunlockEnter, RunlockCount}
  }

  /** The lock is held, for reading or for writing. */
  predicate Inside(pc: Pc) {
    pc == Reading || pc == Writing
  }

  // ---------------------------------------------------------------- steps

  /** Thread `i` moves on; for the steps of a wait, `fails` says that the wait fails. */
  datatype Action = Call(read: bool) | Go | Fail

  predicate Enabled(s: Lock, i: nat, a: Action)
    requires i < |s.threads|
  {
    var pc := s.threads[i];
    match a
    case Call(_) => pc == Idle
    case Fail => pc in {ReadWait, WriteWait, WriteDrain}
    case Go =>
      match pc
      case Idle => false
      case ReadWait => s.mutex.None?
      case WriteWait => s.mutex.None?
      case WriteDrain => s.nobodyReading
      case ReadEnter => s.section.None?
      case RunlockEnter => s.section.None?
      case _ => true
  }

  function At(s: Lock, i: nat, pc: Pc): Lock
    requires i < |s.threads|
  {
    s.(threads := s.threads[i := pc])
  }

  /** The effect of one step. */
  function Do(s: Lock, i: nat, a: Action): Lock
    requires i < |s.threads| && Enabled(s, i, a)
  {
    match a
    case Call(read) => At(s, i, if read then ReadWait else WriteWait)
    case Fail => At(s, i, if s.threads[i] == WriteDrain then WriteUndo else Idle)
    case Go =>
      match s.threads[i]
      case ReadWait => At(s, i, ReadEnter).(mutex := Some(i))
      case ReadEnter => At(s, i, ReadCount).(section := Some(i))
      case ReadCount => At(s, i, ReadTest).(readers := U32(s.readers + 1))
      case ReadTest => At(s, i, if s.readers == 1 then ReadReset else ReadLeave)
      case ReadReset => At(s, i, ReadLeave).(nobodyReading := false)
      case ReadLeave => At(s, i, ReadRelease).(section := None)
      case ReadRelease => At(s, i, Reading).(mutex := None)
      case Reading => At(s, i, RunlockEnter)
      case RunlockEnter => At(s, i, RunlockCount).(section := Some(i))
      case RunlockCount => At(s, i, RunlockTest).(readers := U32(s.readers - 1))
      case RunlockTest => At(s, i, if s.readers == 0 then RunlockSet else RunlockLeave)
      case RunlockSet => At(s, i, RunlockLeave).(nobodyReading := true)
      case RunlockLeave => At(s, i, Idle).(section := None)
      case WriteWait => At(s, i, WriteDrain).(mutex := Some(i))
      case WriteDrain => At(s, i, Writing)
      case WriteUndo => At(s, i, Idle).(mutex := None)
      case Writing => At(s, i, Idle).(mutex := None)
      case Idle => s
  }

  ghost predicate Step(s: Lock, i: nat, a: Action, t: Lock) {
    i < |s.threads| && Enabled(s, i, a) && t == Do(s, i, a)
  }

  ghost predicate Next(s: Lock, t: Lock) {
    exists i, a :: Step(s, i, a, t)
  }

  ghost predicate Init(s: Lock) {
    && s.readers == 0 && s.nobodyReading && s.mutex.None? && s.section.None?
    && |s.threads| < TWO32 && forall i :: 0 <= i < |s.threads| ==> s.threads[i] == Idle
  }

  ghost predicate Execution(trace: seq<Lock>) {
    trace != [] && Init(trace[0]) && forall k :: 0 <= k < |trace| - 1 ==> Next(trace[k], trace[k + 1])
  }

  // ---------------------------------------------------------------- invariant

  /** How many of the first `n` threads are registered. */
  function Count(threads: seq<Pc>, n: nat): nat
    requires n <= |threads|
  {
    if n == 0 then 0 else Count(threads, n - 1) + (if Registered(threads[n - 1]) then 1 else 0)
  }

  function Readers(threads: seq<Pc>): nat {
    Count(threads, |threads|)
  }

  lemma {:induction false} CountBound(threads: seq<Pc>, n: nat)
    requires n <= |threads|
    ensures Count(threads, n) <= n
  {
    hide Registered;
    if n > 0 {
      CountBound(threads, n - 1);
    }
  }

  lemma {:induction false} CountUpdate(threads: seq<Pc>, i: nat, pc: Pc, n: nat)
    requires i < |threads| && n <= |threads|
    ensures Count(threads[i := pc], n)
         == Count(threads, n) + (if i >= n || Registered(threads[i]) == Registered(pc) then 0
                                 else if Registered(pc) then 1 else -1)
  {
    hide Registered;
    if n > 0 {
      CountUpdate(threads, i, pc, n - 1);
    }
  }

  /** Nobody is registered exactly when the count is 0. */
  lemma {:induction false} CountZero(threads: seq<Pc>, n: nat)
    requires n <= |threads|
    ensures Count(threads, n) == 0 <==> forall i :: 0 <= i < n ==> !Registered(threads[i])
  {
    hide Registered;
    if n > 0 {
      CountZero(threads, n - 1);
    }
  }

  /** A resource is owned by exactly the thread whose position says so. */
  ghost predicate OwnsMutex(s: Lock, i: nat)
    requires i < |s.threads|
  {
    HoldsMutex(s.threads[i]) <==> s.mutex == Some(i)
  }

  ghost predicate OwnsSection(s: Lock, i: nat)
    requires i < |s.threads|
  {
    InSection(s.threads[i]) <==> s.section == Some(i)
  }

  /** What the event shows, depending on how far the thread in the critical section has come. */
  predicate EventRight(s: Lock, pc: Pc) {
    match pc
    case ReadTest => s.nobodyReading == (s.readers == 1)
    case ReadReset => s.nobodyReading && s.readers == 1
    case RunlockTest => !s.nobodyReading
    case RunlockSet => !s.nobodyReading && s.readers == 0
    case _ => s.nobodyReading == (s.readers == 0)
  }

  function SectionPc(s: Lock): Pc {
    if s.section.Some? && s.section.value < |s.threads| then s.threads[s.section.value] else Idle
  }

  ghost predicate Inv(s: Lock) {
    && |s.threads| < TWO32
    && (s.mutex.Some? ==> s.mutex.value < |s.threads|)
    && (s.section.Some? ==> s.section.value < |s.threads|)
    && (forall i :: 0 <= i < |s.threads| ==> OwnsMutex(s, i))
    && (forall i :: 0 <= i < |s.threads| ==> OwnsSection(s, i))
    && s.readers == Readers(s.threads)
    && EventRight(s, SectionPc(s))
    && (forall i :: 0 <= i < |s.threads| && s.threads[i] == Writing ==> s.readers == 0)
  }

  lemma InitInv(s: Lock)
    requires Init(s)
    ensures Inv(s)
  {
    CountZero(s.threads, |s.threads|);
  }

  /** A step of thread `i` changes the ownership of nobody else. */
  lemma OwnersKept(s: Lock, i: nat, a: Action)
    requires Inv(s) && i < |s.threads| && Enabled(s, i, a)
    ensures var t := Do(s, i, a);
            && (t.mutex.Some? ==> t.mutex.value < |t.threads|)
            && (t.section.Some? ==> t.section.value < |t.threads|)
            && (forall j :: 0 <= j < |t.threads| ==> OwnsMutex(t, j) && OwnsSection(t, j))
  {
    var t := Do(s, i, a);
    forall j | 0 <= j < |t.threads| ensures OwnsMutex(t, j) && OwnsSection(t, j) {
      OwnerKept(s, i, a, j);
    }
    assert OwnsMutex(s, i) && OwnsSection(s, i);
  }

  lemma OwnerKept(s: Lock, i: nat, a: Action, j: nat)
    requires Inv(s) && i < |s.threads| && Enabled(s, i, a) && j < |s.threads|
    ensures OwnsMutex(Do(s, i, a), j) && OwnsSection(Do(s, i, a), j)
  {
    assert OwnsMutex(s, i) && OwnsSection(s, i) && OwnsMutex(s, j) && OwnsSection(s, j);
  }

  /** How a step changes the counter: only registering and unregistering do. */
  lemma CounterStep(s: Lock, i: nat, a: Action)
    requires i < |s.threads| && Enabled(s, i, a)
    ensures var pc, t := s.threads[i], Do(s, i, a);
            && |t.threads| == |s.threads| && t.threads == s.threads[i := t.threads[i]]
            && t.readers == (if Registered(pc) == Registered(t.threads[i]) then s.readers
                             else if Registered(pc) then U32(s.readers - 1) else U32(s.readers + 1))
  {
  }

  /** The counter stays the number of registered threads, without wrapping. */
  lemma CounterKept(s: Lock, i: nat, a: Action)
    requires Inv(s) && i < |s.threads| && Enabled(s, i, a)
    ensures Do(s, i, a).readers == Readers(Do(s, i, a).threads)
  {
    hide EventRight, SectionPc, OwnsMutex, OwnsSection, Registered, Do, Enabled;
    CounterStep(s, i, a);
    CountUpdate(s.threads, i, Do(s, i, a).threads[i], |s.threads|);
    CountBound(Do(s, i, a).threads, |s.threads|);
  }

  lemma EventKept(s: Lock, i: nat, a: Action)
    requires Inv(s) && i < |s.threads| && Enabled(s, i, a)
    ensures EventRight(Do(s, i, a), SectionPc(Do(s, i, a)))
  {
    assert OwnsSection(s, i);
    CountZero(s.threads, |s.threads|);
    CountBound(s.threads, |s.threads|);
  }

  /** A thread that writes has met an event that says nobody is reading, and holds the mutex since. */
  lemma WritingKept(s: Lock, i: nat, a: Action, j: nat)
    requires Inv(s) && i < |s.threads| && Enabled(s, i, a) && j < |s.threads|
    ensures Do(s, i, a).threads[j] == Writing ==> Do(s, i, a).readers == 0
  {
    assert OwnsMutex(s, i) && OwnsMutex(s, j);
    assert OwnsSection(s, i);
    if s.threads[i] == WriteDrain && a == Go {
      DrainedMeansEmpty(s, i);
    }
    CountZero(s.threads, |s.threads|);
  }

  lemma DrainedMeansEmpty(s: Lock, i: nat)
    requires Inv(s) && i < |s.threads| && s.threads[i] == WriteDrain && s.nobodyReading
    ensures s.readers == 0
  {
    assert OwnsMutex(s, i);
    if s.section.Some? {
      assert OwnsSection(s, s.section.value) && OwnsMutex(s, s.section.value);
    }
  }

  lemma StepKeeps(s: Lock, i: nat, a: Action)
    requires Inv(s) && i < |s.threads| && Enabled(s, i, a)
    ensures Inv(Do(s, i, a))
  {
    var t := Do(s, i, a);
    OwnersKept(s, i, a);
    CounterKept(s, i, a);
    EventKept(s, i, a);
    SameThreads(s, i, a);
    forall j | 0 <= j < |t.threads| && t.threads[j] == Writing ensures t.readers == 0 {
      WritingKept(s, i, a, j);
    }
    hide Do, EventRight, SectionPc, OwnsMutex, OwnsSection;
  }

  lemma SameThreads(s: Lock, i: nat, a: Action)
    requires i < |s.threads| && Enabled(s, i, a)
    ensures |Do(s, i, a).threads| == |s.threads|
  {
  }

  lemma {:induction false} InvHolds(trace: seq<Lock>, k: nat)
    requires Execution(trace) && k < |trace|
    ensures Inv(trace[k])
  {
    hide Inv, Init, Do, Enabled;
    if k == 0 {
      InitInv(trace[0]);
    } else {
      InvHolds(trace, k - 1);
      assert Next(trace[k - 1], trace[k]);
      var i, a :| Step(trace[k - 1], i, a, trace[k]);
      StepKeeps(trace[k - 1], i, a);
    }
  }

  // ---------------------------------------------------------------- results

  /** In any interleaving a thread that holds the lock for writing holds it alone. */
  lemma WriterIsAlone(trace: seq<Lock>, k: nat, i: nat, j: nat)
    requires Execution(trace) && k < |trace|
    requires i < |trace[k].threads| && j < |trace[k].threads| && i != j
    requires trace[k].threads[i] == Writing
    ensures !Inside(trace[k].threads[j])
  {
    InvHolds(trace, k);
    var s := trace[k];
    assert OwnsMutex(s, i) && OwnsMutex(s, j);
    CountZero(s.threads, |s.threads|);
  }

  /** Counted by `Read`, and not yet uncounted by `Runlock`, with the critical section left. */
  predicate Between(pc: Pc) {
    pc in {ReadRelease, Reading, RunlockEnter}
  }

  function CountBetween(threads: seq<Pc>, n: nat): nat
    requires n <= |threads|
  {
    if n == 0 then 0 else CountBetween(threads, n - 1) + (if Between(threads[n - 1]) then 1 else 0)
  }

  lemma {:induction false} OutsideSection(threads: seq<Pc>, n: nat)
    requires n <= |threads| && forall i :: 0 <= i < |threads| ==> !InSection(threads[i])
    ensures Count(threads, n) == CountBetween(threads, n)
  {
    if n > 0 {
      OutsideSection(threads, n - 1);
    }
  }

  /** Whenever the critical section is free, `m_nReaders` is the number of readers. */
  lemma CounterIsReaders(trace: seq<Lock>, k: nat)
    requires Execution(trace) && k < |trace| && trace[k].section.None?
    ensures trace[k].readers == CountBetween(trace[k].threads, |trace[k].threads|)
    ensures trace[k].nobodyReading <==> trace[k].readers == 0
  {
    InvHolds(trace, k);
    var s := trace[k];
    forall i | 0 <= i < |s.threads| ensures !InSection(s.threads[i]) {
      assert OwnsSection(s, i);
    }
    OutsideSection(s.threads, |s.threads|);
  }

  /** While a writer waits for the readers to leave, or writes, no reader is added. */
  lemma ReadersOnlyLeave(trace: seq<Lock>, k: nat, w: nat)
    requires Execution(trace) && k + 1 < |trace|
    requires w < |trace[k].threads| && trace[k].threads[w] in {WriteDrain, WriteUndo, Writing}
    ensures trace[k + 1].readers <= trace[k].readers
  {
    InvHolds(trace, k);
    var s := trace[k];
    assert Next(s, trace[k + 1]);
    var i, a :| Step(s, i, a, trace[k + 1]);
    assert OwnsMutex(s, w) && OwnsMutex(s, i);
    CountZero(s.threads, |s.threads|);
    CountBound(s.threads, |s.threads|);
  }

  /** `Runlock` never takes the counter below 0. */
  lemma CounterNeverWraps(trace: seq<Lock>, k: nat, i: nat)
    requires Execution(trace) && k < |trace|
    requires i < |trace[k].threads| && trace[k].threads[i] == RunlockCount
    ensures trace[k].readers > 0
  {
    InvHolds(trace, k);
    CountZero(trace[k].threads, |trace[k].threads|);
  }

  /** Busy inside one of the four operations. */
  predicate Pending(pc: Pc) {
    pc != Idle && !Inside(pc)
  }

  ghost predicate CanGo(s: Lock, j: nat) {
    j < |s.threads| && s.threads[j] != Idle && Enabled(s, j, Go)
  }

  /** No deadlock: while a thread is busy in an operation, some busy thread can take its next step,
      unless the lock is held and it is up to a holder to call an unlock. */
  lemma NoDeadlock(trace: seq<Lock>, k: nat, i: nat) returns (j: nat)
    requires Execution(trace) && k < |trace|
    requires i < |trace[k].threads| && Pending(trace[k].threads[i])
    ensures j < |trace[k].threads|
    ensures Inside(trace[k].threads[j]) || (Pending(trace[k].threads[j]) && Enabled(trace[k], j, Go))
  {
    InvHolds(trace, k);
    j := SomeoneGoes(trace[k], i);
  }

  lemma SomeoneGoes(s: Lock, i: nat) returns (j: nat)
    requires Inv(s) && i < |s.threads| && Pending(s.threads[i])
    ensures CanGo(s, j)
  {
    if s.section.Some? {
      j := s.section.value;
      assert OwnsSection(s, j);
    } else if s.mutex.Some? {
      j := s.mutex.value;
      assert OwnsMutex(s, j) && OwnsSection(s, j);
      if s.threads[j] == WriteDrain && !s.nobodyReading {
        var w := j;
        CountZero(s.threads, |s.threads|);
        j :| 0 <= j < |s.threads| && Registered(s.threads[j]);
        assert OwnsSection(s, j) && OwnsMutex(s, j);
      }
    } else {
      j := i;
      assert OwnsMutex(s, i) && OwnsSection(s, i);
    }
  }

  /** A writer that waits is let in by its own next step once the readers that were there have gone. */
  lemma DrainedWriterEnters(trace: seq<Lock>, k: nat, w: nat)
    requires Execution(trace) && k < |trace| && trace[k].section.None?
    requires w < |trace[k].threads| && trace[k].threads[w] == WriteDrain
    ensures Enabled(trace[k], w, Go)
        <==> forall j :: 0 <= j < |trace[k].threads| ==> !Registered(trace[k].threads[j])
  {
    InvHolds(trace, k);
    CountZero(trace[k].threads, |trace[k].threads|);
  }

  // ---------------------------------------------------------------- one thread alone

  /** Thread `i` takes up to `n` steps, as far as it can. */
  function Goes(s: Lock, i: nat, n: nat): (t: Lock)
    requires i < |s.threads|
    ensures |t.threads| == |s.threads|
    decreases n
  {
    if n == 0 || !Enabled(s, i, Go) then s else Goes(Do(s, i, Go), i, n - 1)
  }

  lemma GoesOn(s: Lock, i: nat, n: nat)
    requires i < |s.threads| && Enabled(s, i, Go) && n > 0
    ensures |Do(s, i, Go).threads| == |s.threads| && Goes(s, i, n) == Goes(Do(s, i, Go), i, n - 1)
  {
    SameThreads(s, i, Go);
    hide Enabled, Do;
  }

  lemma NotYetRegistered(s: Lock, i: nat)
    requires Inv(s) && i < |s.threads| && !Registered(s.threads[i])
    ensures U32((s.readers as int) + 1) == (s.readers as int) + 1
  {
    CountUpdate(s.threads, i, ReadTest, |s.threads|);
    CountBound(s.threads[i := ReadTest], |s.threads|);
    assert (s.readers as int) + 1 < TWO32;
    U32Fits((s.readers as int) + 1);
    hide Inv, Registered, U32;
  }

  lemma EventIdle(s: Lock)
    requires Inv(s) && s.section.None?
    ensures s.nobodyReading == (s.readers == 0)
  {
  }

  /** `Read` of a thread that finds mutex and critical section free: there is one more reader, the event says
      that somebody is reading, and the last step is to release the mutex. */
  lemma ReadAlone(s: Lock, i: nat)
    requires Inv(s) && i < |s.threads| && s.threads[i] == ReadWait && s.mutex.None? && s.section.None?
    ensures var n, reading := if s.readers == 0 then 7 else 6, Goes(s, i, if s.readers == 0 then 7 else 6);
            && reading.readers == (s.readers as int) + 1 && !reading.nobodyReading
            && reading.mutex.None? && reading.section.None? && reading.threads == s.threads[i := Reading]
            && Goes(s, i, n - 1) == reading.(mutex := Some(i), threads := s.threads[i := ReadRelease])
  {
    NotYetRegistered(s, i);
    EventIdle(s);
    var n := if s.readers == 0 then 7 else 6;
    var s1 := Do(s, i, Go);
    var s2 := Do(s1, i, Go);
    var s3 := Do(s2, i, Go);
    GoesOn(s, i, n);
    GoesOn(s, i, n - 1);
    GoesOn(s1, i, n - 1);
    GoesOn(s1, i, n - 2);
    GoesOn(s2, i, n - 2);
    GoesOn(s2, i, n - 3);
    hide Goes, U32, Registered, Inv;
    assert s3 == s.(readers := s3.readers, mutex := Some(i), section := Some(i), threads := s.threads[i := ReadTest]);
    ReadLeaves(s3, i, n - 3);
  }

  /** From the test of the counter on. */
  lemma ReadLeaves(s: Lock, i: nat, n: nat)
    requires i < |s.threads| && s.threads[i] == ReadTest && n == if s.readers == 1 then 4 else 3
    ensures var t := s.(section := None, nobodyReading := s.readers != 1 && s.nobodyReading);
            && Goes(s, i, n - 1) == t.(threads := s.threads[i := ReadRelease])
            && Goes(s, i, n) == t.(mutex := None, threads := s.threads[i := Reading])
  {
    var s1 := Do(s, i, Go);
    GoesOn(s, i, n);
    GoesOn(s, i, n - 1);
    if s.readers == 1 {
      GoesOn(s1, i, n - 1);
      GoesOn(s1, i, n - 2);
      LastSteps(Do(s1, i, Go), i);
    } else {
      LastSteps(s1, i);
    }
    hide Goes;
  }

  lemma LastSteps(s: Lock, i: nat)
    requires i < |s.threads| && s.threads[i] == ReadLeave
    ensures Goes(s, i, 1) == s.(section := None, threads := s.threads[i := ReadRelease])
    ensures Goes(s, i, 2) == s.(section := None, mutex := None, threads := s.threads[i := Reading])
  {
    var s1 := Do(s, i, Go);
    GoesOn(s, i, 1);
    GoesOn(s, i, 2);
    GoesOn(s1, i, 1);
  }

  /** `Runlock` of a reader that finds the critical section free: there is one reader less, and the event says
      that nobody is reading exactly if that was the last one. */
  lemma RunlockAlone(s: Lock, i: nat)
    requires Inv(s) && i < |s.threads| && s.threads[i] == Reading && s.section.None?
    ensures s.readers > 0
    ensures Goes(s, i, if s.readers == 1 then 6 else 5)
         == s.(readers := s.readers - 1, nobodyReading := s.readers == 1, threads := s.threads[i := Idle])
  {
    CountZero(s.threads, |s.threads|);
    EventIdle(s);
    hide Inv, Registered, Goes, Do, Enabled;
    var n := if s.readers == 1 then 6 else 5;
    var t := RunlockEnters(s, i, n);
    RunlockLeaves(t, i, n - 3);
    assert t.threads[i := Idle] == s.threads[i := Idle];
  }

  lemma RunlockEnters(s: Lock, i: nat, n: nat) returns (t: Lock)
    requires i < |s.threads| && s.threads[i] == Reading && s.section.None? && s.readers > 0 && n >= 3
    ensures t == s.(readers := s.readers - 1, section := Some(i), threads := s.threads[i := RunlockTest])
    ensures Goes(s, i, n) == Goes(t, i, n - 3)
  {
    var s1 := Do(s, i, Go);
    var s2 := Do(s1, i, Go);
    t := Do(s2, i, Go);
    GoesOn(s, i, n);
    GoesOn(s1, i, n - 1);
    GoesOn(s2, i, n - 2);
    hide Goes, U32;
    LessOne(s.readers);
    assert t.threads == s.threads[i := RunlockTest];
  }

  lemma LessOne(n: uint32)
    requires n > 0
    ensures U32(n - 1) == n - 1
  {
  }

  lemma RunlockLeaves(s: Lock, i: nat, n: nat)
    requires i < |s.threads| && s.threads[i] == RunlockTest && n == if s.readers == 0 then 3 else 2
    ensures Goes(s, i, n)
         == s.(section := None, nobodyReading := s.readers == 0 || s.nobodyReading, threads := s.threads[i := Idle])
  {
    var s1 := Do(s, i, Go);
    var s2 := Do(s1, i, Go);
    GoesOn(s, i, n);
    GoesOn(s1, i, n - 1);
    if s.readers == 0 {
      GoesOn(s2, i, 1);
    }
  }

  lemma {:induction false} GoesKeeps(s: Lock, i: nat, n: nat)
    requires Inv(s) && i < |s.threads|
    ensures Inv(Goes(s, i, n))
    decreases n
  {
    hide Inv, Enabled, Do;
    if n > 0 && Enabled(s, i, Go) {
      StepKeeps(s, i, Go);
      GoesOn(s, i, n);
      GoesKeeps(Do(s, i, Go), i, n - 1);
    }
  }

  /** So `Runlock` undoes `Read`: the lock is as it was before. */
  lemma RunlockUndoesRead(s: Lock, i: nat)
    requires Inv(s) && i < |s.threads| && s.threads[i] == ReadWait && s.mutex.None? && s.section.None?
    ensures var reading := Goes(s, i, if s.readers == 0 then 7 else 6);
            Goes(reading, i, if s.readers == 0 then 6 else 5) == s.(threads := s.threads[i := Idle])
  {
    var n := if s.readers == 0 then 7 else 6;
    ReadAlone(s, i);
    GoesKeeps(s, i, n);
    EventIdle(s);
    hide Goes, Inv;
    var reading := Goes(s, i, n);
    RunlockAlone(reading, i);
    assert reading.threads[i := Idle] == s.threads[i := Idle];
  }

  /** `Write` of a thread that finds the mutex free and nobody reading takes the mutex, and `Wunlock` gives it
      back. */
  lemma WriteAlone(s: Lock, i: nat)
    requires i < |s.threads| && s.threads[i] == WriteWait && s.mutex.None? && s.nobodyReading
    ensures Goes(s, i, 2) == s.(mutex := Some(i), threads := s.threads[i := Writing])
    ensures Goes(s, i, 3) == s.(threads := s.threads[i := Idle])
  {
    var s1 := Do(s, i, Go);
    var s2 := Do(s1, i, Go);
    GoesOn(s, i, 3);
    GoesOn(s1, i, 2);
    GoesOn(s2, i, 1);
    GoesOn(s, i, 2);
    GoesOn(s1, i, 1);
    assert s2.threads[i := Idle] == s.threads[i := Idle];
  }

  /** Each of the three waits can fail at any time, and then the operation leaves the lock as it was before it,
      a writer after it has given the mutex back. No other step can fail. */
  lemma WaitsCanFail(s: Lock, i: nat)
    requires i < |s.threads|
    ensures var pc := s.threads[i];
            && (Enabled(s, i, Fail) <==> pc == ReadWait || pc == WriteWait || pc == WriteDrain)
            && (pc == ReadWait || pc == WriteWait ==> Do(s, i, Fail) == s.(threads := s.threads[i := Idle]))
            && (pc == WriteDrain ==>
                  Goes(Do(s, i, Fail), i, 1) == s.(mutex := None, threads := s.threads[i := Idle]))
  {
    if s.threads[i] == WriteDrain {
      GoesOn(Do(s, i, Fail), i, 1);
    }
  }
}
