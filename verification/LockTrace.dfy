/** The lock tracer: who owns and who waits for which mutex, and the walk that looks for deadlocks. */
module LockTrace {

  import opened Wrappers

  type Mutex = nat    // its address
  type Thread = int

  datatype LockID = LockID(threadId: Thread, file: string, line: int)

  /** What `LockID()` makes. */
  const NO_LOCK := LockID(0, "", 0)

  datatype Trace = Trace(locks: map<Mutex, LockID>, waitTimes: map<Mutex, int>,
                         waitLocks: map<Thread, Mutex>, ownLocks: map<Thread, set<Mutex>>)

  const NOTHING := Trace(map[], map[], map[], map[])

  function Owned(s: Trace, t: Thread): set<Mutex> {
    if t in s.ownLocks then s.ownLocks[t] else {}
  }

  /** The two maps of owners say the same. */
  ghost predicate Inverse(s: Trace) {
    forall m, t :: m in Owned(s, t) <==> m in s.locks && s.locks[m].threadId == t
  }

  // ---------- the steps, each under the map lock ----------

  /** `mWaitLocks[threadId] = mutex` */
  function Waits(s: Trace, t: Thread, m: Mutex): Trace {
    s.(waitLocks := s.waitLocks[t := m])
  }

  /** The count of waiters is at its limit and nobody is recorded as the owner. */
  predicate Overflows(s: Trace, m: Mutex, max: int) {
    m in s.waitTimes && s.waitTimes[m] >= max && m !in s.locks
  }

  /** `checkLockTimes`: its report reads the owner with `[]`, which records one if there is none. */
  function CountWait(s: Trace, m: Mutex, max: int): Trace {
    s.(waitTimes := s.waitTimes[m := if m in s.waitTimes then s.waitTimes[m] + 1 else 1],
       locks := if Overflows(s, m, max) then s.locks[m := NO_LOCK] else s.locks)
  }

  /** `check` */
  function CheckStep(s: Trace, t: Thread, m: Mutex, max: int): Trace {
    CountWait(Waits(s, t, m), m, max)
  }

  /** `insertLock`: an owner already recorded stays. */
  function InsertStep(s: Trace, t: Thread, m: Mutex, file: string, line: int): Trace {
    Trace(if m in s.locks then s.locks else s.locks[m := LockID(t, file, line)],
          if m in s.waitTimes then s.waitTimes[m := s.waitTimes[m] - 1] else s.waitTimes,
          s.waitLocks - {t},
          s.ownLocks[t := Owned(s, t) + {m}])
  }

  /** `tryLock` */
  function TryLockStep(s: Trace, t: Thread, m: Mutex, file: string, line: int): Trace {
    if m in s.locks then s else InsertStep(s, t, m, file, line)
  }

  /** `unlock` */
  function UnlockStep(s: Trace, t: Thread, m: Mutex): Trace {
    s.(locks := s.locks - {m}, ownLocks := s.ownLocks[t := Owned(s, t) - {m}])
  }

  /** Nobody else is recorded as the owner. */
  predicate FreeFor(s: Trace, t: Thread, m: Mutex) {
    m in s.locks ==> s.locks[m].threadId == t
  }

  /** Recording a lock keeps the maps inverse exactly when nobody else is recorded. */
  lemma InsertKeepsInverse(s: Trace, t: Thread, m: Mutex, file: string, line: int)
    requires Inverse(s)
    ensures Inverse(InsertStep(s, t, m, file, line)) <==> FreeFor(s, t, m)
    ensures Inverse(TryLockStep(s, t, m, file, line))
  {
    var s' := InsertStep(s, t, m, file, line);
    assert m in Owned(s', t);
    forall o | o != t ensures Owned(s', o) == Owned(s, o) {}
  }

  /** So does recording an unlock. */
  lemma UnlockKeepsInverse(s: Trace, t: Thread, m: Mutex)
    requires Inverse(s)
    ensures Inverse(UnlockStep(s, t, m)) <==> FreeFor(s, t, m)
  {
    var s' := UnlockStep(s, t, m);
    forall o | o != t ensures Owned(s', o) == Owned(s, o) {}
    if !FreeFor(s, t, m) {
      assert m in Owned(s', s.locks[m].threadId);
    }
  }

  /** A check keeps them inverse exactly when its count does not overflow. */
  lemma CheckKeepsInverse(s: Trace, t: Thread, m: Mutex, max: int)
    requires Inverse(s)
    ensures Inverse(CheckStep(s, t, m, max)) <==> !Overflows(s, m, max)
  {
    var s' := CheckStep(s, t, m, max);
    forall o ensures Owned(s', o) == Owned(s, o) {}
    if Overflows(s, m, max) {
      assert m !in Owned(s, 0) && m !in Owned(s', 0) && s'.locks[m].threadId == 0;
    }
  }

  // ---------- runs ----------

  datatype Event = Check(t: Thread, m: Mutex)
                 | Lock(t: Thread, m: Mutex, file: string, line: int)
                 | Unlock(t: Thread, m: Mutex)

  datatype Held = Held(thread: Thread, depth: nat)

  /** The trace beside the mutexes themselves, a lock or unlock and its record one step. */
  datatype System = System(trace: Trace, held: map<Mutex, Held>)

  /** A mutex is granted when free, or again to its holder if recursive; its holder releases it. */
  predicate CanHappen(sys: System, e: Event, recursives: set<Mutex>) {
    match e
    case Check(_, _) => true
    case Lock(t, m, _, _) => m !in sys.held || (m in recursives && sys.held[m].thread == t)
    case Unlock(t, m) => m in sys.held && sys.held[m].thread == t
  }

  function Happen(sys: System, e: Event, max: int): System {
    match e
    case Check(t, m) => sys.(trace := CheckStep(sys.trace, t, m, max))
    case Lock(t, m, file, line) =>
      System(InsertStep(sys.trace, t, m, file, line),
             sys.held[m := Held(t, if m in sys.held then sys.held[m].depth + 1 else 1)])
    case Unlock(t, m) =>
      System(UnlockStep(sys.trace, t, m),
             if m in sys.held && sys.held[m].depth > 1
             then sys.held[m := Held(t, sys.held[m].depth - 1)] else sys.held - {m})
  }

  function Run(events: seq<Event>, max: int): System {
    if events == [] then System(NOTHING, map[])
    else Happen(Run(events[..|events| - 1], max), events[|events| - 1], max)
  }

  predicate IsRun(events: seq<Event>, recursives: set<Mutex>, max: int) {
    events == [] ||
    var before := events[..|events| - 1];
    IsRun(before, recursives, max) && CanHappen(Run(before, max), events[|events| - 1], recursives)
  }

  /** After every event the maps of owners are inverse. */
  ghost predicate AlwaysInverse(events: seq<Event>, max: int) {
    Inverse(Run(events, max).trace) && (events == [] || AlwaysInverse(events[..|events| - 1], max))
  }

  /** No event of the run is a check that overflows. */
  predicate NeverOverflows(events: seq<Event>, max: int) {
    events == [] ||
    var before := events[..|events| - 1];
    NeverOverflows(before, max) && !OverflowsAt(Run(before, max), events[|events| - 1], max)
  }

  predicate OverflowsAt(sys: System, e: Event, max: int) {
    e.Check? && Overflows(sys.trace, e.m, max)
  }

  /** Nothing is recorded but what is held, by its holder; and of the plain mutexes, all that is
      held. */
  ghost predicate Tracks(sys: System, recursives: set<Mutex>) {
    && (forall m :: m in sys.trace.locks ==> m in sys.held && sys.held[m].thread == sys.trace.locks[m].threadId)
    && (forall m :: m in sys.held && m !in recursives ==> m in sys.trace.locks && sys.held[m].depth == 1)
  }

  lemma HappenKeeps(sys: System, e: Event, recursives: set<Mutex>, max: int)
    requires Inverse(sys.trace) && Tracks(sys, recursives) && CanHappen(sys, e, recursives)
    ensures Inverse(Happen(sys, e, max).trace) <==> !OverflowsAt(sys, e, max)
    ensures !OverflowsAt(sys, e, max) ==> Tracks(Happen(sys, e, max), recursives)
  {
    match e {
      case Check(t, m) => CheckKeepsInverse(sys.trace, t, m, max);
      case Lock(t, m, file, line) => InsertKeepsInverse(sys.trace, t, m, file, line);
      case Unlock(t, m) => UnlockKeepsInverse(sys.trace, t, m);
    }
  }

  /** Over a run the maps of owners stay inverse exactly as long as no check overflows, and so
      long they record who holds each plain mutex. */
  lemma {:induction false} RunKeepsInverse(events: seq<Event>, recursives: set<Mutex>, max: int)
    requires IsRun(events, recursives, max)
    ensures AlwaysInverse(events, max) <==> NeverOverflows(events, max)
    ensures NeverOverflows(events, max) ==> Tracks(Run(events, max), recursives)
  {
    if events != [] {
      var before := events[..|events| - 1];
      RunKeepsInverse(before, recursives, max);
      if NeverOverflows(before, max) {
        HappenKeeps(Run(before, max), events[|events| - 1], recursives, max);
      }
    }
  }

  /** The place on record is that of the last lock that found the mutex without an owner; the mutex
      has not been unlocked since. */
  lemma {:induction false} PlaceIsOfFirstLock(events: seq<Event>, m: Mutex, max: int) returns (k: nat)
    requires NeverOverflows(events, max) && m in Run(events, max).trace.locks
    ensures k < |events| && m !in Run(events[..k], max).trace.locks
    ensures var id := Run(events, max).trace.locks[m]; events[k] == Lock(id.threadId, m, id.file, id.line)
    ensures forall j :: k < j < |events| ==> events[j].m != m || !events[j].Unlock?
  {
    var n := |events| - 1;
    var before, e := events[..n], events[n];
    if m in Run(before, max).trace.locks {
      k := PlaceIsOfFirstLock(before, m, max);
      assert before[..k] == events[..k];
    } else {
      k := n;
    }
  }

  // ---------- the macros, step by step ----------

  /** What the macros do with a plain mutex, the mutex itself and its record apart. A wait on a
      condition records its unlock before it sleeps; woken, it has the mutex again and checks and
      records; timed out, it has the mutex again and records nothing. */
  datatype Part = Checks(t: Thread, m: Mutex)
                | Acquires(t: Thread, m: Mutex)
                | Records(t: Thread, m: Mutex, file: string, line: int)
                | Releases(t: Thread, m: Mutex)
                | Forgets(t: Thread, m: Mutex)
                | StartsWait(t: Thread, m: Mutex)
                | Sleeps(t: Thread, m: Mutex)
                | Wakes(t: Thread, m: Mutex)
                | TimesOut(t: Thread, m: Mutex)

  /** Where a thread is with a mutex. `Leaving`: released, its record of that to come. */
  datatype Stage = Out | Recording | Recorded | Parting | Asleep | TimedOut | Leaving(recorded: bool)

  predicate Holds(st: Stage) {
    st.Recording? || st.Recorded? || st.Parting? || st.TimedOut?
  }

  predicate OnRecord(st: Stage) {
    st.Recorded? || st == Leaving(true)
  }

  datatype Macros = Macros(trace: Trace, held: map<Mutex, Thread>, stages: map<(Thread, Mutex), Stage>)

  function At(ms: Macros, t: Thread, m: Mutex): Stage {
    if (t, m) in ms.stages then ms.stages[(t, m)] else Out
  }

  /** A free mutex is acquired; a thread is through with one macro before it starts the next. */
  predicate CanDo(ms: Macros, e: Part) {
    var st := At(ms, e.t, e.m);
    match e
    case Checks(_, _) => true
    case Acquires(_, m) => m !in ms.held && st.Out?
    case Records(_, _, _, _) => st.Recording?
    case Releases(_, _) => st.Recorded? || st.TimedOut?
    case Forgets(_, _) => st.Leaving?
    case StartsWait(_, _) => st.Recorded? || st.TimedOut?
    case Sleeps(_, _) => st.Parting?
    case Wakes(_, m) => m !in ms.held && st.Asleep?
    case TimesOut(_, m) => m !in ms.held && st.Asleep?
  }

  function TraceAfter(s: Trace, e: Part, max: int): Trace {
    match e
    case Checks(t, m) => CheckStep(s, t, m, max)
    case Records(t, m, file, line) => InsertStep(s, t, m, file, line)
    case Forgets(t, m) => UnlockStep(s, t, m)
    case StartsWait(t, m) => UnlockStep(s, t, m)
    case _ => s
  }

  function StageAfter(st: Stage, e: Part): Stage {
    match e
    case Checks(_, _) => st
    case Acquires(_, _) => Recording
    case Records(_, _, _, _) => Recorded
    case Releases(_, _) => Leaving(st.Recorded?)
    case Forgets(_, _) => Out
    case StartsWait(_, _) => Parting
    case Sleeps(_, _) => Asleep
    case Wakes(_, _) => Recording
    case TimesOut(_, _) => TimedOut
  }

  function Do(ms: Macros, e: Part, max: int): Macros {
    Macros(TraceAfter(ms.trace, e, max),
           if e.Acquires? || e.Wakes? || e.TimesOut? then ms.held[e.m := e.t]
           else if e.Releases? || e.Sleeps? then ms.held - {e.m} else ms.held,
           ms.stages[(e.t, e.m) := StageAfter(At(ms, e.t, e.m), e)])
  }

  function DoAll(parts: seq<Part>, max: int): Macros {
    if parts == [] then Macros(NOTHING, map[], map[])
    else Do(DoAll(parts[..|parts| - 1], max), parts[|parts| - 1], max)
  }

  predicate AllCanBeDone(parts: seq<Part>, max: int) {
    parts == [] ||
    var before := parts[..|parts| - 1];
    AllCanBeDone(before, max) && CanDo(DoAll(before, max), parts[|parts| - 1])
  }

  ghost predicate InverseThroughout(parts: seq<Part>, max: int) {
    Inverse(DoAll(parts, max).trace) && (parts == [] || InverseThroughout(parts[..|parts| - 1], max))
  }

  /** Some other thread has released the mutex it was on record for, and not recorded that. */
  predicate ReleaseUnrecorded(ms: Macros, t: Thread, m: Mutex) {
    exists p :: p in ms.stages && p.1 == m && p.0 != t && ms.stages[p] == Leaving(true)
  }

  predicate OthersOnRecord(ms: Macros, t: Thread, m: Mutex) {
    exists p :: p in ms.stages && p.1 == m && p.0 != t && OnRecord(ms.stages[p])
  }

  /** Neither a check that overflows, nor a lock recorded before the release it followed. */
  predicate LockGoes(ms: Macros, e: Part, max: int) {
    && (e.Checks? ==> !Overflows(ms.trace, e.m, max))
    && (e.Records? ==> !ReleaseUnrecorded(ms, e.t, e.m))
  }

  /** Nor, by a thread whose wait timed out, an unlock of what another is on record for: when it
      waits again, a release not recorded; when it has released, also a holder. */
  predicate Goes(ms: Macros, e: Part, max: int) {
    && LockGoes(ms, e, max)
    && (e.StartsWait? && At(ms, e.t, e.m).TimedOut? ==> !ReleaseUnrecorded(ms, e.t, e.m))
    && (e.Forgets? && At(ms, e.t, e.m) == Leaving(false) ==> !OthersOnRecord(ms, e.t, e.m))
  }

  predicate AllGo(parts: seq<Part>, max: int) {
    parts == [] ||
    var before := parts[..|parts| - 1];
    AllGo(before, max) && Goes(DoAll(before, max), parts[|parts| - 1], max)
  }

  predicate LocksGo(parts: seq<Part>, max: int) {
    parts == [] ||
    var before := parts[..|parts| - 1];
    LocksGo(before, max) && LockGoes(DoAll(before, max), parts[|parts| - 1], max)
  }

  /** The owners on record are those the macros have put there, and the holders those inside. */
  ghost predicate Follows(ms: Macros) {
    && Inverse(ms.trace)
    && (forall t, m :: OnRecord(At(ms, t, m)) <==> m in ms.trace.locks && ms.trace.locks[m].threadId == t)
    && (forall t, m :: Holds(At(ms, t, m)) <==> m in ms.held && ms.held[m] == t)
  }

  /** A record meets another owner exactly when another thread is on record by the macros; if the
      thread that records holds the mutex, exactly while the other's release is not recorded. */
  lemma RecordIsFree(ms: Macros, t: Thread, m: Mutex)
    requires Follows(ms)
    ensures FreeFor(ms.trace, t, m) <==> !OthersOnRecord(ms, t, m)
    ensures Holds(At(ms, t, m)) ==> (OthersOnRecord(ms, t, m) <==> ReleaseUnrecorded(ms, t, m))
  {
    if m in ms.trace.locks && ms.trace.locks[m].threadId != t {
      var u := ms.trace.locks[m].threadId;
      assert OnRecord(At(ms, u, m));
      assert (u, m) in ms.stages && (u, m).1 == m && (u, m).0 != t;
    }
    if OthersOnRecord(ms, t, m) {
      var p :| p in ms.stages && p.1 == m && p.0 != t && OnRecord(ms.stages[p]);
      assert p == (p.0, m) && OnRecord(At(ms, p.0, m));
      assert Holds(At(ms, t, m)) ==> !Holds(At(ms, p.0, m));
    }
    if ReleaseUnrecorded(ms, t, m) {
      var p :| p in ms.stages && p.1 == m && p.0 != t && ms.stages[p] == Leaving(true);
      assert OnRecord(ms.stages[p]);
    }
  }

  lemma DoInverse(ms: Macros, e: Part, max: int)
    requires Follows(ms) && CanDo(ms, e)
    ensures Inverse(Do(ms, e, max).trace) <==> Goes(ms, e, max)
    ensures Goes(ms, e, max) && (e.Records? || e.Forgets? || e.StartsWait?) ==> FreeFor(ms.trace, e.t, e.m)
  {
    RecordIsFree(ms, e.t, e.m);
    match e {
      case Checks(t, m) => CheckKeepsInverse(ms.trace, t, m, max);
      case Records(t, m, file, line) => InsertKeepsInverse(ms.trace, t, m, file, line);
      case Forgets(t, m) => UnlockKeepsInverse(ms.trace, t, m);
      case StartsWait(t, m) => UnlockKeepsInverse(ms.trace, t, m);
      case _ =>
    }
  }

  lemma DoFollows(ms: Macros, e: Part, max: int)
    requires Follows(ms) && CanDo(ms, e) && Goes(ms, e, max)
    ensures Follows(Do(ms, e, max))
  {
    DoInverse(ms, e, max);
    var after := Do(ms, e, max);
    forall t, m ensures OnRecord(At(after, t, m)) <==> m in after.trace.locks && after.trace.locks[m].threadId == t {
      assert OnRecord(At(ms, t, m)) <==> m in ms.trace.locks && ms.trace.locks[m].threadId == t;
      assert OnRecord(At(ms, e.t, e.m)) <==> e.m in ms.trace.locks && ms.trace.locks[e.m].threadId == e.t;
    }
    forall t, m ensures Holds(At(after, t, m)) <==> m in after.held && after.held[m] == t {
      assert Holds(At(ms, t, m)) <==> m in ms.held && ms.held[m] == t;
      assert Holds(At(ms, e.t, e.m)) <==> e.m in ms.held && ms.held[e.m] == e.t;
    }
  }

  /** Over every run of the macros' steps, waits on conditions among them, the maps of owners stay
      inverse exactly as long as every step goes: no check overflows, no lock is recorded between a
      release by another thread and its record, and no thread whose wait timed out records an unlock
      of what another is on record for. */
  lemma {:induction false} MacrosKeepInverse(parts: seq<Part>, max: int)
    requires AllCanBeDone(parts, max)
    ensures InverseThroughout(parts, max) <==> AllGo(parts, max)
    ensures AllGo(parts, max) ==> Follows(DoAll(parts, max))
  {
    if parts != [] {
      var before := parts[..|parts| - 1];
      MacrosKeepInverse(before, max);
      if AllGo(before, max) {
        var e := parts[|parts| - 1];
        DoInverse(DoAll(before, max), e, max);
        if Goes(DoAll(before, max), e, max) {
          DoFollows(DoAll(before, max), e, max);
        }
      }
    }
  }

  predicate NoneTimesOut(parts: seq<Part>) {
    parts == [] || (NoneTimesOut(parts[..|parts| - 1]) && !parts[|parts| - 1].TimesOut?)
  }

  lemma {:induction false} NoneIsTimedOut(parts: seq<Part>, max: int)
    requires AllCanBeDone(parts, max) && NoneTimesOut(parts)
    ensures forall t, m :: !At(DoAll(parts, max), t, m).TimedOut? && At(DoAll(parts, max), t, m) != Leaving(false)
  {
    if parts != [] {
      var before, e := parts[..|parts| - 1], parts[|parts| - 1];
      NoneIsTimedOut(before, max);
      var ms := DoAll(before, max);
      forall t, m ensures !At(Do(ms, e, max), t, m).TimedOut? && At(Do(ms, e, max), t, m) != Leaving(false) {
        assert !At(ms, t, m).TimedOut? && At(ms, t, m) != Leaving(false);
        assert !At(ms, e.t, e.m).TimedOut?;
      }
    }
  }

  /** As long as no wait times out, locks, unlocks and waits break the maps in the first two ways
      only. */
  lemma {:induction false} UntimedKeepInverse(parts: seq<Part>, max: int)
    requires AllCanBeDone(parts, max) && NoneTimesOut(parts)
    ensures InverseThroughout(parts, max) <==> LocksGo(parts, max)
  {
    if parts != [] {
      var before := parts[..|parts| - 1];
      UntimedKeepInverse(before, max);
      MacrosKeepInverse(before, max);
      MacrosKeepInverse(parts, max);
      NoneIsTimedOut(before, max);
    }
  }

  // ---------- who waits ----------

  /** The threads the trace has waiting for `m`. */
  ghost function Waiters(s: Trace, m: Mutex): set<Thread> {
    set t | t in s.waitLocks && s.waitLocks[t] == m
  }

  /** What `MUTEX_LOCK` does: a thread checks, then locks what it checked, then may check again. */
  predicate InTurn(s: Trace, e: Event) {
    match e
    case Check(t, _) => t !in s.waitLocks
    case Lock(t, m, _, _) => t in s.waitLocks && s.waitLocks[t] == m
    case Unlock(_, _) => true
  }

  predicate AllInTurn(events: seq<Event>, max: int) {
    events == [] ||
    var before := events[..|events| - 1];
    AllInTurn(before, max) && InTurn(Run(before, max).trace, events[|events| - 1])
  }

  /** The mutex `t` has checked and not locked since. */
  function Wanted(events: seq<Event>, t: Thread): Option<Mutex> {
    if events == [] then None
    else
      var e := events[|events| - 1];
      if e.t != t || e.Unlock? then Wanted(events[..|events| - 1], t)
      else if e.Check? then Some(e.m) else None
  }

  /** In every run the trace has each thread waiting for what it checked last and has not locked;
      when all threads take their turns, the count of a mutex is the number of its waiters. */
  lemma {:induction false} RunCountsWaiters(events: seq<Event>, max: int)
    ensures forall t :: Wanted(events, t) == if t in Run(events, max).trace.waitLocks
                                             then Some(Run(events, max).trace.waitLocks[t]) else None
    ensures AllInTurn(events, max) ==> CountsWaiters(Run(events, max).trace)
  {
    if events != [] {
      var before, e := events[..|events| - 1], events[|events| - 1];
      RunCountsWaiters(before, max);
      if AllInTurn(events, max) {
        EventCountsWaiters(Run(before, max), e, max);
      }
    }
  }

  ghost predicate CountsWaiters(s: Trace) {
    forall m :: |Waiters(s, m)| == if m in s.waitTimes then s.waitTimes[m] else 0
  }

  lemma EventCountsWaiters(sys: System, e: Event, max: int)
    requires CountsWaiters(sys.trace) && InTurn(sys.trace, e)
    ensures CountsWaiters(Happen(sys, e, max).trace)
  {
    var s, s' := sys.trace, Happen(sys, e, max).trace;
    forall m ensures |Waiters(s', m)| == if m in s'.waitTimes then s'.waitTimes[m] else 0 {
      WaitersAfter(sys, e, max, m);
    }
  }

  lemma WaitersAfter(sys: System, e: Event, max: int, m: Mutex)
    requires InTurn(sys.trace, e)
    ensures var s, s' := sys.trace, Happen(sys, e, max).trace;
            |Waiters(s', m)| == |Waiters(s, m)| + (if m == e.m && e.Check? then 1 else if m == e.m && e.Lock? then -1 else 0)
  {
    var s, s' := sys.trace, Happen(sys, e, max).trace;
    if e.Unlock? || m != e.m {
      assert Waiters(s', m) == Waiters(s, m);
    } else if e.Check? {
      assert Waiters(s', m) == Waiters(s, m) + {e.t};
    } else {
      assert e.t in Waiters(s, m);
      assert Waiters(s', m) == Waiters(s, m) - {e.t};
    }
  }

  // ---------- where it breaks ----------

  /** As many threads checking one mutex before any lock of it is recorded. */
  function Crowd(n: nat, m: Mutex): seq<Event> {
    if n == 0 then [] else Crowd(n - 1, m) + [Check(n, m)]
  }

  lemma {:induction false} CrowdCounts(n: nat, m: Mutex, recursives: set<Mutex>, max: nat)
    requires 0 < max && n <= max
    ensures IsRun(Crowd(n, m), recursives, max) && NeverOverflows(Crowd(n, m), max)
    ensures var s := Run(Crowd(n, m), max).trace;
            m !in s.locks && (if m in s.waitTimes then s.waitTimes[m] else 0) == n
  {
    if n > 0 {
      CrowdCounts(n - 1, m, recursives, max);
      assert Crowd(n, m)[..n - 1] == Crowd(n - 1, m) by { CrowdSize(n - 1, m); }
      CrowdSize(n, m);
    }
  }

  lemma {:induction false} CrowdSize(n: nat, m: Mutex)
    ensures |Crowd(n, m)| == n
  {
    if n > 0 { CrowdSize(n - 1, m); }
  }

  /** Overflow is within reach: with one more thread than the limit checking a free mutex, a
      thread that never touched it is recorded as its owner. */
  lemma OverflowIsReached(m: Mutex, recursives: set<Mutex>, max: nat)
    requires 0 < max
    ensures IsRun(Crowd(max + 1, m), recursives, max)
    ensures var sys := Run(Crowd(max + 1, m), max);
            sys.held == map[] && m in sys.trace.locks && !Inverse(sys.trace)
  {
    CrowdCounts(max, m, recursives, max);
    CrowdSize(max, m);
    assert Crowd(max + 1, m)[..max] == Crowd(max, m);
    RunKeepsInverse(Crowd(max, m), recursives, max);
    CheckKeepsInverse(Run(Crowd(max, m), max).trace, max + 1, m, max);
    NothingHeld(max + 1, m, max);
  }

  lemma {:induction false} NothingHeld(n: nat, m: Mutex, max: nat)
    ensures Run(Crowd(n, m), max).held == map[]
  {
    if n > 0 {
      NothingHeld(n - 1, m, max);
      CrowdSize(n - 1, m);
      assert Crowd(n, m)[..n - 1] == Crowd(n - 1, m);
    }
  }

  lemma OneMore(parts: seq<Part>, e: Part, max: int)
    ensures DoAll(parts + [e], max) == Do(DoAll(parts, max), e, max)
    ensures AllCanBeDone(parts + [e], max) <==> AllCanBeDone(parts, max) && CanDo(DoAll(parts, max), e)
    ensures AllGo(parts + [e], max) <==> AllGo(parts, max) && Goes(DoAll(parts, max), e, max)
    ensures LocksGo(parts + [e], max) <==> LocksGo(parts, max) && LockGoes(DoAll(parts, max), e, max)
  {
    assert (parts + [e])[..|parts|] == parts;
  }

  /** What `MUTEX_LOCK` does. */
  function Locking(t: Thread, m: Mutex, file: string, line: int): seq<Part> {
    [Checks(t, m), Acquires(t, m), Records(t, m, file, line)]
  }

  function WaitTimes(s: Trace, m: Mutex): int {
    if m in s.waitTimes then s.waitTimes[m] else 0
  }

  predicate NobodyInside(ms: Macros, m: Mutex) {
    m !in ms.held && WaitTimes(ms.trace, m) == 0
  }

  /** What a thread does itself leaves the releases of others as they are. */
  lemma SameReleases(ms: Macros, e: Part, max: int)
    ensures ReleaseUnrecorded(Do(ms, e, max), e.t, e.m) <==> ReleaseUnrecorded(ms, e.t, e.m)
  {
    var ms' := Do(ms, e, max);
    if ReleaseUnrecorded(ms, e.t, e.m) {
      var p :| p in ms.stages && p.1 == e.m && p.0 != e.t && ms.stages[p] == Leaving(true);
      assert p in ms'.stages && ms'.stages[p] == Leaving(true);
    }
    if ReleaseUnrecorded(ms', e.t, e.m) {
      var p :| p in ms'.stages && p.1 == e.m && p.0 != e.t && ms'.stages[p] == Leaving(true);
      assert p in ms.stages && ms.stages[p] == Leaving(true);
    }
  }

  /** Where nobody holds the mutex or waits for it, a thread that is out locks it, and all goes but
      for a release that is not recorded. */
  lemma LockingGoes(ms: Macros, t: Thread, m: Mutex, file: string, line: int, max: int)
    requires 0 < max && NobodyInside(ms, m) && At(ms, t, m).Out?
    ensures CanDo(ms, Checks(t, m)) && Goes(ms, Checks(t, m), max)
    ensures var ms1 := Do(ms, Checks(t, m), max);
            var ms2 := Do(ms1, Acquires(t, m), max);
            var ms3 := Do(ms2, Records(t, m, file, line), max);
            && CanDo(ms1, Acquires(t, m)) && Goes(ms1, Acquires(t, m), max)
            && CanDo(ms2, Records(t, m, file, line))
            && (Goes(ms2, Records(t, m, file, line), max) <==> !ReleaseUnrecorded(ms, t, m))
            && ms3.stages == ms.stages[(t, m) := Recorded] && ms3.held == ms.held[m := t]
            && WaitTimes(ms3.trace, m) == 0 && m in Owned(ms3.trace, t)
  {
    var ms1 := Do(ms, Checks(t, m), max);
    SameReleases(ms, Checks(t, m), max);
    SameReleases(ms1, Acquires(t, m), max);
  }

  lemma RunLocks(parts: seq<Part>, t: Thread, m: Mutex, file: string, line: int, max: int)
      returns (locking: seq<Part>, locked: seq<Part>)
    requires AllCanBeDone(parts, max) && AllGo(parts, max)
    requires 0 < max && NobodyInside(DoAll(parts, max), m) && At(DoAll(parts, max), t, m).Out?
    ensures locking == parts + [Checks(t, m)] + [Acquires(t, m)] && locked == locking + [Records(t, m, file, line)]
    ensures AllCanBeDone(locked, max) && AllGo(locking, max)
    ensures AllGo(locked, max) <==> !ReleaseUnrecorded(DoAll(parts, max), t, m)
    ensures var ms, ms' := DoAll(parts, max), DoAll(locked, max);
            && ms'.stages == ms.stages[(t, m) := Recorded] && ms'.held == ms.held[m := t]
            && WaitTimes(ms'.trace, m) == 0 && m in Owned(ms'.trace, t)
  {
    LockingGoes(DoAll(parts, max), t, m, file, line, max);
    var checked := parts + [Checks(t, m)];
    OneMore(parts, Checks(t, m), max);
    locking := checked + [Acquires(t, m)];
    OneMore(checked, Acquires(t, m), max);
    locked := locking + [Records(t, m, file, line)];
    OneMore(locking, Records(t, m, file, line), max);
  }

  /** The thread holds the mutex and has it on its own record, and nobody is recorded for it. */
  ghost predicate OwnedByOneMap(ms: Macros, t: Thread, m: Mutex) {
    m in ms.held && ms.held[m] == t && m in Owned(ms.trace, t) && m !in ms.trace.locks
  }

  lemma RunReleases(parts: seq<Part>, t: Thread, m: Mutex, max: int) returns (left: seq<Part>)
    requires AllCanBeDone(parts, max) && AllGo(parts, max) && At(DoAll(parts, max), t, m).Recorded?
    ensures left == parts + [Releases(t, m)] && AllCanBeDone(left, max) && AllGo(left, max)
    ensures var ms, ms' := DoAll(parts, max), DoAll(left, max);
            && ms'.stages == ms.stages[(t, m) := Leaving(true)] && ms'.held == ms.held - {m}
            && ms'.trace == ms.trace
  {
    left := parts + [Releases(t, m)];
    OneMore(parts, Releases(t, m), max);
  }

  lemma UpdatedTwice<K, V>(s: map<K, V>, k: K, a: V, b: V)
    ensures s[k := a][k := b] == s[k := b]
  {
  }

  lemma RunLocksAndReleases(parts: seq<Part>, t: Thread, m: Mutex, file: string, line: int, max: int)
      returns (left: seq<Part>)
    requires AllCanBeDone(parts, max) && AllGo(parts, max)
    requires 0 < max && NobodyInside(DoAll(parts, max), m) && At(DoAll(parts, max), t, m).Out?
    requires !ReleaseUnrecorded(DoAll(parts, max), t, m)
    ensures left == parts + [Checks(t, m)] + [Acquires(t, m)] + [Records(t, m, file, line)] + [Releases(t, m)]
    ensures AllCanBeDone(left, max) && AllGo(left, max) && NobodyInside(DoAll(left, max), m)
    ensures DoAll(left, max).stages == DoAll(parts, max).stages[(t, m) := Leaving(true)]
    ensures m in Owned(DoAll(left, max).trace, t)
  {
    var _, locked := RunLocks(parts, t, m, file, line, max);
    left := RunReleases(locked, t, m, max);
    UpdatedTwice(DoAll(parts, max).stages, (t, m), Recorded, Leaving(true));
  }

  lemma RunForgets(parts: seq<Part>, t: Thread, u: Thread, m: Mutex, max: int)
    requires AllCanBeDone(parts, max) && At(DoAll(parts, max), t, m) == Leaving(true) && t != u
    requires m in DoAll(parts, max).held && DoAll(parts, max).held[m] == u && m in Owned(DoAll(parts, max).trace, u)
    ensures AllCanBeDone(parts + [Forgets(t, m)], max)
    ensures OwnedByOneMap(DoAll(parts + [Forgets(t, m)], max), u, m)
  {
    OneMore(parts, Forgets(t, m), max);
  }

  lemma FourParts(a: Part, b: Part, c: Part, d: Part)
    ensures [] + [a] + [b] + [c] + [d] == [a, b, c, d]
  {
  }

  /** A release and its record are two steps in `MUTEX_UNLOCK`. Where `u` locks and records between
      them, the mutex ends owned by `u` in one map and by none in the other. */
  lemma LateUnlockExample(t: Thread, u: Thread, m: Mutex, file: string, line: int, max: int)
      returns (locking: seq<Part>, locked: seq<Part>)
    requires t != u && 0 < max
    ensures locking == [Checks(t, m), Acquires(t, m), Records(t, m, file, line), Releases(t, m)]
                       + [Checks(u, m)] + [Acquires(u, m)]
    ensures locked == locking + [Records(u, m, file, line)]
    ensures var parts := locked + [Forgets(t, m)];
            AllCanBeDone(parts, max) && OwnedByOneMap(DoAll(parts, max), u, m)
    ensures AllGo(locking, max) && !AllGo(locked, max)
  {
    var left := RunLocksAndReleases([], t, m, file, line, max);
    FourParts(Checks(t, m), Acquires(t, m), Records(t, m, file, line), Releases(t, m));
    assert (t, m) in DoAll(left, max).stages && (t, m).1 == m && (t, m).0 != u;
    locking, locked := RunLocks(left, u, m, file, line, max);
    RunForgets(locked, t, u, m, max);
  }

  /** A thread that holds the mutex waits on a condition. */
  lemma RunWaits(parts: seq<Part>, t: Thread, m: Mutex, max: int) returns (asleep: seq<Part>)
    requires AllCanBeDone(parts, max) && AllGo(parts, max) && At(DoAll(parts, max), t, m).Recorded?
    ensures asleep == parts + [StartsWait(t, m)] + [Sleeps(t, m)]
    ensures AllCanBeDone(asleep, max) && AllGo(asleep, max)
    ensures var ms, ms' := DoAll(parts, max), DoAll(asleep, max);
            && ms'.stages == ms.stages[(t, m) := Asleep] && ms'.held == ms.held - {m}
            && WaitTimes(ms'.trace, m) == WaitTimes(ms.trace, m)
  {
    var parting := parts + [StartsWait(t, m)];
    OneMore(parts, StartsWait(t, m), max);
    asleep := parting + [Sleeps(t, m)];
    OneMore(parting, Sleeps(t, m), max);
  }

  lemma RunLocksAndWaits(t: Thread, m: Mutex, file: string, line: int, max: int) returns (asleep: seq<Part>)
    requires 0 < max
    ensures asleep == [Checks(t, m), Acquires(t, m), Records(t, m, file, line), StartsWait(t, m)] + [Sleeps(t, m)]
    ensures AllCanBeDone(asleep, max) && AllGo(asleep, max)
    ensures DoAll(asleep, max).stages == map[(t, m) := Asleep] && NobodyInside(DoAll(asleep, max), m)
  {
    var _, locked := RunLocks([], t, m, file, line, max);
    asleep := RunWaits(locked, t, m, max);
    FourParts(Checks(t, m), Acquires(t, m), Records(t, m, file, line), StartsWait(t, m));
  }

  lemma {:induction false} LocksGoToo(parts: seq<Part>, max: int)
    requires AllGo(parts, max)
    ensures LocksGo(parts, max)
  {
    if parts != [] { LocksGoToo(parts[..|parts| - 1], max); }
  }

  /** The wait of `a` times out after `b` has released and not recorded that, and `a` unlocks. */
  lemma RunTimesOut(left: seq<Part>, a: Thread, b: Thread, m: Mutex, max: int)
      returns (unlocked: seq<Part>)
    requires AllCanBeDone(left, max) && AllGo(left, max) && a != b
    requires At(DoAll(left, max), a, m) == Asleep && At(DoAll(left, max), b, m) == Leaving(true)
    requires m !in DoAll(left, max).held && m in Owned(DoAll(left, max).trace, b)
    ensures unlocked == left + [TimesOut(a, m)] + [Releases(a, m)]
    ensures AllCanBeDone(unlocked, max) && AllGo(unlocked, max)
    ensures At(DoAll(unlocked, max), a, m) == Leaving(false)
    ensures At(DoAll(unlocked, max), b, m) == Leaving(true) && DoAll(unlocked, max).trace == DoAll(left, max).trace
  {
    var held := left + [TimesOut(a, m)];
    OneMore(left, TimesOut(a, m), max);
    unlocked := held + [Releases(a, m)];
    OneMore(held, Releases(a, m), max);
  }

  lemma ForgetsAnother(parts: seq<Part>, a: Thread, b: Thread, m: Mutex, max: int)
    requires AllCanBeDone(parts, max) && AllGo(parts, max) && a != b && m in Owned(DoAll(parts, max).trace, b)
    requires At(DoAll(parts, max), a, m) == Leaving(false) && At(DoAll(parts, max), b, m) == Leaving(true)
    ensures AllCanBeDone(parts + [Forgets(a, m)], max)
    ensures !AllGo(parts + [Forgets(a, m)], max) && LocksGo(parts + [Forgets(a, m)], max)
    ensures var s := DoAll(parts + [Forgets(a, m)], max).trace; m in Owned(s, b) && m !in s.locks
  {
    assert (b, m) in DoAll(parts, max).stages && (b, m).1 == m && (b, m).0 != a;
    OneMore(parts, Forgets(a, m), max);
    LocksGoToo(parts, max);
  }

  /** `COND_WAIT_TIMEOUT` records no lock when it times out. While `b` has released the mutex and not
      recorded that, `a` times out and unlocks: its record takes `b`'s entry from one map only. */
  lemma TimeoutExample(a: Thread, b: Thread, m: Mutex, file: string, line: int, max: int)
      returns (unlocked: seq<Part>)
    requires a != b && 0 < max
    ensures unlocked == [Checks(a, m), Acquires(a, m), Records(a, m, file, line), StartsWait(a, m)] + [Sleeps(a, m)]
                        + [Checks(b, m)] + [Acquires(b, m)] + [Records(b, m, file, line)] + [Releases(b, m)]
                        + [TimesOut(a, m)] + [Releases(a, m)]
    ensures AllCanBeDone(unlocked + [Forgets(a, m)], max)
    ensures var s := DoAll(unlocked + [Forgets(a, m)], max).trace; m in Owned(s, b) && m !in s.locks
    ensures AllGo(unlocked, max) && !AllGo(unlocked + [Forgets(a, m)], max)
    ensures LocksGo(unlocked + [Forgets(a, m)], max)
  {
    var asleep := RunLocksAndWaits(a, m, file, line, max);
    var left := RunLocksAndReleases(asleep, b, m, file, line, max);
    unlocked := RunTimesOut(left, a, b, m, max);
    ForgetsAnother(unlocked, a, b, m, max);
  }

  // ---------- deadlocks ----------

  /** `deadlockCheck` from the thread `t`, the `num`th other: true if it waits for one of `own`,
      and else goes on to the owner of the mutex it waits for. */
  predicate Walk(s: Trace, own: set<Mutex>, t: Thread, num: int, max: int)
    decreases max - num
  {
    && num < max
    && t in s.waitLocks
    && var m := s.waitLocks[t];
       (m in own || (m in s.locks && Walk(s, own, s.locks[m].threadId, num + 1, max)))
  }

  /** `deadlockCheck` once the wait is recorded. */
  predicate DeadlockFound(s: Trace, recursives: set<Mutex>, t: Thread, m: Mutex, max: int) {
    && m in s.locks
    && var other := s.locks[m].threadId;
       if t == other then m !in recursives
       else Owned(s, t) != {} && Walk(s, Owned(s, t), other, 1, max)
  }

  /** `a` waits for a mutex recorded as `b`'s. */
  predicate WaitsFor(s: Trace, a: Thread, b: Thread) {
    a in s.waitLocks && s.waitLocks[a] in s.locks && s.locks[s.waitLocks[a]].threadId == b
  }

  predicate WaitsForNext(s: Trace, p: seq<Thread>, t: Thread, i: nat)
    requires i < |p|
  {
    WaitsFor(s, p[i], if i + 1 < |p| then p[i + 1] else t)
  }

  /** Each thread of `p` waits for the next, and the last for `t`. */
  ghost predicate LeadsTo(s: Trace, p: seq<Thread>, t: Thread) {
    p != [] && forall i :: 0 <= i < |p| ==> WaitsForNext(s, p, t, i)
  }

  lemma TailLeads(s: Trace, p: seq<Thread>, t: Thread)
    requires |p| > 1
    ensures LeadsTo(s, p, t) <==> WaitsFor(s, p[0], p[1]) && LeadsTo(s, p[1..], t)
  {
    forall i | 0 <= i < |p[1..]| ensures WaitsForNext(s, p[1..], t, i) <==> WaitsForNext(s, p, t, i + 1) {}
    if WaitsFor(s, p[0], p[1]) && LeadsTo(s, p[1..], t) {
      forall i | 0 <= i < |p| ensures WaitsForNext(s, p, t, i) {
        if i > 0 { assert WaitsForNext(s, p[1..], t, i - 1); }
      }
    }
    if LeadsTo(s, p, t) {
      assert WaitsForNext(s, p, t, 0);
    }
  }

  /** `t` and the threads of `p`, no two the same, wait for each other in a ring. */
  ghost predicate Ring(s: Trace, t: Thread, p: seq<Thread>) {
    && LeadsTo(s, p, t) && WaitsFor(s, t, p[0])
    && (forall i :: 0 <= i < |p| ==> p[i] != t)
    && (forall i, j :: 0 <= i < j < |p| ==> p[i] != p[j])
  }

  lemma {:induction false} WalkFollows(s: Trace, t: Thread, p: seq<Thread>, num: int, max: int)
    requires Inverse(s) && LeadsTo(s, p, t) && num + |p| <= max
    ensures Walk(s, Owned(s, t), p[0], num, max)
    decreases |p|
  {
    assert WaitsForNext(s, p, t, 0);
    if |p| > 1 {
      TailLeads(s, p, t);
      WalkFollows(s, t, p[1..], num + 1, max);
    }
  }

  /** The walk's own path: it never meets a thread twice, nor the one it set out for. */
  lemma {:induction false} WalkLeads(s: Trace, t: Thread, a: Thread, num: int, max: int) returns (p: seq<Thread>)
    requires Inverse(s) && Walk(s, Owned(s, t), a, num, max)
    ensures LeadsTo(s, p, t) && p[0] == a && num + |p| <= max
    ensures forall i :: 0 < i < |p| ==> p[i] != t
    ensures forall i, j :: 0 <= i < j < |p| ==> p[i] != p[j]
    decreases max - num
  {
    var m := s.waitLocks[a];
    if m in Owned(s, t) {
      p := [a];
    } else {
      var b := s.locks[m].threadId;
      var rest := WalkLeads(s, t, b, num + 1, max);
      p := [a] + rest;
      assert p[1..] == rest;
      TailLeads(s, p, t);
      NoReturn(s, t, a, rest);
    }
  }

  /** A thread that waits for the start of a path to `t`, but not for `t`, is not on that path. */
  lemma {:induction false} NoReturn(s: Trace, t: Thread, a: Thread, rest: seq<Thread>)
    requires LeadsTo(s, rest, t) && WaitsFor(s, a, rest[0]) && rest[0] != t
    requires forall i, j :: 0 <= i < j < |rest| ==> rest[i] != rest[j]
    requires forall i :: 0 < i < |rest| ==> rest[i] != t
    ensures a !in rest
  {
    forall i | 0 <= i < |rest| ensures rest[i] != a {
      assert WaitsForNext(s, rest, t, i);
    }
  }

  /** While the maps are inverse, and the caller's wait is recorded: on a mutex of its own a
      deadlock is reported exactly when the mutex is not recursive; on any other, exactly when the
      wait closes a ring with fewer than `max` others. */
  lemma DeadlockIsRing(s: Trace, recursives: set<Mutex>, t: Thread, m: Mutex, max: int)
    requires Inverse(s) && t in s.waitLocks && s.waitLocks[t] == m
    ensures m in Owned(s, t) ==> (DeadlockFound(s, recursives, t, m, max) <==> m !in recursives)
    ensures m !in Owned(s, t) ==>
              (DeadlockFound(s, recursives, t, m, max) <==> exists p :: |p| < max && Ring(s, t, p))
  {
    if m !in Owned(s, t) {
      if DeadlockFound(s, recursives, t, m, max) {
        var p := WalkLeads(s, t, s.locks[m].threadId, 1, max);
        assert |p| < max && Ring(s, t, p);
      }
      if p :| |p| < max && Ring(s, t, p) {
        WalkFollows(s, t, p, 1, max);
        assert WaitsForNext(s, p, t, |p| - 1);
        assert s.waitLocks[p[|p| - 1]] in Owned(s, t);
      }
    }
  }

  /** The trace with the mutexes' holders in the place of the recorded owners. */
  function AsHeld(sys: System, s: Trace): Trace {
    s.(locks := map m | m in sys.held :: LockID(sys.held[m].thread, "", 0))
  }

  /** Over every run of plain mutexes in which no check overflows, a thread that checks a mutex it
      does not hold is told of a deadlock exactly when its wait closes a ring, with fewer than `max`
      others, of threads that wait for mutexes really held by the next. */
  lemma ReportedRingIsReal(events: seq<Event>, max: int, t: Thread, m: Mutex)
    requires IsRun(events, {}, max) && NeverOverflows(events, max)
    requires var sys := Run(events, max); m in sys.held ==> sys.held[m].thread != t
    ensures var sys := Run(events, max);
            var s := Waits(sys.trace, t, m);
            DeadlockFound(s, {}, t, m, max) <==> exists p :: |p| < max && Ring(AsHeld(sys, s), t, p)
  {
    var sys := Run(events, max);
    var s := Waits(sys.trace, t, m);
    RunKeepsInverse(events, {}, max);
    assert Inverse(s) by { forall o ensures Owned(s, o) == Owned(sys.trace, o) {} }
    assert m !in Owned(s, t);
    DeadlockIsRing(s, {}, t, m, max);
    forall p ensures Ring(s, t, p) <==> Ring(AsHeld(sys, s), t, p) { SameRing(sys, s, t, p); }
  }

  lemma SameRing(sys: System, s: Trace, t: Thread, p: seq<Thread>)
    requires Tracks(sys, {}) && s.locks == sys.trace.locks
    ensures Ring(s, t, p) <==> Ring(AsHeld(sys, s), t, p)
  {
    var h := AsHeld(sys, s);
    assert forall a, b :: WaitsFor(s, a, b) <==> WaitsFor(h, a, b);
    forall i | 0 <= i < |p| ensures WaitsForNext(s, p, t, i) <==> WaitsForNext(h, p, t, i) {}
  }

  /** The tracer's maps, and its methods under the map lock. */
  class LockTrace {
    var mLocks: map<Mutex, LockID>
    var mWaitTimes: map<Mutex, int>
    var mWaitLocks: map<Thread, Mutex>
    var mOwnLocks: map<Thread, set<Mutex>>
    var mEnableRecursives: set<Mutex>
    var mMaxBlockTids: int

    constructor ()
      ensures State() == NOTHING && mEnableRecursives == {} && mMaxBlockTids == 8
    {
      mLocks, mWaitTimes, mWaitLocks, mOwnLocks := map[], map[], map[], map[];
      mEnableRecursives, mMaxBlockTids := {}, 8;
    }

    function State(): Trace
      reads this
    {
      Trace(mLocks, mWaitTimes, mWaitLocks, mOwnLocks)
    }

    method DeadlockCheck(mutex: Mutex, threadId: Thread) returns (found: bool)
      modifies this`mWaitLocks
      ensures State() == Waits(old(State()), threadId, mutex)
      ensures found <==> DeadlockFound(State(), mEnableRecursives, threadId, mutex, mMaxBlockTids)
    {
      mWaitLocks := mWaitLocks[threadId := mutex];
      if mutex !in mLocks {
        return false;
      }
      var other := mLocks[mutex].threadId;
      if threadId == other {
        return mutex !in mEnableRecursives;
      }
      if threadId !in mOwnLocks {
        return false;
      }
      var ownMutexes := mOwnLocks[threadId];
      if ownMutexes == {} {
        return false;
      }
      found := Walk(State(), ownMutexes, other, 1, mMaxBlockTids);
    }

    method CheckLockTimes(mutex: Mutex) returns (tooMany: bool)
      modifies this`mWaitTimes, this`mLocks
      ensures State() == CountWait(old(State()), mutex, mMaxBlockTids)
      ensures tooMany <==> mutex in old(mWaitTimes) && old(mWaitTimes)[mutex] >= mMaxBlockTids
    {
      if mutex !in mWaitTimes {
        mWaitTimes := mWaitTimes[mutex := 1];
        return false;
      }
      var lockTimes := mWaitTimes[mutex];
      mWaitTimes := mWaitTimes[mutex := lockTimes + 1];
      if lockTimes >= mMaxBlockTids {
        if mutex !in mLocks {
          mLocks := mLocks[mutex := NO_LOCK];
        }
        return true;
      } else {
        return false;
      }
    }

    method Check(mutex: Mutex, threadId: Thread)
      modifies this
      ensures State() == CheckStep(old(State()), threadId, mutex, old(mMaxBlockTids))
      ensures unchanged(`mEnableRecursives) && unchanged(`mMaxBlockTids)
    {
      var found := DeadlockCheck(mutex, threadId);
      var tooMany := CheckLockTimes(mutex);
    }

    method InsertLock(mutex: Mutex, threadId: Thread, file: string, line: int)
      modifies this`mLocks, this`mWaitTimes, this`mWaitLocks, this`mOwnLocks
      ensures State() == InsertStep(old(State()), threadId, mutex, file, line)
    {
      if mutex !in mLocks {
        mLocks := mLocks[mutex := LockID(threadId, file, line)];
      }
      mWaitLocks := mWaitLocks - {threadId};
      var ownLockSet := if threadId in mOwnLocks then mOwnLocks[threadId] else {};
      mOwnLocks := mOwnLocks[threadId := ownLockSet + {mutex}];
      if mutex in mWaitTimes {
        mWaitTimes := mWaitTimes[mutex := mWaitTimes[mutex] - 1];
      }
    }

    method TryLock(mutex: Mutex, threadId: Thread, file: string, line: int)
      modifies this`mLocks, this`mWaitTimes, this`mWaitLocks, this`mOwnLocks
      ensures State() == TryLockStep(old(State()), threadId, mutex, file, line)
    {
      if mutex in mLocks {
        return;
      }
      InsertLock(mutex, threadId, file, line);
    }

    method Unlock(mutex: Mutex, threadId: Thread)
      modifies this`mLocks, this`mOwnLocks
      ensures State() == UnlockStep(old(State()), threadId, mutex)
    {
      mLocks := mLocks - {mutex};
      var ownLockSet := if threadId in mOwnLocks then mOwnLocks[threadId] else {};
      mOwnLocks := mOwnLocks[threadId := ownLockSet - {mutex}];
    }
  }
}
