/** Stages and the thread pool, as atomic steps between locking and unlocking a mutex.

    One pool serves all stages. Its worker threads and the outside producers are the entries of
    `threads`; `connect` and `disconnect` of a stage are called by one controller per stage, one
    after the other. */
module Seda {

  import opened Wrappers

  type StageId = nat
  type Event = nat

  // ---------- stages ----------

  /** Where the controller of a stage is in its program: `set_pool`, then `connect`, again if
      `initialize` fails, then `disconnect`, and so on. It is before `set_pool` or past a
      `disconnect`, ready to connect, still scheduling the backlog in `connect` (`checked`: past the
      assertion of the current `schedule`), past `connect`, blocked in the wait of `disconnect`, or
      woken from it. What the stage's fields are then is not part of the program. */
  datatype Control = Down | Ready | Connecting(backlog: nat, checked: bool) | Up | Blocked | Roused

  /** `added` and `taken` are histories: all events ever queued and all ever removed. */
  datatype StageState = StageState(
    queue: seq<Event>, refs: int, connected: bool, pool: bool, control: Control,
    added: seq<Event>, taken: seq<Event>)

  /** `add_event` under the list mutex. */
  function PushEvent(s: StageState, e: Event): StageState {
    s.(queue := s.queue + [e], refs := if s.connected then s.refs + 1 else s.refs, added := s.added + [e])
  }

  /** `remove_event` under the list mutex. */
  function TakeEvent(s: StageState): StageState
    requires s.queue != []
  {
    s.(queue := s.queue[1..], taken := s.taken + [s.queue[0]])
  }

  /** `release_event` under the list mutex, with its signal to a waiting `disconnect`. */
  function ReleaseRef(s: StageState): StageState {
    var r := s.refs - 1;
    s.(refs := r, control := if !s.connected && r == 0 && s.control.Blocked? then Roused else s.control)
  }

  /** The locked part of `connect`. */
  function BeginConnect(s: StageState): StageState {
    s.(refs := |s.queue|, connected := true,
       control := if s.queue == [] then Up else Connecting(|s.queue|, false))
  }

  /** `disconnect` under the list mutex: wait while there are references, else let go. */
  function TryDisconnect(s: StageState): StageState {
    if s.refs > 0 then s.(connected := false, control := Blocked)
    else s.(connected := false, pool := false, control := Down)
  }

  // ---------- the system ----------

  /** Where a thread is. Producers are outside or between the two locks of `add_event`. A worker
      looks at the run queue, waits on it (`Waiting` until signalled, `Signalled` until it holds
      the mutex again), has popped a stage, handles an event, or is in the `add_event` a handler
      called. */
  datatype Loc =
    | Outside
    | Producing(target: StageId, checked: bool)
    | Looking
    | Waiting
    | Signalled
    | Popped(stage: StageId)
    | Handling(stage: StageId, event: Event)
    | Passing(stage: StageId, event: Event, target: StageId, checked: bool)

  predicate IsWorker(l: Loc) { !l.Outside? && !l.Producing? }

  datatype System = System(stages: map<StageId, StageState>, runQueue: seq<StageId>, idles: int, threads: seq<Loc>)

  datatype Step =
    | AddEvent(i: nat, t: StageId, e: Event)
    | Check(i: nat)
    | Push(i: nat, wake: Option<nat>)
    | Look(i: nat)
    | Spurious(i: nat)
    | Reacquire(i: nat)
    | Remove(i: nat)
    | Release(i: nat)
    | SetPool(s: StageId)
    | Connect(s: StageId)
    | ConnectFails(s: StageId)
    | ConnectCheck(s: StageId)
    | ConnectPush(s: StageId, wake: Option<nat>)
    | Disconnect(s: StageId)
    | Resume(s: StageId)
    | SpuriousResume(s: StageId)

  /** A signal wakes one waiting thread if there is any. */
  predicate ValidWake(threads: seq<Loc>, wake: Option<nat>) {
    match wake
    case Some(w) => w < |threads| && threads[w].Waiting?
    case None => forall k :: 0 <= k < |threads| ==> !threads[k].Waiting?
  }

  function WakeUp(threads: seq<Loc>, wake: Option<nat>): (r: seq<Loc>)
    requires ValidWake(threads, wake)
    ensures |r| == |threads|
  {
    if wake.Some? then threads[wake.value := Signalled] else threads
  }

  /** Whether `schedule` signals: not when a pool thread puts the first entry on the queue. */
  predicate Signals(st: System, fromPool: bool) {
    (st.runQueue != [] || !fromPool) && st.idles > 0
  }

  predicate PushReady(l: Loc) { (l.Producing? || l.Passing?) && l.checked }

  predicate Enabled(st: System, p: Step) {
    match p
    case AddEvent(i, t, _) =>
      i < |st.threads| && t in st.stages && (st.threads[i].Outside? || st.threads[i].Handling?)
    case Check(i) =>
      i < |st.threads| && (st.threads[i].Producing? || st.threads[i].Passing?) && !st.threads[i].checked
    case Push(i, wake) => CanPush(st, i, wake)
    case Look(i) => i < |st.threads| && st.threads[i].Looking?
    case Spurious(i) => i < |st.threads| && st.threads[i].Waiting?
    case Reacquire(i) => i < |st.threads| && st.threads[i].Signalled?
    case Remove(i) => i < |st.threads| && st.threads[i].Popped?
    case Release(i) => i < |st.threads| && st.threads[i].Handling?
    case SetPool(s) => s in st.stages && (st.stages[s].control.Down? || st.stages[s].control.Ready?)
    case Connect(s) => s in st.stages && st.stages[s].control.Ready?
    case ConnectFails(s) => s in st.stages && st.stages[s].control.Ready?
    case ConnectCheck(s) => s in st.stages && st.stages[s].control.Connecting? && !st.stages[s].control.checked
    case ConnectPush(s, wake) =>
      && s in st.stages && st.stages[s].control.Connecting? && st.stages[s].control.checked
      && (if Signals(st, false) then ValidWake(st.threads, wake) else wake.None?)
    case Disconnect(s) => s in st.stages && st.stages[s].control.Up?
    case Resume(s) => s in st.stages && st.stages[s].control.Roused?
    case SpuriousResume(s) => s in st.stages && st.stages[s].control.Blocked?
  }

  /** The assertions the step runs into. */
  predicate AssertsHold(st: System, p: Step)
    requires Enabled(st, p)
  {
    match p
    case AddEvent(_, t, _) => st.stages[t].connected ==> st.stages[t].pool
    case Check(i) => var t := st.threads[i].target; t in st.stages && st.stages[t].queue != [] && st.stages[t].pool
    case Push(i, _) => var t := st.threads[i].target; t in st.stages && st.stages[t].pool
    case Remove(i) => var s := st.threads[i].stage; s in st.stages && st.stages[s].queue != []
    case Release(i) => var s := st.threads[i].stage; s in st.stages && st.stages[s].refs > 0
    case ConnectCheck(s) => st.stages[s].queue != [] && st.stages[s].control.backlog > 0
    case ConnectPush(s, _) => st.stages[s].control.backlog > 0
    case Connect(s) => !st.stages[s].connected && st.stages[s].pool
    case ConnectFails(s) => !st.stages[s].connected && st.stages[s].pool
    case Disconnect(s) => st.stages[s].connected
    case _ => true
  }

  /** A worker holding the run mutex: take the first stage, or wait. */
  function TakeStage(st: System, i: nat): System
    requires i < |st.threads|
  {
    if st.runQueue == [] then st.(idles := st.idles + 1, threads := st.threads[i := Waiting])
    else st.(runQueue := st.runQueue[1..], threads := st.threads[i := Popped(st.runQueue[0])])
  }

  function Schedule(st: System, t: StageId, fromPool: bool, wake: Option<nat>): System
    requires if Signals(st, fromPool) then ValidWake(st.threads, wake) else wake.None?
  {
    st.(runQueue := st.runQueue + [t], threads := if Signals(st, fromPool) then WakeUp(st.threads, wake) else st.threads)
  }

  predicate CanPush(st: System, i: nat, wake: Option<nat>) {
    && i < |st.threads| && PushReady(st.threads[i])
    && (if Signals(st, st.threads[i].Passing?) then ValidWake(st.threads, wake) else wake.None?)
  }

  /** `schedule` by thread `i`, and its return from `add_event`. */
  function PushAndReturn(st: System, i: nat, wake: Option<nat>): System
    requires CanPush(st, i, wake)
  {
    var l := st.threads[i];
    var st' := Schedule(st, l.target, l.Passing?, wake);
    st'.(threads := st'.threads[i := AfterPush(l)])
  }

  function AfterPush(l: Loc): Loc
    requires PushReady(l)
  {
    if l.Producing? then Outside else Handling(l.stage, l.event)
  }

  function Apply(st: System, p: Step): System
    requires Enabled(st, p) && AssertsHold(st, p)
  {
    match p
    case AddEvent(i, t, e) =>
      var st' := st.(stages := st.stages[t := PushEvent(st.stages[t], e)]);
      if !st.stages[t].connected then st'
      else if st.threads[i].Outside? then st'.(threads := st.threads[i := Producing(t, false)])
      else st'.(threads := st.threads[i := Passing(st.threads[i].stage, st.threads[i].event, t, false)])
    case Check(i) => st.(threads := st.threads[i := st.threads[i].(checked := true)])
    case Push(i, wake) => PushAndReturn(st, i, wake)
    case Look(i) => TakeStage(st, i)
    case Spurious(i) => st.(threads := st.threads[i := Signalled])
    case Reacquire(i) => TakeStage(st.(idles := st.idles - 1), i)
    case Remove(i) =>
      var s := st.threads[i].stage;
      st.(stages := st.stages[s := TakeEvent(st.stages[s])],
          threads := st.threads[i := Handling(s, st.stages[s].queue[0])])
    case Release(i) =>
      var s := st.threads[i].stage;
      st.(stages := st.stages[s := ReleaseRef(st.stages[s])], threads := st.threads[i := Looking])
    case SetPool(s) => st.(stages := st.stages[s := st.stages[s].(pool := true, control := Ready)])
    case Connect(s) => st.(stages := st.stages[s := BeginConnect(st.stages[s])])
    case ConnectFails(s) => st
    case ConnectCheck(s) =>
      st.(stages := st.stages[s := st.stages[s].(control := st.stages[s].control.(checked := true))])
    case ConnectPush(s, wake) =>
      var n := st.stages[s].control.backlog - 1;
      var st' := Schedule(st, s, false, wake);
      st'.(stages := st.stages[s := st.stages[s].(control := if n == 0 then Up else Connecting(n, false))])
    case Disconnect(s) => st.(stages := st.stages[s := TryDisconnect(st.stages[s])])
    case Resume(s) => st.(stages := st.stages[s := TryDisconnect(st.stages[s])])
    case SpuriousResume(s) => st.(stages := st.stages[s := st.stages[s].(control := Roused)])
  }

  /** Nothing queued, nothing connected, every worker at the top of its loop. */
  predicate Initial(st: System) {
    && (forall s :: s in st.stages ==> st.stages[s] == StageState([], 0, false, st.stages[s].pool, Down, [], []))
    && st.runQueue == [] && st.idles == 0
    && (forall i :: 0 <= i < |st.threads| ==> st.threads[i].Outside? || st.threads[i].Looking?)
  }

  /** `st'` is reached from `st` by the steps, no assertion failing on the way. */
  predicate Run(st: System, steps: seq<Step>, st': System)
    decreases |steps|
  {
    if steps == [] then st == st'
    else Enabled(st, steps[0]) && AssertsHold(st, steps[0]) && Run(Apply(st, steps[0]), steps[1..], st')
  }

  // ---------- counting over threads ----------

  /** What is counted: references to a stage (a `schedule` not done yet, a popped stage, an event
      in a handler), events of a stage still to be found in its queue, idle workers, workers outside
      the unsignalled wait, an event of a stage in workers' hands, or the work left to do. */
  datatype Count =
    | RefsTo(s: StageId) | Owed(s: StageId) | IdleWorkers | AwakeWorkers | InHand(s: StageId, e: Event) | WorkLeft

  function Weight(c: Count, l: Loc): nat {
    match c
    case RefsTo(s) =>
      (if (l.Producing? || l.Passing?) && l.target == s then 1 else 0) +
      (if (l.Popped? || l.Handling? || l.Passing?) && l.stage == s then 1 else 0)
    case Owed(s) =>
      (if (l.Producing? || l.Passing?) && l.target == s then 1 else 0) +
      (if l.Popped? && l.stage == s then 1 else 0)
    case IdleWorkers => if l.Waiting? || l.Signalled? then 1 else 0
    case InHand(s, e) => if (l.Handling? || l.Passing?) && l.stage == s && l.event == e then 1 else 0
    case AwakeWorkers => if IsWorker(l) && !l.Waiting? then 1 else 0
    case WorkLeft => Load(l)
  }

  /** More than the loads of what the thread's next step leads to; a run-queue entry counts 3. */
  function Load(l: Loc): nat {
    match l
    case Outside => 0
    case Producing(_, checked) => if checked then 5 else 6
    case Looking => 1
    case Waiting => 0
    case Signalled => 1
    case Popped(_) => 3
    case Handling(_, _) => 2
    case Passing(_, _, _, checked) => if checked then 7 else 8
  }

  function Total(c: Count, threads: seq<Loc>): nat {
    if threads == [] then 0 else Weight(c, threads[0]) + Total(c, threads[1..])
  }

  lemma {:induction false} TotalUpdate(c: Count, threads: seq<Loc>, i: nat, l: Loc)
    requires i < |threads|
    ensures Total(c, threads[i := l]) + Weight(c, threads[i]) == Total(c, threads) + Weight(c, l)
  {
    if i == 0 {
      assert threads[i := l][1..] == threads[1..];
    } else {
      assert threads[i := l][1..] == threads[1..][i - 1 := l];
      TotalUpdate(c, threads[1..], i - 1, l);
    }
  }

  lemma {:induction false} TotalAtLeast(c: Count, threads: seq<Loc>, i: nat)
    requires i < |threads|
    ensures Total(c, threads) >= Weight(c, threads[i])
  {
    if i > 0 { TotalAtLeast(c, threads[1..], i - 1); }
  }

  lemma {:induction false} TotalZero(c: Count, threads: seq<Loc>)
    requires forall i :: 0 <= i < |threads| ==> Weight(c, threads[i]) == 0
    ensures Total(c, threads) == 0
  {
    if threads != [] { TotalZero(c, threads[1..]); }
  }

  lemma {:induction false} OwedAreRefs(s: StageId, threads: seq<Loc>)
    ensures Total(Owed(s), threads) <= Total(RefsTo(s), threads)
  {
    if threads != [] { OwedAreRefs(s, threads[1..]); }
  }

  function Backlog(c: Control): nat { if c.Connecting? then c.backlog else 0 }

  // ---------- the invariant ----------

  ghost predicate StageInv(st: System, s: StageId)
    requires s in st.stages
  {
    var g := st.stages[s];
    var n := multiset(st.runQueue)[s] + Backlog(g.control);
    && g.refs == Total(RefsTo(s), st.threads) + n
    && |g.queue| >= Total(Owed(s), st.threads) + n
    && (g.connected ==> |g.queue| == Total(Owed(s), st.threads) + n && g.pool)
    && (g.control.Connecting? ==> g.connected && g.control.backlog > 0)
    && (g.control.Blocked? || g.control.Roused? ==> !g.connected && g.pool)
    && (g.control.Blocked? ==> g.refs > 0)
    && (g.control.Up? ==> g.connected)
    && (g.control.Down? || g.control.Ready? ==> !g.connected && g.refs == 0)
    && (g.control.Ready? ==> g.pool)
    && g.added == g.taken + g.queue
  }

  predicate Known(st: System, l: Loc) {
    && ((l.Producing? || l.Passing?) ==> l.target in st.stages)
    && ((l.Popped? || l.Handling? || l.Passing?) ==> l.stage in st.stages)
  }

  predicate SomeoneAwake(threads: seq<Loc>) {
    exists i :: 0 <= i < |threads| && IsWorker(threads[i]) && !threads[i].Waiting?
  }

  predicate HasWorker(threads: seq<Loc>) {
    exists i :: 0 <= i < |threads| && IsWorker(threads[i])
  }

  ghost predicate Inv(st: System) {
    && (forall s :: s in st.stages ==> StageInv(st, s))
    && (forall i :: 0 <= i < |st.threads| ==> Known(st, st.threads[i]))
    && (forall s :: s in st.runQueue ==> s in st.stages)
    && st.idles == Total(IdleWorkers, st.threads)
    && (st.runQueue != [] && HasWorker(st.threads) ==> SomeoneAwake(st.threads))
  }

  lemma InitialInv(st: System)
    requires Initial(st)
    ensures Inv(st)
  {
    forall s | s in st.stages ensures StageInv(st, s) {
      TotalZero(RefsTo(s), st.threads);
      TotalZero(Owed(s), st.threads);
    }
    TotalZero(IdleWorkers, st.threads);
  }

  /** No assertion of the stage or the pool fails in a state of the invariant. */
  lemma InvAsserts(st: System, p: Step)
    requires Inv(st) && Enabled(st, p)
    ensures AssertsHold(st, p)
  {
    match p
    case AddEvent(_, t, _) => assert StageInv(st, t);
    case Check(i) => Holds(st, i);
    case Push(i, _) => Holds(st, i);
    case Remove(i) => Holds(st, i);
    case Release(i) => Holds(st, i);
    case ConnectCheck(s) => assert StageInv(st, s);
    case ConnectPush(s, _) => assert StageInv(st, s);
    case Connect(s) => assert StageInv(st, s);
    case ConnectFails(s) => assert StageInv(st, s);
    case Disconnect(s) => assert StageInv(st, s);
    case _ =>
  }

  /** What a thread refers to has references, a pool, and the events still owed. */
  lemma Holds(st: System, i: nat)
    requires Inv(st) && i < |st.threads|
    ensures var l := st.threads[i];
            && ((l.Producing? || l.Passing?) ==>
                  l.target in st.stages && st.stages[l.target].queue != [] && st.stages[l.target].pool)
            && (l.Popped? ==> l.stage in st.stages && st.stages[l.stage].queue != [])
            && ((l.Popped? || l.Handling? || l.Passing?) ==> l.stage in st.stages && st.stages[l.stage].refs > 0)
  {
    var l := st.threads[i];
    assert Known(st, l);
    if l.Producing? || l.Passing? {
      assert StageInv(st, l.target);
      TotalAtLeast(RefsTo(l.target), st.threads, i);
      TotalAtLeast(Owed(l.target), st.threads, i);
    }
    if l.Popped? || l.Handling? || l.Passing? {
      assert StageInv(st, l.stage);
      TotalAtLeast(RefsTo(l.stage), st.threads, i);
      TotalAtLeast(Owed(l.stage), st.threads, i);
    }
  }

  // ---------- every step keeps the invariant ----------

  /** A moved thread that is awake, or that was not awake before, keeps someone awake. */
  lemma StillAwake(threads: seq<Loc>, i: nat, l: Loc)
    requires i < |threads|
    requires IsWorker(l) == IsWorker(threads[i])
    requires !l.Waiting? || !IsWorker(threads[i]) || threads[i].Waiting?
    ensures HasWorker(threads[i := l]) <==> HasWorker(threads)
    ensures SomeoneAwake(threads) ==> SomeoneAwake(threads[i := l])
  {
    var threads' := threads[i := l];
    if HasWorker(threads) {
      var k :| 0 <= k < |threads| && IsWorker(threads[k]);
      assert IsWorker(threads'[k]);
    }
    if HasWorker(threads') {
      var k :| 0 <= k < |threads'| && IsWorker(threads'[k]);
      assert IsWorker(threads[k]);
    }
    if SomeoneAwake(threads) {
      var k :| 0 <= k < |threads| && IsWorker(threads[k]) && !threads[k].Waiting?;
      assert IsWorker(threads'[k]) && !threads'[k].Waiting?;
    }
  }

  /** The counts of stage `s` after thread `i` moved. */
  lemma MovedFor(threads: seq<Loc>, i: nat, l: Loc, s: StageId)
    requires i < |threads|
    ensures Total(RefsTo(s), threads[i := l]) ==
            Total(RefsTo(s), threads) - Weight(RefsTo(s), threads[i]) + Weight(RefsTo(s), l)
    ensures Total(Owed(s), threads[i := l]) ==
            Total(Owed(s), threads) - Weight(Owed(s), threads[i]) + Weight(Owed(s), l)
  {
    TotalUpdate(RefsTo(s), threads, i, l);
    TotalUpdate(Owed(s), threads, i, l);
  }

  lemma AddStage(st: System, i: nat, t: StageId, e: Event, s: StageId)
    requires Enabled(st, AddEvent(i, t, e)) && AssertsHold(st, AddEvent(i, t, e))
    requires s in st.stages && StageInv(st, s)
    ensures StageInv(Apply(st, AddEvent(i, t, e)), s)
  {
    var st' := Apply(st, AddEvent(i, t, e));
    if st.stages[t].connected { MovedFor(st.threads, i, st'.threads[i], s); }
    if s == t { assert st.stages[t].taken + (st.stages[t].queue + [e]) == st.stages[t].taken + st.stages[t].queue + [e]; }
  }

  lemma AddKeepsInv(st: System, i: nat, t: StageId, e: Event)
    requires Inv(st) && Enabled(st, AddEvent(i, t, e)) && AssertsHold(st, AddEvent(i, t, e))
    ensures Inv(Apply(st, AddEvent(i, t, e)))
  {
    var st' := Apply(st, AddEvent(i, t, e));
    AddThreads(st, i, t, e);
    forall s | s in st'.stages ensures StageInv(st', s) { AddStage(st, i, t, e, s); }
  }

  lemma AddThreads(st: System, i: nat, t: StageId, e: Event)
    requires Inv(st) && Enabled(st, AddEvent(i, t, e)) && AssertsHold(st, AddEvent(i, t, e))
    ensures var st' := Apply(st, AddEvent(i, t, e));
            && st'.stages.Keys == st.stages.Keys && st'.runQueue == st.runQueue
            && (forall k :: 0 <= k < |st'.threads| ==> Known(st', st'.threads[k]))
            && st'.idles == Total(IdleWorkers, st'.threads)
            && (HasWorker(st'.threads) <==> HasWorker(st.threads))
            && (SomeoneAwake(st.threads) ==> SomeoneAwake(st'.threads))
  {
    var st' := Apply(st, AddEvent(i, t, e));
    if st.stages[t].connected {
      TotalUpdate(IdleWorkers, st.threads, i, st'.threads[i]);
      StillAwake(st.threads, i, st'.threads[i]);
      AddKnown(st, i, t, e);
    } else {
      forall k | 0 <= k < |st.threads| ensures Known(st', st.threads[k]) { assert Known(st, st.threads[k]); }
    }
  }

  lemma AddKnown(st: System, i: nat, t: StageId, e: Event)
    requires Inv(st) && Enabled(st, AddEvent(i, t, e)) && AssertsHold(st, AddEvent(i, t, e))
    ensures var st' := Apply(st, AddEvent(i, t, e));
            forall k :: 0 <= k < |st'.threads| ==> Known(st', st'.threads[k])
  {
    var st' := Apply(st, AddEvent(i, t, e));
    forall k | 0 <= k < |st'.threads| ensures Known(st', st'.threads[k]) { assert Known(st, st.threads[k]); }
  }

  /** A thread that moves without changing what it stands for. */
  lemma SameWeights(st: System, i: nat, l: Loc, s: StageId)
    requires i < |st.threads| && s in st.stages && StageInv(st, s)
    requires Weight(RefsTo(s), l) == Weight(RefsTo(s), st.threads[i]) && Weight(Owed(s), l) == Weight(Owed(s), st.threads[i])
    ensures StageInv(st.(threads := st.threads[i := l]), s)
  {
    MovedFor(st.threads, i, l, s);
  }

  lemma CheckStage(st: System, i: nat, s: StageId)
    requires Enabled(st, Check(i)) && AssertsHold(st, Check(i)) && s in st.stages && StageInv(st, s)
    ensures StageInv(Apply(st, Check(i)), s)
  {
    SameWeights(st, i, Apply(st, Check(i)).threads[i], s);
  }

  lemma CheckKeepsInv(st: System, i: nat)
    requires Inv(st) && Enabled(st, Check(i)) && AssertsHold(st, Check(i))
    ensures Inv(Apply(st, Check(i)))
  {
    var st' := Apply(st, Check(i));
    TotalUpdate(IdleWorkers, st.threads, i, st'.threads[i]);
    StillAwake(st.threads, i, st'.threads[i]);
    forall s | s in st'.stages ensures StageInv(st', s) { CheckStage(st, i, s); }
    forall k | 0 <= k < |st'.threads| ensures Known(st', st'.threads[k]) { assert Known(st, st.threads[k]); }
  }

  /** `schedule` alone: one entry more, and at most one waiting worker signalled, which changes
      no count. */
  lemma ScheduleCounts(st: System, t: StageId, fromPool: bool, wake: Option<nat>, s: StageId)
    requires if Signals(st, fromPool) then ValidWake(st.threads, wake) else wake.None?
    ensures var st' := Schedule(st, t, fromPool, wake);
            && Total(RefsTo(s), st'.threads) == Total(RefsTo(s), st.threads)
            && Total(Owed(s), st'.threads) == Total(Owed(s), st.threads)
            && Total(IdleWorkers, st'.threads) == Total(IdleWorkers, st.threads)
            && multiset(st'.runQueue)[s] == multiset(st.runQueue)[s] + if s == t then 1 else 0
  {
    if wake.Some? {
      MovedFor(st.threads, wake.value, Signalled, s);
      TotalUpdate(IdleWorkers, st.threads, wake.value, Signalled);
    }
  }

  /** After `schedule` some worker is awake: the caller itself, a signalled one, or one that was
      awake before. */
  lemma ScheduleAwake(st: System, t: StageId, fromPool: bool, wake: Option<nat>)
    requires st.idles == Total(IdleWorkers, st.threads)
    requires if Signals(st, fromPool) then ValidWake(st.threads, wake) else wake.None?
    requires st.runQueue != [] && HasWorker(st.threads) ==> SomeoneAwake(st.threads)
    requires fromPool ==> SomeoneAwake(st.threads)
    ensures var st' := Schedule(st, t, fromPool, wake);
            && |st'.threads| == |st.threads|
            && (forall k :: 0 <= k < |st.threads| ==>
                  st'.threads[k] == st.threads[k] || (st.threads[k].Waiting? && st'.threads[k].Signalled?))
            && (HasWorker(st.threads) ==> SomeoneAwake(st'.threads))
            && (HasWorker(st.threads) <==> HasWorker(st'.threads))
  {
    var st' := Schedule(st, t, fromPool, wake);
    if wake.Some? {
      assert IsWorker(st'.threads[wake.value]) && !st'.threads[wake.value].Waiting?;
    } else if HasWorker(st.threads) && !SomeoneAwake(st.threads) {
      var k :| 0 <= k < |st.threads| && IsWorker(st.threads[k]);
      assert st.threads[k].Waiting?;
      TotalAtLeast(IdleWorkers, st.threads, k);
    }
    SameWorkers(st.threads, st'.threads);
  }

  /** The count of one reference moves from the thread to the run queue. */
  lemma PushCounts(st: System, i: nat, wake: Option<nat>, s: StageId)
    requires CanPush(st, i, wake)
    ensures var st' := PushAndReturn(st, i, wake);
            var moved := if s == st.threads[i].target then 1 else 0;
            && Total(RefsTo(s), st'.threads) + moved == Total(RefsTo(s), st.threads)
            && Total(Owed(s), st'.threads) + moved == Total(Owed(s), st.threads)
            && multiset(st'.runQueue)[s] == multiset(st.runQueue)[s] + moved
  {
    var l := st.threads[i];
    ScheduleCounts(st, l.target, l.Passing?, wake, s);
    var mid := Schedule(st, l.target, l.Passing?, wake);
    assert mid.threads[i] == l;
    MovedFor(mid.threads, i, AfterPush(l), s);
  }

  lemma PushStage(st: System, i: nat, wake: Option<nat>, s: StageId)
    requires CanPush(st, i, wake) && s in st.stages && StageInv(st, s)
    ensures StageInv(PushAndReturn(st, i, wake), s)
  {
    PushCounts(st, i, wake, s);
  }

  lemma PushKeepsInv(st: System, i: nat, wake: Option<nat>)
    requires Inv(st) && Enabled(st, Push(i, wake)) && AssertsHold(st, Push(i, wake))
    ensures Inv(Apply(st, Push(i, wake)))
  {
    var st' := Apply(st, Push(i, wake));
    forall s | s in st'.stages ensures StageInv(st', s) { PushStage(st, i, wake, s); }
    PushThreads(st, i, wake);
    PushKnown(st, i, wake);
  }

  lemma PushThreads(st: System, i: nat, wake: Option<nat>)
    requires Inv(st) && CanPush(st, i, wake)
    ensures var st' := PushAndReturn(st, i, wake);
            && st'.idles == Total(IdleWorkers, st'.threads)
            && (HasWorker(st'.threads) ==> SomeoneAwake(st'.threads))
  {
    var l := st.threads[i];
    if l.Passing? { assert IsWorker(st.threads[i]) && !st.threads[i].Waiting?; }
    ScheduleAwake(st, l.target, l.Passing?, wake);
    ScheduleCounts(st, l.target, l.Passing?, wake, l.target);
    var mid := Schedule(st, l.target, l.Passing?, wake);
    assert mid.threads[i] == l;
    TotalUpdate(IdleWorkers, mid.threads, i, AfterPush(l));
    StillAwake(mid.threads, i, AfterPush(l));
  }

  lemma PushKnown(st: System, i: nat, wake: Option<nat>)
    requires CanPush(st, i, wake)
    requires forall k :: 0 <= k < |st.threads| ==> Known(st, st.threads[k])
    requires forall s :: s in st.runQueue ==> s in st.stages
    ensures var st' := PushAndReturn(st, i, wake);
            && (forall k :: 0 <= k < |st'.threads| ==> Known(st', st'.threads[k]))
            && (forall s :: s in st'.runQueue ==> s in st'.stages)
  {
    assert Known(st, st.threads[i]);
  }

  lemma SameWorkers(a: seq<Loc>, b: seq<Loc>)
    requires |a| == |b| && forall k :: 0 <= k < |a| ==> IsWorker(a[k]) == IsWorker(b[k])
    ensures HasWorker(a) <==> HasWorker(b)
  {
    if HasWorker(a) { var k :| 0 <= k < |a| && IsWorker(a[k]); assert IsWorker(b[k]); }
    if HasWorker(b) { var k :| 0 <= k < |b| && IsWorker(b[k]); assert IsWorker(a[k]); }
  }

  lemma TakeStageFor(st: System, i: nat, s: StageId)
    requires i < |st.threads| && (st.threads[i].Looking? || st.threads[i].Signalled?)
    requires s in st.stages && StageInv(st, s)
    ensures StageInv(TakeStage(st, i), s)
  {
    MovedFor(st.threads, i, TakeStage(st, i).threads[i], s);
    if st.runQueue != [] {
      FirstOut(st.runQueue, s);
    }
  }

  lemma FirstOut(queue: seq<StageId>, s: StageId)
    requires queue != []
    ensures multiset(queue)[s] == multiset(queue[1..])[s] + if s == queue[0] then 1 else 0
  {
    assert queue == [queue[0]] + queue[1..];
  }

  /** Looking at the run queue, at first or, with the idle count already lowered, after a
      wake-up. */
  lemma TakeStageInv(st: System, i: nat)
    requires i < |st.threads| && (st.threads[i].Looking? || st.threads[i].Signalled?)
    requires Inv(if st.threads[i].Signalled? then st.(idles := st.idles + 1) else st)
    ensures Inv(TakeStage(st, i))
  {
    var was := if st.threads[i].Signalled? then st.(idles := st.idles + 1) else st;
    var st' := TakeStage(st, i);
    TotalUpdate(IdleWorkers, st.threads, i, st'.threads[i]);
    forall s | s in st'.stages ensures StageInv(st', s) {
      assert StageInv(was, s);
      assert StageInv(st, s);
      TakeStageFor(st, i, s);
    }
    forall k | 0 <= k < |st'.threads| ensures Known(st', st'.threads[k]) {
      assert Known(was, st.threads[k]);
      if st.runQueue != [] { assert st.runQueue[0] in st.runQueue; }
    }
    if st.runQueue != [] {
      assert IsWorker(st'.threads[i]) && !st'.threads[i].Waiting?;
    }
  }

  lemma ReacquireKeepsInv(st: System, i: nat)
    requires Inv(st) && Enabled(st, Reacquire(i))
    ensures Inv(Apply(st, Reacquire(i)))
  {
    assert st.(idles := st.idles - 1).(idles := st.idles) == st;
    TakeStageInv(st.(idles := st.idles - 1), i);
  }

  lemma SpuriousKeepsInv(st: System, i: nat)
    requires Inv(st) && Enabled(st, Spurious(i))
    ensures Inv(Apply(st, Spurious(i)))
  {
    var st' := Apply(st, Spurious(i));
    TotalUpdate(IdleWorkers, st.threads, i, Signalled);
    StillAwake(st.threads, i, Signalled);
    forall s | s in st'.stages ensures StageInv(st', s) { SameWeights(st, i, Signalled, s); }
    forall k | 0 <= k < |st'.threads| ensures Known(st', st'.threads[k]) { assert Known(st, st.threads[k]); }
  }

  lemma EventStage(st: System, p: Step, s: StageId)
    requires p.Remove? || p.Release?
    requires Enabled(st, p) && AssertsHold(st, p) && s in st.stages && StageInv(st, s)
    ensures StageInv(Apply(st, p), s)
  {
    MovedFor(st.threads, p.i, Apply(st, p).threads[p.i], s);
    if p.Remove? && s == st.threads[p.i].stage {
      var g := st.stages[s];
      assert g.taken + g.queue == (g.taken + [g.queue[0]]) + g.queue[1..];
    }
  }

  lemma EventKeepsInv(st: System, p: Step)
    requires p.Remove? || p.Release?
    requires Inv(st) && Enabled(st, p) && AssertsHold(st, p)
    ensures Inv(Apply(st, p))
  {
    var st' := Apply(st, p);
    TotalUpdate(IdleWorkers, st.threads, p.i, st'.threads[p.i]);
    StillAwake(st.threads, p.i, st'.threads[p.i]);
    forall s | s in st'.stages ensures StageInv(st', s) { EventStage(st, p, s); }
    forall k | 0 <= k < |st'.threads| ensures Known(st', st'.threads[k]) { assert Known(st, st.threads[k]); }
  }

  lemma ControlKeepsInv(st: System, p: Step)
    requires p.SetPool? || p.Connect? || p.ConnectFails? || p.ConnectCheck?
          || p.Disconnect? || p.Resume? || p.SpuriousResume?
    requires Inv(st) && Enabled(st, p) && AssertsHold(st, p)
    ensures Inv(Apply(st, p))
  {
    var st' := Apply(st, p);
    forall s | s in st'.stages ensures StageInv(st', s) { ControlStage(st, p, s); }
    forall k | 0 <= k < |st'.threads| ensures Known(st', st'.threads[k]) { assert Known(st, st.threads[k]); }
  }

  lemma ControlStage(st: System, p: Step, s: StageId)
    requires p.SetPool? || p.Connect? || p.ConnectFails? || p.ConnectCheck?
          || p.Disconnect? || p.Resume? || p.SpuriousResume?
    requires Enabled(st, p) && AssertsHold(st, p) && s in st.stages && StageInv(st, s)
    ensures s in Apply(st, p).stages && StageInv(Apply(st, p), s)
  {
    OwedAreRefs(s, st.threads);
  }

  lemma ConnectPushStage(st: System, t: StageId, wake: Option<nat>, s: StageId)
    requires Enabled(st, ConnectPush(t, wake)) && AssertsHold(st, ConnectPush(t, wake))
    requires s in st.stages && StageInv(st, s)
    ensures StageInv(Apply(st, ConnectPush(t, wake)), s)
  {
    ScheduleCounts(st, t, false, wake, s);
  }

  lemma ConnectPushKeepsInv(st: System, t: StageId, wake: Option<nat>)
    requires Inv(st) && Enabled(st, ConnectPush(t, wake)) && AssertsHold(st, ConnectPush(t, wake))
    ensures Inv(Apply(st, ConnectPush(t, wake)))
  {
    var st' := Apply(st, ConnectPush(t, wake));
    forall s | s in st'.stages ensures StageInv(st', s) { ConnectPushStage(st, t, wake, s); }
    ScheduleAwake(st, t, false, wake);
    ScheduleCounts(st, t, false, wake, t);
    forall k | 0 <= k < |st'.threads| ensures Known(st', st'.threads[k]) { assert Known(st, st.threads[k]); }
  }

  lemma StepKeepsInv(st: System, p: Step)
    requires Inv(st) && Enabled(st, p) && AssertsHold(st, p)
    ensures Inv(Apply(st, p))
  {
    match p
    case AddEvent(i, t, e) => AddKeepsInv(st, i, t, e);
    case Check(i) => CheckKeepsInv(st, i);
    case Push(i, wake) => PushKeepsInv(st, i, wake);
    case Look(i) => TakeStageInv(st, i);
    case Spurious(i) => SpuriousKeepsInv(st, i);
    case Reacquire(i) => ReacquireKeepsInv(st, i);
    case Remove(_) => EventKeepsInv(st, p);
    case Release(_) => EventKeepsInv(st, p);
    case ConnectPush(t, wake) => ConnectPushKeepsInv(st, t, wake);
    case _ => ControlKeepsInv(st, p);
  }

  lemma {:induction false} RunKeepsInv(st: System, steps: seq<Step>, st': System)
    requires Inv(st) && Run(st, steps, st')
    ensures Inv(st')
    decreases |steps|
  {
    if steps != [] {
      StepKeepsInv(st, steps[0]);
      RunKeepsInv(Apply(st, steps[0]), steps[1..], st');
    }
  }

  // ---------- what holds in every run ----------

  predicate Reachable(start: System, steps: seq<Step>, st: System) {
    Initial(start) && Run(start, steps, st)
  }

  /** No run of producers, workers and controllers reaches a failing assertion: a scheduled stage
      always has an event and a pool, `remove_event` always finds its event, including the events
      queued while the stage was not connected, and a controller that keeps to its program finds
      the stage unconnected with a pool in `connect`, and connected in `disconnect`. */
  lemma AssertionsNeverFail(start: System, steps: seq<Step>, st: System, p: Step)
    requires Reachable(start, steps, st) && Enabled(st, p)
    ensures AssertsHold(st, p)
  {
    InitialInv(start);
    RunKeepsInv(start, steps, st);
    InvAsserts(st, p);
  }

  /** `event_ref_` counts the schedules to come, the run-queue entries, the popped stages and the
      events in handlers; and events leave a stage in the order they came. */
  lemma ReferencesCounted(start: System, steps: seq<Step>, st: System, s: StageId)
    requires Reachable(start, steps, st) && s in st.stages
    ensures st.stages[s].refs ==
            Total(RefsTo(s), st.threads) + multiset(st.runQueue)[s] + Backlog(st.stages[s].control)
    ensures st.stages[s].taken <= st.stages[s].added && st.stages[s].added == st.stages[s].taken + st.stages[s].queue
  {
    InitialInv(start);
    RunKeepsInv(start, steps, st);
    assert StageInv(st, s);
  }

  /** A stage whose `disconnect` has passed its wait is referred to by no thread and no run-queue
      entry. */
  lemma DisconnectedIsReleased(start: System, steps: seq<Step>, st: System, s: StageId)
    requires Reachable(start, steps, st)
    requires s in st.stages && (st.stages[s].control.Down? || st.stages[s].control.Ready?)
    ensures s !in st.runQueue
    ensures forall i :: 0 <= i < |st.threads| ==> Weight(RefsTo(s), st.threads[i]) == 0
  {
    ReferencesCounted(start, steps, st, s);
    InitialInv(start);
    RunKeepsInv(start, steps, st);
    assert StageInv(st, s);
    forall i | 0 <= i < |st.threads| ensures Weight(RefsTo(s), st.threads[i]) == 0 {
      TotalAtLeast(RefsTo(s), st.threads, i);
    }
  }

  /** A `disconnect` that is blocked without a signal still has someone to wait for: a thread or a
      run-queue entry that refers to the stage. */
  lemma BlockedHasReason(start: System, steps: seq<Step>, st: System, s: StageId)
    requires Reachable(start, steps, st) && s in st.stages && st.stages[s].control.Blocked?
    ensures s in st.runQueue || exists i :: 0 <= i < |st.threads| && Weight(RefsTo(s), st.threads[i]) > 0
  {
    ReferencesCounted(start, steps, st, s);
    InitialInv(start);
    RunKeepsInv(start, steps, st);
    assert StageInv(st, s);
    if s !in st.runQueue && !exists i :: 0 <= i < |st.threads| && Weight(RefsTo(s), st.threads[i]) > 0 {
      TotalZero(RefsTo(s), st.threads);
    }
  }

  /** The step a worker takes next unless it waits. */
  function NextOf(st: System, i: nat): Step
    requires i < |st.threads| && IsWorker(st.threads[i])
  {
    match st.threads[i]
    case Looking => Look(i)
    case Waiting => Spurious(i)
    case Signalled => Reacquire(i)
    case Popped(_) => Remove(i)
    case Handling(_, _) => Release(i)
    case Passing(_, _, _, checked) =>
      if !checked then Check(i) else Push(i, WakeFor(st, true))
  }

  /** The thread a signal of `schedule` may wake. */
  function WakeFor(st: System, fromPool: bool): Option<nat> {
    if Signals(st, fromPool) then FirstWaiting(st.threads, 0) else None
  }

  function FirstWaiting(threads: seq<Loc>, from: nat): (r: Option<nat>)
    requires from <= |threads|
    ensures r.Some? ==> r.value < |threads| && threads[r.value].Waiting?
    ensures r.None? ==> forall k :: from <= k < |threads| ==> !threads[k].Waiting?
    decreases |threads| - from
  {
    if from == |threads| then None
    else if threads[from].Waiting? then Some(from)
    else FirstWaiting(threads, from + 1)
  }

  /** No wakeup is lost: while the run queue is not empty some worker is outside the unsignalled
      wait, and its next step can be taken. */
  lemma NoLostWakeup(start: System, steps: seq<Step>, st: System)
    requires Reachable(start, steps, st) && st.runQueue != [] && HasWorker(st.threads)
    ensures exists i :: 0 <= i < |st.threads| && IsWorker(st.threads[i]) && !st.threads[i].Waiting?
                        && Enabled(st, NextOf(st, i)) && AssertsHold(st, NextOf(st, i))
  {
    InitialInv(start);
    RunKeepsInv(start, steps, st);
    var i :| 0 <= i < |st.threads| && IsWorker(st.threads[i]) && !st.threads[i].Waiting?;
    assert Enabled(st, NextOf(st, i));
    InvAsserts(st, NextOf(st, i));
  }

  // ---------- as many awake as there are entries ----------

  predicate SomeoneWaits(threads: seq<Loc>) {
    exists k :: 0 <= k < |threads| && threads[k].Waiting?
  }

  /** While a worker sleeps unsignalled, there is one awake for every entry of the run queue. */
  predicate EnoughAwake(st: System) {
    SomeoneWaits(st.threads) ==> |st.runQueue| <= Total(AwakeWorkers, st.threads)
  }

  /** `schedule`, by a pool thread or not. */
  lemma ScheduleKeepsAwake(st: System, t: StageId, fromPool: bool, wake: Option<nat>)
    requires st.idles == Total(IdleWorkers, st.threads) && EnoughAwake(st)
    requires if Signals(st, fromPool) then ValidWake(st.threads, wake) else wake.None?
    requires fromPool ==> Total(AwakeWorkers, st.threads) > 0
    ensures EnoughAwake(Schedule(st, t, fromPool, wake))
    ensures SomeoneWaits(Schedule(st, t, fromPool, wake).threads) ==> SomeoneWaits(st.threads)
  {
    var st' := Schedule(st, t, fromPool, wake);
    if SomeoneWaits(st'.threads) {
      var k :| 0 <= k < |st'.threads| && st'.threads[k].Waiting?;
      assert st.threads[k].Waiting?;
      TotalAtLeast(IdleWorkers, st.threads, k);
      if wake.Some? { TotalUpdate(AwakeWorkers, st.threads, wake.value, Signalled); }
    }
  }

  lemma PushKeepsAwake(st: System, i: nat, wake: Option<nat>)
    requires st.idles == Total(IdleWorkers, st.threads) && EnoughAwake(st) && CanPush(st, i, wake)
    ensures EnoughAwake(PushAndReturn(st, i, wake))
  {
    var l := st.threads[i];
    TotalAtLeast(AwakeWorkers, st.threads, i);
    ScheduleKeepsAwake(st, l.target, l.Passing?, wake);
    var mid := Schedule(st, l.target, l.Passing?, wake);
    assert mid.threads[i] == l;
    MoveKeepsAwake(mid, i, AfterPush(l));
  }

  /** A thread moves and stays awake, or outside the pool. */
  lemma MoveKeepsAwake(st: System, i: nat, l: Loc)
    requires i < |st.threads| && EnoughAwake(st) && !l.Waiting?
    requires Weight(AwakeWorkers, l) >= Weight(AwakeWorkers, st.threads[i])
    ensures EnoughAwake(st.(threads := st.threads[i := l]))
  {
    TotalUpdate(AwakeWorkers, st.threads, i, l);
    var threads' := st.threads[i := l];
    if SomeoneWaits(threads') {
      var k :| 0 <= k < |threads'| && threads'[k].Waiting?;
      assert st.threads[k].Waiting?;
    }
  }

  lemma TakeKeepsAwake(st: System, i: nat)
    requires i < |st.threads| && (st.threads[i].Looking? || st.threads[i].Signalled?) && EnoughAwake(st)
    ensures EnoughAwake(TakeStage(st, i))
  {
    if st.runQueue != [] { MoveKeepsAwake(st, i, Popped(st.runQueue[0])); }
  }

  lemma QuietKeepsAwake(st: System, p: Step)
    requires EnoughAwake(st) && Enabled(st, p) && AssertsHold(st, p)
    requires p.AddEvent? || p.Check? || p.Spurious? || p.Remove? || p.Release?
    ensures EnoughAwake(Apply(st, p))
  {
    var l := Apply(st, p).threads[p.i];
    assert Apply(st, p).threads == st.threads[p.i := l];
    MoveKeepsAwake(st, p.i, l);
  }

  lemma StepKeepsAwake(st: System, p: Step)
    requires st.idles == Total(IdleWorkers, st.threads)
    requires EnoughAwake(st) && Enabled(st, p) && AssertsHold(st, p)
    ensures EnoughAwake(Apply(st, p))
  {
    if p.Push? {
      PushKeepsAwake(st, p.i, p.wake);
    } else if p.ConnectPush? {
      ScheduleKeepsAwake(st, p.s, false, p.wake);
    } else if p.Look? {
      TakeKeepsAwake(st, p.i);
    } else if p.Reacquire? {
      TakeKeepsAwake(st.(idles := st.idles - 1), p.i);
    } else if p.AddEvent? || p.Check? || p.Spurious? || p.Remove? || p.Release? {
      QuietKeepsAwake(st, p);
    }
  }

  lemma {:induction false} RunKeepsAwake(st: System, steps: seq<Step>, st': System)
    requires Inv(st) && EnoughAwake(st) && Run(st, steps, st')
    ensures EnoughAwake(st')
    decreases |steps|
  {
    if steps != [] {
      StepKeepsInv(st, steps[0]);
      StepKeepsAwake(st, steps[0]);
      RunKeepsAwake(Apply(st, steps[0]), steps[1..], st');
    }
  }

  /** No worker sleeps on while there is more work than there are workers awake for it: in every
      state of every run either nobody is in the unsignalled wait, or as many workers are outside it
      as the run queue has entries. */
  lemma NobodySleepsOnWork(start: System, steps: seq<Step>, st: System)
    requires Reachable(start, steps, st)
    ensures SomeoneWaits(st.threads) ==> |st.runQueue| <= Total(AwakeWorkers, st.threads)
  {
    InitialInv(start);
    RunKeepsAwake(start, steps, st);
  }

  /** A pool thread that queues the only entry wakes nobody: it goes on to it itself. */
  lemma OnlyEntryIsOwn(st: System, i: nat, wake: Option<nat>)
    requires Enabled(st, Push(i, wake)) && AssertsHold(st, Push(i, wake))
    requires st.threads[i].Passing? && st.runQueue == []
    ensures var st' := Apply(st, Push(i, wake));
            && st'.runQueue == [st.threads[i].target]
            && forall k :: 0 <= k < |st.threads| && k != i ==> st'.threads[k] == st.threads[k]
  {
  }

  // ---------- first scheduled, first served ----------

  function ScheduledBy(st: System, p: Step): seq<StageId>
    requires Enabled(st, p)
  {
    if p.Push? then [st.threads[p.i].target] else if p.ConnectPush? then [p.s] else []
  }

  /** The stage the step gives a worker. */
  function ServedBy(st: System, p: Step): seq<StageId>
    requires Enabled(st, p) && AssertsHold(st, p)
  {
    if (p.Look? || p.Reacquire?) && Apply(st, p).threads[p.i].Popped? then [Apply(st, p).threads[p.i].stage] else []
  }

  lemma StepServes(st: System, p: Step)
    requires Enabled(st, p) && AssertsHold(st, p)
    ensures st.runQueue + ScheduledBy(st, p) == ServedBy(st, p) + Apply(st, p).runQueue
  {
  }

  function Scheduled(st: System, steps: seq<Step>): seq<StageId>
    requires Runs(st, steps)
    decreases |steps|
  {
    if steps == [] then [] else ScheduledBy(st, steps[0]) + Scheduled(Apply(st, steps[0]), steps[1..])
  }

  function Served(st: System, steps: seq<Step>): seq<StageId>
    requires Runs(st, steps)
    decreases |steps|
  {
    if steps == [] then [] else ServedBy(st, steps[0]) + Served(Apply(st, steps[0]), steps[1..])
  }

  /** Workers are given the stages in the order they were scheduled. */
  lemma {:induction false} FirstScheduledFirstServed(st: System, steps: seq<Step>, st': System)
    requires Run(st, steps, st')
    ensures Runs(st, steps) && st.runQueue + Scheduled(st, steps) == Served(st, steps) + st'.runQueue
    decreases |steps|
  {
    if steps != [] {
      var p, rest := steps[0], steps[1..];
      var mid := Apply(st, p);
      FirstScheduledFirstServed(mid, rest, st');
      StepServes(st, p);
      Regroup(st.runQueue, ScheduledBy(st, p), Scheduled(mid, rest));
      Regroup(ServedBy(st, p), mid.runQueue, Scheduled(mid, rest));
      Regroup(ServedBy(st, p), Served(mid, rest), st'.runQueue);
    }
  }

  // ---------- every event is handled once ----------

  /** The events given to a stage, in the order they were. */
  function EventsTo(steps: seq<Step>, s: StageId): seq<Event> {
    if steps == [] then []
    else (if steps[0].AddEvent? && steps[0].t == s then [steps[0].e] else []) + EventsTo(steps[1..], s)
  }

  predicate Runs(st: System, steps: seq<Step>)
    decreases |steps|
  {
    steps == [] || (Enabled(st, steps[0]) && AssertsHold(st, steps[0]) && Runs(Apply(st, steps[0]), steps[1..]))
  }

  /** The events whose handling has ended, in the order it did. */
  function Handled(st: System, steps: seq<Step>, s: StageId): seq<Event>
    requires Runs(st, steps)
    decreases |steps|
  {
    if steps == [] then []
    else HandledBy(st, steps[0], s) + Handled(Apply(st, steps[0]), steps[1..], s)
  }

  function HandledBy(st: System, p: Step, s: StageId): seq<Event>
    requires Enabled(st, p)
  {
    if p.Release? && st.threads[p.i].stage == s then [st.threads[p.i].event] else []
  }

  lemma ScheduleInHand(st: System, t: StageId, fromPool: bool, wake: Option<nat>, s: StageId, e: Event)
    requires if Signals(st, fromPool) then ValidWake(st.threads, wake) else wake.None?
    ensures Total(InHand(s, e), Schedule(st, t, fromPool, wake).threads) == Total(InHand(s, e), st.threads)
  {
    if wake.Some? { TotalUpdate(InHand(s, e), st.threads, wake.value, Signalled); }
  }

  lemma PushInHand(st: System, i: nat, wake: Option<nat>, s: StageId, e: Event)
    requires CanPush(st, i, wake)
    ensures Total(InHand(s, e), PushAndReturn(st, i, wake).threads) == Total(InHand(s, e), st.threads)
  {
    var l := st.threads[i];
    ScheduleInHand(st, l.target, l.Passing?, wake, s, e);
    var mid := Schedule(st, l.target, l.Passing?, wake);
    assert mid.threads[i] == l;
    TotalUpdate(InHand(s, e), mid.threads, i, AfterPush(l));
  }

  function TakenBy(st: System, p: Step, s: StageId): seq<Event>
    requires Enabled(st, p) && AssertsHold(st, p)
  {
    if p.Remove? && st.threads[p.i].stage == s then [st.stages[s].queue[0]] else []
  }

  /** A thread that moves with the same event in its hand, or none. */
  lemma QuietInHand(st: System, p: Step, s: StageId, e: Event)
    requires Enabled(st, p) && AssertsHold(st, p)
    requires p.AddEvent? || p.Check? || p.Look? || p.Spurious? || p.Reacquire?
    ensures Total(InHand(s, e), Apply(st, p).threads) == Total(InHand(s, e), st.threads)
  {
    var l := Apply(st, p).threads[p.i];
    assert Apply(st, p).threads == st.threads[p.i := l];
    TotalUpdate(InHand(s, e), st.threads, p.i, l);
  }

  lemma EventInHand(st: System, p: Step, s: StageId, e: Event)
    requires Enabled(st, p) && AssertsHold(st, p) && (p.Remove? || p.Release?)
    ensures Total(InHand(s, e), Apply(st, p).threads) + multiset(HandledBy(st, p, s))[e]
         == Total(InHand(s, e), st.threads) + multiset(TakenBy(st, p, s))[e]
  {
    TotalUpdate(InHand(s, e), st.threads, p.i, Apply(st, p).threads[p.i]);
  }

  /** A step that takes an event puts it in a worker's hands, one that ends its handling takes it
      out, and no other does either. */
  lemma StepInHand(st: System, p: Step, s: StageId, e: Event)
    requires Enabled(st, p) && AssertsHold(st, p)
    ensures Total(InHand(s, e), Apply(st, p).threads) + multiset(HandledBy(st, p, s))[e]
         == Total(InHand(s, e), st.threads) + multiset(TakenBy(st, p, s))[e]
  {
    if p.Remove? || p.Release? {
      EventInHand(st, p, s, e);
    } else if p.Push? {
      PushInHand(st, p.i, p.wake, s, e);
    } else if p.ConnectPush? {
      ScheduleInHand(st, p.s, false, p.wake, s, e);
    } else if p.AddEvent? || p.Check? || p.Look? || p.Spurious? || p.Reacquire? {
      QuietInHand(st, p, s, e);
    }
  }

  lemma StepAdds(st: System, p: Step, s: StageId)
    requires Enabled(st, p) && AssertsHold(st, p) && s in st.stages
    ensures s in Apply(st, p).stages
    ensures Apply(st, p).stages[s].added == st.stages[s].added + if p.AddEvent? && p.t == s then [p.e] else []
    ensures Apply(st, p).stages[s].taken == st.stages[s].taken + TakenBy(st, p, s)
  {
  }

  /** The events taken, in the order they were. */
  function Taken(st: System, steps: seq<Step>, s: StageId): seq<Event>
    requires Runs(st, steps)
    decreases |steps|
  {
    if steps == [] then [] else TakenBy(st, steps[0], s) + Taken(Apply(st, steps[0]), steps[1..], s)
  }

  lemma Regroup<T>(a: seq<T>, b: seq<T>, c: seq<T>)
    ensures a + b + c == a + (b + c)
  {
  }

  lemma {:induction false} RunAdds(st: System, steps: seq<Step>, st': System, s: StageId)
    requires Run(st, steps, st') && s in st.stages
    ensures s in st'.stages && st'.stages[s].added == st.stages[s].added + EventsTo(steps, s)
    decreases |steps|
  {
    if steps != [] {
      var p := steps[0];
      StepAdds(st, p, s);
      RunAdds(Apply(st, p), steps[1..], st', s);
      Regroup(st.stages[s].added, if p.AddEvent? && p.t == s then [p.e] else [], EventsTo(steps[1..], s));
    }
  }

  lemma {:induction false} RunTakes(st: System, steps: seq<Step>, st': System, s: StageId)
    requires Run(st, steps, st') && s in st.stages
    ensures Runs(st, steps) && s in st'.stages && st'.stages[s].taken == st.stages[s].taken + Taken(st, steps, s)
    decreases |steps|
  {
    if steps != [] {
      StepAdds(st, steps[0], s);
      RunTakes(Apply(st, steps[0]), steps[1..], st', s);
      Regroup(st.stages[s].taken, TakenBy(st, steps[0], s), Taken(Apply(st, steps[0]), steps[1..], s));
    }
  }

  lemma {:induction false} RunInHand(st: System, steps: seq<Step>, st': System, s: StageId, e: Event)
    requires Run(st, steps, st') && Runs(st, steps)
    ensures Total(InHand(s, e), st'.threads) + multiset(Handled(st, steps, s))[e]
         == Total(InHand(s, e), st.threads) + multiset(Taken(st, steps, s))[e]
    decreases |steps|
  {
    if steps != [] {
      StepInHand(st, steps[0], s, e);
      RunInHand(Apply(st, steps[0]), steps[1..], st', s, e);
    }
  }

  /** Over every run the events given to a stage are those taken, in the order they were given, and
      then those queued. */
  lemma EventsInOrder(start: System, steps: seq<Step>, st: System, s: StageId)
    requires Reachable(start, steps, st) && s in st.stages
    ensures st.stages[s].taken + st.stages[s].queue == EventsTo(steps, s)
  {
    ReferencesCounted(start, steps, st, s);
    StagesStay(start, steps, st);
    RunAdds(start, steps, st, s);
  }

  /** And each event taken has been handled as often as it was taken, or is in workers' hands. */
  lemma TakenAreHandled(start: System, steps: seq<Step>, st: System, s: StageId, e: Event)
    requires Reachable(start, steps, st) && s in st.stages
    ensures Runs(start, steps)
    ensures multiset(st.stages[s].taken)[e] == multiset(Handled(start, steps, s))[e] + Total(InHand(s, e), st.threads)
  {
    StagesStay(start, steps, st);
    RunTakes(start, steps, st, s);
    TotalZero(InHand(s, e), start.threads);
    RunInHand(start, steps, st, s, e);
  }

  lemma {:induction false} SameStages(st: System, steps: seq<Step>, st': System)
    requires Inv(st) && Run(st, steps, st')
    ensures st'.stages.Keys == st.stages.Keys
    decreases |steps|
  {
    if steps != [] {
      StepSameStages(st, steps[0]);
      StepKeepsInv(st, steps[0]);
      SameStages(Apply(st, steps[0]), steps[1..], st');
    }
  }

  lemma StagesStay(start: System, steps: seq<Step>, st: System)
    requires Reachable(start, steps, st)
    ensures st.stages.Keys == start.stages.Keys
  {
    InitialInv(start);
    SameStages(start, steps, st);
  }

  lemma StepSameStages(st: System, p: Step)
    requires Inv(st) && Enabled(st, p) && AssertsHold(st, p)
    ensures Apply(st, p).stages.Keys == st.stages.Keys
  {
    if p.Remove? || p.Release? { assert Known(st, st.threads[p.i]); }
  }

  // ---------- the work comes to an end ----------

  /** The steps that finish what is begun: all but new events, controllers and spurious wakeups. */
  predicate IsFinishing(p: Step) { p.Check? || p.Push? || p.Look? || p.Reacquire? || p.Remove? || p.Release? }

  function Work(st: System): nat { Total(WorkLeft, st.threads) + 3 * |st.runQueue| }

  /** Each lowers the work left. */
  lemma StepLowersWork(st: System, p: Step)
    requires IsFinishing(p) && Enabled(st, p) && AssertsHold(st, p)
    ensures Work(Apply(st, p)) < Work(st)
    ensures HasWorker(Apply(st, p).threads) <==> HasWorker(st.threads)
  {
    if p.Push? {
      PushLowersWork(st, p.i, p.wake);
    } else {
      var l := Apply(st, p).threads[p.i];
      TotalUpdate(WorkLeft, st.threads, p.i, l);
      SameWorkers(st.threads, st.threads[p.i := l]);
    }
  }

  lemma PushLowersWork(st: System, i: nat, wake: Option<nat>)
    requires CanPush(st, i, wake)
    ensures Work(PushAndReturn(st, i, wake)) < Work(st)
    ensures HasWorker(PushAndReturn(st, i, wake).threads) <==> HasWorker(st.threads)
  {
    var l := st.threads[i];
    var mid := Schedule(st, l.target, l.Passing?, wake);
    if wake.Some? { TotalUpdate(WorkLeft, st.threads, wake.value, Signalled); }
    assert mid.threads[i] == l;
    TotalUpdate(WorkLeft, mid.threads, i, AfterPush(l));
    SameWorkers(st.threads, PushAndReturn(st, i, wake).threads);
  }

  /** The next step of a thread that is neither outside nor waiting. */
  function Finish(st: System, i: nat): (p: Step)
    requires i < |st.threads| && !st.threads[i].Outside? && !st.threads[i].Waiting?
    ensures IsFinishing(p) && Enabled(st, p)
  {
    match st.threads[i]
    case Looking => Look(i)
    case Signalled => Reacquire(i)
    case Popped(_) => Remove(i)
    case Handling(_, _) => Release(i)
    case Producing(_, checked) => if !checked then Check(i) else Push(i, WakeFor(st, false))
    case Passing(_, _, _, checked) => if !checked then Check(i) else Push(i, WakeFor(st, true))
  }

  /** No finishing step can be taken: every producer is outside and every worker waits. */
  predicate Settled(st: System) {
    forall i :: 0 <= i < |st.threads| ==> st.threads[i].Outside? || st.threads[i].Waiting?
  }

  /** Then the run queue is empty, nothing refers to a stage but the backlog of a `connect`, and no
      `disconnect` is left unsignalled in its wait. */
  lemma SettledIsDone(st: System)
    requires Inv(st) && Settled(st) && HasWorker(st.threads)
    ensures st.runQueue == []
    ensures forall s :: s in st.stages ==>
              st.stages[s].refs == Backlog(st.stages[s].control) && !st.stages[s].control.Blocked?
    ensures forall s :: s in st.stages && st.stages[s].control.Roused? ==> ResumesDown(st, s)
  {
    forall s | s in st.stages
      ensures st.stages[s].refs == Backlog(st.stages[s].control) && !st.stages[s].control.Blocked?
      ensures st.stages[s].control.Roused? ==> ResumesDown(st, s)
    {
      assert StageInv(st, s);
      TotalZero(RefsTo(s), st.threads);
    }
  }

  /** A `disconnect` that has been signalled, or woke by itself, can go on, and lets the pool go. */
  predicate ResumesDown(st: System, s: StageId)
    requires s in st.stages
  {
    && Enabled(st, Resume(s))
    && var g := Apply(st, Resume(s)).stages[s];
       g.control.Down? && !g.pool && g.refs == 0
  }

  /** From any state of any run, if no new events come, every way of taking finishing steps ends
      within `Work` steps; and while one is possible the run is not settled. */
  lemma {:induction false} FinishingEnds(st: System, steps: seq<Step>, st': System)
    requires Inv(st) && Run(st, steps, st') && forall k :: 0 <= k < |steps| ==> IsFinishing(steps[k])
    ensures |steps| + Work(st') <= Work(st) && Inv(st')
    ensures HasWorker(st'.threads) <==> HasWorker(st.threads)
    decreases |steps|
  {
    if steps != [] {
      StepLowersWork(st, steps[0]);
      StepKeepsInv(st, steps[0]);
      forall k | 0 <= k < |steps[1..]| ensures IsFinishing(steps[1..][k]) { assert steps[1..][k] == steps[k + 1]; }
      FinishingEnds(Apply(st, steps[0]), steps[1..], st');
    }
  }

  /** And such steps lead to a settled state. */
  lemma {:induction false} FinishAll(st: System) returns (steps: seq<Step>, st': System)
    requires Inv(st)
    ensures Run(st, steps, st') && Settled(st') && forall k :: 0 <= k < |steps| ==> IsFinishing(steps[k])
    decreases Work(st)
  {
    if Settled(st) {
      steps, st' := [], st;
    } else {
      var p := FinishOne(st);
      var rest;
      rest, st' := FinishAll(Apply(st, p));
      steps := [p] + rest;
      assert steps[1..] == rest;
    }
  }

  lemma FinishOne(st: System) returns (p: Step)
    requires Inv(st) && !Settled(st)
    ensures IsFinishing(p) && Enabled(st, p) && AssertsHold(st, p)
    ensures Inv(Apply(st, p)) && Work(Apply(st, p)) < Work(st)
  {
    var i :| 0 <= i < |st.threads| && !st.threads[i].Outside? && !st.threads[i].Waiting?;
    p := Finish(st, i);
    InvAsserts(st, p);
    StepLowersWork(st, p);
    StepKeepsInv(st, p);
  }

  /** So from every reachable state with a worker, the threads' own steps, in whatever order they
      are taken, come to an end, and where they end every event scheduled has been handled, no
      `disconnect` is left waiting, and one that was signalled finishes when it goes on. */
  lemma EveryDisconnectIsReleased(start: System, before: seq<Step>, st: System, steps: seq<Step>, st': System)
    requires Reachable(start, before, st) && HasWorker(st.threads)
    requires Run(st, steps, st') && forall k :: 0 <= k < |steps| ==> IsFinishing(steps[k])
    ensures |steps| <= Work(st)
    ensures (forall p :: IsFinishing(p) ==> !Enabled(st', p)) <==> Settled(st')
    ensures Settled(st') ==> st'.runQueue == []
    ensures Settled(st') ==> forall s :: s in st'.stages ==>
              !st'.stages[s].control.Blocked? && (st'.stages[s].control.Roused? ==> ResumesDown(st', s))
  {
    InitialInv(start);
    RunKeepsInv(start, before, st);
    FinishingEnds(st, steps, st');
    SettledIsTheEnd(st');
    if Settled(st') {
      SettledIsDone(st');
    }
  }

  /** In such a state a connected stage has handled every event it was given, each once. */
  lemma EveryEventIsHandled(start: System, steps: seq<Step>, st: System, s: StageId)
    requires Reachable(start, steps, st) && Settled(st) && HasWorker(st.threads)
    requires s in st.stages && st.stages[s].control.Up?
    ensures Runs(start, steps) && multiset(Handled(start, steps, s)) == multiset(EventsTo(steps, s))
  {
    RunIsRuns(start, steps, st);
    var handled, given := Handled(start, steps, s), EventsTo(steps, s);
    forall e ensures multiset(handled)[e] == multiset(given)[e] {
      HandledAsGiven(start, steps, st, s, e);
    }
    SameMultiset(handled, given);
  }

  lemma SameMultiset(a: seq<Event>, b: seq<Event>)
    requires forall e :: multiset(a)[e] == multiset(b)[e]
    ensures multiset(a) == multiset(b)
  {
  }

  lemma {:induction false} RunIsRuns(st: System, steps: seq<Step>, st': System)
    requires Run(st, steps, st')
    ensures Runs(st, steps)
    decreases |steps|
  {
    if steps != [] { RunIsRuns(Apply(st, steps[0]), steps[1..], st'); }
  }

  lemma HandledAsGiven(start: System, steps: seq<Step>, st: System, s: StageId, e: Event)
    requires Reachable(start, steps, st) && Settled(st) && HasWorker(st.threads)
    requires s in st.stages && st.stages[s].control.Up?
    ensures Runs(start, steps) && multiset(Handled(start, steps, s))[e] == multiset(EventsTo(steps, s))[e]
  {
    SettledQueueIsEmpty(start, steps, st, s);
    EventsInOrder(start, steps, st, s);
    assert st.stages[s].taken + [] == st.stages[s].taken;
    TakenAreHandled(start, steps, st, s, e);
    TotalZero(InHand(s, e), st.threads);
  }

  lemma SettledQueueIsEmpty(start: System, steps: seq<Step>, st: System, s: StageId)
    requires Reachable(start, steps, st) && Settled(st) && HasWorker(st.threads)
    requires s in st.stages && st.stages[s].control.Up?
    ensures st.stages[s].queue == []
  {
    InitialInv(start);
    RunKeepsInv(start, steps, st);
    SettledIsDone(st);
    assert StageInv(st, s);
    TotalZero(Owed(s), st.threads);
  }

  lemma SettledIsTheEnd(st: System)
    ensures (forall p :: IsFinishing(p) ==> !Enabled(st, p)) <==> Settled(st)
  {
    if !Settled(st) {
      var i :| 0 <= i < |st.threads| && !st.threads[i].Outside? && !st.threads[i].Waiting?;
      assert IsFinishing(Finish(st, i)) && Enabled(st, Finish(st, i));
    }
  }

  // ---------- the locked sections ----------

  class Stage {
    var eventList: seq<Event>
    var eventRef: int
    var connected: bool
    var poolSet: bool
    ghost var control: Control
    ghost var added: seq<Event>
    ghost var taken: seq<Event>

    ghost function View(): StageState
      reads this
    {
      StageState(eventList, eventRef, connected, poolSet, control, added, taken)
    }

    constructor ()
      ensures View() == StageState([], 0, false, false, Down, [], [])
    {
      eventList, eventRef, connected, poolSet := [], 0, false, false;
      control, added, taken := Down, [], [];
    }

    /** `add_event` between lock and unlock; `schedule` is to be called when it says so. */
    method AddEvent(event: Event) returns (schedule: bool)
      modifies this
      ensures View() == PushEvent(old(View()), event) && schedule == old(connected)
      ensures eventList == old(eventList) + [event] && eventRef == old(eventRef) + if connected then 1 else 0
    {
      eventList := eventList + [event];
      added := added + [event];
      schedule := false;
      if connected {
        eventRef := eventRef + 1;
        schedule := true;
      }
    }

    method RemoveEvent() returns (event: Event)
      requires eventList != []
      modifies this
      ensures View() == TakeEvent(old(View())) && event == old(eventList)[0]
    {
      event := eventList[0];
      eventList := eventList[1..];
      taken := taken + [event];
    }

    method ReleaseEvent() returns (signal: bool)
      modifies this
      ensures View() == ReleaseRef(old(View()))
      ensures signal <==> !connected && eventRef == 0
    {
      eventRef := eventRef - 1;
      signal := false;
      if !connected && eventRef == 0 {
        signal := true;
        if control.Blocked? { control := Roused; }
      }
    }

    /** `connect`, with the result of `initialize`, up to the schedules of the backlog. */
    method Connect(initialized: bool) returns (success: bool, backlog: nat)
      requires !connected && poolSet
      modifies this
      ensures success == initialized
      ensures View() == if initialized then BeginConnect(old(View())) else old(View())
      ensures backlog == if initialized then |old(eventList)| else 0
    {
      backlog := 0;
      success := initialized;
      if success {
        backlog := |eventList|;
        eventRef := backlog;
        connected := true;
        control := if backlog == 0 then Up else Connecting(backlog, false);
      }
    }

    /** One turn of the waiting loop of `disconnect`, from taking the mutex to the wait or the
        end. */
    method DisconnectTurn() returns (done: bool)
      modifies this
      ensures View() == TryDisconnect(old(View())) && done == (old(eventRef) <= 0)
    {
      connected := false;
      if eventRef > 0 {
        control := Blocked;
        return false;
      }
      poolSet := false;
      control := Down;
      return true;
    }
  }

  class Threadpool {
    var runQueue: seq<StageId>
    var idles: int

    constructor ()
      ensures runQueue == [] && idles == 0
    {
      runQueue, idles := [], 0;
    }

    /** `schedule` between lock and unlock. */
    method Schedule(stage: StageId, fromPool: bool) returns (signal: bool)
      modifies this
      ensures runQueue == old(runQueue) + [stage] && idles == old(idles)
      ensures signal <==> (old(runQueue) != [] || !fromPool) && idles > 0
      ensures forall threads, stages ::
                signal == Signals(System(stages, old(runQueue), old(idles), threads), fromPool)
    {
      var wasEmpty := runQueue == [];
      runQueue := runQueue + [stage];
      signal := false;
      if wasEmpty == false || !fromPool {
        if idles > 0 { signal := true; }
      }
    }

    /** The head of the service loop, from holding the mutex to popping a stage or waiting. */
    method TakeOrWait() returns (stage: Option<StageId>)
      modifies this
      ensures forall threads, stages, i: nat {:trigger TakeStage(System(stages, old(runQueue), old(idles), threads), i)} ::
                i < |threads| ==>
                  var st := TakeStage(System(stages, old(runQueue), old(idles), threads), i);
                  && runQueue == st.runQueue && idles == st.idles
                  && st.threads[i] == if stage.Some? then Popped(stage.value) else Waiting
      ensures if old(runQueue) == []
              then stage == None && idles == old(idles) + 1 && runQueue == []
              else stage == Some(old(runQueue)[0]) && runQueue == old(runQueue)[1..] && idles == old(idles)
    {
      if runQueue == [] {
        idles := idles + 1;
        return None;
      }
      stage := Some(runQueue[0]);
      runQueue := runQueue[1..];
    }
  }
}
