/** The timer stage, as atomic steps under the timer mutex. */
module Timer {

  const NONCES := 0x1_0000_0000_0000_0000  // u64_t

  datatype Time = Time(sec: int, usec: int)

  const USEC_PER_SEC := 1000000

  /** As the system clock gives it. */
  predicate IsTime(t: Time) { 0 <= t.usec < USEC_PER_SEC }

  /** Microseconds since the epoch of the clock. */
  function Micros(t: Time): int { USEC_PER_SEC * t.sec + t.usec }

  datatype Token = Token(time: Time, nonce: nat)

  datatype Entry = Entry(token: Token, callback: nat)

  predicate TimeLess(a: Time, b: Time) {
    a.sec < b.sec || (a.sec == b.sec && a.usec < b.usec)
  }

  /** `TimerToken::operator<` */
  predicate TokenLess(a: Token, b: Token) {
    TimeLess(a.time, b.time) || (a.time == b.time && a.nonce < b.nonce)
  }

  /** The comparison field by field is that of the microseconds. */
  lemma TimeLessIsEarlier(a: Time, b: Time)
    requires IsTime(a) && IsTime(b)
    ensures TimeLess(a, b) <==> Micros(a) < Micros(b)
    ensures a == b <==> Micros(a) == Micros(b)
  {
  }

  /** One time, in microseconds, is not after the other, if both are times. */
  predicate NoLater(a: Time, b: Time) { IsTime(a) && IsTime(b) ==> Micros(a) <= Micros(b) }

  /** Earlier, or made earlier for the same time. */
  predicate ComesFirst(a: Token, b: Token) {
    IsTime(a.time) && IsTime(b.time) ==>
      Micros(a.time) < Micros(b.time) || (Micros(a.time) == Micros(b.time) && a.nonce < b.nonce)
  }

  lemma TokenLessComesFirst(a: Token, b: Token)
    requires IsTime(a.time) && IsTime(b.time)
    ensures TokenLess(a, b) <==> ComesFirst(a, b)
  {
    TimeLessIsEarlier(a.time, b.time);
  }

  // ---------- times to register ----------

  /** `TimerRegisterEvent` for a time from now. */
  function TimeAfter(now: Time, relative: nat): Time {
    var usec := now.usec + relative;
    if usec >= USEC_PER_SEC then Time(now.sec + usec / USEC_PER_SEC, usec % USEC_PER_SEC) else Time(now.sec, usec)
  }

  lemma TimeAfterIsLater(now: Time, relative: nat)
    requires IsTime(now)
    ensures IsTime(TimeAfter(now, relative)) && Micros(TimeAfter(now, relative)) == Micros(now) + relative
  {
  }

  /** `sub_timeval` */
  method SubTime(a: Time, b: Time) returns (r: Time)
    ensures Micros(r) == Micros(a) - Micros(b)
    ensures IsTime(a) && IsTime(b) ==> IsTime(r)
  {
    r := Time(a.sec - b.sec, a.usec - b.usec);
    while r.usec < 0
      invariant Micros(r) == Micros(a) - Micros(b)
      invariant IsTime(a) && IsTime(b) ==> r.usec < USEC_PER_SEC
      decreases -r.usec
    {
      r := Time(r.sec - 1, r.usec + USEC_PER_SEC);
    }
  }

  /** `add_timeval` */
  method AddTime(a: Time, b: Time) returns (r: Time)
    ensures Micros(r) == Micros(a) + Micros(b)
    ensures IsTime(a) && IsTime(b) ==> IsTime(r)
  {
    r := Time(a.sec + b.sec, a.usec + b.usec);
    while r.usec >= USEC_PER_SEC
      invariant Micros(r) == Micros(a) + Micros(b)
      invariant IsTime(a) && IsTime(b) ==> r.usec >= 0
      decreases r.usec
    {
      r := Time(r.sec + 1, r.usec - USEC_PER_SEC);
    }
  }

  /** `realtime_to_monotonic`: as far from now on the one clock as on the other. */
  method RealtimeToMonotonic(time: Time, realNow: Time, now: Time) returns (r: Time)
    requires IsTime(time) && IsTime(realNow) && IsTime(now)
    ensures IsTime(r) && Micros(r) - Micros(now) == Micros(time) - Micros(realNow)
  {
    var offset := SubTime(time, realNow);
    r := AddTime(now, offset);
  }

  /** What the timer thread does between two checks: run, sleep until a time or without end, or
      be gone after a shutdown. */
  datatype Sleeper = Awake | Sleeping | SleepingUntil(deadline: Time) | Stopped

  datatype Firing = Firing(token: Token, callback: nat, now: Time)

  /** `drawn` are the tokens made, each under the nonce mutex, and not registered so far; `triggers`
      counts the register calls that still owe a signal. `registered`, `fired` and `cancelled` are
      histories. */
  datatype TimerState = TimerState(
    queue: seq<Entry>, numEvents: int, shutdown: bool, nonce: nat, drawn: set<Token>,
    sleeper: Sleeper, triggers: nat,
    registered: set<Token>, fired: seq<Firing>, cancelled: set<Token>)

  datatype Step =
    | Draw(time: Time)
    | Register(token: Token, callback: nat)
    | Trigger
    | Cancel(token: Token)
    | CheckTimer(now: Time)
    | WakeUp
    | Shutdown

  // ---------- the ordered queue ----------

  function Insert(queue: seq<Entry>, e: Entry): seq<Entry> {
    if queue == [] then [e]
    else if TokenLess(e.token, queue[0].token) then [e] + queue
    else [queue[0]] + Insert(queue[1..], e)
  }

  predicate Pending(queue: seq<Entry>, t: Token) {
    exists i :: 0 <= i < |queue| && queue[i].token == t
  }

  function Without(queue: seq<Entry>, t: Token): seq<Entry> {
    if queue == [] then []
    else if queue[0].token == t then queue[1..]
    else [queue[0]] + Without(queue[1..], t)
  }

  /** How many entries at the front have a time that is not after `now`. */
  function DueCount(queue: seq<Entry>, now: Time): (n: nat)
    ensures n <= |queue|
    ensures forall i :: 0 <= i < n ==> !TimeLess(now, queue[i].token.time)
    ensures n < |queue| ==> TimeLess(now, queue[n].token.time)
  {
    if queue == [] || TimeLess(now, queue[0].token.time) then 0 else 1 + DueCount(queue[1..], now)
  }

  function Firings(entries: seq<Entry>, now: Time): seq<Firing> {
    seq(|entries|, i requires 0 <= i < |entries| => Firing(entries[i].token, entries[i].callback, now))
  }

  // ---------- steps ----------

  predicate Enabled(st: TimerState, p: Step) {
    match p
    case Draw(_) => st.nonce < NONCES
    case Register(t, _) => t in st.drawn
    case Trigger => st.triggers > 0
    case Cancel(_) => true
    case CheckTimer(_) => st.sleeper.Awake?
    case WakeUp => st.sleeper.Sleeping? || st.sleeper.SleepingUntil?
    case Shutdown => !st.shutdown
  }

  function Signalled(s: Sleeper): Sleeper {
    if s.Sleeping? || s.SleepingUntil? then Awake else s
  }

  function NewToken(st: TimerState, time: Time): Token { Token(time, st.nonce) }

  /** A token is made: its nonce is drawn under a mutex of its own. */
  function DoDraw(st: TimerState, time: Time): TimerState {
    st.(nonce := st.nonce + 1, drawn := st.drawn + {NewToken(st, time)})
  }

  /** `register_timer`, from taking the timer mutex to the unlock, with a token made before. */
  function DoRegister(st: TimerState, token: Token, callback: nat): TimerState {
    var e := Entry(token, callback);
    var queue := Insert(st.queue, e);
    st.(queue := queue, numEvents := st.numEvents + 1, drawn := st.drawn - {token},
        registered := st.registered + {token},
        triggers := if queue[0] == e then st.triggers + 1 else st.triggers)
  }

  /** `cancel_timer` */
  function DoCancel(st: TimerState, t: Token): TimerState {
    if Pending(st.queue, t) then
      st.(queue := Without(st.queue, t), numEvents := st.numEvents - 1, cancelled := st.cancelled + {t})
    else st
  }

  /** One turn of the loop of `check_timer`: fire what is due, then stop or go to sleep. */
  function DoCheck(st: TimerState, now: Time): TimerState {
    var n := DueCount(st.queue, now);
    var rest := st.queue[n..];
    st.(queue := rest, numEvents := st.numEvents - n, fired := st.fired + Firings(st.queue[..n], now),
        sleeper := if st.shutdown then Stopped
                   else if rest == [] then Sleeping
                   else SleepingUntil(rest[0].token.time))
  }

  function Apply(st: TimerState, p: Step): TimerState
    requires Enabled(st, p)
  {
    match p
    case Draw(time) => DoDraw(st, time)
    case Register(t, callback) => DoRegister(st, t, callback)
    case Trigger => st.(triggers := st.triggers - 1, sleeper := Signalled(st.sleeper))
    case Cancel(t) => DoCancel(st, t)
    case CheckTimer(now) => DoCheck(st, now)
    case WakeUp => st.(sleeper := Awake)
    case Shutdown => st.(shutdown := true, sleeper := Signalled(st.sleeper))
  }

  predicate Initial(st: TimerState) {
    && st.queue == [] && st.numEvents == 0 && !st.shutdown && st.sleeper.Awake? && st.triggers == 0
    && st.drawn == {} && st.registered == {} && st.fired == [] && st.cancelled == {}
  }

  predicate Run(st: TimerState, steps: seq<Step>, st': TimerState)
    decreases |steps|
  {
    if steps == [] then st == st' else Enabled(st, steps[0]) && Run(Apply(st, steps[0]), steps[1..], st')
  }

  // ---------- the invariant ----------

  predicate Sorted(queue: seq<Entry>) {
    forall i, j :: 0 <= i < j < |queue| ==> TokenLess(queue[i].token, queue[j].token)
  }

  predicate HasFired(st: TimerState, t: Token) {
    exists i :: 0 <= i < |st.fired| && st.fired[i].token == t
  }

  /** Registered means in exactly one of the three places. */
  predicate InOnePlace(st: TimerState, t: Token) {
    var a, b, c := Pending(st.queue, t), HasFired(st, t), t in st.cancelled;
    && (t in st.registered <==> a || b || c)
    && !(a && b) && !(a && c) && !(b && c)
  }

  ghost predicate Inv(st: TimerState) {
    && Sorted(st.queue)
    && st.numEvents == |st.queue|
    && (forall t :: InOnePlace(st, t))
    && NoncesDiffer(st)
    && (forall i, j :: 0 <= i < j < |st.fired| ==> st.fired[i].token != st.fired[j].token)
    && (forall i :: 0 <= i < |st.fired| ==> !TimeLess(st.fired[i].now, st.fired[i].token.time))
    && SleepInv(st)
  }

  /** No two tokens, drawn or registered, have one nonce. */
  ghost predicate NoncesDiffer(st: TimerState) {
    && st.drawn !! st.registered
    && (forall t :: t in st.drawn + st.registered ==> t.nonce < st.nonce)
    && (forall t, u :: t in st.drawn + st.registered && u in st.drawn + st.registered && t.nonce == u.nonce ==> t == u)
  }

  /** A sleeping timer thread sleeps no longer than to the first deadline, unless a register call
      still owes it a signal; after a shutdown it does not sleep. */
  predicate SleepInv(st: TimerState) {
    && (st.shutdown ==> !st.sleeper.Sleeping? && !st.sleeper.SleepingUntil?)
    && (st.sleeper.Sleeping? && st.queue != [] ==> st.triggers > 0)
    && (st.sleeper.SleepingUntil? && st.queue != [] && TimeLess(st.queue[0].token.time, st.sleeper.deadline) ==>
          st.triggers > 0)
  }

  lemma InitialInv(st: TimerState)
    requires Initial(st)
    ensures Inv(st)
  {
    forall t ensures InOnePlace(st, t) { }
  }

  // ---------- the queue operations ----------

  lemma {:induction false} InsertKeeps(queue: seq<Entry>, e: Entry)
    requires Sorted(queue) && !Pending(queue, e.token)
    ensures Sorted(Insert(queue, e)) && |Insert(queue, e)| == |queue| + 1
    ensures forall t :: Pending(Insert(queue, e), t) <==> t == e.token || Pending(queue, t)
    ensures Insert(queue, e)[0] == e || (queue != [] && Insert(queue, e)[0] == queue[0])
  {
    if queue == [] {
      assert Insert(queue, e)[0] == e;
    } else if TokenLess(e.token, queue[0].token) {
      var r := [e] + queue;
      assert forall i :: 0 <= i < |queue| ==> r[i + 1] == queue[i];
      assert r[0] == e;
    } else {
      var tail := queue[1..];
      assert forall i :: 0 <= i < |tail| ==> tail[i] == queue[i + 1];
      assert queue[0].token != e.token;
      InsertKeeps(tail, e);
      var r := [queue[0]] + Insert(tail, e);
      assert forall i :: 0 <= i < |tail| + 1 ==> r[i + 1] == Insert(tail, e)[i];
      forall j | 1 <= j < |r| ensures TokenLess(queue[0].token, r[j].token) {
        assert Pending(Insert(tail, e), r[j].token);
      }
      forall t ensures Pending(r, t) <==> t == e.token || Pending(queue, t) {
        assert Pending(r, t) <==> t == r[0].token || Pending(Insert(tail, e), t) by { PendingCons(r, t); }
        PendingCons(queue, t);
      }
    }
  }

  lemma PendingCons(queue: seq<Entry>, t: Token)
    requires queue != []
    ensures Pending(queue, t) <==> queue[0].token == t || Pending(queue[1..], t)
  {
    if Pending(queue[1..], t) {
      var i :| 0 <= i < |queue[1..]| && queue[1..][i].token == t;
      assert queue[i + 1].token == t;
    }
    if Pending(queue, t) && queue[0].token != t {
      var i :| 0 <= i < |queue| && queue[i].token == t;
      assert queue[1..][i - 1].token == t;
    }
  }

  lemma {:induction false} WithoutKeeps(queue: seq<Entry>, t: Token)
    requires Sorted(queue) && Pending(queue, t)
    ensures Sorted(Without(queue, t)) && |Without(queue, t)| == |queue| - 1
    ensures forall u :: Pending(Without(queue, t), u) <==> u != t && Pending(queue, u)
    ensures Without(queue, t) != [] ==> !TimeLess(Without(queue, t)[0].token.time, queue[0].token.time)
  {
    var tail := queue[1..];
    assert forall i :: 0 <= i < |tail| ==> tail[i] == queue[i + 1];
    forall u { PendingCons(queue, u); }
    if queue[0].token == t {
      forall u | Pending(tail, u) ensures u != t {
        var i :| 0 <= i < |tail| && tail[i].token == u;
      }
    } else {
      WithoutKeeps(tail, t);
      var r := [queue[0]] + Without(tail, t);
      assert r[1..] == Without(tail, t);
      forall u { PendingCons(r, u); }
      forall j | 1 <= j < |r| ensures TokenLess(queue[0].token, r[j].token) {
        assert r[j] == Without(tail, t)[j - 1];
        assert Pending(Without(tail, t), r[j].token);
      }
    }
  }

  /** In a sorted queue the front that fires is everything that is due. */
  lemma DueIsAllDue(queue: seq<Entry>, now: Time)
    requires Sorted(queue)
    ensures forall i :: 0 <= i < |queue| ==> (i < DueCount(queue, now) <==> !TimeLess(now, queue[i].token.time))
    ensures forall i :: 0 <= i < |queue| && IsTime(now) && IsTime(queue[i].token.time) ==>
              (i < DueCount(queue, now) <==> Micros(queue[i].token.time) <= Micros(now))
  {
    forall i | 0 <= i < |queue| && IsTime(now) && IsTime(queue[i].token.time)
      ensures i < DueCount(queue, now) <==> Micros(queue[i].token.time) <= Micros(now)
    {
      TimeLessIsEarlier(now, queue[i].token.time);
    }
  }

  // ---------- every step keeps the invariant ----------

  lemma DrawKeepsInv(st: TimerState, time: Time)
    requires Inv(st)
    ensures Inv(DoDraw(st, time))
  {
    var st' := DoDraw(st, time);
    assert NewToken(st, time) !in st.drawn + st.registered;
    forall t ensures InOnePlace(st', t) {
      assert InOnePlace(st, t);
      assert HasFired(st', t) <==> HasFired(st, t);
    }
  }

  lemma RegisterKeepsInv(st: TimerState, token: Token, callback: nat)
    requires Inv(st) && token in st.drawn
    ensures Inv(DoRegister(st, token, callback))
  {
    var st' := DoRegister(st, token, callback);
    var e := Entry(token, callback);
    assert st'.drawn + st'.registered == st.drawn + st.registered;
    assert InOnePlace(st, token);
    InsertKeeps(st.queue, e);
    forall t ensures InOnePlace(st', t) {
      assert InOnePlace(st, t);
      assert HasFired(st', t) <==> HasFired(st, t);
    }
  }

  lemma CancelKeepsInv(st: TimerState, t: Token)
    requires Inv(st)
    ensures Inv(DoCancel(st, t))
  {
    var st' := DoCancel(st, t);
    if Pending(st.queue, t) {
      WithoutKeeps(st.queue, t);
      forall u ensures InOnePlace(st', u) {
        assert InOnePlace(st, u);
        assert HasFired(st', u) <==> HasFired(st, u);
      }
    }
  }

  lemma PendingSplit(queue: seq<Entry>, n: nat, t: Token)
    requires Sorted(queue) && n <= |queue|
    ensures Pending(queue, t) <==> Pending(queue[..n], t) || Pending(queue[n..], t)
    ensures !(Pending(queue[..n], t) && Pending(queue[n..], t))
  {
    var front, rest := queue[..n], queue[n..];
    if Pending(queue, t) {
      var i :| 0 <= i < |queue| && queue[i].token == t;
      if i < n { assert front[i].token == t; } else { assert rest[i - n].token == t; }
    }
    if Pending(front, t) {
      var i :| 0 <= i < |front| && front[i].token == t;
      assert queue[i].token == t;
      forall j | 0 <= j < |rest| ensures rest[j].token != t {
        assert TokenLess(queue[i].token, queue[n + j].token);
      }
    }
    if Pending(rest, t) {
      var j :| 0 <= j < |rest| && rest[j].token == t;
      assert queue[n + j].token == t;
    }
  }

  lemma FiredSplit(st: TimerState, now: Time, t: Token)
    ensures HasFired(DoCheck(st, now), t) <==> HasFired(st, t) || Pending(st.queue[..DueCount(st.queue, now)], t)
  {
    var front := st.queue[..DueCount(st.queue, now)];
    var st' := DoCheck(st, now);
    assert forall i :: 0 <= i < |st.fired| ==> st'.fired[i] == st.fired[i];
    assert forall i :: 0 <= i < |front| ==> st'.fired[|st.fired| + i].token == front[i].token;
    if Pending(front, t) {
      var i :| 0 <= i < |front| && front[i].token == t;
      assert st'.fired[|st.fired| + i].token == t;
    }
    if HasFired(st, t) {
      var i :| 0 <= i < |st.fired| && st.fired[i].token == t;
      assert st'.fired[i].token == t;
    }
    if HasFired(st', t) {
      var i :| 0 <= i < |st'.fired| && st'.fired[i].token == t;
      if i < |st.fired| {
        assert st.fired[i].token == t;
      } else {
        assert front[i - |st.fired|].token == t;
      }
    }
  }

  lemma CheckKeepsInv(st: TimerState, now: Time)
    requires Inv(st)
    ensures Inv(DoCheck(st, now))
  {
    var st' := DoCheck(st, now);
    var n := DueCount(st.queue, now);
    forall t ensures InOnePlace(st', t) {
      assert InOnePlace(st, t);
      PendingSplit(st.queue, DueCount(st.queue, now), t);
      FiredSplit(st, now, t);
    }
    forall i, j | 0 <= i < j < |st'.fired| ensures st'.fired[i].token != st'.fired[j].token {
      if j >= |st.fired| {
        var t := st'.fired[j].token;
        assert t == st.queue[j - |st.fired|].token;
        assert InOnePlace(st, t);
        assert Pending(st.queue, t);
        if i < |st.fired| {
          assert st.fired[i].token == t ==> HasFired(st, t);
        } else {
          assert TokenLess(st.queue[i - |st.fired|].token, st.queue[j - |st.fired|].token);
        }
      }
    }
  }

  lemma StepKeepsInv(st: TimerState, p: Step)
    requires Inv(st) && Enabled(st, p)
    ensures Inv(Apply(st, p))
  {
    match p
    case Draw(time) => DrawKeepsInv(st, time);
    case Register(t, callback) => RegisterKeepsInv(st, t, callback);
    case Cancel(t) => CancelKeepsInv(st, t);
    case CheckTimer(now) => CheckKeepsInv(st, now);
    case _ =>
      forall t ensures InOnePlace(Apply(st, p), t) {
        assert InOnePlace(st, t);
        assert HasFired(Apply(st, p), t) <==> HasFired(st, t);
      }
  }

  lemma {:induction false} RunKeepsInv(st: TimerState, steps: seq<Step>, st': TimerState)
    requires Inv(st) && Run(st, steps, st')
    ensures Inv(st')
    ensures st.cancelled <= st'.cancelled && st.registered <= st'.registered && st.fired <= st'.fired
    decreases |steps|
  {
    if steps != [] {
      StepKeepsInv(st, steps[0]);
      RunKeepsInv(Apply(st, steps[0]), steps[1..], st');
    }
  }

  // ---------- what holds in every run ----------

  predicate Reachable(start: TimerState, steps: seq<Step>, st: TimerState) {
    Initial(start) && Run(start, steps, st)
  }

  /** Every registered token is in exactly one of pending, fired and cancelled, the event counter
      is the number of pending ones, which stand in order of time and nonce, and no token fired
      twice or before its time. */
  lemma RunAccounts(start: TimerState, steps: seq<Step>, st: TimerState)
    requires Reachable(start, steps, st)
    ensures forall t :: InOnePlace(st, t)
    ensures st.numEvents == |st.queue|
    ensures forall i, j :: 0 <= i < j < |st.fired| ==> st.fired[i].token != st.fired[j].token
    ensures forall i :: 0 <= i < |st.fired| ==> NoLater(st.fired[i].token.time, st.fired[i].now)
    ensures forall i, j :: 0 <= i < j < |st.queue| ==> ComesFirst(st.queue[i].token, st.queue[j].token)
  {
    InitialInv(start);
    RunKeepsInv(start, steps, st);
    forall i, j | 0 <= i < j < |st.queue| && IsTime(st.queue[i].token.time) && IsTime(st.queue[j].token.time)
      ensures ComesFirst(st.queue[i].token, st.queue[j].token)
    {
      TokenLessComesFirst(st.queue[i].token, st.queue[j].token);
    }
  }

  /** What is pending or has fired does so with the callback it was registered with. */
  lemma CallbackAsRegistered(start: TimerState, steps: seq<Step>, st: TimerState)
    requires Reachable(start, steps, st)
    ensures forall e: Entry :: e in st.queue ==> Register(e.token, e.callback) in steps
    ensures forall f: Firing :: f in st.fired ==> Register(f.token, f.callback) in steps
  {
    RunCallbacks(start, steps, st);
  }

  lemma {:induction false} RunCallbacks(st: TimerState, steps: seq<Step>, st': TimerState)
    requires Run(st, steps, st')
    ensures forall e: Entry :: e in st'.queue ==> e in st.queue || Register(e.token, e.callback) in steps
    ensures forall f: Firing :: f in st'.fired ==>
              f in st.fired || Entry(f.token, f.callback) in st.queue || Register(f.token, f.callback) in steps
    decreases |steps|
  {
    if steps != [] {
      StepCallbacks(st, steps[0]);
      RunCallbacks(Apply(st, steps[0]), steps[1..], st');
    }
  }

  lemma StepCallbacks(st: TimerState, p: Step)
    requires Enabled(st, p)
    ensures var st' := Apply(st, p);
            && (forall e: Entry :: e in st'.queue ==> e in st.queue || p == Register(e.token, e.callback))
            && (forall f: Firing :: f in st'.fired ==> f in st.fired || Entry(f.token, f.callback) in st.queue)
  {
    match p
    case Register(t, callback) => InsertHolds(st.queue, Entry(t, callback));
    case Cancel(t) => WithoutHolds(st.queue, t);
    case _ =>
  }

  lemma {:induction false} InsertHolds(queue: seq<Entry>, e: Entry)
    ensures forall x :: x in Insert(queue, e) ==> x == e || x in queue
  {
    if queue != [] { InsertHolds(queue[1..], e); }
  }

  lemma {:induction false} WithoutHolds(queue: seq<Entry>, t: Token)
    ensures forall x :: x in Without(queue, t) ==> x in queue
  {
    if queue != [] { WithoutHolds(queue[1..], t); }
  }

  /** The uniqueness the stage asserts on registering, whatever happens between the drawing of a
      nonce and the insertion: a token in a thread's hand is not pending, and never was registered;
      and no token is made twice. */
  lemma NewTokenIsUnique(start: TimerState, steps: seq<Step>, st: TimerState)
    requires Reachable(start, steps, st)
    ensures forall t :: t in st.drawn ==> !Pending(st.queue, t) && t !in st.registered && !HasFired(st, t)
    ensures forall time :: NewToken(st, time) !in st.drawn && NewToken(st, time) !in st.registered
  {
    InitialInv(start);
    RunKeepsInv(start, steps, st);
    forall t | t in st.drawn ensures !Pending(st.queue, t) && t !in st.registered && !HasFired(st, t) {
      assert InOnePlace(st, t);
    }
    forall time ensures NewToken(st, time) !in st.drawn && NewToken(st, time) !in st.registered {
      assert NewToken(st, time).nonce == st.nonce;
    }
  }

  /** A check fires all that is due and nothing else, in token order. */
  lemma CheckFiresDue(start: TimerState, steps: seq<Step>, st: TimerState, now: Time)
    requires Reachable(start, steps, st)
    ensures var st' := DoCheck(st, now);
            var batch := st'.fired[|st.fired|..];
            && st.fired <= st'.fired
            && (forall t: Token :: IsTime(now) && IsTime(t.time) ==>
                  (Pending(st.queue, t) && Micros(t.time) <= Micros(now) <==> HasFired(st', t) && !HasFired(st, t)))
            && (forall i, j :: 0 <= i < j < |batch| ==> ComesFirst(batch[i].token, batch[j].token))
  {
    BatchInOrder(start, steps, st, now);
    forall t: Token | IsTime(now) && IsTime(t.time)
      ensures Pending(st.queue, t) && Micros(t.time) <= Micros(now) <==>
              HasFired(DoCheck(st, now), t) && !HasFired(st, t)
    {
      TimeLessIsEarlier(now, t.time);
      FiresWhenDue(start, steps, st, now);
    }
  }

  lemma BatchInOrder(start: TimerState, steps: seq<Step>, st: TimerState, now: Time)
    requires Reachable(start, steps, st)
    ensures var batch := DoCheck(st, now).fired[|st.fired|..];
            forall i, j :: 0 <= i < j < |batch| ==> ComesFirst(batch[i].token, batch[j].token)
  {
    InitialInv(start);
    RunKeepsInv(start, steps, st);
    var batch := DoCheck(st, now).fired[|st.fired|..];
    forall i, j | 0 <= i < j < |batch| && IsTime(batch[i].token.time) && IsTime(batch[j].token.time)
      ensures ComesFirst(batch[i].token, batch[j].token)
    {
      assert batch[i].token == st.queue[i].token && batch[j].token == st.queue[j].token;
      TokenLessComesFirst(batch[i].token, batch[j].token);
    }
  }

  lemma FiresWhenDue(start: TimerState, steps: seq<Step>, st: TimerState, now: Time)
    requires Reachable(start, steps, st)
    ensures var st' := DoCheck(st, now);
            forall t :: Pending(st.queue, t) && !TimeLess(now, t.time) <==> HasFired(st', t) && !HasFired(st, t)
  {
    InitialInv(start);
    RunKeepsInv(start, steps, st);
    var st' := DoCheck(st, now);
    var n := DueCount(st.queue, now);
    DueIsAllDue(st.queue, now);
    forall t ensures Pending(st.queue, t) && !TimeLess(now, t.time) <==> HasFired(st', t) && !HasFired(st, t) {
      PendingSplit(st.queue, DueCount(st.queue, now), t);
      FiredSplit(st, now, t);
      assert InOnePlace(st, t);
      if Pending(st.queue[..n], t) {
        var i :| 0 <= i < |st.queue[..n]| && st.queue[..n][i].token == t;
        assert st.queue[i].token == t;
      }
      if Pending(st.queue, t) && !TimeLess(now, t.time) {
        var i :| 0 <= i < |st.queue| && st.queue[i].token == t;
        assert st.queue[..n][i].token == t;
      }
    }
  }

  /** Cancelling succeeds exactly on pending tokens, and what was cancelled never fires, nor
      becomes pending again, in any continuation. */
  lemma CancelledNeverFires(start: TimerState, before: seq<Step>, st: TimerState, t: Token,
                            after: seq<Step>, st': TimerState)
    requires Reachable(start, before, st) && Run(DoCancel(st, t), after, st')
    ensures t in DoCancel(st, t).cancelled <==> Pending(st.queue, t) || t in st.cancelled
    ensures Pending(st.queue, t) ==> !HasFired(st', t) && !Pending(st'.queue, t)
  {
    InitialInv(start);
    RunKeepsInv(start, before, st);
    CancelKeepsInv(st, t);
    RunKeepsInv(DoCancel(st, t), after, st');
    assert InOnePlace(st', t);
  }

  /** After a check nothing due is left; unless the stage shuts down, the timer thread sleeps to the
      earliest time pending, which is still to come, or without end if nothing is. */
  lemma SleepsToTheFirst(start: TimerState, steps: seq<Step>, st: TimerState, now: Time)
    requires Reachable(start, steps, st)
    ensures var st' := DoCheck(st, now);
            && (st'.sleeper.Stopped? <==> st.shutdown)
            && (st'.sleeper.Sleeping? ==> st'.queue == [])
            && (st'.sleeper.SleepingUntil? ==>
                  && (exists e: Entry :: e in st'.queue && e.token.time == st'.sleeper.deadline)
                  && (forall e: Entry :: e in st'.queue ==> NoLater(st'.sleeper.deadline, e.token.time)))
            && (forall e: Entry :: e in st'.queue && IsTime(now) && IsTime(e.token.time) ==> Micros(now) < Micros(e.token.time))
  {
    InitialInv(start);
    RunKeepsInv(start, steps, st);
    var st' := DoCheck(st, now);
    var n := DueCount(st.queue, now);
    DueIsAllDue(st.queue, now);
    forall e: Entry | e in st'.queue
      ensures IsTime(now) && IsTime(e.token.time) ==> Micros(now) < Micros(e.token.time)
      ensures st'.queue != [] && NoLater(st'.queue[0].token.time, e.token.time)
    {
      var i :| 0 <= i < |st'.queue| && st'.queue[i] == e;
      assert st.queue[n + i] == e && st.queue[n] == st'.queue[0];
      if IsTime(now) && IsTime(e.token.time) { TimeLessIsEarlier(now, e.token.time); }
      if i > 0 && IsTime(e.token.time) && IsTime(st'.queue[0].token.time) {
        TokenLessComesFirst(st'.queue[0].token, e.token);
      }
    }
    if st'.queue != [] { assert st'.queue[0] in st'.queue; }
  }

  /** A timer thread that is owed no signal does not sleep past any time pending, nor without end
      while one is. */
  lemma NeverOversleeps(start: TimerState, steps: seq<Step>, st: TimerState)
    requires Reachable(start, steps, st) && st.queue != [] && st.triggers == 0
    ensures !st.sleeper.Sleeping?
    ensures st.sleeper.SleepingUntil? ==>
              forall e: Entry :: e in st.queue ==> NoLater(st.sleeper.deadline, e.token.time)
  {
    InitialInv(start);
    RunKeepsInv(start, steps, st);
    if st.sleeper.SleepingUntil? {
      var first := st.queue[0];
      forall e: Entry | e in st.queue ensures NoLater(st.sleeper.deadline, e.token.time) {
        var i :| 0 <= i < |st.queue| && st.queue[i] == e;
        assert i > 0 ==> TokenLess(first.token, e.token);
        assert !TimeLess(e.token.time, st.sleeper.deadline);
        if IsTime(e.token.time) && IsTime(st.sleeper.deadline) {
          TimeLessIsEarlier(e.token.time, st.sleeper.deadline);
        }
      }
    }
  }

  /** A timer thread asleep past the first deadline is always about to be signalled. */
  lemma NoMissedDeadline(start: TimerState, steps: seq<Step>, st: TimerState)
    requires Reachable(start, steps, st) && st.queue != []
    requires st.sleeper.Sleeping? || (st.sleeper.SleepingUntil? && TimeLess(st.queue[0].token.time, st.sleeper.deadline))
    ensures !st.shutdown && Enabled(st, Trigger) && Apply(st, Trigger).sleeper.Awake?
  {
    InitialInv(start);
    RunKeepsInv(start, steps, st);
  }

  // ---------- the stage ----------

  /** An entry not before the one at `i` goes in after it. */
  lemma InsertPast(queue: seq<Entry>, i: nat, e: Entry)
    requires i < |queue| && !TokenLess(e.token, queue[i].token)
    ensures queue[..i] + Insert(queue[i..], e) == queue[..i + 1] + Insert(queue[i + 1..], e)
  {
    assert queue[i..][1..] == queue[i + 1..];
    Regroup(queue, i, Insert(queue[i + 1..], e));
  }

  lemma Regroup<T>(s: seq<T>, i: nat, rest: seq<T>)
    requires i < |s|
    ensures s[..i] + ([s[i]] + rest) == s[..i + 1] + rest
  {
  }

  lemma InsertHere(queue: seq<Entry>, e: Entry)
    requires queue == [] || TokenLess(e.token, queue[0].token)
    ensures Insert(queue, e) == [e] + queue
  {
  }

  class TimerStage {
    var timerQueue: seq<Entry>
    var numEvents: int
    var shutdown: bool
    var nonceCounter: nat
    ghost var drawn: set<Token>
    ghost var sleeper: Sleeper
    ghost var triggers: nat
    ghost var registered: set<Token>
    ghost var fired: seq<Firing>
    ghost var cancelled: set<Token>

    ghost function View(): TimerState
      reads this
    {
      TimerState(timerQueue, numEvents, shutdown, nonceCounter, drawn, sleeper, triggers, registered, fired, cancelled)
    }

    constructor ()
      ensures Initial(View())
    {
      timerQueue, numEvents, shutdown, nonceCounter := [], 0, false, 0;
      drawn, sleeper, triggers, registered, fired, cancelled := {}, Awake, 0, {}, [], {};
    }

    /** The ordered insert of `register_timer`. */
    method InsertEntry(e: Entry)
      modifies `timerQueue
      ensures timerQueue == Insert(old(timerQueue), e)
    {
      var i := 0;
      while i < |timerQueue| && !TokenLess(e.token, timerQueue[i].token)
        invariant timerQueue == old(timerQueue) && i <= |timerQueue|
        invariant timerQueue[..i] + Insert(timerQueue[i..], e) == Insert(timerQueue, e)
      {
        InsertPast(timerQueue, i, e);
        i := i + 1;
      }
      InsertHere(timerQueue[i..], e);
      timerQueue := timerQueue[..i] + ([e] + timerQueue[i..]);
    }

    /** `TimerToken(time)` with `next_nonce`, under the nonce mutex. */
    method MakeToken(time: Time) returns (token: Token)
      requires Enabled(View(), Draw(time))
      modifies this
      ensures View() == DoDraw(old(View()), time) && token == NewToken(old(View()), time)
    {
      token := Token(time, nonceCounter);
      nonceCounter := nonceCounter + 1;
      drawn := drawn + {token};
    }

    /** `register_timer` under the timer mutex. */
    method RegisterTimer(token: Token, callback: nat) returns (checkTimer: bool)
      requires Enabled(View(), Register(token, callback))
      modifies this
      ensures View() == DoRegister(old(View()), token, callback)
      ensures checkTimer <==> timerQueue[0] == Entry(token, callback)
    {
      InsertEntry(Entry(token, callback));
      numEvents := numEvents + 1;
      drawn := drawn - {token};
      registered := registered + {token};
      checkTimer := timerQueue[0] == Entry(token, callback);
      if checkTimer { triggers := triggers + 1; }
    }

    method CancelTimer(token: Token) returns (success: bool)
      modifies this
      ensures View() == DoCancel(old(View()), token) && success == Pending(old(timerQueue), token)
    {
      success := false;
      var i := 0;
      while i < |timerQueue| && timerQueue[i].token != token
        invariant i <= |timerQueue|
        invariant forall k :: 0 <= k < i ==> timerQueue[k].token != token
        invariant timerQueue[..i] + Without(timerQueue[i..], token) == Without(timerQueue, token)
      {
        assert timerQueue[..i] + [timerQueue[i]] == timerQueue[..i + 1];
        assert timerQueue[i..][1..] == timerQueue[i + 1..];
        i := i + 1;
      }
      if i < |timerQueue| {
        success := true;
        assert timerQueue[i..][1..] == timerQueue[i + 1..];
        timerQueue := timerQueue[..i] + timerQueue[i + 1..];
        numEvents := numEvents - 1;
        cancelled := cancelled + {token};
      }
    }

    /** The first loop of `check_timer`: collect and erase what is due. */
    method TakeDue(now: Time) returns (done: seq<Entry>)
      modifies `timerQueue
      ensures |done| == DueCount(old(timerQueue), now)
      ensures done == old(timerQueue)[..|done|] && timerQueue == old(timerQueue)[|done|..]
    {
      done := [];
      var last := 0;
      while last < |timerQueue| && !TimeLess(now, timerQueue[last].token.time)
        invariant last <= |timerQueue| && done == timerQueue[..last]
        invariant last + DueCount(timerQueue[last..], now) == DueCount(timerQueue, now)
      {
        assert timerQueue[last..][1..] == timerQueue[last + 1..];
        done := done + [timerQueue[last]];
        last := last + 1;
      }
      timerQueue := timerQueue[last..];
    }

    /** The second loop: fire the collected events one by one. */
    method FireAll(done: seq<Entry>, now: Time)
      modifies `numEvents, `fired
      ensures numEvents == old(numEvents) - |done|
      ensures fired == old(fired) + Firings(done, now)
    {
      for k := 0 to |done|
        invariant numEvents == old(numEvents) - k
        invariant fired == old(fired) + Firings(done[..k], now)
      {
        assert Firings(done[..k + 1], now) == Firings(done[..k], now) + [Firing(done[k].token, done[k].callback, now)];
        fired := fired + [Firing(done[k].token, done[k].callback, now)];
        numEvents := numEvents - 1;
      }
      assert done[..|done|] == done;
    }

    /** One turn of `check_timer`, from taking the mutex or waking up to the next wait. */
    method CheckTimerOnce(now: Time)
      requires Enabled(View(), CheckTimer(now))
      modifies this
      ensures View() == DoCheck(old(View()), now)
    {
      var done := TakeDue(now);
      FireAll(done, now);
      sleeper := if shutdown then Stopped
                 else if timerQueue == [] then Sleeping
                 else SleepingUntil(timerQueue[0].token.time);
    }
  }
}
