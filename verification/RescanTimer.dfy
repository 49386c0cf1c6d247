/** The deferred second discovery: one timer thread, one deadline, one mutex and its condition variable. */
module RescanTimer {
  import opened Common
  import Ownership

  type Conn = nat

  /** `SECOND_DISCOVERY_DELAY` in milliseconds. */
  const DELAY: nat := 2200

  /** Where a pipe worker is in `schedule_second_discovery`. */
  datatype Caller =
    | CheckingFlag
    | Swapping
    | Spawning
    | Undoing
    | Arming
    | Storing        // holds the mutex
    | Notifying      // holds it, with the deadline stored
    | Leaving        // holds it, with the timer notified

  /** Where a timer thread is in its loop. */
  datatype Timer =
    | Ready                                     // wants the mutex
    | Looking                                   // holds it
    | SleepingUntimed
    | SleepingTimed(deadline: nat)
    | Firing                                    // released it, with the arm consumed; loads the lease count
    | CheckingClaims                            // saw a lease; loads the claim count
    | Requesting                                // saw no blocking

  datatype Owner = Worker(c: Conn) | TimerThread(t: nat)

  /** An expiry: which arm it consumed, that arm's deadline, and when. */
  datatype Fire = Fire(arm: nat, deadline: nat, at: nat)

  /** A finished call: what it returned, and how many timer threads existed then. */
  datatype Return = Return(result: bool, threads: nat)

  datatype Shared = Shared(now: nat, started: bool, armed: Option<nat>, mutex: Option<Owner>,
                           counters: Ownership.Counters)

  /**
   The deadlines that were armed, the expiries, the answers of the calls, and what became of the expiries: requests for
   discovery, or none because blocking held.
   */
  datatype History = History(arms: seq<nat>, fires: seq<Fire>, answers: seq<Return>, requests: nat, declined: nat)

  datatype State = State(callers: map<Conn, Caller>, timers: seq<Timer>, shared: Shared, history: History)

  const QUIET := Ownership.Counters(0, 0)

  const INIT := State(map[], [], Shared(0, false, None, None, QUIET), History([], [], [], 0, 0))

  datatype Step =
    | Tick
    | Call(c: Conn)
    | CheckFlag(c: Conn)
    | Swap(c: Conn)
    | Spawn(c: Conn, succeeds: bool)
    | Undo(c: Conn)
    | Lock(c: Conn)
    | Store(c: Conn)
    | Notify(c: Conn, woken: Option<nat>)
    | Leave(c: Conn)
    | TimerLock(t: nat)
    | TimerLook(t: nat)
    | TimerWake(t: nat)
    | LoadLeases(t: nat)
    | LoadClaims(t: nat)
    | Request(t: nat)
    | ChangeOwnership(next: Ownership.Counters)

  /** An expiry that has not been answered yet. */
  predicate DecidingTimer(timer: Timer) {
    timer == Firing || timer == CheckingClaims || timer == Requesting
  }

  predicate Asleep(timer: Timer) {
    timer.SleepingUntimed? || timer.SleepingTimed?
  }

  predicate OfCaller(step: Step) {
    !step.Tick? && !step.ChangeOwnership? && !OfTimer(step)
  }

  predicate OfTimer(step: Step) {
    step.TimerLock? || step.TimerLook? || step.TimerWake? || step.LoadLeases? || step.LoadClaims? || step.Request?
  }

  /** `serialized`: every caller holds the ownership transition lock, so calls never overlap. */
  predicate Enabled(s: State, step: Step, serialized: bool) {
    if step.Tick? || step.ChangeOwnership? then true
    else if step.Call? then step.c !in s.callers && (serialized ==> s.callers == map[])
    else if OfCaller(step) then
      && step.c in s.callers
      && var caller := s.callers[step.c];
      match step
      case CheckFlag(_) => caller == CheckingFlag
      case Swap(_) => caller == Swapping
      case Spawn(_, _) => caller == Spawning
      case Undo(_) => caller == Undoing
      case Lock(_) => caller == Arming && s.shared.mutex == None
      case Store(_) => caller == Storing
      case Notify(_, woken) =>
        && caller == Notifying
        && (match woken
            case Some(t) => t < |s.timers| && Asleep(s.timers[t])
            case None => forall t :: 0 <= t < |s.timers| ==> !Asleep(s.timers[t]))
      case _ => caller == Leaving
    else
      && step.t < |s.timers|
      && var timer := s.timers[step.t];
      match step
      case TimerLock(_) => timer == Ready && s.shared.mutex == None
      case TimerLook(_) => timer == Looking
      case TimerWake(_) => Asleep(timer)
      case LoadLeases(_) => timer == Firing
      case LoadClaims(_) => timer == CheckingClaims
      case _ => timer == Requesting
  }

  function CallersAfter(s: State, step: Step, serialized: bool): map<Conn, Caller>
    requires Enabled(s, step, serialized)
  {
    match step
    case Call(c) => s.callers[c := CheckingFlag]
    case CheckFlag(c) => s.callers[c := if s.shared.started then Arming else Swapping]
    case Swap(c) => s.callers[c := if s.shared.started then Arming else Spawning]
    case Spawn(c, succeeds) => s.callers[c := if succeeds then Arming else Undoing]
    case Undo(c) => s.callers - {c}
    case Lock(c) => s.callers[c := Storing]
    case Store(c) => s.callers[c := Notifying]
    case Notify(c, _) => s.callers[c := Leaving]
    case Leave(c) => s.callers - {c}
    case _ => s.callers
  }

  /** A looking timer: sleep without a deadline, sleep until it, or consume it. */
  function LookAt(shared: Shared): Timer {
    match shared.armed
    case None => SleepingUntimed
    case Some(deadline) => if shared.now < deadline then SleepingTimed(deadline) else Firing
  }

  function TimersAfter(s: State, step: Step, serialized: bool): seq<Timer>
    requires Enabled(s, step, serialized)
  {
    match step
    case Spawn(_, succeeds) => if succeeds then s.timers + [Ready] else s.timers
    case Notify(_, woken) => if woken.Some? then s.timers[woken.value := Ready] else s.timers
    case TimerLock(t) => s.timers[t := Looking]
    case TimerLook(t) => s.timers[t := LookAt(s.shared)]
    case TimerWake(t) => s.timers[t := Ready]
    case LoadLeases(t) => s.timers[t := if s.shared.counters.leases > 0 then CheckingClaims else Requesting]
    case LoadClaims(t) => s.timers[t := if s.shared.counters.claims == 0 then Ready else Requesting]
    case Request(t) => s.timers[t := Ready]
    case _ => s.timers
  }

  function SharedAfter(shared: Shared, step: Step): Shared {
    match step
    case Tick => shared.(now := shared.now + 1)
    case ChangeOwnership(counters) => shared.(counters := counters)
    case Swap(_) => shared.(started := true)
    case Undo(_) => shared.(started := false)
    case Lock(c) => shared.(mutex := Some(Worker(c)))
    case Store(_) => shared.(armed := Some(shared.now + DELAY))
    case Leave(_) => shared.(mutex := None)
    case TimerLock(t) => shared.(mutex := Some(TimerThread(t)))
    case TimerLook(_) => shared.(mutex := None, armed := if LookAt(shared).Firing? then None else shared.armed)
    case _ => shared
  }

  function HistoryAfter(s: State, step: Step, serialized: bool): History
    requires Enabled(s, step, serialized)
  {
    var h := s.history;
    match step
    case Undo(_) => h.(answers := h.answers + [Return(false, |s.timers|)])
    case Leave(_) => h.(answers := h.answers + [Return(true, |s.timers|)])
    case Store(_) => h.(arms := h.arms + [s.shared.now + DELAY])
    case TimerLook(_) =>
      if LookAt(s.shared).Firing? && |h.arms| > 0
      then h.(fires := h.fires + [Fire(|h.arms| - 1, s.shared.armed.value, s.shared.now)]) else h
    case LoadClaims(_) => if s.shared.counters.claims == 0 then h.(declined := h.declined + 1) else h
    case Request(_) => h.(requests := h.requests + 1)
    case _ => h
  }

  function Next(s: State, step: Step, serialized: bool): State
    requires Enabled(s, step, serialized)
  {
    State(CallersAfter(s, step, serialized), TimersAfter(s, step, serialized), SharedAfter(s.shared, step),
          HistoryAfter(s, step, serialized))
  }

  ghost predicate IsRun(states: seq<State>, steps: seq<Step>, serialized: bool) {
    && |states| == |steps| + 1 && states[0] == INIT
    && forall i :: 0 <= i < |steps| ==>
         Enabled(states[i], steps[i], serialized) && states[i + 1] == Next(states[i], steps[i], serialized)
  }

  /** One step of a run; with `IsRun` hidden, one step is all there is to look at. */
  lemma RunStep(states: seq<State>, steps: seq<Step>, serialized: bool, i: nat)
    requires IsRun(states, steps, serialized) && i < |states|
    ensures |states| == |steps| + 1 && states[0] == INIT
    ensures i > 0 ==> Enabled(states[i - 1], steps[i - 1], serialized)
    ensures i > 0 ==> states[i] == Next(states[i - 1], steps[i - 1], serialized)
  {
  }

  /** Time passes, ownership changes, calls begin and timers wake, rightly or not, whenever they may. */
  lemma SurroundingsAreFree(s: State, counters: Ownership.Counters, c: Conn, t: nat, serialized: bool)
    ensures Enabled(s, Tick, serialized) && Enabled(s, ChangeOwnership(counters), serialized)
    ensures c !in s.callers && (serialized ==> s.callers == map[]) ==> Enabled(s, Call(c), serialized)
    ensures t < |s.timers| && Asleep(s.timers[t]) ==> Enabled(s, TimerWake(t), serialized)
    ensures Next(s, Tick, serialized).shared.now == s.shared.now + 1
    ensures Next(s, ChangeOwnership(counters), serialized).shared.counters == counters
  {
  }

  // ----- The invariant -----

  predicate OwnsStart(caller: Caller) {
    caller == Spawning || caller == Undoing
  }

  predicate HoldsMutex(caller: Caller) {
    caller == Storing || caller == Notifying || caller == Leaving
  }

  /** The flag covers at most one thread: an existing one, or one that a single caller is about to make or undo. */
  ghost predicate ThreadInv(s: State) {
    && |s.timers| <= 1
    && (|s.timers| == 1 ==> s.shared.started && forall c :: c in s.callers ==> !OwnsStart(s.callers[c]))
    && (forall c :: c in s.callers && OwnsStart(s.callers[c]) ==> s.shared.started)
    && (forall c, d :: c in s.callers && d in s.callers && OwnsStart(s.callers[c]) && OwnsStart(s.callers[d]) ==>
          c == d)
  }

  /** With overlapping calls excluded, the flag also promises the thread to every later caller. */
  ghost predicate PromiseInv(s: State) {
    && (forall c, d :: c in s.callers && d in s.callers ==> c == d)
    && (s.shared.started ==> |s.timers| == 1 || exists c :: c in s.callers && OwnsStart(s.callers[c]))
    && (s.shared.armed.Some? ==> |s.timers| == 1)
    && (forall c :: c in s.callers && (s.callers[c] == Arming || HoldsMutex(s.callers[c])) ==> |s.timers| == 1)
    && (forall r :: r in s.history.answers && r.result ==> r.threads == 1)
  }

  ghost predicate MutexInv(s: State) {
    && (forall c :: c in s.callers ==> (HoldsMutex(s.callers[c]) <==> s.shared.mutex == Some(Worker(c))))
    && (forall t :: 0 <= t < |s.timers| ==> (s.timers[t] == Looking <==> s.shared.mutex == Some(TimerThread(t))))
    && (match s.shared.mutex
        case Some(Worker(c)) => c in s.callers
        case Some(TimerThread(t)) => t < |s.timers|
        case None => true)
  }

  /** The timer sleeps for what is armed: without a deadline if nothing is, until the deadline otherwise. */
  ghost predicate Consistent(s: State) {
    forall t :: 0 <= t < |s.timers| ==>
      match s.timers[t]
      case SleepingUntimed => s.shared.armed == None
      case SleepingTimed(deadline) => s.shared.armed == Some(deadline)
      case _ => true
  }

  ghost predicate SleepInv(s: State) {
    (forall c :: c in s.callers ==> s.callers[c] != Notifying) ==> Consistent(s)
  }

  /** Each expiry consumed an arm of its own, in order, and not before that arm's deadline. */
  ghost predicate FiresInOrder(h: History) {
    && (forall i :: 0 <= i < |h.fires| ==>
          h.fires[i].arm < |h.arms| && h.fires[i].deadline == h.arms[h.fires[i].arm] <= h.fires[i].at)
    && (forall i, j :: 0 <= i < j < |h.fires| ==> h.fires[i].arm < h.fires[j].arm)
  }

  /** The last arm is still armed, with its own deadline, or was consumed by the last expiry. */
  ghost predicate LastArmPending(armed: Option<nat>, h: History) {
    var fired := h.fires != [] && h.fires[|h.fires| - 1].arm == |h.arms| - 1;
    match armed
    case Some(deadline) => h.arms != [] && deadline == h.arms[|h.arms| - 1] && !fired
    case None => h.arms == [] || fired
  }

  ghost predicate ArmInv(armed: Option<nat>, h: History) {
    FiresInOrder(h) && LastArmPending(armed, h)
  }

  ghost predicate Inv(s: State) {
    ThreadInv(s) && MutexInv(s) && SleepInv(s) && ArmInv(s.shared.armed, s.history)
  }

  lemma ThreadKept(s: State, step: Step, serialized: bool)
    requires ThreadInv(s) && Enabled(s, step, serialized)
    ensures ThreadInv(Next(s, step, serialized))
  {
    hide HistoryAfter;
  }

  lemma PromiseKept(s: State, step: Step)
    requires ThreadInv(s) && PromiseInv(s) && Enabled(s, step, true)
    ensures PromiseInv(Next(s, step, true))
  {
    hide LookAt;
    var t := Next(s, step, true);
    FlagPromises(s);
    if t.shared.started && |t.timers| == 0 {
      if step.Swap? {
        assert OwnsStart(t.callers[step.c]);
      } else {
        var c :| c in s.callers && OwnsStart(s.callers[c]);
        assert c in t.callers && OwnsStart(t.callers[c]);
      }
    }
  }

  /** A caller that does not own the start sees a set flag only if the thread exists. */
  lemma FlagPromises(s: State)
    requires PromiseInv(s)
    ensures s.shared.started ==> forall c :: c in s.callers && !OwnsStart(s.callers[c]) ==> |s.timers| == 1
  {
  }

  lemma MutexKeptByCaller(s: State, step: Step, serialized: bool)
    requires MutexInv(s) && Enabled(s, step, serialized) && OfCaller(step)
    ensures MutexInv(Next(s, step, serialized))
  {
    hide HistoryAfter, LookAt;
  }

  lemma MutexKeptByTimer(s: State, step: Step, serialized: bool)
    requires MutexInv(s) && Enabled(s, step, serialized) && !OfCaller(step)
    ensures MutexInv(Next(s, step, serialized))
  {
    hide HistoryAfter;
  }

  lemma MutexKept(s: State, step: Step, serialized: bool)
    requires MutexInv(s) && Enabled(s, step, serialized)
    ensures MutexInv(Next(s, step, serialized))
  {
    hide MutexInv, Enabled, Next;
    if OfCaller(step) {
      MutexKeptByCaller(s, step, serialized);
    } else {
      MutexKeptByTimer(s, step, serialized);
    }
  }

  /** Until a worker stores a new deadline, every sleep stays right. */
  lemma ConsistentKept(s: State, step: Step, serialized: bool)
    requires ThreadInv(s) && MutexInv(s) && Consistent(s) && Enabled(s, step, serialized)
    requires !step.Store? && !step.Notify?
    ensures Consistent(Next(s, step, serialized))
  {
  }

  /** The notification that follows leaves nobody asleep. */
  lemma NotifyMakesConsistent(s: State, step: Step, serialized: bool)
    requires ThreadInv(s) && Enabled(s, step, serialized) && step.Notify?
    ensures Consistent(Next(s, step, serialized))
  {
    var t := Next(s, step, serialized);
    assert forall k :: 0 <= k < |t.timers| ==> !Asleep(t.timers[k]);
  }

  lemma SleepKept(s: State, step: Step, serialized: bool)
    requires ThreadInv(s) && MutexInv(s) && SleepInv(s) && Enabled(s, step, serialized)
    ensures SleepInv(Next(s, step, serialized))
  {
    var t := Next(s, step, serialized);
    if step.Notify? {
      NotifyMakesConsistent(s, step, serialized);
    } else if step.Store? {
      assert t.callers[step.c] == Notifying;
    } else if Consistent(s) {
      ConsistentKept(s, step, serialized);
    } else {
      var c :| c in s.callers && s.callers[c] == Notifying;
      assert t.callers[c] == Notifying;
    }
  }

  lemma StoreKeepsArms(h: History, armed: Option<nat>, deadline: nat)
    requires ArmInv(armed, h)
    ensures ArmInv(Some(deadline), h.(arms := h.arms + [deadline]))
  {
  }

  lemma FireKeepsArms(h: History, deadline: nat, at: nat)
    requires ArmInv(Some(deadline), h) && deadline <= at
    ensures ArmInv(None, h.(fires := h.fires + [Fire(|h.arms| - 1, deadline, at)]))
  {
    if h.fires != [] {
      var last := h.fires[|h.fires| - 1];
      assert last.arm < |h.arms| - 1;
      assert forall i :: 0 <= i < |h.fires| ==> h.fires[i].arm <= last.arm;
    }
  }

  lemma AnArmIsPending(s: State)
    requires ArmInv(s.shared.armed, s.history) && s.shared.armed.Some?
    ensures s.history.arms != []
  {
  }

  lemma SameArms(armed: Option<nat>, h: History, next: History)
    requires ArmInv(armed, h) && next.arms == h.arms && next.fires == h.fires
    ensures ArmInv(armed, next)
  {
  }

  lemma ArmKept(s: State, step: Step, serialized: bool)
    requires ArmInv(s.shared.armed, s.history) && Enabled(s, step, serialized)
    ensures ArmInv(Next(s, step, serialized).shared.armed, Next(s, step, serialized).history)
  {
    hide ArmInv;
    if step.Store? {
      StoreKeepsArms(s.history, s.shared.armed, s.shared.now + DELAY);
    } else if step.TimerLook? && LookAt(s.shared).Firing? {
      AnArmIsPending(s);
      FireKeepsArms(s.history, s.shared.armed.value, s.shared.now);
    } else {
      SameArms(s.shared.armed, s.history, Next(s, step, serialized).history);
    }
  }

  lemma {:induction false} RunKeepsInv(states: seq<State>, steps: seq<Step>, serialized: bool, i: nat)
    requires IsRun(states, steps, serialized) && i < |states|
    ensures Inv(states[i])
  {
    if i > 0 {
      var s, step := states[i - 1], steps[i - 1];
      RunKeepsInv(states, steps, serialized, i - 1);
      ThreadKept(s, step, serialized);
      MutexKept(s, step, serialized);
      SleepKept(s, step, serialized);
      ArmKept(s, step, serialized);
    }
  }

  lemma {:induction false} RunKeepsPromise(states: seq<State>, steps: seq<Step>, i: nat)
    requires IsRun(states, steps, true) && i < |states|
    ensures PromiseInv(states[i])
  {
    if i > 0 {
      RunKeepsPromise(states, steps, i - 1);
      RunKeepsInv(states, steps, true, i - 1);
      PromiseKept(states[i - 1], steps[i - 1]);
    }
  }

  // ----- What every run keeps -----

  /** At most one timer thread ever exists, even when calls overlap. */
  lemma AtMostOneTimer(states: seq<State>, steps: seq<Step>, serialized: bool, i: nat)
    requires IsRun(states, steps, serialized) && i < |states|
    ensures |states[i].timers| <= 1
  {
    RunKeepsInv(states, steps, serialized, i);
  }

  /** Because callers hold the transition lock, a call that returned true left a timer thread behind. */
  lemma TrueMeansATimerExists(states: seq<State>, steps: seq<Step>, i: nat, r: Return)
    requires IsRun(states, steps, true) && i < |states| && r in states[i].history.answers && r.result
    ensures r.threads == 1
  {
    RunKeepsPromise(states, steps, i);
  }

  /**
   No wakeup is lost: with the mutex free and a deadline armed, no timer sleeps without a deadline, and one that
   sleeps with a deadline sleeps for the latest one. As calls do not overlap, that timer exists.
   */
  lemma ArmedIsWatched(states: seq<State>, steps: seq<Step>, serialized: bool, i: nat)
    requires IsRun(states, steps, serialized) && i < |states|
    requires states[i].shared.mutex == None && states[i].shared.armed.Some?
    ensures forall t :: 0 <= t < |states[i].timers| ==>
              var timer := states[i].timers[t];
              timer == Ready || DecidingTimer(timer) || timer == SleepingTimed(states[i].shared.armed.value)
    ensures serialized ==> |states[i].timers| == 1
  {
    RunKeepsInv(states, steps, serialized, i);
    var s := states[i];
    assert forall c :: c in s.callers ==> !HoldsMutex(s.callers[c]);
    assert Consistent(s);
    if serialized {
      RunKeepsPromise(states, steps, i);
    }
  }

  /**
   Arms are not lost and do not stack: the last one is still armed or has expired, expiries consume distinct arms in
   order and never before the deadline of the arm they consume, which is the latest one.
   */
  lemma ArmsAreNotLost(states: seq<State>, steps: seq<Step>, serialized: bool, i: nat)
    requires IsRun(states, steps, serialized) && i < |states|
    ensures FiresInOrder(states[i].history) && LastArmPending(states[i].shared.armed, states[i].history)
    ensures |states[i].history.fires| <= |states[i].history.arms|
  {
    RunKeepsInv(states, steps, serialized, i);
    var h := states[i].history;
    ArmIndexGrows(h, |h.fires|);
  }

  lemma {:induction false} ArmIndexGrows(h: History, n: nat)
    requires FiresInOrder(h) && n <= |h.fires|
    ensures n > 0 ==> h.fires[n - 1].arm >= n - 1
  {
    if n > 1 {
      ArmIndexGrows(h, n - 1);
    }
  }

  /** An expiry consumes the arm that is the latest at that instant. */
  lemma FireConsumesTheLatestArm(states: seq<State>, steps: seq<Step>, serialized: bool, i: nat)
    requires IsRun(states, steps, serialized) && i < |steps|
    requires |states[i + 1].history.fires| > |states[i].history.fires|
    ensures var h := states[i + 1].history;
            var fire := h.fires[|h.fires| - 1];
            && h.arms == states[i].history.arms && fire.arm == |h.arms| - 1
            && fire.deadline <= fire.at == states[i].shared.now
            && states[i].shared.armed == Some(fire.deadline) && states[i + 1].shared.armed == None
  {
    RunKeepsInv(states, steps, serialized, i);
  }

  /** Whether the timer thread has an unanswered expiry. */
  function Deciding(timers: seq<Timer>): nat {
    if timers != [] && DecidingTimer(timers[0]) then 1 else 0
  }

  function Unanswered(s: State): int {
    |s.history.fires| - s.history.requests - s.history.declined - Deciding(s.timers)
  }

  lemma ExpiryStep(s: State, step: Step, serialized: bool)
    requires ThreadInv(s) && ArmInv(s.shared.armed, s.history) && Enabled(s, step, serialized)
    ensures Unanswered(Next(s, step, serialized)) == Unanswered(s)
  {
    hide CallersAfter;
  }

  /** Every expiry led to one request, or to none because blocking held, except one that is still deciding. */
  lemma {:induction false} EveryExpiryIsAnswered(states: seq<State>, steps: seq<Step>, serialized: bool, i: nat)
    requires IsRun(states, steps, serialized) && i < |states|
    ensures var h := states[i].history;
            |h.fires| == h.requests + h.declined + Deciding(states[i].timers)
  {
    if i > 0 {
      hide IsRun, Next, Enabled, ThreadInv, MutexInv, SleepInv, ArmInv, Deciding;
      RunStep(states, steps, serialized, i);
      EveryExpiryIsAnswered(states, steps, serialized, i - 1);
      RunKeepsInv(states, steps, serialized, i - 1);
      ExpiryStep(states[i - 1], steps[i - 1], serialized);
    }
  }

  // ----- What an expiry leads to -----

  /** A request follows a blocking test that saw none: blocking did not hold at its deciding load, step `k`. */
  lemma {:induction false} RequestSawNoBlocking(states: seq<State>, steps: seq<Step>, serialized: bool, i: nat, t: nat)
    returns (k: nat)
    requires IsRun(states, steps, serialized) && i < |states|
    requires t < |states[i].timers| && states[i].timers[t] == Requesting
    ensures k < i && t < |states[k].timers| && steps[k] in {LoadLeases(t), LoadClaims(t)}
    ensures !Ownership.Blocking(states[k].shared.counters)
    ensures forall q :: k < q <= i ==> t < |states[q].timers| && states[q].timers[t] == Requesting
  {
    hide IsRun, CallersAfter, HistoryAfter, SharedAfter;
    RunStep(states, steps, serialized, i);
    var s := states[i - 1];
    if t < |s.timers| && s.timers[t] == Requesting {
      k := RequestSawNoBlocking(states, steps, serialized, i - 1, t);
    } else {
      k := i - 1;
    }
  }

  /** An expiry is declined only after its test saw a lease, at step `k`, and then no claim. */
  lemma {:induction false} DeclineSawBlocking(states: seq<State>, steps: seq<Step>, serialized: bool, i: nat, t: nat)
    returns (k: nat)
    requires IsRun(states, steps, serialized) && i < |states|
    requires t < |states[i].timers| && states[i].timers[t] == CheckingClaims
    ensures k < i && t < |states[k].timers| && steps[k] == LoadLeases(t) && states[k].shared.counters.leases > 0
    ensures forall q :: k < q <= i ==> t < |states[q].timers| && states[q].timers[t] == CheckingClaims
  {
    hide IsRun, CallersAfter, HistoryAfter, SharedAfter;
    RunStep(states, steps, serialized, i);
    var s := states[i - 1];
    if t < |s.timers| && s.timers[t] == CheckingClaims {
      k := DeclineSawBlocking(states, steps, serialized, i - 1, t);
    } else {
      k := i - 1;
    }
  }

  /**
   Requests are counted where they are made, and an expiry is declined exactly where a test that saw a lease sees no
   claim; nothing else counts as either.
   */
  lemma AnswersAreCounted(states: seq<State>, steps: seq<Step>, serialized: bool, i: nat)
    requires IsRun(states, steps, serialized) && i < |steps|
    ensures var h, g := states[i].history, states[i + 1].history;
            && g.requests == h.requests + (if steps[i].Request? then 1 else 0)
            && g.declined ==
                 h.declined + (if steps[i].LoadClaims? && states[i].shared.counters.claims == 0 then 1 else 0)
  {
  }

  /** A test that runs wholly while blocking holds declines, and one that sees no lease at its first load requests. */
  lemma TestFollowsBlocking(states: seq<State>, steps: seq<Step>, serialized: bool, i: nat, t: nat)
    requires IsRun(states, steps, serialized) && i < |steps|
    ensures steps[i] == LoadLeases(t) && states[i].shared.counters.leases <= 0 ==> states[i + 1].timers[t] == Requesting
    ensures steps[i] in {LoadLeases(t), LoadClaims(t)} && Ownership.Blocking(states[i].shared.counters) ==>
              states[i + 1].timers[t] == if steps[i].LoadLeases? then CheckingClaims else Ready
  {
  }

  // ----- Arms and answers -----

  /** Every armed deadline is 2.2 seconds after the instant at which it was stored. */
  lemma {:induction false} ArmWasStored(states: seq<State>, steps: seq<Step>, serialized: bool, i: nat, n: nat)
    returns (k: nat)
    requires IsRun(states, steps, serialized) && i < |states| && n < |states[i].history.arms|
    ensures k < i && steps[k].Store? && |states[k].history.arms| == n
    ensures states[i].history.arms[n] == states[k].shared.now + 2200
  {
    hide IsRun, CallersAfter, TimersAfter, SharedAfter;
    RunStep(states, steps, serialized, i);
    if n < |states[i - 1].history.arms| {
      k := ArmWasStored(states, steps, serialized, i - 1, n);
    } else {
      k := i - 1;
    }
  }

  function TrueAnswers(answers: seq<Return>): nat {
    if answers == [] then 0
    else TrueAnswers(answers[..|answers| - 1]) + if answers[|answers| - 1].result then 1 else 0
  }

  /** A call that has stored its deadline but not returned. */
  predicate HasStored(s: State) {
    && s.shared.mutex.Some? && s.shared.mutex.value.Worker?
    && s.shared.mutex.value.c in s.callers && s.callers[s.shared.mutex.value.c] in {Notifying, Leaving}
  }

  lemma AnswerStep(s: State, step: Step, serialized: bool)
    requires MutexInv(s) && Enabled(s, step, serialized)
    ensures Unreturned(Next(s, step, serialized)) == Unreturned(s)
  {
    hide TimersAfter, LookAt;
    var t := Next(s, step, serialized);
    if step.Undo? || step.Leave? {
      assert t.history.answers[..|t.history.answers| - 1] == s.history.answers;
    }
    if !OfCaller(step) {
      TimerLeavesArms(s, step, serialized);
    }
  }

  lemma TimerLeavesArms(s: State, step: Step, serialized: bool)
    requires MutexInv(s) && Enabled(s, step, serialized) && !OfCaller(step)
    ensures var t := Next(s, step, serialized);
            t.history.arms == s.history.arms && t.history.answers == s.history.answers && HasStored(t) == HasStored(s)
  {
    hide TimersAfter;
  }

  /** Arms less those whose call has answered true, or is about to. */
  function Unreturned(s: State): int {
    |s.history.arms| - TrueAnswers(s.history.answers) - if HasStored(s) then 1 else 0
  }

  /** A call answers true exactly when it armed a deadline: arms and true answers are equally many between calls. */
  lemma {:induction false} TrueMeansArmed(states: seq<State>, steps: seq<Step>, serialized: bool, i: nat)
    requires IsRun(states, steps, serialized) && i < |states|
    ensures |states[i].history.arms| == TrueAnswers(states[i].history.answers) + if HasStored(states[i]) then 1 else 0
  {
    if i > 0 {
      hide IsRun, HasStored, Next, Enabled, ThreadInv, MutexInv, SleepInv, ArmInv;
      RunStep(states, steps, serialized, i);
      TrueMeansArmed(states, steps, serialized, i - 1);
      RunKeepsInv(states, steps, serialized, i - 1);
      AnswerStep(states[i - 1], steps[i - 1], serialized);
    } else {
      assert TrueAnswers([]) == 0;
    }
  }

  /** A call gives up, answering false, only after its own attempt to make the thread failed. */
  lemma {:induction false} FalseMeansNoThread(states: seq<State>, steps: seq<Step>, serialized: bool, i: nat, c: Conn)
    returns (k: nat)
    requires IsRun(states, steps, serialized) && i < |states|
    requires c in states[i].callers && states[i].callers[c] == Undoing
    ensures k < i && steps[k] == Spawn(c, false)
  {
    hide IsRun, TimersAfter, HistoryAfter, SharedAfter;
    RunStep(states, steps, serialized, i);
    if c in states[i - 1].callers && states[i - 1].callers[c] == Undoing {
      k := FalseMeansNoThread(states, steps, serialized, i - 1, c);
    } else {
      k := i - 1;
    }
  }

  /** How many steps a call has before it, at most. */
  function CallRank(caller: Caller): nat {
    match caller
    case CheckingFlag => 8
    case Swapping => 7
    case Spawning => 6
    case Undoing => 5
    case Arming => 4
    case Storing => 3
    case Notifying => 2
    case Leaving => 1
  }

  /** A call is never stuck: unless it waits for the mutex it can make a step, whichever way making a thread ends. */
  lemma CallsMove(s: State, c: Conn, spawned: bool, serialized: bool) returns (step: Step)
    requires c in s.callers && (s.callers[c] == Arming ==> s.shared.mutex == None)
    ensures OfCaller(step) && !step.Call? && step.c == c && Enabled(s, step, serialized)
    ensures s.callers[c] == Spawning ==> step == Spawn(c, spawned)
    ensures c in CallersAfter(s, step, serialized) ==>
              CallRank(CallersAfter(s, step, serialized)[c]) < CallRank(s.callers[c])
  {
    match s.callers[c]
    case CheckingFlag => step := CheckFlag(c);
    case Swapping => step := Swap(c);
    case Spawning => step := Spawn(c, spawned);
    case Undoing => step := Undo(c);
    case Arming => step := Lock(c);
    case Storing => step := Store(c);
    case Notifying =>
      if t: nat :| t < |s.timers| && Asleep(s.timers[t]) {
        step := Notify(c, Some(t));
      } else {
        step := Notify(c, None);
      }
    case Leaving => step := Leave(c);
  }

  // ----- A deadline that has passed is acted on -----

  /** A deadline that has passed is armed, and no call is inside. */
  ghost predicate Due(s: State) {
    s.callers == map[] && s.shared.armed.Some? && s.shared.armed.value <= s.shared.now
  }

  /** How many steps a timer thread is from its next look, that look included. */
  function Distance(timer: Timer): nat {
    match timer
    case Looking => 1
    case Ready => 2
    case CheckingClaims => 4
    case Firing => 5
    case _ => 3
  }

  /** With a deadline due, the thread comes closer to its look with each of its steps, and the look is the expiry. */
  lemma DueStep(s: State, step: Step)
    requires ThreadInv(s) && MutexInv(s) && SleepInv(s) && ArmInv(s.shared.armed, s.history)
    requires Due(s) && |s.timers| == 1 && Enabled(s, step, true) && !OfCaller(step)
    ensures var t := Next(s, step, true);
            || |t.history.fires| > |s.history.fires|
            || (&& Due(t) && |t.timers| == 1 && t.history.fires == s.history.fires
                && Distance(t.timers[0]) + (if OfTimer(step) then 1 else 0) <= Distance(s.timers[0]))
  {
    assert Consistent(s);
    AnArmIsPending(s);
  }

  /** With a deadline due, the timer thread exists and is never stuck. */
  lemma DueIsEnabled(states: seq<State>, steps: seq<Step>, i: nat) returns (step: Step)
    requires IsRun(states, steps, true) && i < |states| && Due(states[i])
    ensures OfTimer(step) && Enabled(states[i], step, true)
  {
    RunKeepsInv(states, steps, true, i);
    RunKeepsPromise(states, steps, i);
    var s := states[i];
    assert s.shared.mutex != Some(TimerThread(0)) ==> s.shared.mutex == None;
    step := match s.timers[0]
      case Ready => TimerLock(0)
      case Looking => TimerLook(0)
      case Firing => LoadLeases(0)
      case CheckingClaims => LoadClaims(0)
      case Requesting => Request(0)
      case _ => TimerWake(0);
  }

  function TimerSteps(steps: seq<Step>, i: nat, j: nat): nat
    requires i <= j <= |steps|
  {
    if i == j then 0 else TimerSteps(steps, i, j - 1) + if OfTimer(steps[j - 1]) then 1 else 0
  }

  lemma DueHasTimer(states: seq<State>, steps: seq<Step>, i: nat)
    requires IsRun(states, steps, true) && i < |states| && Due(states[i])
    ensures |states[i].timers| == 1
  {
    RunKeepsPromise(states, steps, i);
  }

  lemma {:induction false} DueCloser(states: seq<State>, steps: seq<Step>, i: nat, j: nat)
    requires IsRun(states, steps, true) && i <= j < |states| && Due(states[i])
    requires forall k :: i <= k < j ==> !OfCaller(steps[k])
    ensures |states[i].timers| == 1
    ensures |states[j].history.fires| >= |states[i].history.fires|
    ensures |states[j].history.fires| == |states[i].history.fires| ==>
              && Due(states[j]) && |states[j].timers| == 1
              && Distance(states[j].timers[0]) + TimerSteps(steps, i, j) <= Distance(states[i].timers[0])
    decreases j
  {
    hide Next, Enabled, ThreadInv, MutexInv, SleepInv, ArmInv, Due, Distance;
    DueHasTimer(states, steps, i);
    if i < j {
      DueCloser(states, steps, i, j - 1);
      RunKeepsInv(states, steps, true, j - 1);
      FiresGrow(states[j - 1], steps[j - 1]);
      if |states[j - 1].history.fires| == |states[i].history.fires| {
        DueStep(states[j - 1], steps[j - 1]);
      }
    }
  }

  lemma FiresGrow(s: State, step: Step)
    requires Enabled(s, step, true)
    ensures |Next(s, step, true).history.fires| >= |s.history.fires|
  {
  }

  /**
   An armed deadline that has passed leads to an expiry: as long as no call begins, it takes the timer thread at most
   five steps, whatever the clock and the counters do in between, and `DueIsEnabled` says that it can always make one.
   */
  lemma DueExpires(states: seq<State>, steps: seq<Step>, i: nat, j: nat)
    requires IsRun(states, steps, true) && i <= j < |states| && Due(states[i])
    requires forall k :: i <= k < j ==> !OfCaller(steps[k])
    requires TimerSteps(steps, i, j) >= 5
    ensures |states[j].history.fires| > |states[i].history.fires|
  {
    hide Next, Enabled, Due;
    DueCloser(states, steps, i, j);
  }

  // ----- Why the lock is needed -----

  lemma Extend(states: seq<State>, steps: seq<Step>, step: Step, next: State)
    returns (longer: seq<State>, more: seq<Step>)
    requires IsRun(states, steps, false) && Enabled(states[|steps|], step, false)
    requires Next(states[|steps|], step, false) == next
    ensures IsRun(longer, more, false) && longer[|more|] == next
  {
    longer, more := states + [next], steps + [step];
  }

  const NO_HISTORY := History([], [], [], 0, 0)

  /** One caller has set the flag and not yet spawned. */
  lemma FlagSet() returns (states: seq<State>, steps: seq<Step>)
    ensures IsRun(states, steps, false)
    ensures states[|steps|] == State(map[0 := Spawning], [], Shared(0, true, None, None, QUIET), NO_HISTORY)
  {
    var idle, busy := Shared(0, false, None, None, QUIET), Shared(0, true, None, None, QUIET);
    states, steps := [INIT], [];
    states, steps := Extend(states, steps, Call(0), State(map[0 := CheckingFlag], [], idle, NO_HISTORY));
    states, steps := Extend(states, steps, CheckFlag(0), State(map[0 := Swapping], [], idle, NO_HISTORY));
    states, steps := Extend(states, steps, Swap(0), State(map[0 := Spawning], [], busy, NO_HISTORY));
  }

  /** Another has seen the flag. */
  lemma FlagSeenEarly() returns (states: seq<State>, steps: seq<Step>)
    ensures IsRun(states, steps, false)
    ensures states[|steps|]
         == State(map[0 := Spawning, 1 := Arming], [], Shared(0, true, None, None, QUIET), NO_HISTORY)
  {
    var busy := Shared(0, true, None, None, QUIET);
    states, steps := FlagSet();
    states, steps := Extend(states, steps, Call(1),
                            State(map[0 := Spawning, 1 := CheckingFlag], [], busy, NO_HISTORY));
    states, steps := Extend(states, steps, CheckFlag(1),
                            State(map[0 := Spawning, 1 := Arming], [], busy, NO_HISTORY));
  }

  const ARMED := Shared(0, true, Some(DELAY), Some(Worker(1)), QUIET)
  const ONE_ARM := History([DELAY], [], [], 0, 0)

  /** The second caller arms a timer that does not exist. */
  lemma DeadlineStored() returns (states: seq<State>, steps: seq<Step>)
    ensures IsRun(states, steps, false)
    ensures states[|steps|] == State(map[0 := Spawning, 1 := Notifying], [], ARMED, ONE_ARM)
  {
    var locked := Shared(0, true, None, Some(Worker(1)), QUIET);
    states, steps := FlagSeenEarly();
    states, steps := Extend(states, steps, Lock(1), State(map[0 := Spawning, 1 := Storing], [], locked, NO_HISTORY));
    states, steps := Extend(states, steps, Store(1), State(map[0 := Spawning, 1 := Notifying], [], ARMED, ONE_ARM));
  }

  /** It notifies nobody. */
  lemma NobodyNotified() returns (states: seq<State>, steps: seq<Step>)
    ensures IsRun(states, steps, false)
    ensures states[|steps|] == State(map[0 := Spawning, 1 := Leaving], [], ARMED, ONE_ARM)
  {
    states, steps := DeadlineStored();
    states, steps := Extend(states, steps, Notify(1, None),
                            State(map[0 := Spawning, 1 := Leaving], [], ARMED, ONE_ARM));
  }

  /** Without the transition lock a call could return true though no timer thread exists, which loses the rescan. */
  lemma OverlappingCallsCanLieAboutTheTimer() returns (states: seq<State>, steps: seq<Step>)
    ensures IsRun(states, steps, false)
    ensures Return(true, 0) in states[|steps|].history.answers && states[|steps|].timers == []
  {
    states, steps := NobodyNotified();
    var left := ONE_ARM.(answers := [Return(true, 0)]);
    states, steps := Extend(states, steps, Leave(1), State(map[0 := Spawning], [], ARMED.(mutex := None), left));
  }
}
