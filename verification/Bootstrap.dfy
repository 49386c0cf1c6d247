/**
 The proxy's bootstrap block: one worker resolves the real targets and publishes them with one flag, while any number
 of export calls run. Every export answers its fallback until then.
 */
module Bootstrap {
  import opened Common
  import Ownership

  type CallId = nat

  datatype Vector = Injected | XInput14 | DInput8 | Unknown

  /** The target slots of both forwarding tables. */
  datatype Slot =
    | GetState | GetCapabilities | SetState
    | Battery | Keystroke | Audio | Enable | StateEx | WaitGuide | CancelGuide | PowerOff | CapsEx
    | DirectInputCreate
    | CanUnload | GetClass | Register | Unregister | JoystickFormat

  function Required(vector: Vector): seq<Slot> {
    match vector
    case XInput14 => [GetState, GetCapabilities, SetState]
    case DInput8 => [DirectInputCreate]
    case _ => []
  }

  function Optional(vector: Vector): seq<Slot> {
    match vector
    case XInput14 => [Battery, Keystroke, Audio, Enable, StateEx, WaitGuide, CancelGuide, PowerOff, CapsEx]
    case DInput8 => [CanUnload, GetClass, Register, Unregister, JoystickFormat]
    case _ => []
  }

  /** The entry points that also answer their fallback while blocking holds. */
  predicate Gated(slot: Slot) {
    slot == GetState || slot == GetCapabilities || slot == StateEx || slot == CapsEx
  }

  /** Where the one-shot initialization is. */
  datatype Worker =
    | NotStarted
    | Loading
    | Caching(pending: seq<Slot>, missing: bool)
    | Publishing
    | Done(verdict: bool)

  /** Where an export call is. */
  datatype Call =
    | Entered(slot: Slot)
    | TestingLeases(slot: Slot)
    | TestingClaims(slot: Slot)
    | Admitted(slot: Slot)
    | Fallback(slot: Slot)
    | Forwarded(slot: Slot)

  datatype State = State(vector: Vector, worker: Worker, attempts: nat, slots: set<Slot>, ready: bool,
                         counters: Ownership.Counters, calls: map<CallId, Call>)

  predicate IsInit(s: State) {
    s.worker == NotStarted && s.attempts == 0 && s.slots == {} && !s.ready && s.calls == map[]
  }

  datatype Step =
    | StartInitialization
    | Load(loaded: bool)
    | Cache(found: bool)
    | Decide
    | Publish
    | ChangeOwnership(counters: Ownership.Counters)
    | Begin(id: CallId, slot: Slot)
    | TestReady(id: CallId)
    | TestLeases(id: CallId)
    | TestClaims(id: CallId)
    | LoadTarget(id: CallId)

  predicate OfCall(step: Step) {
    step.TestReady? || step.TestLeases? || step.TestClaims? || step.LoadTarget?
  }

  predicate Enabled(s: State, step: Step) {
    if OfCall(step) then
      && step.id in s.calls
      && match step
         case TestReady(id) => s.calls[id].Entered?
         case TestLeases(id) => s.calls[id].TestingLeases?
         case TestClaims(id) => s.calls[id].TestingClaims?
         case _ => s.calls[step.id].Admitted?
    else
      match step
      case StartInitialization => s.worker.NotStarted?
      case Load(_) => s.worker.Loading?
      case Cache(_) => s.worker.Caching? && s.worker.pending != []
      case Decide => s.worker.Caching? && s.worker.pending == []
      case Publish => s.worker.Publishing?
      case Begin(id, _) => id !in s.calls
      case _ => true
  }

  function WorkerAfter(s: State, step: Step): Worker
    requires Enabled(s, step)
  {
    match step
    case StartInitialization => if s.vector == XInput14 || s.vector == DInput8 then Loading else Done(false)
    case Load(loaded) => if loaded then Caching(Required(s.vector) + Optional(s.vector), false) else Done(false)
    case Cache(found) =>
      var slot := s.worker.pending[0];
      Caching(s.worker.pending[1..], s.worker.missing || (!found && slot in Required(s.vector)))
    case Decide => if s.worker.missing then Done(false) else Publishing
    case Publish => Done(true)
    case _ => s.worker
  }

  function CallAfter(s: State, step: Step): Call
    requires OfCall(step) && Enabled(s, step)
  {
    var slot := s.calls[step.id].slot;
    match step
    case TestReady(_) =>
      if !s.ready then Fallback(slot) else if Gated(slot) then TestingLeases(slot) else Admitted(slot)
    case TestLeases(_) => if s.counters.leases > 0 then TestingClaims(slot) else Admitted(slot)
    case TestClaims(_) => if s.counters.claims == 0 then Fallback(slot) else Admitted(slot)
    case _ => if slot in s.slots then Forwarded(slot) else Fallback(slot)
  }

  function Next(s: State, step: Step): State
    requires Enabled(s, step)
  {
    State(
      s.vector,
      WorkerAfter(s, step),
      if step.StartInitialization? then s.attempts + 1 else s.attempts,
      if step.Cache? && step.found then s.slots + {s.worker.pending[0]} else s.slots,
      s.ready || step.Publish?,
      if step.ChangeOwnership? then step.counters else s.counters,
      if step.Begin? then s.calls[step.id := Entered(step.slot)]
      else if OfCall(step) then s.calls[step.id := CallAfter(s, step)]
      else s.calls)
  }

  ghost predicate IsRun(states: seq<State>, steps: seq<Step>) {
    && |states| == |steps| + 1 && IsInit(states[0])
    && forall i :: 0 <= i < |steps| ==> Enabled(states[i], steps[i]) && states[i + 1] == Next(states[i], steps[i])
  }

  /** One step of a run; with `IsRun` hidden, one step is all there is to look at. */
  lemma RunStep(states: seq<State>, steps: seq<Step>, i: nat)
    requires IsRun(states, steps) && i < |states|
    ensures |states| == |steps| + 1 && IsInit(states[0])
    ensures i > 0 ==> Enabled(states[i - 1], steps[i - 1])
    ensures i > 0 ==> states[i] == Next(states[i - 1], steps[i - 1])
  {
  }

  /** Calls begin and ownership changes at any time. */
  lemma SurroundingsAreFree(s: State, counters: Ownership.Counters, id: CallId, slot: Slot)
    ensures Enabled(s, ChangeOwnership(counters)) && Next(s, ChangeOwnership(counters)).counters == counters
    ensures id !in s.calls ==> Enabled(s, Begin(id, slot))
  {
  }

  // ----- The invariant -----

  /** A required slot outside `pending` that was not filled. */
  ghost predicate AnyMissing(vector: Vector, pending: seq<Slot>, slots: set<Slot>) {
    exists slot :: slot in Required(vector) && slot !in pending && slot !in slots
  }

  /** What the worker knows about the slots it has been through. */
  ghost predicate WorkerInv(s: State) {
    match s.worker
    case NotStarted => s.attempts == 0 && s.slots == {} && !s.ready
    case Loading => s.attempts == 1 && s.slots == {} && !s.ready && Required(s.vector) != []
    case Caching(pending, missing) =>
      && s.attempts == 1 && !s.ready && Required(s.vector) != []
      && Distinct(pending) && (forall slot :: slot in pending ==> slot !in s.slots)
      && (missing <==> AnyMissing(s.vector, pending, s.slots))
    case Publishing => s.attempts == 1 && !s.ready && Required(s.vector) != [] && !AnyMissing(s.vector, [], s.slots)
    case Done(verdict) =>
      && s.attempts == 1 && s.ready == verdict
      && (verdict <==> Required(s.vector) != [] && !AnyMissing(s.vector, [], s.slots))
  }

  /** Before the flag no call gets anywhere; a forwarded call has a target. */
  ghost predicate CallsInv(s: State) {
    forall id :: id in s.calls ==>
      && (!s.ready ==> s.calls[id].Entered? || s.calls[id].Fallback?)
      && (s.calls[id].Forwarded? ==> s.calls[id].slot in s.slots)
  }

  lemma WorkerKept(s: State, step: Step)
    requires WorkerInv(s) && Enabled(s, step)
    ensures WorkerInv(Next(s, step))
  {
    if step.Load? {
      LoadStartsClean(s.vector, s.slots);
    } else if step.Cache? {
      CacheTracksMissing(s.vector, s.worker.pending, s.slots, step.found);
    }
  }

  lemma LoadStartsClean(vector: Vector, slots: set<Slot>)
    requires Required(vector) != []
    ensures Distinct(Required(vector) + Optional(vector))
    ensures !AnyMissing(vector, Required(vector) + Optional(vector), slots)
    ensures AnyMissing(vector, [], {})
  {
    assert Required(vector)[0] in Required(vector);
  }

  lemma CacheTracksMissing(vector: Vector, pending: seq<Slot>, slots: set<Slot>, found: bool)
    requires pending != [] && Distinct(pending) && pending[0] !in slots
    ensures Distinct(pending[1..]) && pending[0] !in pending[1..]
    ensures AnyMissing(vector, pending[1..], if found then slots + {pending[0]} else slots)
       <==> AnyMissing(vector, pending, slots) || (!found && pending[0] in Required(vector))
  {
    var slot := pending[0];
    assert slot !in pending[1..];
    var after := if found then slots + {slot} else slots;
    assert forall other :: other != slot ==> (other in pending <==> other in pending[1..]);
    if AnyMissing(vector, pending, slots) {
      var other :| other in Required(vector) && other !in pending && other !in slots;
      assert other !in pending[1..] && other !in after;
    }
  }

  lemma CallsKept(s: State, step: Step)
    requires CallsInv(s) && Enabled(s, step)
    ensures CallsInv(Next(s, step))
  {
  }

  lemma {:induction false} RunKeepsInv(states: seq<State>, steps: seq<Step>, i: nat)
    requires IsRun(states, steps) && i < |states|
    ensures WorkerInv(states[i]) && CallsInv(states[i])
  {
    if i > 0 {
      RunKeepsInv(states, steps, i - 1);
      WorkerKept(states[i - 1], steps[i - 1]);
      CallsKept(states[i - 1], steps[i - 1]);
    }
  }

  // ----- What every run keeps -----

  /** The vector is proxied, and the exports that callers cannot do without are filled. */
  predicate Complete(vector: Vector, slots: set<Slot>) {
    || (vector == XInput14 && {GetState, GetCapabilities, SetState} <= slots)
    || (vector == DInput8 && DirectInputCreate in slots)
  }

  lemma CompleteIsRequired(vector: Vector, slots: set<Slot>)
    ensures Complete(vector, slots) <==> Required(vector) != [] && !AnyMissing(vector, [], slots)
  {
    if Complete(vector, slots) {
      assert forall slot :: slot in Required(vector) ==> slot in slots;
    }
    if Required(vector) != [] && !AnyMissing(vector, [], slots) {
      forall slot | slot in Required(vector)
        ensures slot in slots
      {
        assert slot !in [];
      }
      assert vector == XInput14 ==> Required(vector)[0] in slots && Required(vector)[1] in slots;
      assert vector == XInput14 ==> Required(vector)[2] in slots;
      assert vector == DInput8 ==> Required(vector)[0] in slots;
    }
  }

  /** The flag is up only after the one initialization filled every required slot of a proxied vector. */
  lemma ReadyMeansComplete(states: seq<State>, steps: seq<Step>, i: nat)
    requires IsRun(states, steps) && i < |states|
    ensures states[i].attempts <= 1
    ensures states[i].ready ==> Complete(states[i].vector, states[i].slots)
  {
    RunKeepsInv(states, steps, i);
    CompleteIsRequired(states[i].vector, states[i].slots);
  }

  /**
   The verdict is exact: initialization succeeds if and only if the vector is proxied and every required slot could be
   filled, whatever optional ones are missing.
   */
  lemma VerdictIsExact(states: seq<State>, steps: seq<Step>, i: nat)
    requires IsRun(states, steps) && i < |states| && states[i].worker.Done?
    ensures states[i].worker.verdict == states[i].ready
    ensures states[i].worker.verdict <==> Complete(states[i].vector, states[i].slots)
  {
    RunKeepsInv(states, steps, i);
    CompleteIsRequired(states[i].vector, states[i].slots);
  }

  /** The exports that a proxied vector forwards. */
  function Exports(vector: Vector): set<Slot> {
    match vector
    case XInput14 => {GetState, GetCapabilities, SetState, Battery, Keystroke, Audio, Enable, StateEx, WaitGuide,
                      CancelGuide, PowerOff, CapsEx}
    case DInput8 => {DirectInputCreate, CanUnload, GetClass, Register, Unregister, JoystickFormat}
    case _ => {}
  }

  /** The worker has been through the slot: it is filled exactly if it was found. */
  ghost predicate Tried(states: seq<State>, steps: seq<Step>, i: nat, slot: Slot)
    requires |states| == |steps| + 1 && i < |states|
  {
    exists k :: 0 <= k < i && states[k].worker.Caching? && states[k].worker.pending != []
                && states[k].worker.pending[0] == slot
                && steps[k] == Cache(slot in states[i].slots)
  }

  lemma TriedStays(states: seq<State>, steps: seq<Step>, i: nat, slot: Slot)
    requires IsRun(states, steps) && 0 < i < |states| && Tried(states, steps, i - 1, slot)
    requires slot in states[i].slots <==> slot in states[i - 1].slots
    ensures Tried(states, steps, i, slot)
  {
  }

  /** Every export of the vector is looked up before the worker decides, and is filled exactly if it was found. */
  lemma {:induction false} EveryExportIsTried(states: seq<State>, steps: seq<Step>, i: nat, slot: Slot)
    requires IsRun(states, steps) && i < |states| && slot in Exports(states[i].vector)
    ensures states[i].worker.Publishing? || states[i].ready ==> Tried(states, steps, i, slot)
    ensures states[i].worker.Caching? && slot !in states[i].worker.pending ==> Tried(states, steps, i, slot)
  {
    RunStep(states, steps, i);
    if i > 0 {
      hide IsRun, CallAfter, AnyMissing;
      var s, t, step := states[i - 1], states[i], steps[i - 1];
      EveryExportIsTried(states, steps, i - 1, slot);
      RunKeepsInv(states, steps, i - 1);
      if step.Cache? && s.worker.pending[0] == slot {
        assert slot in t.slots <==> step.found;
      } else if step.Load? {
        ExportsAreListed(s.vector, slot);
      } else if Tried(states, steps, i - 1, slot) {
        TriedStays(states, steps, i, slot);
      }
    }
  }

  lemma ExportsAreListed(vector: Vector, slot: Slot)
    ensures slot in Exports(vector) <==> slot in Required(vector) + Optional(vector)
  {
    match vector
    case XInput14 =>
    case DInput8 =>
    case Injected =>
    case Unknown =>
  }

  /** The flag never goes down, no filled slot is emptied, and a verdict is final. */
  lemma {:induction false} PublicationIsPermanent(states: seq<State>, steps: seq<Step>, i: nat, j: nat)
    requires IsRun(states, steps) && i <= j < |states|
    ensures states[j].vector == states[i].vector
    ensures states[i].ready ==> states[j].ready
    ensures states[i].slots <= states[j].slots
    ensures states[i].worker.Done? ==> states[j].worker == states[i].worker && states[j].slots == states[i].slots
    decreases j
  {
    if i < j {
      PublicationIsPermanent(states, steps, i, j - 1);
    }
  }

  /** After a failed initialization every export stays on its fallback for the life of the process. */
  lemma FailureIsForever(states: seq<State>, steps: seq<Step>, i: nat, j: nat, id: CallId)
    requires IsRun(states, steps) && i <= j < |states| && states[i].worker == Done(false) && id in states[j].calls
    ensures states[j].calls[id].Entered? || states[j].calls[id].Fallback?
  {
    PublicationIsPermanent(states, steps, i, j);
    RunKeepsInv(states, steps, j);
  }

  /** A call reaches a target only through a published, filled slot. */
  lemma ForwardedCallsHaveTargets(states: seq<State>, steps: seq<Step>, i: nat, id: CallId)
    requires IsRun(states, steps) && i < |states| && id in states[i].calls && states[i].calls[id].Forwarded?
    ensures states[i].ready && states[i].calls[id].slot in states[i].slots
  {
    RunKeepsInv(states, steps, i);
  }

  /** Past its gate: the call has only its target load left, or has done it. */
  predicate PastGate(call: Call) {
    call.Admitted? || call.Forwarded?
  }

  /** The entry points that report controller input. */
  const INPUT_EXPORTS: set<Slot> := {GetState, GetCapabilities, StateEx, CapsEx}

  /**
   A call that reports input passes its gate only after its own test answered false, and blocking did not hold at the
   instant `k` of the deciding load, which lies inside the call.
   */
  lemma {:induction false} GatedCallsSawNoBlocking(states: seq<State>, steps: seq<Step>, i: nat, id: CallId)
    returns (k: nat)
    requires IsRun(states, steps) && i < |states| && id in states[i].calls
    requires PastGate(states[i].calls[id]) && states[i].calls[id].slot in INPUT_EXPORTS
    ensures k < i && id in states[k].calls && (steps[k] == TestLeases(id) || steps[k] == TestClaims(id))
    ensures !Ownership.Blocking(states[k].counters)
    ensures id in states[k + 1].calls && states[k + 1].calls[id] == Admitted(states[i].calls[id].slot)
    decreases i
  {
    hide IsRun, WorkerAfter;
    RunStep(states, steps, i);
    if id in states[i - 1].calls && PastGate(states[i - 1].calls[id]) {
      k := GatedCallsSawNoBlocking(states, steps, i - 1, id);
    } else {
      k := i - 1;
    }
  }

  /** Why a call may answer its fallback: not ready, an input call that saw no claim after a lease, or an empty slot. */
  predicate Justifies(s: State, step: Step, id: CallId, slot: Slot) {
    || (step == TestReady(id) && !s.ready)
    || (step == TestClaims(id) && s.counters.claims == 0 && slot in INPUT_EXPORTS)
    || (step == LoadTarget(id) && slot !in s.slots)
  }

  lemma {:induction false} OnlyInputIsTested(states: seq<State>, steps: seq<Step>, i: nat, id: CallId)
    requires IsRun(states, steps) && i < |states| && id in states[i].calls
    ensures states[i].calls[id].TestingLeases? || states[i].calls[id].TestingClaims? ==>
              states[i].calls[id].slot in INPUT_EXPORTS
  {
    hide IsRun, WorkerAfter;
    RunStep(states, steps, i);
    if i > 0 && id in states[i - 1].calls {
      OnlyInputIsTested(states, steps, i - 1, id);
    }
  }

  lemma {:induction false} ClaimsAfterLease(states: seq<State>, steps: seq<Step>, i: nat, id: CallId) returns (q: nat)
    requires IsRun(states, steps) && i < |states| && id in states[i].calls && states[i].calls[id].TestingClaims?
    ensures q < i && steps[q] == TestLeases(id) && states[q].counters.leases > 0
  {
    hide IsRun, WorkerAfter;
    RunStep(states, steps, i);
    if id in states[i - 1].calls && states[i - 1].calls[id].TestingClaims? {
      q := ClaimsAfterLease(states, steps, i - 1, id);
    } else {
      q := i - 1;
    }
  }

  /**
   A fallback is never answered without such a reason, at step `k`: a call that has none reaches its target. If the
   reason is blocking, the call had seen a lease before, at step `q`.
   */
  lemma {:induction false} FallbackIsJustified(states: seq<State>, steps: seq<Step>, i: nat, id: CallId)
    returns (k: nat, q: nat)
    requires IsRun(states, steps) && i < |states| && id in states[i].calls && states[i].calls[id].Fallback?
    ensures k < i && id in states[k].calls && Justifies(states[k], steps[k], id, states[i].calls[id].slot)
    ensures steps[k] == TestClaims(id) ==> q < k && steps[q] == TestLeases(id) && states[q].counters.leases > 0
  {
    hide IsRun, WorkerAfter;
    RunStep(states, steps, i);
    if id in states[i - 1].calls && states[i - 1].calls[id].Fallback? {
      k, q := FallbackIsJustified(states, steps, i - 1, id);
    } else {
      k, q := i - 1, 0;
      if states[k].calls[id].TestingClaims? {
        q := ClaimsAfterLease(states, steps, k, id);
      }
      OnlyInputIsTested(states, steps, k, id);
    }
  }

  /** The worker is never stuck, whatever loading and looking up answer. */
  lemma WorkerMoves(s: State, answer: bool) returns (step: Step)
    requires !s.worker.Done?
    ensures Enabled(s, step) && !OfCall(step) && !step.Begin? && !step.ChangeOwnership?
    ensures s.worker.Loading? ==> step == Load(answer)
    ensures s.worker.Caching? && s.worker.pending != [] ==> step == Cache(answer)
  {
    match s.worker
    case NotStarted => step := StartInitialization;
    case Loading => step := Load(answer);
    case Caching(pending, _) => step := if pending == [] then Decide else Cache(answer);
    case Publishing => step := Publish;
  }

  /** How many steps a call has before it, at most. */
  function Rank(call: Call): nat {
    match call
    case Entered(_) => 4
    case TestingLeases(_) => 3
    case TestingClaims(_) => 2
    case Admitted(_) => 1
    case _ => 0
  }

  /** A call that has not answered can always make a step, and each brings it closer to its answer. */
  lemma CallsAnswer(s: State, id: CallId) returns (step: Step)
    requires id in s.calls && !s.calls[id].Fallback? && !s.calls[id].Forwarded?
    ensures OfCall(step) && step.id == id && Enabled(s, step)
    ensures Rank(Next(s, step).calls[id]) < Rank(s.calls[id]) && Next(s, step).calls[id].slot == s.calls[id].slot
  {
    step := match s.calls[id]
      case Entered(_) => TestReady(id)
      case TestingLeases(_) => TestLeases(id)
      case TestingClaims(_) => TestClaims(id)
      case _ => LoadTarget(id);
  }
}
