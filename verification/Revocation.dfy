/**
 The sweep that closes the HID handles Steam already holds, while other threads close handles, open handles and
 reuse handle numbers. The kernel is a map from open handle numbers to object identities.
 */
module Revocation {
  import opened Common

  type Handle = nat
  type Object = nat
  type Thread = nat

  /** An enumerated handle: its number and its object-type index. */
  datatype Entry = Entry(handle: Handle, typeIndex: nat)

  /** Where another thread is inside the close hook; it holds the barrier for reading from first to last. */
  datatype Closer = Entered(handle: Handle) | Closed

  /** The duplicate that pins an object, and the object as it was pinned. */
  datatype Pin = Pin(duplicate: Handle, pinned: Object)

  /** Where the sweep is. */
  datatype Phase =
    | Idle
    | Loop
    | Pinning(entry: Entry)                                                 // holds the barrier for writing
    | Comparing(entry: Entry, pin: Pin)                                     // holds it
    | Filtering(entry: Entry, pin: Pin)
    | Probing(entry: Entry, pin: Pin)
    | Classified(entry: Entry, pin: Pin, probed: Option<Object>, hid: bool)
    | Verifying(entry: Entry, pin: Pin, probed: Option<Object>, hid: bool)  // holds it
    | Matched(entry: Entry, pin: Pin, probed: Option<Object>)               // holds it
    | Unpinning(pin: Pin, locked: bool)                                     // holds it if `locked`

  /** A handle the sweep closed: the object it named then, and the object that was probed as HID. */
  datatype Revoked = Revoked(handle: Handle, closed: Object, probed: Option<Object>)

  datatype Sweep = Sweep(phase: Phase, rest: seq<Entry>, fileType: Option<nat>, revokedCount: nat)

  /**
   What happened so far: the handles this sweep closed, the objects behind the probed duplicates with the verdicts,
   how many duplicates were made, and for each closed duplicate the object it named and the one it pinned.
   */
  datatype History = History(revoked: seq<Revoked>, probes: seq<(Option<Object>, bool)>, made: nat,
                             unpinned: seq<(Option<Object>, Object)>)

  function Lookup(open: map<Handle, Object>, handle: Handle): Option<Object> {
    if handle in open then Some(open[handle]) else None
  }

  datatype State = State(open: map<Handle, Object>, closers: map<Thread, Closer>, sweep: Sweep, history: History)

  ghost const INIT_SWEEP := Sweep(Idle, [], None, 0)

  predicate HoldsBarrier(phase: Phase) {
    phase.Pinning? || phase.Comparing? || phase.Verifying? || phase.Matched? || (phase.Unpinning? && phase.locked)
  }

  predicate HasPin(phase: Phase) {
    !phase.Idle? && !phase.Loop? && !phase.Pinning?
  }

  predicate SameObject(open: map<Handle, Object>, a: Handle, b: Handle) {
    a in open && b in open && open[a] == open[b]
  }

  datatype Step =
    // Other threads.
    | Open(handle: Handle, target: Object)
    | EnterClose(thread: Thread, handle: Handle)
    | DoClose(thread: Thread)
    | LeaveClose(thread: Thread)
    | UnhookedClose(handle: Handle)
    // The sweep.
    | Start(entries: seq<Entry>)
    | Take
    | Duplicate(result: Option<Handle>)
    | Compare
    | Filter(isFile: bool)
    | Probe(isHid: bool)
    | Relock
    | CompareAgain
    | CloseOriginal(succeeds: bool)
    | CloseDuplicate

  /** Any thread may close any number, the sweep's duplicate included. A query of a number that is not open fails. */
  predicate Enabled(s: State, step: Step) {
    var phase := s.sweep.phase;
    match step
    case Open(handle, _) => handle !in s.open
    case EnterClose(thread, handle) => thread !in s.closers && !HoldsBarrier(phase)
    case DoClose(thread) => thread in s.closers && s.closers[thread].Entered?
    case LeaveClose(thread) => thread in s.closers && s.closers[thread].Closed?
    case UnhookedClose(_) => true
    case Start(_) => phase.Idle?
    case Take => phase.Loop? && (s.sweep.rest != [] ==> s.closers == map[])
    case Duplicate(result) =>
      phase.Pinning? && (result.Some? ==> phase.entry.handle in s.open && result.value !in s.open)
    case Compare => phase.Comparing?
    case Filter(isFile) => phase.Filtering? && (isFile ==> phase.pin.duplicate in s.open)
    case Probe(isHid) => phase.Probing? && (isHid ==> phase.pin.duplicate in s.open)
    case Relock => phase.Classified? && s.closers == map[]
    case CompareAgain => phase.Verifying?
    case CloseOriginal(succeeds) => phase.Matched? && (succeeds ==> phase.entry.handle in s.open)
    case CloseDuplicate => phase.Unpinning?
  }

  function OpenAfter(s: State, step: Step): map<Handle, Object>
    requires Enabled(s, step)
  {
    match step
    case Open(handle, target) => s.open[handle := target]
    case DoClose(thread) => s.open - {s.closers[thread].handle}
    case UnhookedClose(handle) => s.open - {handle}
    case Duplicate(Some(duplicate)) => s.open[duplicate := s.open[s.sweep.phase.entry.handle]]
    case CloseOriginal(succeeds) => if succeeds then s.open - {s.sweep.phase.entry.handle} else s.open
    case CloseDuplicate => s.open - {s.sweep.phase.pin.duplicate}
    case _ => s.open
  }

  function ClosersAfter(s: State, step: Step): map<Thread, Closer>
    requires Enabled(s, step)
  {
    match step
    case EnterClose(thread, handle) => s.closers[thread := Entered(handle)]
    case DoClose(thread) => s.closers[thread := Closed]
    case LeaveClose(thread) => s.closers - {thread}
    case _ => s.closers
  }

  function PhaseAfter(s: State, step: Step): Phase
    requires Enabled(s, step)
  {
    var phase := s.sweep.phase;
    match step
    case Start(_) => Loop
    case Take => if s.sweep.rest == [] then Idle else Pinning(s.sweep.rest[0])
    case Duplicate(None) => Loop
    case Duplicate(Some(duplicate)) => Comparing(phase.entry, Pin(duplicate, s.open[phase.entry.handle]))
    case Compare =>
      // A number that was recycled before it could be pinned is refused.
      if SameObject(s.open, phase.entry.handle, phase.pin.duplicate) then Filtering(phase.entry, phase.pin)
      else Unpinning(phase.pin, true)
    case Filter(isFile) =>
      (match s.sweep.fileType
       case Some(index) =>
         if phase.entry.typeIndex != index then Unpinning(phase.pin, false) else Probing(phase.entry, phase.pin)
       case None => if isFile then Probing(phase.entry, phase.pin) else Unpinning(phase.pin, false))
    case Probe(isHid) => Classified(phase.entry, phase.pin, Lookup(s.open, phase.pin.duplicate), isHid)
    case Relock => Verifying(phase.entry, phase.pin, phase.probed, phase.hid)
    case CompareAgain =>
      if SameObject(s.open, phase.entry.handle, phase.pin.duplicate) && phase.hid
      then Matched(phase.entry, phase.pin, phase.probed) else Unpinning(phase.pin, false)
    case CloseOriginal(_) => Unpinning(phase.pin, false)
    case CloseDuplicate => Loop
    case _ => phase
  }

  function SweepAfter(s: State, step: Step): Sweep
    requires Enabled(s, step)
  {
    var sweep := s.sweep.(phase := PhaseAfter(s, step));
    match step
    case Start(entries) => Sweep(Loop, entries, None, 0)
    case Take => if sweep.rest == [] then sweep else sweep.(rest := sweep.rest[1..])
    case Filter(isFile) =>
      if s.sweep.fileType == None && isFile then sweep.(fileType := Some(s.sweep.phase.entry.typeIndex)) else sweep
    case CloseOriginal(succeeds) => if succeeds then sweep.(revokedCount := sweep.revokedCount + 1) else sweep
    case _ => sweep
  }

  function HistoryAfter(s: State, step: Step): History
    requires Enabled(s, step)
  {
    var phase := s.sweep.phase;
    match step
    case Start(_) => s.history.(revoked := [])
    case Duplicate(Some(_)) => s.history.(made := s.history.made + 1)
    case CloseOriginal(succeeds) =>
      if !succeeds then s.history
      else
        var handle := phase.entry.handle;
        s.history.(revoked := s.history.revoked + [Revoked(handle, s.open[handle], phase.probed)])
    case CloseDuplicate =>
      s.history.(unpinned := s.history.unpinned + [(Lookup(s.open, phase.pin.duplicate), phase.pin.pinned)])
    case Probe(isHid) =>
      s.history.(probes := s.history.probes + [(Lookup(s.open, phase.pin.duplicate), isHid)])
    case _ => s.history
  }

  function Next(s: State, step: Step): State
    requires Enabled(s, step)
  {
    State(OpenAfter(s, step), ClosersAfter(s, step), SweepAfter(s, step), HistoryAfter(s, step))
  }

  /** Any interleaving, from any handles open and no sweep running. */
  ghost predicate IsRun(states: seq<State>, steps: seq<Step>) {
    && |states| == |steps| + 1
    && states[0].closers == map[] && states[0].sweep == INIT_SWEEP && states[0].history == History([], [], 0, [])
    && forall i :: 0 <= i < |steps| ==>
         && Enabled(states[i], steps[i])
         && states[i + 1] == Next(states[i], steps[i])
  }

  /** Nothing that other threads may do is left out: they open free numbers and close any, hooked while they may. */
  lemma OtherThreadsAreFree(s: State, handle: Handle, target: Object, thread: Thread)
    ensures handle !in s.open ==> Enabled(s, Open(handle, target))
    ensures Enabled(s, UnhookedClose(handle))
    ensures thread !in s.closers && !HoldsBarrier(s.sweep.phase) ==> Enabled(s, EnterClose(thread, handle))
    ensures thread in s.closers ==>
              Enabled(s, if s.closers[thread].Entered? then DoClose(thread) else LeaveClose(thread))
  {
  }

  /** One step of a run; with `IsRun` hidden, one step is all there is to look at. */
  lemma RunStep(states: seq<State>, steps: seq<Step>, i: nat)
    requires IsRun(states, steps) && i < |states|
    ensures |states| == |steps| + 1 && states[0].closers == map[] && states[0].sweep == INIT_SWEEP
    ensures i > 0 ==> Enabled(states[i - 1], steps[i - 1])
    ensures i > 0 ==> states[i] == Next(states[i - 1], steps[i - 1])
  {
  }

  lemma {:induction false} ClosedByThread(states: seq<State>, steps: seq<Step>, i: nat, thread: Thread) returns (k: nat)
    requires IsRun(states, steps) && i < |states|
    requires thread in states[i].closers && states[i].closers[thread] == Closed
    ensures k < i && steps[k] == DoClose(thread)
    ensures thread in states[k].closers && states[k].closers[thread].Entered?
    ensures states[k].closers[thread].handle !in states[k + 1].open
  {
    hide IsRun, SweepAfter, HistoryAfter;
    RunStep(states, steps, i);
    if thread in states[i - 1].closers && states[i - 1].closers[thread] == Closed {
      k := ClosedByThread(states, steps, i - 1, thread);
    } else {
      k := i - 1;
    }
  }

  /** A hooked close does close: the hook is left only after the number it was entered for was closed, at step `k`. */
  lemma HookedCloseCloses(states: seq<State>, steps: seq<Step>, i: nat, thread: Thread) returns (k: nat)
    requires IsRun(states, steps) && i < |steps| && steps[i] == LeaveClose(thread)
    ensures k < i && steps[k] == DoClose(thread) && thread in states[k].closers
    ensures states[k].closers[thread].Entered? && states[k].closers[thread].handle !in states[k + 1].open
  {
    assert Enabled(states[i], steps[i]);
    k := ClosedByThread(states, steps, i, thread);
  }

  // ----- The invariant -----

  /** The phases between the probe and the close. */
  predicate Judged(phase: Phase) {
    phase.Classified? || phase.Verifying? || phase.Matched?
  }

  predicate CalledHid(phase: Phase) {
    phase.Matched? || ((phase.Classified? || phase.Verifying?) && phase.hid)
  }

  /** A duplicate never has the number it was made from, and while the sweep holds the barrier no hooked close runs. */
  ghost predicate LocksInv(s: State) {
    && (HasPin(s.sweep.phase) && !s.sweep.phase.Unpinning? ==>
          s.sweep.phase.entry.handle != s.sweep.phase.pin.duplicate)
    && (HoldsBarrier(s.sweep.phase) ==> s.closers == map[])
  }

  ghost predicate HistoryInv(s: State) {
    && (forall r :: r in s.history.revoked ==> (r.probed, true) in s.history.probes)
    && (CalledHid(s.sweep.phase) ==>
          s.sweep.phase.probed.Some? && (s.sweep.phase.probed, true) in s.history.probes)
    && s.sweep.revokedCount == |s.history.revoked|
    && s.history.made == |s.history.unpinned| + if HasPin(s.sweep.phase) then 1 else 0
  }

  lemma LocksKept(s: State, step: Step)
    requires LocksInv(s) && Enabled(s, step)
    ensures LocksInv(Next(s, step))
  {
    hide HistoryAfter;
  }

  lemma HistoryKept(s: State, step: Step)
    requires HistoryInv(s) && Enabled(s, step)
    ensures HistoryInv(Next(s, step))
  {
    hide ClosersAfter;
  }

  lemma {:induction false} RunKeepsInv(states: seq<State>, steps: seq<Step>, i: nat)
    requires IsRun(states, steps) && i < |states|
    ensures LocksInv(states[i]) && HistoryInv(states[i])
  {
    if i > 0 {
      RunKeepsInv(states, steps, i - 1);
      LocksKept(states[i - 1], steps[i - 1]);
      HistoryKept(states[i - 1], steps[i - 1]);
    }
  }

  // ----- No wrong close without tampering -----

  /** A step of another thread that closes the open number. */
  predicate ClosesNumber(s: State, step: Step, handle: Handle) {
    && handle in s.open
    && (|| step == UnhookedClose(handle)
        || (step.DoClose? && step.thread in s.closers && s.closers[step.thread] == Entered(handle)))
  }

  /** Another thread closes the duplicate's number between the probe and the second lock. */
  predicate StealsPin(s: State, step: Step) {
    s.sweep.phase.Classified? && ClosesNumber(s, step, s.sweep.phase.pin.duplicate)
  }

  /** A close that bypasses the hook, inside the second critical section, of a number the sweep relies on there. */
  predicate Bypasses(s: State, step: Step) {
    && step.UnhookedClose?
    && ((s.sweep.phase.Verifying? && step.handle == s.sweep.phase.pin.duplicate)
        || (s.sweep.phase.Matched? && step.handle == s.sweep.phase.entry.handle))
  }

  predicate Tampers(s: State, step: Step) {
    StealsPin(s, step) || Bypasses(s, step)
  }

  /** The number that the sweep relies on: the duplicate's until the second comparison, then the original one. */
  function Relied(phase: Phase): Handle
    requires Judged(phase)
  {
    if phase.Matched? then phase.entry.handle else phase.pin.duplicate
  }

  /** That number still names the probed object. */
  predicate Kept(s: State)
    requires Judged(s.sweep.phase)
  {
    Lookup(s.open, Relied(s.sweep.phase)) == s.sweep.phase.probed
  }

  /** Both phases belong to one entry, behind one probe. */
  predicate SameJudgement(a: Phase, b: Phase) {
    Judged(a) && Judged(b) && a.entry == b.entry && a.pin == b.pin && a.probed == b.probed
  }

  lemma LostByTampering(s: State, step: Step)
    requires LocksInv(s) && Enabled(s, step)
    requires Judged(Next(s, step).sweep.phase) && Next(s, step).sweep.phase.probed.Some? && !Kept(Next(s, step))
    ensures SameJudgement(s.sweep.phase, Next(s, step).sweep.phase)
    ensures !Kept(s) || Tampers(s, step)
  {
    hide HistoryAfter;
  }

  /** What was lost since the probe was lost by a tampering step behind the same probe. */
  lemma {:induction false} LostSinceProbe(states: seq<State>, steps: seq<Step>, i: nat) returns (k: nat)
    requires IsRun(states, steps) && i < |states|
    requires Judged(states[i].sweep.phase) && states[i].sweep.phase.probed.Some? && !Kept(states[i])
    ensures k < i && Tampers(states[k], steps[k])
    ensures forall q :: k <= q <= i ==> SameJudgement(states[q].sweep.phase, states[i].sweep.phase)
  {
    hide Next, LocksInv, HistoryInv, Tampers;
    RunKeepsInv(states, steps, i - 1);
    LostByTampering(states[i - 1], steps[i - 1]);
    if Tampers(states[i - 1], steps[i - 1]) {
      k := i - 1;
    } else {
      k := LostSinceProbe(states, steps, i - 1);
    }
  }

  /**
   A handle that the sweep closes names the probed object, unless somebody tampered (step `k`) between that entry's
   probe and its close (step `c`).
   */
  lemma {:induction false} WrongCloseNeedsTampering(states: seq<State>, steps: seq<Step>, i: nat, r: Revoked)
    returns (k: nat, c: nat)
    requires IsRun(states, steps) && i < |states| && r in states[i].history.revoked && Some(r.closed) != r.probed
    ensures k < c < i && Tampers(states[k], steps[k])
    ensures steps[c] == CloseOriginal(true) && states[c].sweep.phase.Matched?
    ensures states[c].sweep.phase.entry.handle == r.handle && states[c].sweep.phase.probed == r.probed
    ensures forall q :: k <= q <= c ==> SameJudgement(states[q].sweep.phase, states[c].sweep.phase)
  {
    if r in states[i - 1].history.revoked {
      k, c := WrongCloseNeedsTampering(states, steps, i - 1, r);
    } else {
      c := i - 1;
      RunKeepsInv(states, steps, c);
      k := LostSinceProbe(states, steps, c);
    }
  }

  /**
   Revocation never closes the wrong object: whatever closes, opens and number reuse interleave, a handle the sweep
   closed named at that instant the object that was probed as HID, provided nobody closed the duplicate's number
   between the probe and the second lock, and no close bypassed the hook in the second critical section.
   */
  lemma RevocationClosesTheProbedObject(states: seq<State>, steps: seq<Step>, i: nat, r: Revoked)
    requires IsRun(states, steps) && i < |states| && r in states[i].history.revoked
    requires forall k :: 0 <= k < i ==> !Tampers(states[k], steps[k])
    ensures Some(r.closed) == r.probed && (Some(r.closed), true) in states[i].history.probes
  {
    RunKeepsInv(states, steps, i);
    if Some(r.closed) != r.probed {
      var k, c := WrongCloseNeedsTampering(states, steps, i, r);
    }
  }

  /** Another thread is given the number that the sweep relies on. */
  predicate Reuses(s: State, step: Step) {
    Judged(s.sweep.phase) && step.Open? && step.handle == Relied(s.sweep.phase)
  }

  /** Step `o` is the last reuse of a relied-on number between the probe and state `c`, and it names another object. */
  ghost predicate LastReuseMisnames(states: seq<State>, steps: seq<Step>, o: nat, c: nat)
    requires c < |states| && |states| == |steps| + 1
  {
    && o < c && Judged(states[c].sweep.phase)
    && (forall q :: o <= q <= c ==> SameJudgement(states[q].sweep.phase, states[c].sweep.phase))
    && Reuses(states[o], steps[o]) && Some(steps[o].target) != states[c].sweep.phase.probed
    && (forall q :: o < q < c ==> !Reuses(states[q], steps[q]))
  }

  lemma ReliedStep(s: State, step: Step)
    requires Enabled(s, step) && SameJudgement(s.sweep.phase, Next(s, step).sweep.phase)
    ensures var t := Next(s, step);
            Lookup(t.open, Relied(t.sweep.phase)) in
              {None, if Reuses(s, step) then Some(step.target) else Lookup(s.open, Relied(s.sweep.phase))}
  {
    hide HistoryAfter, ClosersAfter;
  }

  lemma {:induction false} ReusedNumberNames(states: seq<State>, steps: seq<Step>, o: nat, c: nat)
    requires IsRun(states, steps) && c < |states| && LastReuseMisnames(states, steps, o, c)
    ensures Lookup(states[c].open, Relied(states[c].sweep.phase)) in {None, Some(steps[o].target)}
    decreases c
  {
    hide Next, Reuses;
    ReliedStep(states[c - 1], steps[c - 1]);
    if o + 1 < c {
      assert LastReuseMisnames(states, steps, o, c - 1);
      ReusedNumberNames(states, steps, o, c - 1);
    }
  }

  lemma {:induction false} MisnamedByReuse(states: seq<State>, steps: seq<Step>, c: nat) returns (o: nat)
    requires IsRun(states, steps) && c < |states| && Judged(states[c].sweep.phase) && states[c].sweep.phase.probed.Some?
    requires Lookup(states[c].open, Relied(states[c].sweep.phase)).Some? && !Kept(states[c])
    ensures LastReuseMisnames(states, steps, o, c)
  {
    hide Next, Reuses, LocksInv, HistoryInv, Tampers;
    RunKeepsInv(states, steps, c - 1);
    LostByTampering(states[c - 1], steps[c - 1]);
    ReliedStep(states[c - 1], steps[c - 1]);
    if Reuses(states[c - 1], steps[c - 1]) {
      o := c - 1;
    } else {
      o := MisnamedByReuse(states, steps, c - 1);
    }
  }

  /**
   Exactly when a close is wrong: a successful close hits another object than the probed one if and only if, since
   the probe, a number that the sweep relied on was reused, the last time for another object.
   */
  lemma WrongCloseExactly(states: seq<State>, steps: seq<Step>, c: nat)
    requires IsRun(states, steps) && c < |steps| && steps[c] == CloseOriginal(true)
    ensures states[c].sweep.phase.Matched?
    ensures Lookup(states[c].open, states[c].sweep.phase.entry.handle) != states[c].sweep.phase.probed
       <==> exists o: nat :: LastReuseMisnames(states, steps, o, c)
  {
    RunKeepsInv(states, steps, c);
    if !Kept(states[c]) {
      var o := MisnamedByReuse(states, steps, c);
    }
    forall o: nat | LastReuseMisnames(states, steps, o, c)
      ensures !Kept(states[c])
    {
      ReusedNumberNames(states, steps, o, c);
    }
  }

  /** The reported count is the number of handles this sweep closed. */
  lemma RevokedCountIsExact(states: seq<State>, steps: seq<Step>, i: nat)
    requires IsRun(states, steps) && i < |states|
    ensures states[i].sweep.revokedCount == |states[i].history.revoked|
  {
    RunKeepsInv(states, steps, i);
  }

  // ----- Duplicates -----

  /** Another thread closes the number of the duplicate while the sweep has it. */
  predicate ClosesPin(s: State, step: Step) {
    HasPin(s.sweep.phase) && ClosesNumber(s, step, s.sweep.phase.pin.duplicate)
  }

  /** The duplicate's number still names the pinned object. */
  predicate Pinned(s: State)
    requires HasPin(s.sweep.phase)
  {
    Lookup(s.open, s.sweep.phase.pin.duplicate) == Some(s.sweep.phase.pin.pinned)
  }

  predicate SamePin(a: Phase, b: Phase) {
    HasPin(a) && HasPin(b) && a.pin == b.pin
  }

  lemma UnpinnedByClose(s: State, step: Step)
    requires LocksInv(s) && Enabled(s, step) && HasPin(Next(s, step).sweep.phase) && !Pinned(Next(s, step))
    ensures SamePin(s.sweep.phase, Next(s, step).sweep.phase)
    ensures !Pinned(s) || ClosesPin(s, step)
  {
    hide HistoryAfter;
  }

  lemma {:induction false} UnpinnedSinceDuplicate(states: seq<State>, steps: seq<Step>, i: nat) returns (k: nat)
    requires IsRun(states, steps) && i < |states| && HasPin(states[i].sweep.phase) && !Pinned(states[i])
    ensures k < i && ClosesPin(states[k], steps[k])
    ensures forall q :: k <= q <= i ==> SamePin(states[q].sweep.phase, states[i].sweep.phase)
  {
    hide Next, LocksInv, HistoryInv, ClosesPin;
    RunKeepsInv(states, steps, i - 1);
    UnpinnedByClose(states[i - 1], steps[i - 1]);
    if ClosesPin(states[i - 1], steps[i - 1]) {
      k := i - 1;
    } else {
      k := UnpinnedSinceDuplicate(states, steps, i - 1);
    }
  }

  /** Closing a duplicate hits the pinned object, unless another thread closed its number while the sweep had it. */
  lemma {:induction false} StrayUnpinNeedsAClose(states: seq<State>, steps: seq<Step>, i: nat,
                                                 u: (Option<Object>, Object))
    returns (k: nat, c: nat)
    requires IsRun(states, steps) && i < |states| && u in states[i].history.unpinned && u.0 != Some(u.1)
    ensures k < c < i && ClosesPin(states[k], steps[k]) && steps[c] == CloseDuplicate
    ensures forall q :: k <= q <= c ==> SamePin(states[q].sweep.phase, states[c].sweep.phase)
    ensures states[c].sweep.phase.pin.pinned == u.1
  {
    if u in states[i - 1].history.unpinned {
      k, c := StrayUnpinNeedsAClose(states, steps, i - 1, u);
    } else {
      c := i - 1;
      k := UnpinnedSinceDuplicate(states, steps, c);
    }
  }

  /**
   Every duplicate gets exactly one close, on every path and whatever other threads do: between entries, as many were
   closed as were made. If nobody else closed a duplicate's number, each of these closes hit the pinned object.
   */
  lemma DuplicatesAreClosedOnce(states: seq<State>, steps: seq<Step>, i: nat)
    requires IsRun(states, steps) && i < |states|
    ensures !HasPin(states[i].sweep.phase) ==> states[i].history.made == |states[i].history.unpinned|
    ensures (forall k :: 0 <= k < i ==> !ClosesPin(states[k], steps[k])) ==>
              forall u :: u in states[i].history.unpinned ==> u.0 == Some(u.1)
  {
    RunKeepsInv(states, steps, i);
    forall u | u in states[i].history.unpinned && u.0 != Some(u.1)
      ensures exists k :: 0 <= k < i && ClosesPin(states[k], steps[k])
    {
      var k, c := StrayUnpinNeedsAClose(states, steps, i, u);
    }
  }

  lemma {:induction false} RefusedStaysLocked(states: seq<State>, steps: seq<Step>, k: nat, c: nat)
    requires IsRun(states, steps) && k < c < |states| && steps[k] == Compare && states[k + 1].sweep.phase.Unpinning?
    requires forall q :: k < q <= c ==> HasPin(states[q].sweep.phase)
    ensures HasPin(states[k].sweep.phase)
    ensures states[c].sweep.phase == Unpinning(states[k].sweep.phase.pin, true)
    decreases c
  {
    hide IsRun, OpenAfter, ClosersAfter, HistoryAfter;
    RunStep(states, steps, c);
    RunStep(states, steps, k + 1);
    if c > k + 1 {
      RefusedStaysLocked(states, steps, k, c - 1);
    }
  }

  /**
   A duplicate that the first comparison refused is closed before a hooked close can reach it: if its close goes astray,
   an unhooked close of its number did it, at step `q`.
   */
  lemma RefusedDuplicateIsSafe(states: seq<State>, steps: seq<Step>, k: nat, c: nat) returns (q: nat)
    requires IsRun(states, steps) && k < c < |steps| && steps[k] == Compare && states[k + 1].sweep.phase.Unpinning?
    requires forall p :: k < p <= c ==> HasPin(states[p].sweep.phase)
    requires HasPin(states[c].sweep.phase) && !Pinned(states[c])
    ensures q < c && steps[q] == UnhookedClose(states[c].sweep.phase.pin.duplicate)
  {
    RefusedStaysLocked(states, steps, k, c);
    q := LockedPinLost(states, steps, c);
  }

  /** Before its duplicate is filtered, the sweep holds the barrier, and so has it for the close of a refused one. */
  lemma {:induction false} LockedPinLost(states: seq<State>, steps: seq<Step>, c: nat) returns (q: nat)
    requires IsRun(states, steps) && c < |states|
    requires states[c].sweep.phase.Comparing? || (states[c].sweep.phase.Unpinning? && states[c].sweep.phase.locked)
    requires !Pinned(states[c])
    ensures q < c && steps[q] == UnhookedClose(states[c].sweep.phase.pin.duplicate)
  {
    hide IsRun, HistoryAfter, OpenAfter, ClosersAfter, HistoryInv;
    RunStep(states, steps, c);
    RunKeepsInv(states, steps, c - 1);
    UnpinnedByClose(states[c - 1], steps[c - 1]);
    if ClosesPin(states[c - 1], steps[c - 1]) {
      q := c - 1;
    } else {
      q := LockedPinLost(states, steps, c - 1);
    }
  }

  /** A step of another thread that changes what the duplicate's number names. */
  predicate MovesPin(s: State, step: Step) {
    HasPin(s.sweep.phase) && (ClosesPin(s, step) || (step.Open? && step.handle == s.sweep.phase.pin.duplicate))
  }

  /** Step `o` is the last that moved the duplicate's number before state `c`: a close, or an open of another object. */
  ghost predicate LastMoveUnpins(states: seq<State>, steps: seq<Step>, o: nat, c: nat)
    requires c < |states| && |states| == |steps| + 1
  {
    && o < c && HasPin(states[c].sweep.phase)
    && (forall q :: o <= q <= c ==> SamePin(states[q].sweep.phase, states[c].sweep.phase))
    && MovesPin(states[o], steps[o])
    && (steps[o].Open? ==> steps[o].target != states[c].sweep.phase.pin.pinned)
    && (forall q :: o < q < c ==> !MovesPin(states[q], steps[q]))
  }

  /** What the duplicate's number names after a step. */
  function NamedAfter(s: State, step: Step): Option<Object>
    requires HasPin(s.sweep.phase)
  {
    if !MovesPin(s, step) then Lookup(s.open, s.sweep.phase.pin.duplicate)
    else if step.Open? then Some(step.target) else None
  }

  lemma PinStep(s: State, step: Step)
    requires LocksInv(s) && Enabled(s, step) && SamePin(s.sweep.phase, Next(s, step).sweep.phase)
    ensures Lookup(Next(s, step).open, s.sweep.phase.pin.duplicate) == NamedAfter(s, step)
  {
    hide HistoryAfter, ClosersAfter;
  }

  lemma {:induction false} MovedAway(states: seq<State>, steps: seq<Step>, o: nat, c: nat)
    requires IsRun(states, steps) && c < |states| && LastMoveUnpins(states, steps, o, c)
    ensures !Pinned(states[c])
    decreases c
  {
    hide Next, MovesPin, LocksInv, HistoryInv;
    RunKeepsInv(states, steps, c - 1);
    PinStep(states[c - 1], steps[c - 1]);
    if o + 1 < c {
      assert LastMoveUnpins(states, steps, o, c - 1);
      MovedAway(states, steps, o, c - 1);
    }
  }

  lemma {:induction false} LastMoveOf(states: seq<State>, steps: seq<Step>, c: nat) returns (o: nat)
    requires IsRun(states, steps) && c < |states| && HasPin(states[c].sweep.phase) && !Pinned(states[c])
    ensures LastMoveUnpins(states, steps, o, c)
  {
    hide Next, MovesPin, ClosesPin, LocksInv, HistoryInv;
    RunKeepsInv(states, steps, c - 1);
    UnpinnedByClose(states[c - 1], steps[c - 1]);
    PinStep(states[c - 1], steps[c - 1]);
    if MovesPin(states[c - 1], steps[c - 1]) {
      o := c - 1;
    } else {
      CloseMovesPin(states[c - 1], steps[c - 1]);
      o := LastMoveOf(states, steps, c - 1);
    }
  }

  lemma CloseMovesPin(s: State, step: Step)
    ensures ClosesPin(s, step) ==> MovesPin(s, step)
  {
  }

  /**
   Exactly when the close of a duplicate goes astray: it hits the pinned object unless the last step that moved the
   duplicate's number, while the sweep had it, was another thread's close or an open of another object.
   */
  lemma StrayUnpinExactly(states: seq<State>, steps: seq<Step>, c: nat)
    requires IsRun(states, steps) && c < |steps| && steps[c] == CloseDuplicate
    ensures HasPin(states[c].sweep.phase)
    ensures !Pinned(states[c]) <==> exists o: nat :: LastMoveUnpins(states, steps, o, c)
  {
    if !Pinned(states[c]) {
      var o := LastMoveOf(states, steps, c);
    }
    forall o: nat | LastMoveUnpins(states, steps, o, c)
      ensures !Pinned(states[c])
    {
      MovedAway(states, steps, o, c);
    }
  }

  // ----- A sweep is no silent no-op -----

  predicate HasEntry(phase: Phase) {
    !phase.Idle? && !phase.Loop? && !phase.Unpinning?
  }

  /** States `i + 1` to `j` belong to one sweep, which may end at `j`. */
  ghost predicate OneSweep(states: seq<State>, steps: seq<Step>, i: nat, j: nat) {
    && IsRun(states, steps) && i < j < |states| && steps[i].Start?
    && forall k :: i < k < j ==> !states[k].sweep.phase.Idle?
  }

  /** Whether a duplicate is a file object is told by its entry's type index: files, and no others, have index `t`. */
  predicate FilesHaveType(s: State, step: Step, t: nat) {
    step.Filter? && s.sweep.phase.Filtering? ==> (step.isFile <==> s.sweep.phase.entry.typeIndex == t)
  }

  /** So it is throughout the sweep that starts at `i`, up to state `j`. */
  ghost predicate FilesHaveTypeUntil(states: seq<State>, steps: seq<Step>, i: nat, j: nat, t: nat) {
    OneSweep(states, steps, i, j) && forall k :: i < k < j ==> FilesHaveType(states[k], steps[k], t)
  }

  /** The sweep has learned the file type or nothing, and has probed nothing but files. */
  predicate KnowsFiles(s: State, t: nat) {
    && s.sweep.fileType in {None, Some(t)}
    && (s.sweep.phase.Probing? || Judged(s.sweep.phase) ==>
          s.sweep.phase.entry.typeIndex == t && s.sweep.fileType == Some(t))
  }

  lemma KnowsFilesKept(s: State, step: Step, t: nat)
    requires Enabled(s, step) && FilesHaveType(s, step, t) && KnowsFiles(s, t)
    ensures KnowsFiles(Next(s, step), t)
  {
    hide OpenAfter, ClosersAfter, HistoryAfter;
  }

  /** The type index that a sweep learns is that of files, and only their entries are probed. */
  lemma {:induction false} FileTypeIsLearned(states: seq<State>, steps: seq<Step>, i: nat, j: nat, t: nat)
    requires FilesHaveTypeUntil(states, steps, i, j, t)
    ensures KnowsFiles(states[j], t)
    decreases j
  {
    if j > i + 1 {
      FileTypeIsLearned(states, steps, i, j - 1, t);
      KnowsFilesKept(states[j - 1], steps[j - 1], t);
    }
  }

  /** The foreign calls for entry `e` succeed, it is HID, and other threads leave it and its duplicate alone. */
  predicate Obliging(s: State, step: Step, e: Entry) {
    var phase := s.sweep.phase;
    && !ClosesNumber(s, step, e.handle)
    && (HasEntry(phase) && phase.entry == e ==>
          && !ClosesPin(s, step)
          && match step
             case Duplicate(result) => result.Some?
             case Probe(isHid) => isHid
             case CloseOriginal(succeeds) => succeeds
             case _ => true)
  }

  /** The handle is still open on the object. */
  predicate Pending(s: State, e: Entry, target: Object) {
    Lookup(s.open, e.handle) == Some(target) && (HasPin(s.sweep.phase) ==> s.sweep.phase.pin.duplicate != e.handle)
  }

  /** The sweep closed the handle while it named the object. */
  ghost predicate WasClosed(s: State, e: Entry, target: Object) {
    exists r :: r in s.history.revoked && r.handle == e.handle && r.closed == target
  }

  /** The sweep is working on the entry, and so far everything points to closing it. */
  predicate Processing(s: State, e: Entry, target: Object) {
    var phase := s.sweep.phase;
    && HasEntry(phase) && phase.entry == e && Pending(s, e, target)
    && (HasPin(phase) ==> Lookup(s.open, phase.pin.duplicate) == Some(target))
    && (Judged(phase) ==> CalledHid(phase))
  }

  lemma ClosedStays(s: State, step: Step, e: Entry, target: Object)
    requires Enabled(s, step) && !step.Start? && WasClosed(s, e, target)
    ensures WasClosed(Next(s, step), e, target)
  {
    var r :| r in s.history.revoked && r.handle == e.handle && r.closed == target;
    assert r in Next(s, step).history.revoked;
  }

  lemma PendingStep(s: State, step: Step, e: Entry, target: Object)
    requires Enabled(s, step) && Obliging(s, step, e) && Pending(s, e, target)
    ensures Pending(Next(s, step), e, target) || WasClosed(Next(s, step), e, target)
  {
    if step == CloseOriginal(true) && s.sweep.phase.entry.handle == e.handle {
      var revoked := Next(s, step).history.revoked;
      assert revoked[|revoked| - 1] in revoked;
    }
  }

  lemma ProcessingStep(s: State, step: Step, e: Entry, target: Object)
    requires LocksInv(s) && Enabled(s, step) && Obliging(s, step, e) && Processing(s, e, target)
    requires KnowsFiles(s, e.typeIndex) && FilesHaveType(s, step, e.typeIndex)
    ensures Processing(Next(s, step), e, target) || WasClosed(Next(s, step), e, target)
  {
    PendingStep(s, step, e, target);
    hide HistoryAfter;
  }

  lemma {:induction false} PendingOrClosed(states: seq<State>, steps: seq<Step>, i: nat, j: nat,
                                           e: Entry, target: Object)
    requires OneSweep(states, steps, i, j) && Lookup(states[i].open, e.handle) == Some(target)
    requires forall k :: i < k < j ==> Obliging(states[k], steps[k], e)
    ensures Pending(states[j], e, target) || WasClosed(states[j], e, target)
    decreases j
  {
    if j > i + 1 {
      PendingOrClosed(states, steps, i, j - 1, e, target);
      if WasClosed(states[j - 1], e, target) {
        ClosedStays(states[j - 1], steps[j - 1], e, target);
      } else {
        PendingStep(states[j - 1], steps[j - 1], e, target);
      }
    }
  }

  lemma {:induction false} ProcessedOrClosed(states: seq<State>, steps: seq<Step>, i: nat, k: nat, j: nat,
                                             e: Entry, target: Object)
    requires OneSweep(states, steps, i, j) && i < k <= j
    requires Lookup(states[i].open, e.handle) == Some(target) && states[k].sweep.phase == Pinning(e)
    requires forall q :: i < q < j ==> Obliging(states[q], steps[q], e)
    requires FilesHaveTypeUntil(states, steps, i, j, e.typeIndex)
    ensures Processing(states[j], e, target) || WasClosed(states[j], e, target)
    decreases j
  {
    if j == k {
      PendingOrClosed(states, steps, i, j, e, target);
    } else {
      ProcessedOrClosed(states, steps, i, k, j - 1, e, target);
      if WasClosed(states[j - 1], e, target) {
        ClosedStays(states[j - 1], steps[j - 1], e, target);
      } else {
        RunKeepsInv(states, steps, j - 1);
        FileTypeIsLearned(states, steps, i, j - 1, e.typeIndex);
        ProcessingStep(states[j - 1], steps[j - 1], e, target);
      }
    }
  }

  /** The entries that are left are the last ones. */
  lemma {:induction false} RestIsSuffix(states: seq<State>, steps: seq<Step>, i: nat, j: nat)
    requires OneSweep(states, steps, i, j)
    ensures var entries, rest := steps[i].entries, states[j].sweep.rest;
            |rest| <= |entries| && rest == entries[|entries| - |rest|..]
    ensures states[j].sweep.phase.Idle? ==> states[j].sweep.rest == []
    decreases j
  {
    if j > i + 1 {
      RestIsSuffix(states, steps, i, j - 1);
    }
  }

  /** Every entry that is no longer left was taken. */
  lemma {:induction false} EveryEntryIsTaken(states: seq<State>, steps: seq<Step>, i: nat, j: nat, m: nat)
    returns (k: nat)
    requires OneSweep(states, steps, i, j) && m + |states[j].sweep.rest| < |steps[i].entries|
    ensures i < k <= j && states[k].sweep.phase == Pinning(steps[i].entries[m])
    decreases j
  {
    RestIsSuffix(states, steps, i, j - 1);
    if m + |states[j - 1].sweep.rest| < |steps[i].entries| {
      k := EveryEntryIsTaken(states, steps, i, j - 1, m);
    } else {
      k := j;
    }
  }

  /**
   A finished sweep closed every enumerated handle that was open on `target` when it started, if its entry has the type
   index of files, the foreign calls for it succeeded, it was HID, and other threads left it and its duplicate alone.
   */
  lemma SweepClosesWhatItCan(states: seq<State>, steps: seq<Step>, i: nat, j: nat, m: nat, target: Object)
    requires OneSweep(states, steps, i, j) && states[j].sweep.phase.Idle? && m < |steps[i].entries|
    requires Lookup(states[i].open, steps[i].entries[m].handle) == Some(target)
    requires forall k :: i < k < j ==> Obliging(states[k], steps[k], steps[i].entries[m])
    requires FilesHaveTypeUntil(states, steps, i, j, steps[i].entries[m].typeIndex)
    ensures WasClosed(states[j], steps[i].entries[m], target)
  {
    RestIsSuffix(states, steps, i, j);
    var k := EveryEntryIsTaken(states, steps, i, j, m);
    ProcessedOrClosed(states, steps, i, k, j, steps[i].entries[m], target);
  }

  /** A sweep is never stuck: unless it waits for hooked closes it can make a step, whatever foreign calls answer. */
  lemma SweepMoves(s: State, answer: bool) returns (step: Step)
    requires !s.sweep.phase.Idle?
    requires (s.sweep.phase.Loop? && s.sweep.rest != []) || s.sweep.phase.Classified? ==> s.closers == map[]
    ensures Enabled(s, step) && !step.Start? && !OfOthers(step)
    ensures s.sweep.phase.Probing? && s.sweep.phase.pin.duplicate in s.open ==> step == Probe(answer)
    ensures s.sweep.phase.Filtering? && s.sweep.phase.pin.duplicate in s.open ==> step == Filter(answer)
    ensures s.sweep.phase.Matched? && s.sweep.phase.entry.handle in s.open ==> step == CloseOriginal(answer)
  {
    match s.sweep.phase
    case Loop => step := Take;
    case Pinning(_) => step := Duplicate(None);
    case Comparing(_, _) => step := Compare;
    case Filtering(_, pin) => step := Filter(answer && pin.duplicate in s.open);
    case Probing(_, pin) => step := Probe(answer && pin.duplicate in s.open);
    case Classified(_, _, _, _) => step := Relock;
    case Verifying(_, _, _, _) => step := CompareAgain;
    case Matched(entry, _, _) => step := CloseOriginal(answer && entry.handle in s.open);
    case Unpinning(_, _) => step := CloseDuplicate;
  }

  predicate OfOthers(step: Step) {
    step.Open? || step.EnterClose? || step.DoClose? || step.LeaveClose? || step.UnhookedClose?
  }

  /** Any free number may be what a duplicate is given. */
  lemma AnyNumberIsGiven(s: State, number: Handle)
    requires s.sweep.phase.Pinning? && s.sweep.phase.entry.handle in s.open && number !in s.open
    ensures Enabled(s, Duplicate(Some(number)))
  {
  }

  // ----- A sweep changes nothing else -----

  /** The handle is still open on the object, and the sweep's duplicate is another number. */
  predicate Undisturbed(s: State, handle: Handle, target: Object) {
    Lookup(s.open, handle) == Some(target) && (HasPin(s.sweep.phase) ==> s.sweep.phase.pin.duplicate != handle)
  }

  ghost predicate WasRevoked(s: State, handle: Handle) {
    exists r :: r in s.history.revoked && r.handle == handle
  }

  lemma UndisturbedStep(s: State, step: Step, handle: Handle, target: Object)
    requires Enabled(s, step) && !ClosesNumber(s, step, handle) && Undisturbed(s, handle, target)
    ensures Undisturbed(Next(s, step), handle, target) || WasRevoked(Next(s, step), handle)
  {
    if step == CloseOriginal(true) && s.sweep.phase.entry.handle == handle {
      var revoked := Next(s, step).history.revoked;
      assert revoked[|revoked| - 1] in revoked;
    }
  }

  /** A handle that no other thread closed during a sweep is open on the same object, unless it was revoked. */
  lemma {:induction false} OtherHandlesSurvive(states: seq<State>, steps: seq<Step>, i: nat, j: nat,
                                               handle: Handle, target: Object)
    requires OneSweep(states, steps, i, j) && Lookup(states[i].open, handle) == Some(target)
    requires forall k :: i < k < j ==> !ClosesNumber(states[k], steps[k], handle)
    ensures Lookup(states[j].open, handle) == Some(target) || WasRevoked(states[j], handle)
    ensures Undisturbed(states[j], handle, target) || WasRevoked(states[j], handle)
    decreases j
  {
    if j > i + 1 {
      OtherHandlesSurvive(states, steps, i, j - 1, handle, target);
      if WasRevoked(states[j - 1], handle) {
        var r :| r in states[j - 1].history.revoked && r.handle == handle;
        assert r in states[j].history.revoked;
      } else {
        UndisturbedStep(states[j - 1], steps[j - 1], handle, target);
      }
    }
  }

  /** Only enumerated handles with the type index of files are revoked, and they were probed as HID. */
  predicate FromEntries(s: State, entries: seq<Entry>, t: nat) {
    && (forall r :: r in s.history.revoked ==> Entry(r.handle, t) in entries)
    && (HasEntry(s.sweep.phase) ==> s.sweep.phase.entry in entries)
    && (forall e :: e in s.sweep.rest ==> e in entries)
  }

  lemma {:induction false} OnlyFilesAreRevoked(states: seq<State>, steps: seq<Step>, i: nat, j: nat, t: nat)
    requires FilesHaveTypeUntil(states, steps, i, j, t)
    ensures FromEntries(states[j], steps[i].entries, t)
    decreases j
  {
    if j > i + 1 {
      OnlyFilesAreRevoked(states, steps, i, j - 1, t);
      FileTypeIsLearned(states, steps, i, j - 1, t);
    }
  }

  // ----- Both kinds of tampering are real -----

  ghost predicate Hooked(steps: seq<Step>) {
    forall k :: 0 <= k < |steps| ==> !steps[k].UnhookedClose?
  }

  lemma Extend(states: seq<State>, steps: seq<Step>, step: Step, next: State)
    returns (longer: seq<State>, more: seq<Step>)
    requires IsRun(states, steps) && Enabled(states[|steps|], step) && Next(states[|steps|], step) == next
    ensures IsRun(longer, more) && longer[|more|] == next
    ensures Hooked(steps) && !step.UnhookedClose? ==> Hooked(more)
  {
    longer, more := states + [next], steps + [step];
  }

  /** A state in the middle of the last entry, the first that could be a file. */
  function Working(open: map<Handle, Object>, closers: map<Thread, Closer>, phase: Phase, history: History): State {
    State(open, closers, Sweep(phase, [], if Judged(phase) then Some(0) else None, 0), history)
  }

  /** The handle 1 is pinned by the duplicate 2. */
  lemma HandlePinned() returns (states: seq<State>, steps: seq<Step>)
    ensures IsRun(states, steps) && Hooked(steps)
    ensures states[|steps|]
         == Working(map[1 := 10, 2 := 10], map[], Filtering(Entry(1, 0), Pin(2, 10)), History([], [], 1, []))
  {
    var e, p, one, two := Entry(1, 0), Pin(2, 10), map[1 := 10], map[1 := 10, 2 := 10];
    var h0, h1 := History([], [], 0, []), History([], [], 1, []);
    states, steps := [State(one, map[], INIT_SWEEP, h0)], [];
    states, steps := Extend(states, steps, Start([e]), State(one, map[], Sweep(Loop, [e], None, 0), h0));
    states, steps := Extend(states, steps, Take, Working(one, map[], Pinning(e), h0));
    states, steps := Extend(states, steps, Duplicate(Some(2)), Working(two, map[], Comparing(e, p), h1));
    states, steps := Extend(states, steps, Compare, Working(two, map[], Filtering(e, p), h1));
  }

  const PROBED := History([], [(Some(10), true)], 1, [])

  /** Then it is probed as HID. */
  lemma HandleProbed() returns (states: seq<State>, steps: seq<Step>)
    ensures IsRun(states, steps) && Hooked(steps)
    ensures states[|steps|]
         == Working(map[1 := 10, 2 := 10], map[], Classified(Entry(1, 0), Pin(2, 10), Some(10), true), PROBED)
  {
    var e, p, two := Entry(1, 0), Pin(2, 10), map[1 := 10, 2 := 10];
    states, steps := HandlePinned();
    states, steps := Extend(states, steps, Filter(true),
                            State(two, map[], Sweep(Probing(e, p), [], Some(0), 0), History([], [], 1, [])));
    states, steps := Extend(states, steps, Probe(true), Working(two, map[], Classified(e, p, Some(10), true), PROBED));
  }

  /** A close that bypasses the hook after the second comparison lets the sweep close another object. */
  lemma BypassCanMisleadTheSweep() returns (states: seq<State>, steps: seq<Step>)
    ensures IsRun(states, steps)
    ensures exists r :: r in states[|steps|].history.revoked && Some(r.closed) != r.probed
  {
    var e, p, two := Entry(1, 0), Pin(2, 10), map[1 := 10, 2 := 10];
    var r, matched := Revoked(1, 11, Some(10)), Matched(Entry(1, 0), Pin(2, 10), Some(10));
    states, steps := HandleProbed();
    states, steps := Extend(states, steps, Relock, Working(two, map[], Verifying(e, p, Some(10), true), PROBED));
    states, steps := Extend(states, steps, CompareAgain, Working(two, map[], matched, PROBED));
    states, steps := Extend(states, steps, UnhookedClose(1), Working(map[2 := 10], map[], matched, PROBED));
    states, steps := Extend(states, steps, Open(1, 11), Working(map[1 := 11, 2 := 10], map[], matched, PROBED));
    states, steps := Extend(states, steps, CloseOriginal(true),
                            State(map[2 := 10], map[], Sweep(Unpinning(p, false), [], Some(0), 1),
                                  PROBED.(revoked := [r])));
    assert r in states[|steps|].history.revoked;
  }

  /** A hooked close of the stale number 2 hits the duplicate, and the number is reused for another object. */
  lemma DuplicateStolen() returns (states: seq<State>, steps: seq<Step>)
    ensures IsRun(states, steps) && Hooked(steps)
    ensures states[|steps|]
         == Working(map[1 := 10, 2 := 11], map[], Classified(Entry(1, 0), Pin(2, 10), Some(10), true), PROBED)
  {
    var one, two, stolen := map[1 := 10], map[1 := 10, 2 := 10], map[1 := 10, 2 := 11];
    var judged := Classified(Entry(1, 0), Pin(2, 10), Some(10), true);
    states, steps := HandleProbed();
    states, steps := Extend(states, steps, EnterClose(0, 2), Working(two, map[0 := Entered(2)], judged, PROBED));
    states, steps := Extend(states, steps, DoClose(0), Working(one, map[0 := Closed], judged, PROBED));
    states, steps := Extend(states, steps, LeaveClose(0), Working(one, map[], judged, PROBED));
    states, steps := Extend(states, steps, Open(2, 11), Working(stolen, map[], judged, PROBED));
  }

  /** The handle 1 is closed and reused for that object, too. */
  lemma OriginalReused() returns (states: seq<State>, steps: seq<Step>)
    ensures IsRun(states, steps) && Hooked(steps)
    ensures states[|steps|]
         == Working(map[1 := 11, 2 := 11], map[], Classified(Entry(1, 0), Pin(2, 10), Some(10), true), PROBED)
  {
    var stolen, rest, both := map[1 := 10, 2 := 11], map[2 := 11], map[1 := 11, 2 := 11];
    var judged := Classified(Entry(1, 0), Pin(2, 10), Some(10), true);
    states, steps := DuplicateStolen();
    states, steps := Extend(states, steps, EnterClose(0, 1), Working(stolen, map[0 := Entered(1)], judged, PROBED));
    states, steps := Extend(states, steps, DoClose(0), Working(rest, map[0 := Closed], judged, PROBED));
    states, steps := Extend(states, steps, LeaveClose(0), Working(rest, map[], judged, PROBED));
    states, steps := Extend(states, steps, Open(1, 11), Working(both, map[], judged, PROBED));
  }

  /**
   Hooked closes alone can mislead the sweep, if one of them closes a stale number that is now the duplicate's: the
   sweep closes an object that was not probed, and its own close of the duplicate hits another object as well.
   */
  lemma StaleCloseCanMisleadTheSweep() returns (states: seq<State>, steps: seq<Step>)
    ensures IsRun(states, steps) && Hooked(steps)
    ensures exists r :: r in states[|steps|].history.revoked && Some(r.closed) != r.probed
    ensures exists u :: u in states[|steps|].history.unpinned && u.0.Some? && u.0 != Some(u.1)
  {
    var e, p, both, rest := Entry(1, 0), Pin(2, 10), map[1 := 11, 2 := 11], map[2 := 11];
    var r, u: (Option<Object>, Object) := Revoked(1, 11, Some(10)), (Some(11), 10);
    states, steps := OriginalReused();
    states, steps := Extend(states, steps, Relock, Working(both, map[], Verifying(e, p, Some(10), true), PROBED));
    states, steps := Extend(states, steps, CompareAgain, Working(both, map[], Matched(e, p, Some(10)), PROBED));
    states, steps := Extend(states, steps, CloseOriginal(true),
                            State(rest, map[], Sweep(Unpinning(p, false), [], Some(0), 1), PROBED.(revoked := [r])));
    states, steps := Extend(states, steps, CloseDuplicate,
                            State(map[], map[], Sweep(Loop, [], Some(0), 1), PROBED.(revoked := [r], unpinned := [u])));
    assert r in states[|steps|].history.revoked && u in states[|steps|].history.unpinned;
  }
}
