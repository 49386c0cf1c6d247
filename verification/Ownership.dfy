/**
 The gate's ownership protocol: every pipe connection is a small process that takes one block lease or one
 pass-through claim and gives it back, and each change of blocking triggers a handle sweep or a rescan.
 Connections interleave at the steps below; detours read the two counters without any lock.
 */
module Ownership {
  import opened Common

  type Conn = nat

  datatype Kind = Lease | Claim

  /** The first message of a connection; everything else is answered without changing ownership. */
  datatype Request = AcquireLease | AcquirePassThrough | QueryStatus | Unacceptable

  /** How a holding connection ends: the matching release, another message, or a closed pipe. */
  datatype Ending = Explicit | WrongMessage | Eof

  datatype Op = Acquire(kind: Kind) | Release(kind: Kind, ending: Ending)

  /** Where a connection's worker is in `client_thread`. */
  datatype Phase =
    | Accepted
    | Installing
    | HoldsInstaller
    | Waiting(op: Op)
    | Locked(op: Op)
    | Observed(op: Op, was: bool)
    | Counted(op: Op, was: bool, count: int)
    | Settled(op: Op)
    | Held(kind: Kind)
    | Finished

  // ----- Hook installation -----

  datatype Hook =
    | CreateFileW | CreateFileA | CreateFile2 | NtReadFile | NtWriteFile
    | NtDeviceIoControlFile | NtClose | NtCreateFile | NtOpenFile

  const REQUIRED: set<Hook> := {
    CreateFileW, CreateFileA, CreateFile2, NtReadFile, NtWriteFile, NtDeviceIoControlFile, NtClose, NtCreateFile,
    NtOpenFile
  }

  /** The foreign calls made for one hook. */
  datatype HookCalls = HookCalls(found: bool, created: bool, queued: bool)

  /** The foreign calls of one installation attempt. */
  datatype InstallCalls =
    InstallCalls(initialized: bool, modulesFound: bool, queriesFound: bool, hooks: Hook -> HookCalls, applied: bool)

  datatype Installed = Installed(ok: bool, published: set<Hook>)

  /** A trampoline is published once MinHook made it; queuing it for activation can still fail. */
  function QueueHook(calls: HookCalls, hook: Hook, published: set<Hook>): (bool, set<Hook>) {
    if !calls.found || !calls.created then (false, published)
    else (calls.queued, published + {hook})
  }

  /** Queues all required hooks, each even after a failure, before any of them is applied. */
  function InstallHooks(calls: InstallCalls): (r: Installed)
    ensures r.ok ==> REQUIRED <= r.published
  {
    if !calls.initialized || !calls.modulesFound || !calls.queriesFound then Installed(false, {})
    else
      var (ok0, p0) := QueueHook(calls.hooks(CreateFileW), CreateFileW, {});
      var (ok1, p1) := QueueHook(calls.hooks(CreateFileA), CreateFileA, p0);
      var (ok2, p2) := QueueHook(calls.hooks(CreateFile2), CreateFile2, p1);
      var (ok3, p3) := QueueHook(calls.hooks(NtReadFile), NtReadFile, p2);
      var (ok4, p4) := QueueHook(calls.hooks(NtWriteFile), NtWriteFile, p3);
      var (ok5, p5) := QueueHook(calls.hooks(NtDeviceIoControlFile), NtDeviceIoControlFile, p4);
      var (ok6, p6) := QueueHook(calls.hooks(NtClose), NtClose, p5);
      var (ok7, p7) := QueueHook(calls.hooks(NtCreateFile), NtCreateFile, p6);
      var (ok8, p8) := QueueHook(calls.hooks(NtOpenFile), NtOpenFile, p7);
      var success := ok0 && ok1 && ok2 && ok3 && ok4 && ok5 && ok6 && ok7 && ok8;
      Installed(success && calls.applied, p8)
  }

  /** The reports an installation attempt can end with. */
  ghost predicate CanReport(r: Installed) {
    exists calls :: InstallHooks(calls) == r
  }

  /** Every call for the hook succeeded. */
  predicate Complete(calls: HookCalls) {
    calls.found && calls.created && calls.queued
  }

  predicate Ready(calls: InstallCalls) {
    calls.initialized && calls.modulesFound && calls.queriesFound
  }

  lemma SuccessIsComplete(calls: InstallCalls, hook: Hook)
    ensures InstallHooks(calls).ok ==> Complete(calls.hooks(hook))
  {
    hide REQUIRED;
  }

  /** An attempt succeeds exactly when all its calls do. */
  lemma InstallationIsExact(calls: InstallCalls)
    ensures InstallHooks(calls).ok <==> Ready(calls) && calls.applied && forall hook :: Complete(calls.hooks(hook))
  {
    if InstallHooks(calls).ok {
      forall hook
        ensures Complete(calls.hooks(hook))
      {
        SuccessIsComplete(calls, hook);
      }
    }
  }

  lemma ReportOfSuccess(r: Installed)
    requires CanReport(r) && r.ok
    ensures REQUIRED <= r.published
  {
    var calls :| InstallHooks(calls) == r;
  }

  // ----- States and steps -----

  /** Work triggered by a change of blocking; a sweep closes handles through the `NtClose` trampoline. */
  datatype Edge = Sweep(closeReady: bool) | Rescan

  datatype Counters = Counters(leases: int, claims: int)

  /** `OWNERSHIP_TRANSITION` and the mutex around the installation verdict. */
  datatype Locks = Locks(transition: Option<Conn>, installer: Option<Conn>)

  datatype Installation = Installation(verdict: Option<bool>, attempts: nat, published: set<Hook>)

  /** The edges triggered so far, and how often a rescan found blocking active and did nothing. */
  datatype Work = Work(edges: seq<Edge>, suppressed: nat)

  /** Every addition to and subtraction from a counter. */
  datatype Ledger = Ledger(added: multiset<(Conn, Kind)>, subtracted: multiset<(Conn, Kind)>)

  datatype State = State(phases: map<Conn, Phase>, counters: Counters, locks: Locks, hooks: Installation, work: Work,
                         ledger: Ledger)

  const INIT := State(map[], Counters(0, 0), Locks(None, None), Installation(None, 0, {}), Work([], 0),
                      Ledger(multiset{}, multiset{}))

  predicate Blocking(n: Counters) {
    n.leases > 0 && n.claims == 0
  }

  datatype Step =
    | Accept(c: Conn)
    | ReadRequest(c: Conn, request: Request)
    | LockInstaller(c: Conn)
    | EnsureInstalled(c: Conn, report: Installed)
    | LockTransition(c: Conn)
    | Observe(c: Conn)
    | Count(c: Conn)
    | Settle(c: Conn)
    | Unlock(c: Conn)
    | ReadRelease(c: Conn, ending: Ending)

  ghost predicate Enabled(s: State, step: Step) {
    if step.Accept? then step.c !in s.phases
    else
      && step.c in s.phases
      && var phase := s.phases[step.c];
      match step
      case Accept(_) => true
      case ReadRequest(_, _) => phase == Accepted
      case LockInstaller(_) => phase == Installing && s.locks.installer == None
      case EnsureInstalled(_, report) => phase == HoldsInstaller && CanReport(report)
      case LockTransition(_) => phase.Waiting? && s.locks.transition == None
      case Observe(_) => phase.Locked? && phase.op != Acquire(Lease)
      case Count(_) => phase.Observed? || phase == Locked(Acquire(Lease))
      case Settle(_) => phase.Counted?
      case Unlock(_) => phase.Settled?
      case ReadRelease(_, _) => phase.Held?
  }

  /** What the counter holds after an addition or a subtraction. */
  function Changed(n: Counters, op: Op): Counters {
    match op
    case Acquire(Lease) => n.(leases := n.leases + 1)
    case Acquire(Claim) => n.(claims := n.claims + 1)
    case Release(Lease, _) => n.(leases := n.leases - 1)
    case Release(Claim, _) => n.(claims := n.claims - 1)
  }

  /** The first attempt decides; its verdict is remembered and no other attempt is made. */
  function Ensured(hooks: Installation, report: Installed): Installation {
    if hooks.verdict.Some? then hooks
    else Installation(Some(report.ok), hooks.attempts + 1, report.published)
  }

  ghost function PhaseAfter(s: State, step: Step): Phase
    requires Enabled(s, step)
  {
    match step
    case Accept(_) => Accepted
    case ReadRequest(_, request) =>
      (match request
       case AcquireLease => Installing
       case AcquirePassThrough => Waiting(Acquire(Claim))
       case QueryStatus => Finished
       case Unacceptable => Finished)
    case LockInstaller(_) => HoldsInstaller
    case EnsureInstalled(_, report) =>
      if Ensured(s.hooks, report).verdict == Some(true) then Waiting(Acquire(Lease)) else Finished
    case LockTransition(c) => Locked(s.phases[c].op)
    case Observe(c) => Observed(s.phases[c].op, Blocking(s.counters))
    case Count(c) =>
      var op := s.phases[c].op;
      var n := Changed(s.counters, op);
      Counted(op, s.phases[c].Observed? && s.phases[c].was, if op.kind == Lease then n.leases else n.claims)
    case Settle(c) => Settled(s.phases[c].op)
    case Unlock(c) => if s.phases[c].op.Acquire? then Held(s.phases[c].op.kind) else Finished
    case ReadRelease(c, ending) => Waiting(Release(s.phases[c].kind, ending))
  }

  ghost function LocksAfter(locks: Locks, step: Step): Locks {
    match step
    case LockInstaller(c) => locks.(installer := Some(c))
    case EnsureInstalled(_, _) => locks.(installer := None)
    case LockTransition(c) => locks.(transition := Some(c))
    case Unlock(_) => locks.(transition := None)
    case _ => locks
  }

  /** The handle sweep that starts blocking. */
  function SweepHandles(work: Work, hooks: Installation): Work {
    work.(edges := work.edges + [Sweep(NtClose in hooks.published)])
  }

  /** The rescan that ends blocking; it does nothing while blocking holds. */
  function NotifyRescan(work: Work, blocking: bool): Work {
    if blocking then work.(suppressed := work.suppressed + 1) else work.(edges := work.edges + [Rescan])
  }

  /** The edge decision at the end of a transition, from the locals `phase` and the counters as they are then. */
  function SettledWork(work: Work, hooks: Installation, phase: Phase, now: bool): Work
    requires phase.Counted?
  {
    if phase.op == Acquire(Lease) then
      if phase.count == 1 && now then SweepHandles(work, hooks) else work
    else if phase.op == Acquire(Claim) then
      if phase.was then NotifyRescan(work, now) else work
    else if !phase.was && now then SweepHandles(work, hooks)
    else if phase.was && !now then NotifyRescan(work, now)
    else work
  }

  function LedgerAfter(ledger: Ledger, c: Conn, op: Op): Ledger {
    if op.Acquire? then ledger.(added := ledger.added + multiset{(c, op.kind)})
    else ledger.(subtracted := ledger.subtracted + multiset{(c, op.kind)})
  }

  ghost function Next(s: State, step: Step): State
    requires Enabled(s, step)
  {
    State(
      s.phases[step.c := PhaseAfter(s, step)],
      if step.Count? then Changed(s.counters, s.phases[step.c].op) else s.counters,
      LocksAfter(s.locks, step),
      if step.EnsureInstalled? then Ensured(s.hooks, step.report) else s.hooks,
      if step.Settle? then SettledWork(s.work, s.hooks, s.phases[step.c], Blocking(s.counters)) else s.work,
      if step.Count? then LedgerAfter(s.ledger, step.c, s.phases[step.c].op) else s.ledger)
  }

  /** A run: any interleaving of enabled steps from the start. */
  ghost predicate IsRun(states: seq<State>, steps: seq<Step>) {
    && |states| == |steps| + 1
    && states[0] == INIT
    && forall i :: 0 <= i < |steps| ==> Enabled(states[i], steps[i]) && states[i + 1] == Next(states[i], steps[i])
  }

  /** Clients are free: they connect, send any first message, and end in any way. */
  lemma ClientsAreFree(s: State, c: Conn, request: Request, ending: Ending)
    ensures c !in s.phases ==> Enabled(s, Accept(c))
    ensures c in s.phases && s.phases[c] == Accepted ==> Enabled(s, ReadRequest(c, request))
    ensures c in s.phases && s.phases[c].Held? ==> Enabled(s, ReadRelease(c, ending))
  {
  }

  // ----- The invariant -----

  /** A connection holds from the addition to its counter until the subtraction. */
  predicate Holds(phase: Phase, kind: Kind) {
    match phase
    case Counted(op, _, _) => op == Acquire(kind)
    case Settled(op) => op == Acquire(kind)
    case Held(k) => k == kind
    case Waiting(op) => op.Release? && op.kind == kind
    case Locked(op) => op.Release? && op.kind == kind
    case Observed(op, _) => op.Release? && op.kind == kind
    case _ => false
  }

  ghost function Holders(phases: map<Conn, Phase>, kind: Kind): set<Conn> {
    set c | c in phases && Holds(phases[c], kind)
  }

  predicate InTransition(phase: Phase) {
    phase.Locked? || phase.Observed? || phase.Counted? || phase.Settled?
  }

  /** Whether a connection may still add to a counter. */
  predicate MayAdd(phase: Phase) {
    match phase
    case Accepted => true
    case Installing => true
    case HoldsInstaller => true
    case Waiting(op) => op.Acquire?
    case Locked(op) => op.Acquire?
    case Observed(op, _) => op.Acquire?
    case _ => false
  }

  /** The counters before a change that is still to be settled. */
  function Before(n: Counters, op: Op): Counters {
    match op
    case Acquire(Lease) => n.(leases := n.leases - 1)
    case Acquire(Claim) => n.(claims := n.claims - 1)
    case Release(Lease, _) => n.(leases := n.leases + 1)
    case Release(Claim, _) => n.(claims := n.claims + 1)
  }

  ghost predicate Alternates(edges: seq<Edge>) {
    forall i :: 0 <= i < |edges| ==> edges[i] == if i % 2 == 0 then Sweep(true) else Rescan
  }

  /** Each counter is the number of connections that hold its kind. */
  ghost predicate CountersInv(s: State) {
    && s.counters.leases == |Holders(s.phases, Lease)|
    && s.counters.claims == |Holders(s.phases, Claim)|
  }

  ghost predicate LocksInv(s: State) {
    && (s.locks.transition.Some? ==> s.locks.transition.value in s.phases)
    && (s.locks.installer.Some? ==> s.locks.installer.value in s.phases)
    && (forall c :: c in s.phases ==> (InTransition(s.phases[c]) <==> s.locks.transition == Some(c)))
    && (forall c :: c in s.phases ==> (s.phases[c] == HoldsInstaller <==> s.locks.installer == Some(c)))
  }

  ghost predicate Balanced(s: State, c: Conn, k: Kind) {
    && (c !in s.phases || MayAdd(s.phases[c]) ==> s.ledger.added[(c, k)] == 0)
    && s.ledger.added[(c, k)] <= 1
    && s.ledger.added[(c, k)] == s.ledger.subtracted[(c, k)] + if c in s.phases && Holds(s.phases[c], k) then 1 else 0
  }

  ghost predicate LedgerInv(s: State) {
    forall c, k :: Balanced(s, c, k)
  }

  /** Blocking as the edges know it: a counter change counts only once its worker has made its edge decision. */
  ghost predicate Announced(s: State) {
    match s.locks.transition
    case Some(c) =>
      if c in s.phases && s.phases[c].Counted? then Blocking(Before(s.counters, s.phases[c].op))
      else Blocking(s.counters)
    case None => Blocking(s.counters)
  }

  /** What a worker inside a transition knows about the counters. */
  ghost predicate Knows(s: State, phase: Phase) {
    match phase
    case Observed(op, was) => was == Blocking(s.counters)
    case Counted(op, was, count) =>
      if op == Acquire(Lease) then count == s.counters.leases else was == Blocking(Before(s.counters, op))
    case _ => true
  }

  ghost predicate WorkInv(s: State) {
    && Alternates(s.work.edges)
    && s.work.suppressed == 0
    && (|s.work.edges| % 2 == 1 <==> Announced(s))
    && (forall c :: c in s.phases ==> Knows(s, s.phases[c]))
  }

  /** Holding a lease, or on the way to one past the installation. */
  predicate NeedsHooks(phase: Phase) {
    Holds(phase, Lease) || ((phase.Waiting? || phase.Locked? || phase.Observed?) && phase.op == Acquire(Lease))
  }

  ghost predicate HooksInv(s: State) {
    && (s.hooks.verdict == None <==> s.hooks.attempts == 0)
    && s.hooks.attempts <= 1
    && (s.hooks.verdict == Some(true) ==> REQUIRED <= s.hooks.published)
    && (forall c :: c in s.phases && NeedsHooks(s.phases[c]) ==> s.hooks.verdict == Some(true))
  }

  ghost predicate Inv(s: State) {
    CountersInv(s) && LocksInv(s) && LedgerInv(s) && WorkInv(s) && HooksInv(s)
  }

  // ----- Every step keeps it -----

  lemma HoldersAfter(phases: map<Conn, Phase>, c: Conn, phase: Phase, kind: Kind)
    ensures |Holders(phases[c := phase], kind)| ==
            |Holders(phases, kind)| + (if Holds(phase, kind) then 1 else 0)
                                    - (if c in phases && Holds(phases[c], kind) then 1 else 0)
  {
    var before, after := Holders(phases, kind), Holders(phases[c := phase], kind);
    assert after == if Holds(phase, kind) then before + {c} else before - {c};
  }

  lemma CountersKept(s: State, step: Step)
    requires CountersInv(s) && Enabled(s, step)
    ensures CountersInv(Next(s, step))
  {
    HoldersAfter(s.phases, step.c, PhaseAfter(s, step), Lease);
    HoldersAfter(s.phases, step.c, PhaseAfter(s, step), Claim);
  }

  lemma LocksKept(s: State, step: Step)
    requires LocksInv(s) && Enabled(s, step)
    ensures LocksInv(Next(s, step))
  {
  }

  lemma LedgerKept(s: State, step: Step)
    requires LedgerInv(s) && Enabled(s, step)
    ensures LedgerInv(Next(s, step))
  {
    forall c, k
      ensures Balanced(Next(s, step), c, k)
    {
      assert Balanced(s, c, k);
    }
  }

  lemma HooksKept(s: State, step: Step)
    requires HooksInv(s) && Enabled(s, step)
    ensures HooksInv(Next(s, step))
  {
    if step.EnsureInstalled? && step.report.ok {
      ReportOfSuccess(step.report);
    }
  }

  lemma HolderIsCounted(s: State, c: Conn, kind: Kind)
    requires CountersInv(s) && c in s.phases && Holds(s.phases[c], kind)
    ensures (if kind == Lease then s.counters.leases else s.counters.claims) >= 1
  {
    assert c in Holders(s.phases, kind);
  }

  /** A positive lease count implies the hooks, and so a valid close function for every sweep. */
  lemma LeaseImpliesHooks(s: State)
    requires CountersInv(s) && HooksInv(s) && s.counters.leases > 0
    ensures s.hooks.verdict == Some(true) && REQUIRED <= s.hooks.published
  {
    var c :| c in Holders(s.phases, Lease);
  }

  lemma AlternatesAppend(edges: seq<Edge>)
    requires Alternates(edges)
    ensures Alternates(edges + [if |edges| % 2 == 0 then Sweep(true) else Rescan])
  {
  }

  /** What a change of blocking must trigger. */
  function EdgesOf(was: bool, now: bool): seq<Edge> {
    if was == now then [] else if now then [Sweep(true)] else [Rescan]
  }

  /** The edge decision: one sweep when blocking starts, one rescan when it ends, nothing otherwise. */
  lemma SettleTracksBlocking(s: State, c: Conn)
    requires CountersInv(s) && HooksInv(s) && WorkInv(s)
    requires s.locks.transition == Some(c) && c in s.phases && s.phases[c].Counted?
    ensures var work := SettledWork(s.work, s.hooks, s.phases[c], Blocking(s.counters));
            && work.edges == s.work.edges + EdgesOf(Blocking(Before(s.counters, s.phases[c].op)), Blocking(s.counters))
            && Alternates(work.edges) && work.suppressed == 0 && (|work.edges| % 2 == 1 <==> Blocking(s.counters))
  {
    var op := s.phases[c].op;
    if op.Acquire? {
      HolderIsCounted(s, c, op.kind);
    }
    if s.counters.leases > 0 {
      LeaseImpliesHooks(s);
    }
    AlternatesAppend(s.work.edges);
    assert Knows(s, s.phases[c]);
  }

  /** Whenever the edge decision asks for a rescan, blocking has ended, so that the rescan's own check lets it pass. */
  lemma RescanIsNeverSuppressed(s: State, c: Conn)
    requires CountersInv(s) && WorkInv(s) && c in s.phases && s.phases[c].Counted?
    requires s.phases[c].op == Acquire(Claim)
    ensures !Blocking(s.counters)
  {
    HolderIsCounted(s, c, Claim);
  }

  /** Outside the edge decision blocking, as announced, does not move. */
  lemma AnnouncedStays(s: State, step: Step)
    requires LocksInv(s) && Enabled(s, step) && !step.Settle?
    ensures Announced(Next(s, step)) == Announced(s)
  {
  }

  lemma WorkerKnows(s: State, step: Step, c: Conn)
    requires LocksInv(s) && WorkInv(s) && Enabled(s, step) && c in Next(s, step).phases
    ensures Knows(Next(s, step), Next(s, step).phases[c])
  {
    if c in s.phases {
      assert Knows(s, s.phases[c]);
    }
  }

  lemma WorkKept(s: State, step: Step)
    requires Inv(s) && Enabled(s, step)
    ensures WorkInv(Next(s, step))
  {
    var t := Next(s, step);
    if step.Settle? {
      SettleTracksBlocking(s, step.c);
    } else {
      AnnouncedStays(s, step);
    }
    forall c | c in t.phases
      ensures Knows(t, t.phases[c])
    {
      WorkerKnows(s, step, c);
    }
  }

  lemma StepKeepsInv(s: State, step: Step)
    requires Inv(s) && Enabled(s, step)
    ensures Inv(Next(s, step))
  {
    CountersKept(s, step);
    LocksKept(s, step);
    LedgerKept(s, step);
    WorkKept(s, step);
    HooksKept(s, step);
  }

  lemma {:induction false} RunKeepsInv(states: seq<State>, steps: seq<Step>, i: nat)
    requires IsRun(states, steps) && i < |states|
    ensures Inv(states[i])
  {
    if i == 0 {
      assert Holders(INIT.phases, Lease) == {} && Holders(INIT.phases, Claim) == {};
    } else {
      RunKeepsInv(states, steps, i - 1);
      StepKeepsInv(states[i - 1], steps[i - 1]);
    }
  }

  // ----- What every run keeps -----

  /** Ownership is conserved: each counter is exactly the number of connections that hold its kind. */
  lemma OwnershipConserved(states: seq<State>, steps: seq<Step>, i: nat)
    requires IsRun(states, steps) && i < |states|
    ensures states[i].counters.leases == |Holders(states[i].phases, Lease)| >= 0
    ensures states[i].counters.claims == |Holders(states[i].phases, Claim)| >= 0
  {
    RunKeepsInv(states, steps, i);
  }

  /** A connection is added at most once, and subtracted exactly as often once it ends, whichever way it ends. */
  lemma SubtractedOnce(states: seq<State>, steps: seq<Step>, i: nat, c: Conn, kind: Kind)
    requires IsRun(states, steps) && i < |states| && c in states[i].phases
    ensures states[i].ledger.added[(c, kind)] <= 1
    ensures Holds(states[i].phases[c], kind) ==>
              states[i].ledger.added[(c, kind)] == 1 && states[i].ledger.subtracted[(c, kind)] == 0
    ensures !Holds(states[i].phases[c], kind) ==>
              states[i].ledger.added[(c, kind)] == states[i].ledger.subtracted[(c, kind)]
  {
    RunKeepsInv(states, steps, i);
    assert Balanced(states[i], c, kind);
  }

  function Sweeps(edges: seq<Edge>): nat {
    if edges == [] then 0 else Sweeps(edges[..|edges| - 1]) + if edges[|edges| - 1].Sweep? then 1 else 0
  }

  lemma {:induction false} AlternatingCount(edges: seq<Edge>)
    requires Alternates(edges)
    ensures 2 * Sweeps(edges) - |edges| == |edges| % 2
  {
    if edges != [] {
      AlternatingCount(edges[..|edges| - 1]);
    }
  }

  /** How often blocking changed before state `i`. */
  function Flips(states: seq<State>, i: nat): nat
    requires i < |states|
  {
    if i == 0 then 0
    else Flips(states, i - 1) + if Blocking(states[i - 1].counters) == Blocking(states[i].counters) then 0 else 1
  }

  lemma FlipIsSettled(s: State, step: Step)
    requires Inv(s) && Enabled(s, step)
    ensures var t := Next(s, step);
            var changed, settled := Blocking(s.counters) != Blocking(t.counters), step.Settle?;
            && (!settled ==> |t.work.edges| == |s.work.edges| && Announced(t) == Announced(s))
            && (!step.Count? ==> !changed)
            && (step.Count? ==> Announced(s) == Blocking(s.counters))
            && (settled ==> Announced(t) == Blocking(t.counters))
            && (settled ==>
                  |t.work.edges| == |s.work.edges| + if Announced(s) == Blocking(s.counters) then 0 else 1)
  {
    if step.Settle? {
      SettleTracksBlocking(s, step.c);
    } else {
      AnnouncedStays(s, step);
    }
  }

  /** There is one edge for every change of blocking, except a change whose worker is still to decide. */
  lemma {:induction false} EdgesCountFlips(states: seq<State>, steps: seq<Step>, i: nat)
    requires IsRun(states, steps) && i < |states|
    ensures |states[i].work.edges| + (if Announced(states[i]) == Blocking(states[i].counters) then 0 else 1)
         == Flips(states, i)
  {
    if i > 0 {
      hide Next, Inv, Enabled, Announced;
      EdgesCountFlips(states, steps, i - 1);
      RunKeepsInv(states, steps, i - 1);
      FlipIsSettled(states[i - 1], steps[i - 1]);
    }
  }

  /**
   Sweeps and rescans alternate, starting with a sweep whose close function is ready. While nobody is inside a
   transition, there is one of them for every change of blocking so far, and the sweeps outnumber the rescans by one
   if blocking holds and by none otherwise. No rescan that a transition asked for was suppressed by its own check.
   */
  lemma EdgesAreExact(states: seq<State>, steps: seq<Step>, i: nat)
    requires IsRun(states, steps) && i < |states|
    ensures Alternates(states[i].work.edges) && states[i].work.suppressed == 0
    ensures states[i].locks.transition == None ==>
              (var edges := states[i].work.edges;
               && |edges| == Flips(states, i)
               && Sweeps(edges) - (|edges| - Sweeps(edges)) == if Blocking(states[i].counters) then 1 else 0)
  {
    RunKeepsInv(states, steps, i);
    AlternatingCount(states[i].work.edges);
    EdgesCountFlips(states, steps, i);
  }

  /** At most one installation is attempted, and a lease exists only after it succeeded with every hook published. */
  lemma HooksPrecedeLeases(states: seq<State>, steps: seq<Step>, i: nat)
    requires IsRun(states, steps) && i < |states|
    ensures states[i].hooks.attempts <= 1
    ensures states[i].counters.leases > 0 ==>
              states[i].hooks.verdict == Some(true) && REQUIRED <= states[i].hooks.published
  {
    RunKeepsInv(states, steps, i);
    if states[i].counters.leases > 0 {
      LeaseImpliesHooks(states[i]);
    }
  }

  /** The verdict of the first attempt is final; after a failure no lease is ever granted. */
  lemma {:induction false} VerdictIsRemembered(states: seq<State>, steps: seq<Step>, i: nat, j: nat)
    requires IsRun(states, steps) && i <= j < |states| && states[i].hooks.verdict.Some?
    ensures states[j].hooks == states[i].hooks
    ensures states[i].hooks.verdict == Some(false) ==> states[j].counters.leases == 0
    decreases j
  {
    if i < j {
      VerdictIsRemembered(states, steps, i, j - 1);
    }
    OwnershipConserved(states, steps, j);
    HooksPrecedeLeases(states, steps, j);
  }

  /** The verdict is that of the first attempt's report. */
  lemma FirstReportDecides(states: seq<State>, steps: seq<Step>, k: nat, j: nat, c: Conn, report: Installed)
    requires IsRun(states, steps) && k < j < |states|
    requires steps[k] == EnsureInstalled(c, report) && states[k].hooks.verdict == None
    ensures states[j].hooks.verdict == Some(report.ok) && states[j].hooks.published == report.published
  {
    assert states[k + 1].hooks == Ensured(states[k].hooks, report);
    VerdictIsRemembered(states, steps, k + 1, j);
  }

  // ----- Connections are served as they ask -----

  /** The connection is on its way to the kind, holds it, or gives it back. */
  predicate About(phase: Phase, kind: Kind) {
    match phase
    case Installing => kind == Lease
    case HoldsInstaller => kind == Lease
    case Waiting(op) => op.kind == kind
    case Locked(op) => op.kind == kind
    case Observed(op, _) => op.kind == kind
    case Counted(op, _, _) => op.kind == kind
    case Settled(op) => op.kind == kind
    case Held(k) => k == kind
    case _ => false
  }

  /** What a connection that read a request may be doing, and what was counted for it. */
  ghost predicate Serves(s: State, c: Conn, request: Request) {
    && c in s.phases
    && match request
       case AcquireLease =>
         && (About(s.phases[c], Lease) || s.phases[c] == Finished) && s.ledger.added[(c, Claim)] == 0
         && (MayAdd(s.phases[c]) || s.ledger.added[(c, Lease)] == 1 || s.hooks.verdict == Some(false))
       case AcquirePassThrough =>
         && (About(s.phases[c], Claim) || s.phases[c] == Finished) && s.ledger.added[(c, Lease)] == 0
         && (MayAdd(s.phases[c]) || s.ledger.added[(c, Claim)] == 1)
       case _ =>
         s.phases[c] == Finished && s.ledger.added[(c, Lease)] == 0 && s.ledger.added[(c, Claim)] == 0
  }

  lemma ServesFirst(s: State, c: Conn, request: Request)
    requires LedgerInv(s) && Enabled(s, ReadRequest(c, request))
    ensures Serves(Next(s, ReadRequest(c, request)), c, request)
  {
    assert Balanced(s, c, Lease) && Balanced(s, c, Claim);
  }

  lemma ServesStep(s: State, step: Step, c: Conn, request: Request)
    requires LedgerInv(s) && Enabled(s, step) && Serves(s, c, request)
    ensures Serves(Next(s, step), c, request)
  {
    hide LedgerInv, SettledWork;
    Balances(s, c, Lease);
    Balances(s, c, Claim);
    if step.c == c {
      if step.Count? {
        OwnCount(s, c, request);
      } else {
        OwnStep(s, step, request);
      }
    } else {
      OthersCount(s, step, c, Lease);
      OthersCount(s, step, c, Claim);
    }
  }

  lemma Balances(s: State, c: Conn, kind: Kind)
    requires LedgerInv(s)
    ensures Balanced(s, c, kind)
  {
  }

  lemma OwnStep(s: State, step: Step, request: Request)
    requires Enabled(s, step) && !step.Count? && Serves(s, step.c, request)
    ensures Serves(Next(s, step), step.c, request)
  {
    hide SettledWork, LocksAfter;
    var phase, next := s.phases[step.c], Next(s, step).phases[step.c];
    assert Next(s, step).ledger == s.ledger;
    match step
    case Accept(_) =>
    case ReadRequest(_, _) =>
    case LockInstaller(_) => assert next == HoldsInstaller;
    case EnsureInstalled(_, report) =>
      var verdict := Ensured(s.hooks, report).verdict;
      assert verdict == Some(verdict.value) && (next == Finished <==> !verdict.value);
    case LockTransition(_) => assert next == Locked(phase.op);
    case Observe(_) => assert next.op == phase.op;
    case Settle(_) => assert next == Settled(phase.op);
    case Unlock(_) => assert next == if phase.op.Acquire? then Held(phase.op.kind) else Finished;
    case ReadRelease(_, ending) => assert next == Waiting(Release(phase.kind, ending));
  }

  lemma OwnCount(s: State, c: Conn, request: Request)
    requires Balanced(s, c, Lease) && Balanced(s, c, Claim) && Enabled(s, Count(c)) && Serves(s, c, request)
    ensures Serves(Next(s, Count(c)), c, request)
  {
    hide SettledWork;
  }

  lemma OthersCount(s: State, step: Step, c: Conn, kind: Kind)
    requires Enabled(s, step) && step.c != c
    ensures Next(s, step).ledger.added[(c, kind)] == s.ledger.added[(c, kind)]
  {
    hide SettledWork, PhaseAfter;
  }

  /**
   A connection gets what it asked for and nothing else: a lease unless installation failed, a claim, or no change of
   ownership at all. What it gets is counted once before it can finish.
   */
  lemma {:induction false} ServedAsAsked(states: seq<State>, steps: seq<Step>, k: nat, j: nat,
                                         c: Conn, request: Request)
    requires IsRun(states, steps) && k < j < |states| && steps[k] == ReadRequest(c, request)
    ensures Serves(states[j], c, request)
    decreases j
  {
    RunKeepsInv(states, steps, j - 1);
    assert LedgerInv(states[j - 1]);
    hide Serves, Next, Inv, LedgerInv;
    if j == k + 1 {
      ServesFirst(states[k], c, request);
    } else {
      ServedAsAsked(states, steps, k, j - 1, c, request);
      ServesStep(states[j - 1], steps[j - 1], c, request);
    }
  }

  /** Whoever was counted had asked for it. */
  lemma {:induction false} OwnershipWasAsked(states: seq<State>, steps: seq<Step>, i: nat, c: Conn, kind: Kind)
    returns (k: nat)
    requires IsRun(states, steps) && i < |states|
    requires states[i].ledger.added[(c, kind)] > 0 || (c in states[i].phases && About(states[i].phases[c], kind))
    ensures k < i && steps[k] == ReadRequest(c, if kind == Lease then AcquireLease else AcquirePassThrough)
  {
    var s := states[i - 1];
    if s.ledger.added[(c, kind)] > 0 || (c in s.phases && About(s.phases[c], kind)) {
      k := OwnershipWasAsked(states, steps, i - 1, c, kind);
    } else {
      k := i - 1;
    }
  }

  // ----- Holders leave -----

  predicate Leaving(phase: Phase, kind: Kind, ending: Ending) {
    || phase == Finished
    || ((phase.Waiting? || phase.Locked? || phase.Observed? || phase.Counted? || phase.Settled?)
        && phase.op == Release(kind, ending))
  }

  /** Once its pipe has ended, in whichever way, a holder never holds again, and it finishes only given back. */
  lemma {:induction false} HolderLeaves(states: seq<State>, steps: seq<Step>, k: nat, j: nat, c: Conn, ending: Ending)
    requires IsRun(states, steps) && k < j < |states| && steps[k] == ReadRelease(c, ending)
    ensures states[k].phases[c].Held? && c in states[j].phases
    ensures Leaving(states[j].phases[c], states[k].phases[c].kind, ending)
    ensures states[j].phases[c] == Finished ==>
              states[j].ledger.subtracted[(c, states[k].phases[c].kind)] == 1
    decreases j
  {
    var kind := states[k].phases[c].kind;
    if j > k + 1 {
      HolderLeaves(states, steps, k, j - 1, c, ending);
    }
    AddedStays(states, steps, k, j, c, kind);
    SubtractedOnce(states, steps, k, c, kind);
    SubtractedOnce(states, steps, j, c, kind);
  }

  lemma {:induction false} AddedStays(states: seq<State>, steps: seq<Step>, k: nat, j: nat, c: Conn, kind: Kind)
    requires IsRun(states, steps) && k <= j < |states|
    ensures states[k].ledger.added[(c, kind)] <= states[j].ledger.added[(c, kind)]
    decreases j
  {
    if k < j {
      AddedStays(states, steps, k, j - 1, c, kind);
    }
  }

  // ----- Nobody is stuck -----

  /** A step that a worker makes on its own, without waiting for its client. */
  predicate OfWorker(step: Step) {
    !step.Accept? && !step.ReadRequest? && !step.ReadRelease?
  }

  /** The connection does not wait for its client. */
  predicate Works(phase: Phase) {
    phase != Accepted && phase != Finished && !phase.Held?
  }

  /** How many worker steps the connection has before it, at most. */
  function Rank(phase: Phase): nat {
    match phase
    case Installing => 7
    case HoldsInstaller => 6
    case Waiting(_) => 5
    case Locked(_) => 4
    case Observed(_, _) => 3
    case Counted(_, _, _) => 2
    case Settled(_) => 1
    case _ => 0
  }

  lemma WorkerHasStep(s: State, c: Conn) returns (step: Step)
    requires LocksInv(s) && c in s.phases && Works(s.phases[c])
    requires InTransition(s.phases[c]) || s.phases[c] == HoldsInstaller
             || (s.phases[c].Waiting? && s.locks.transition == None)
             || (s.phases[c] == Installing && s.locks.installer == None)
    ensures OfWorker(step) && Enabled(s, step)
  {
    var report := InstallHooks(InstallCalls(false, false, false, _ => HookCalls(false, false, false), false));
    step := match s.phases[c]
      case Installing => LockInstaller(c)
      case HoldsInstaller => EnsureInstalled(c, report)
      case Waiting(_) => LockTransition(c)
      case Locked(op) => if op == Acquire(Lease) then Count(c) else Observe(c)
      case Observed(_, _) => Count(c)
      case Counted(_, _, _) => Settle(c)
      case _ => Unlock(c);
  }

  /** While some connection does not wait for its client, some worker can make a step. */
  lemma NobodyIsStuck(states: seq<State>, steps: seq<Step>, i: nat, c: Conn) returns (step: Step)
    requires IsRun(states, steps) && i < |states| && c in states[i].phases && Works(states[i].phases[c])
    ensures OfWorker(step) && Enabled(states[i], step)
  {
    RunKeepsInv(states, steps, i);
    var s := states[i];
    var d := if s.locks.transition.Some? then s.locks.transition.value
             else if s.locks.installer.Some? then s.locks.installer.value else c;
    step := WorkerHasStep(s, d);
  }

  /** Worker steps run out: each brings its connection closer to waiting for its client, or to its end. */
  lemma RankFalls(s: State, step: Step)
    requires Enabled(s, step) && OfWorker(step)
    ensures Rank(Next(s, step).phases[step.c]) < Rank(s.phases[step.c])
    ensures forall c :: c in s.phases && c != step.c ==> Next(s, step).phases[c] == s.phases[c]
  {
  }

  // ----- Reading the counters without the lock -----

  /** A detour's answer, from the lease count at one instant and the claim count at a later one. */
  predicate Answer(first: Counters, second: Counters) {
    first.leases > 0 && second.claims == 0
  }

  /** A false answer was right at some instant inside the call. */
  lemma FalseAnswerIsRight(states: seq<State>, steps: seq<Step>, i: nat, j: nat)
    requires IsRun(states, steps) && i <= j < |states|
    requires !Answer(states[i].counters, states[j].counters)
    ensures exists k :: i <= k <= j && !Blocking(states[k].counters)
  {
    if states[i].counters.leases <= 0 {
      assert !Blocking(states[i].counters);
    } else {
      assert !Blocking(states[j].counters);
    }
  }

  /** A call made wholly while blocking holds answers true. */
  lemma BlockedCallAnswersTrue(states: seq<State>, steps: seq<Step>, i: nat, j: nat)
    requires IsRun(states, steps) && i <= j < |states|
    requires forall k :: i <= k <= j ==> Blocking(states[k].counters)
    ensures Answer(states[i].counters, states[j].counters)
  {
    assert Blocking(states[i].counters) && Blocking(states[j].counters);
  }

  /** A step that gives one holding of `kind` back. */
  predicate GivesBack(s: State, step: Step, kind: Kind) {
    step.Count? && step.c in s.phases && s.phases[step.c].Observed? && s.phases[step.c].op.Release?
    && s.phases[step.c].op.kind == kind
  }

  function CountOf(n: Counters, kind: Kind): int {
    if kind == Lease then n.leases else n.claims
  }

  lemma DropStep(s: State, step: Step, kind: Kind)
    requires Inv(s) && Enabled(s, step)
    ensures CountOf(s.counters, kind) >= 0
    ensures CountOf(s.counters, kind) > 0 == CountOf(Next(s, step).counters, kind) ==> GivesBack(s, step, kind)
  {
  }

  lemma {:induction false} DropNeedsGivingBack(states: seq<State>, steps: seq<Step>, i: nat, j: nat, kind: Kind)
    returns (k: nat)
    requires IsRun(states, steps) && i <= j < |states|
    requires CountOf(states[i].counters, kind) > 0 == CountOf(states[j].counters, kind)
    ensures i <= k < j && GivesBack(states[k], steps[k], kind) && CountOf(states[k + 1].counters, kind) == 0
    decreases j
  {
    hide Next, Inv, GivesBack;
    RunKeepsInv(states, steps, j - 1);
    DropStep(states[j - 1], steps[j - 1], kind);
    if CountOf(states[j - 1].counters, kind) == 0 {
      k := DropNeedsGivingBack(states, steps, i, j - 1, kind);
    } else {
      k := j - 1;
    }
  }

  /**
   A true answer though blocking never held during the call: this happens only if, within the call, the last lease
   was given back and then the last claim.
   */
  lemma TornAnswerNeedsBothReleases(states: seq<State>, steps: seq<Step>, i: nat, j: nat)
    returns (lease: nat, claim: nat)
    requires IsRun(states, steps) && i <= j < |states|
    requires Answer(states[i].counters, states[j].counters)
    requires forall k :: i <= k <= j ==> !Blocking(states[k].counters)
    ensures i <= lease < j && GivesBack(states[lease], steps[lease], Lease) && states[lease + 1].counters.leases == 0
    ensures lease < claim < j && GivesBack(states[claim], steps[claim], Claim) && states[claim + 1].counters.claims == 0
  {
    assert !Blocking(states[i].counters) && !Blocking(states[j].counters);
    OwnershipConserved(states, steps, i);
    OwnershipConserved(states, steps, j);
    lease := DropNeedsGivingBack(states, steps, i, j, Lease);
    OwnershipConserved(states, steps, lease);
    OwnershipConserved(states, steps, lease + 1);
    assert !Blocking(states[lease].counters);
    claim := DropNeedsGivingBack(states, steps, lease + 1, j, Claim);
  }

  /** Counting the first lease while no claim is held, or subtracting the last claim while a lease is held. */
  predicate StartsBlocking(s: State, step: Step) {
    && step.Count? && step.c in s.phases && (s.phases[step.c].Observed? || s.phases[step.c].Locked?)
    && match s.phases[step.c].op
       case Acquire(Lease) => s.counters == Counters(0, 0)
       case Release(Claim, _) => s.counters.claims == 1 && s.counters.leases > 0
       case _ => false
  }

  lemma BlockingStarts(s: State, step: Step)
    requires CountersInv(s) && Enabled(s, step)
    ensures !Blocking(s.counters) && Blocking(Next(s, step).counters) <==> StartsBlocking(s, step)
  {
    CountersKept(s, step);
  }

  lemma {:induction false} UnblockedUntilStarted(states: seq<State>, steps: seq<Step>, i: nat, j: nat)
    requires IsRun(states, steps) && i <= j < |states| && !Blocking(states[i].counters)
    requires forall k :: i <= k < j ==> !StartsBlocking(states[k], steps[k])
    ensures !Blocking(states[j].counters)
    decreases j
  {
    if i < j {
      UnblockedUntilStarted(states, steps, i, j - 1);
      RunKeepsInv(states, steps, j - 1);
      BlockingStarts(states[j - 1], steps[j - 1]);
    }
  }

  /**
   Exactly when a true answer is torn: blocking held at no instant of the call if and only if a claim was held at the
   first load and no step inside the call started blocking.
   */
  lemma TornAnswerExactly(states: seq<State>, steps: seq<Step>, i: nat, j: nat)
    requires IsRun(states, steps) && i <= j < |states| && Answer(states[i].counters, states[j].counters)
    ensures (forall k :: i <= k <= j ==> !Blocking(states[k].counters))
       <==> states[i].counters.claims > 0 && forall k :: i <= k < j ==> !StartsBlocking(states[k], steps[k])
  {
    OwnershipConserved(states, steps, i);
    if forall k :: i <= k <= j ==> !Blocking(states[k].counters) {
      forall k | i <= k < j
        ensures !StartsBlocking(states[k], steps[k])
      {
        RunKeepsInv(states, steps, k);
        BlockingStarts(states[k], steps[k]);
        assert !Blocking(states[k + 1].counters);
      }
    }
    if states[i].counters.claims > 0 && forall k :: i <= k < j ==> !StartsBlocking(states[k], steps[k]) {
      forall k | i <= k <= j
        ensures !Blocking(states[k].counters)
      {
        UnblockedUntilStarted(states, steps, i, k);
      }
    }
  }

  // ----- A torn answer is possible -----

  /** The part of a state that decides which steps are enabled and where they lead. */
  datatype View = View(phases: map<Conn, Phase>, counters: Counters, locks: Locks, verdict: Option<bool>)

  function ViewOf(s: State): View {
    View(s.phases, s.counters, s.locks, s.hooks.verdict)
  }

  /** Nothing blocks from instant `from` on. */
  ghost predicate UnblockedSince(states: seq<State>, from: nat) {
    forall k :: from <= k < |states| ==> !Blocking(states[k].counters)
  }

  /** Adds one step to a run. */
  lemma Extend(states: seq<State>, steps: seq<Step>, step: Step, view: View, from: nat := 0)
    returns (longer: seq<State>, more: seq<Step>)
    requires IsRun(states, steps) && Enabled(states[|steps|], step) && ViewOf(Next(states[|steps|], step)) == view
    ensures IsRun(longer, more) && ViewOf(longer[|more|]) == view
    ensures |more| == |steps| + 1
    ensures from <= |steps| ==> longer[from] == states[from]
    ensures UnblockedSince(states, from) && !Blocking(view.counters) ==> UnblockedSince(longer, from)
  {
    longer, more := states + [Next(states[|steps|], step)], steps + [step];
  }

  lemma SuccessfulReport() returns (report: Installed)
    ensures CanReport(report) && report.ok
  {
    var calls := InstallCalls(true, true, true, (_: Hook) => HookCalls(true, true, true), true);
    report := InstallHooks(calls);
  }

  /** One connection takes a lease. */
  lemma LeaseTaken() returns (states: seq<State>, steps: seq<Step>)
    ensures IsRun(states, steps)
    ensures ViewOf(states[|steps|]) == View(map[0 := Held(Lease)], Counters(1, 0), Locks(None, None), Some(true))
  {
    var none, op := Counters(0, 0), Acquire(Lease);
    states, steps := [INIT], [];
    states, steps := Extend(states, steps, Accept(0), View(map[0 := Accepted], none, Locks(None, None), None));
    states, steps := Extend(states, steps, ReadRequest(0, AcquireLease),
                            View(map[0 := Installing], none, Locks(None, None), None));
    states, steps := Extend(states, steps, LockInstaller(0),
                            View(map[0 := HoldsInstaller], none, Locks(None, Some(0)), None));
    var report := SuccessfulReport();
    states, steps := Extend(states, steps, EnsureInstalled(0, report),
                            View(map[0 := Waiting(op)], none, Locks(None, None), Some(true)));
    states, steps := LeaseCounted(states, steps);
  }

  lemma LeaseCounted(before: seq<State>, earlier: seq<Step>) returns (states: seq<State>, steps: seq<Step>)
    requires IsRun(before, earlier)
    requires ViewOf(before[|earlier|])
          == View(map[0 := Waiting(Acquire(Lease))], Counters(0, 0), Locks(None, None), Some(true))
    ensures IsRun(states, steps)
    ensures ViewOf(states[|steps|]) == View(map[0 := Held(Lease)], Counters(1, 0), Locks(None, None), Some(true))
  {
    var none, one, op, v := Counters(0, 0), Counters(1, 0), Acquire(Lease), Some(true);
    states, steps := Extend(before, earlier, LockTransition(0),
                            View(map[0 := Locked(op)], none, Locks(Some(0), None), v));
    states, steps := Extend(states, steps, Count(0),
                            View(map[0 := Counted(op, false, 1)], one, Locks(Some(0), None), v));
    states, steps := Extend(states, steps, Settle(0), View(map[0 := Settled(op)], one, Locks(Some(0), None), v));
    states, steps := Extend(states, steps, Unlock(0), View(map[0 := Held(Lease)], one, Locks(None, None), v));
  }

  /** Then another connection asks for a pass-through claim. */
  lemma ClaimRequested() returns (states: seq<State>, steps: seq<Step>)
    ensures IsRun(states, steps)
    ensures ViewOf(states[|steps|]) == View(map[0 := Held(Lease), 1 := Observed(Acquire(Claim), true)], Counters(1, 0),
                                            Locks(Some(1), None), Some(true))
  {
    var h, one, op, v, held := Held(Lease), Counters(1, 0), Acquire(Claim), Some(true), Locks(Some(1), None);
    states, steps := LeaseTaken();
    states, steps := Extend(states, steps, Accept(1), View(map[0 := h, 1 := Accepted], one, Locks(None, None), v));
    states, steps := Extend(states, steps, ReadRequest(1, AcquirePassThrough),
                            View(map[0 := h, 1 := Waiting(op)], one, Locks(None, None), v));
    states, steps := Extend(states, steps, LockTransition(1), View(map[0 := h, 1 := Locked(op)], one, held, v));
    states, steps := Extend(states, steps, Observe(1), View(map[0 := h, 1 := Observed(op, true)], one, held, v));
  }

  /** And gets it. */
  lemma ClaimTaken() returns (states: seq<State>, steps: seq<Step>)
    ensures IsRun(states, steps)
    ensures ViewOf(states[|steps|])
         == View(map[0 := Held(Lease), 1 := Held(Claim)], Counters(1, 1), Locks(None, None), Some(true))
  {
    var h, two, op, v, held := Held(Lease), Counters(1, 1), Acquire(Claim), Some(true), Locks(Some(1), None);
    states, steps := ClaimRequested();
    states, steps := Extend(states, steps, Count(1), View(map[0 := h, 1 := Counted(op, true, 1)], two, held, v));
    states, steps := Extend(states, steps, Settle(1), View(map[0 := h, 1 := Settled(op)], two, held, v));
    states, steps := Extend(states, steps, Unlock(1), View(map[0 := h, 1 := Held(Claim)], two, Locks(None, None), v));
  }

  /** The lease ends while the claim is held, so that nothing blocks. */
  lemma LeaseEnds(before: seq<State>, earlier: seq<Step>) returns (states: seq<State>, steps: seq<Step>)
    requires IsRun(before, earlier)
    requires ViewOf(before[|earlier|])
          == View(map[0 := Held(Lease), 1 := Held(Claim)], Counters(1, 1), Locks(None, None), Some(true))
    ensures IsRun(states, steps) && |steps| >= |earlier| && states[|earlier|] == before[|earlier|]
    ensures UnblockedSince(states, |earlier|)
    ensures ViewOf(states[|steps|])
         == View(map[0 := Finished, 1 := Held(Claim)], Counters(0, 1), Locks(None, None), Some(true))
  {
    var from, h, v, free, held := |earlier|, Held(Claim), Some(true), Locks(None, None), Locks(Some(0), None);
    var both, claim, op := Counters(1, 1), Counters(0, 1), Release(Lease, Eof);
    states, steps := Extend(before, earlier, ReadRelease(0, Eof),
                            View(map[0 := Waiting(op), 1 := h], both, free, v), from);
    states, steps := Extend(states, steps, LockTransition(0), View(map[0 := Locked(op), 1 := h], both, held, v), from);
    states, steps := Extend(states, steps, Observe(0),
                            View(map[0 := Observed(op, false), 1 := h], both, held, v), from);
    states, steps := Extend(states, steps, Count(0),
                            View(map[0 := Counted(op, false, 0), 1 := h], claim, held, v), from);
    states, steps := Extend(states, steps, Settle(0), View(map[0 := Settled(op), 1 := h], claim, held, v), from);
    states, steps := Extend(states, steps, Unlock(0), View(map[0 := Finished, 1 := h], claim, free, v), from);
  }

  /** The holder of the claim begins to give it back. */
  lemma ClaimLocked(before: seq<State>, earlier: seq<Step>, from: nat) returns (states: seq<State>, steps: seq<Step>)
    requires IsRun(before, earlier) && from <= |earlier| && UnblockedSince(before, from)
    requires ViewOf(before[|earlier|])
          == View(map[0 := Finished, 1 := Held(Claim)], Counters(0, 1), Locks(None, None), Some(true))
    ensures IsRun(states, steps) && |steps| >= |earlier| && states[from] == before[from]
    ensures UnblockedSince(states, from)
    ensures ViewOf(states[|steps|])
         == View(map[0 := Finished, 1 := Locked(Release(Claim, Eof))], Counters(0, 1), Locks(Some(1), None), Some(true))
  {
    var f, v, free, held := Finished, Some(true), Locks(None, None), Locks(Some(1), None);
    var claim, op := Counters(0, 1), Release(Claim, Eof);
    states, steps := Extend(before, earlier, ReadRelease(1, Eof),
                            View(map[0 := f, 1 := Waiting(op)], claim, free, v), from);
    states, steps := Extend(states, steps, LockTransition(1), View(map[0 := f, 1 := Locked(op)], claim, held, v), from);
  }

  /** The claim ends once no lease is left. */
  lemma ClaimEnds(before: seq<State>, earlier: seq<Step>, from: nat) returns (states: seq<State>, steps: seq<Step>)
    requires IsRun(before, earlier) && from <= |earlier| && UnblockedSince(before, from)
    requires ViewOf(before[|earlier|])
          == View(map[0 := Finished, 1 := Held(Claim)], Counters(0, 1), Locks(None, None), Some(true))
    ensures IsRun(states, steps) && |steps| >= |earlier| && states[from] == before[from]
    ensures UnblockedSince(states, from) && states[|steps|].counters == Counters(0, 0)
  {
    var f, v, held, op := Finished, Some(true), Locks(Some(1), None), Release(Claim, Eof);
    states, steps := ClaimLocked(before, earlier, from);
    states, steps := Extend(states, steps, Observe(1),
                            View(map[0 := f, 1 := Observed(op, false)], Counters(0, 1), held, v), from);
    states, steps := Extend(states, steps, Count(1),
                            View(map[0 := f, 1 := Counted(op, false, 0)], Counters(0, 0), held, v), from);
  }

  /** A call that answers true though blocking does not hold at any instant of it. */
  lemma TornAnswerHappens() returns (states: seq<State>, steps: seq<Step>, i: nat, j: nat)
    ensures IsRun(states, steps) && i <= j < |states|
    ensures Answer(states[i].counters, states[j].counters)
    ensures forall k :: i <= k <= j ==> !Blocking(states[k].counters)
  {
    states, steps := ClaimTaken();
    i := |steps|;
    states, steps := LeaseEnds(states, steps);
    states, steps := ClaimEnds(states, steps, i);
    j := |steps|;
  }
}
