/** Starting a program at most once. Every operating system call may answer anything. */
module Launch {
  import opened Common
  import CommandLine
  import Environment

  type ExitCode = code: int | 0 <= code < 0x1_0000_0000

  const ERROR_PROCESS_ABORTED: ExitCode := 1067

  datatype LaunchError =
    | Rejected(reason: CommandLine.CommandError)
    | NotAcquired
    | NoEnvironment
    | NotCreated
    | NoJob
    | NotAssigned
    | NotResumed

  /** How a launch ended: its root never ran, or it ran and then its exit code could be read or not. */
  datatype Outcome = NotStarted | Ran(exit: Option<ExitCode>)

  datatype Attempt = Attempt(arguments: seq<seq<Unit>>, leased: bool, outcome: Outcome)

  /** The root process of one launch, as the calls made for it leave it. */
  class Child {
    var commandLine: seq<Unit>
    var environment: Option<seq<Unit>>
    var created: bool
    var hasJob: bool
    var inJob: bool
    var resumed: bool
    /** Its end was requested: a terminate call was made, or closing the job kills it. */
    var endRequested: bool
    /** The job reported that no process is left. */
    var seenEmpty: bool
    /** What the system answered for its exit code. */
    var exit: Option<ExitCode>
    /** For how many more polls the tree stays alive. */
    var lifetime: nat

    constructor (lifetime: nat)
      ensures Untouched()
    {
      commandLine, environment, exit := [], None, None;
      created, hasJob, inJob, resumed, endRequested, seenEmpty := false, false, false, false, false, false;
      this.lifetime := lifetime;
    }

    /** Nothing was done for it yet. */
    predicate Untouched()
      reads this
    {
      !created && !hasJob && !inJob && !resumed && !endRequested && !seenEmpty && exit == None
    }

    method CreateSuspended(line: seq<Unit>, block: Option<seq<Unit>>) returns (ok: bool)
      modifies this`created, this`commandLine, this`environment
      ensures created == ok && commandLine == line && environment == block
    {
      ok := *;
      created, commandLine, environment := ok, line, block;
    }

    method CreateJob() returns (ok: bool)
      modifies this`hasJob
      ensures hasJob == ok
    {
      ok := *;
      hasJob := ok;
    }

    method AssignToJob() returns (ok: bool)
      requires created && hasJob
      modifies this`inJob
      ensures inJob == ok
    {
      ok := *;
      inJob := ok;
    }

    method TerminateRoot() returns (ok: bool)
      modifies this`endRequested
      ensures endRequested
    {
      ok := *;
      endRequested := true;
    }

    method TerminateJob() returns (ok: bool)
      modifies this`endRequested
      ensures endRequested == (old(endRequested) || ok)
    {
      ok := *;
      endRequested := endRequested || ok;
    }

    method KillOnJobClose() returns (ok: bool)
      modifies this`endRequested
      ensures endRequested == (old(endRequested) || ok)
    {
      ok := *;
      endRequested := endRequested || ok;
    }

    /** `abort_unstarted_process`. */
    method AbortUnstarted()
      modifies this`endRequested
      ensures endRequested
    {
      var _ := TerminateRoot();
    }

    method QueryActive() returns (ok: bool, active: nat)
      modifies this`lifetime, this`seenEmpty
      ensures ok && active > 0 ==> lifetime < old(lifetime)
      ensures seenEmpty == (old(seenEmpty) || (ok && active == 0))
    {
      ok := *;
      active := lifetime;
      if lifetime > 0 {
        lifetime := lifetime - 1;
      }
      seenEmpty := seenEmpty || (ok && active == 0);
    }

    method GetExitCode() returns (ok: bool, code: ExitCode)
      modifies this`exit
      ensures exit == if ok then Some(code) else None
    {
      ok, code := *, *;
      exit := if ok then Some(code) else None;
    }
  }

  class System {
    /** How many root processes were ever resumed. */
    var resumes: nat
    var acquires: nat
    var releaseAttempts: nat
    /** The launches made, in order. */
    ghost var attempts: seq<Attempt>
    const environment: seq<Unit>

    constructor (environment: seq<Unit>)
      ensures resumes == 0 && acquires == 0 && releaseAttempts == 0 && attempts == [] && this.environment == environment
    {
      resumes, acquires, releaseAttempts, attempts := 0, 0, 0, [];
      this.environment := environment;
    }

    method Resume(child: Child) returns (ok: bool)
      requires child.created && !child.resumed
      modifies this`resumes, child`resumed
      ensures child.resumed == ok && resumes == old(resumes) + if ok then 1 else 0
    {
      ok := *;
      if ok {
        child.resumed := true;
        resumes := resumes + 1;
      }
    }

    method SnapshotEnvironment() returns (r: Option<seq<Unit>>)
      ensures r.Some? ==> r.value == environment
    {
      var ok: bool := *;
      r := if ok then Some(environment) else None;
    }

    method Acquire() returns (ok: bool)
      modifies this`acquires
      ensures acquires == old(acquires) + if ok then 1 else 0
    {
      ok := *;
      if ok {
        acquires := acquires + 1;
      }
    }

    /** The release handshake; it may fail, but it is attempted. */
    method Release() returns (ok: bool)
      modifies this`releaseAttempts
      ensures releaseAttempts == old(releaseAttempts) + 1
    {
      ok := *;
      releaseAttempts := releaseAttempts + 1;
    }

    /** What the launched root was given. */
    ghost predicate Given(child: Child, arguments: seq<seq<Unit>>, leased: bool)
      reads child
    {
      && (forall doubled :: CommandLine.Split(CommandLine.Text(child.commandLine), doubled) == arguments)
      && (if leased
          then child.environment.Some? &&
               Environment.Entries(child.environment.value)
               == Environment.Without(Environment.Entries(environment), Environment.EXCLUSION)
          else child.environment == None)
    }

    /** An error is answered only because that very call failed, and all before it succeeded. */
    ghost predicate GaveUp(child: Child, leased: bool, error: LaunchError)
      reads child
    {
      match error
      case NoEnvironment => leased && !child.created
      case NotCreated => !child.created
      case NoJob => child.created && !child.hasJob
      case NotAssigned => child.hasJob && !child.inJob
      case NotResumed => child.inJob && !child.resumed
      case _ => false
    }

    /** Creates the root suspended, puts it into a job and resumes it; `None` once it runs. */
    method Start(child: Child, arguments: seq<seq<Unit>>, leased: bool) returns (failure: Option<LaunchError>)
      requires CommandLine.Launchable(arguments) && child.Untouched()
      modifies this`resumes, child
      ensures resumes == old(resumes) + if failure.None? then 1 else 0
      ensures failure.None? <==> child.resumed
      ensures child.created ==> Given(child, arguments, leased)
      ensures failure.None? ==> child.created && child.inJob && !child.endRequested
      ensures failure.Some? ==> GaveUp(child, leased, failure.value) && (child.created ==> child.endRequested)
      ensures !child.seenEmpty && child.exit == None
    {
      hide CommandLine.Split, CommandLine.Text, CommandLine.SplitProgram, CommandLine.Joined, CommandLine.NameSurvives;
      hide Environment.Entries, Environment.Without, Environment.Block;
      hide Environment.EndsAtOnlyDoubleNul;
      var block: Option<seq<Unit>> := None;
      if leased {
        var snapshot := SnapshotEnvironment();
        if snapshot == None {
          return Some(NoEnvironment);
        }
        var filtered := Environment.LeasedEnvironmentBlock(snapshot.value);
        block := Some(filtered);
      }
      var line := CommandLine.BuildCommandLine(arguments);
      var created := child.CreateSuspended(line, block);
      if !created {
        return Some(NotCreated);
      }
      var job := child.CreateJob();
      if !job {
        child.AbortUnstarted();
        return Some(NoJob);
      }
      // Assigned before it runs, so that no descendant escapes the job.
      var inJob := child.AssignToJob();
      if !inJob {
        child.AbortUnstarted();
        return Some(NotAssigned);
      }
      var resumed := Resume(child);
      if !resumed {
        var terminated := child.TerminateJob();
        if !terminated {
          child.AbortUnstarted();
        }
        return Some(NotResumed);
      }
      failure := None;
    }

    /**
     Starts the command suspended in a job and waits for its tree. An error means the root was never resumed; any
     result means it was resumed once, inside its job, that its tree was seen empty or its end was requested, and is the
     exit code the system answered for it, or the code of an aborted process.
     */
    method LaunchAndWait(child: Child, arguments: seq<seq<Unit>>, leased: bool)
        returns (r: Result<ExitCode, LaunchError>)
      requires CommandLine.Launchable(arguments) && child.Untouched()
      modifies this`resumes, this`attempts, child
      ensures resumes == old(resumes) + if r.Ok? then 1 else 0
      ensures r.Ok? <==> child.resumed
      ensures child.created ==> Given(child, arguments, leased)
      ensures r.Ok? ==> child.created && child.inJob && (child.seenEmpty || child.endRequested)
      ensures r.Ok? ==> r.value == CodeOf(child.exit) && (child.endRequested ==> child.exit == None)
      ensures r.Err? ==> GaveUp(child, leased, r.error) && (child.created ==> child.endRequested)
      ensures attempts ==
                old(attempts) + [Attempt(arguments, leased, if r.Ok? then Ran(child.exit) else NotStarted)]
    {
      var failure := Start(child, arguments, leased);
      if failure.Some? {
        attempts := attempts + [Attempt(arguments, leased, NotStarted)];
        return Err(failure.value);
      }
      var code := WaitForTree(child);
      attempts := attempts + [Attempt(arguments, leased, Ran(child.exit))];
      return Ok(code);
    }

    /** The wait after resuming: it never reports an error, because the program has started. */
    method WaitForTree(child: Child) returns (code: ExitCode)
      requires child.resumed && child.exit == None && !child.endRequested && !child.seenEmpty
      modifies child`lifetime, child`seenEmpty, child`endRequested, child`exit
      ensures child.seenEmpty || child.endRequested
      ensures code == CodeOf(child.exit) && (child.endRequested ==> child.exit == None)
    {
      while true
        invariant !child.endRequested && !child.seenEmpty && child.exit == None
        decreases child.lifetime
      {
        var ok, active := child.QueryActive();
        if !ok {
          var terminated := child.TerminateJob();
          if !terminated {
            var armed := child.KillOnJobClose();
            if !armed {
              var _ := child.TerminateRoot();
            }
          }
          return ERROR_PROCESS_ABORTED;
        }
        if active == 0 {
          break;
        }
      }
      var readable, exit := child.GetExitCode();
      code := if readable then exit else ERROR_PROCESS_ABORTED;
    }

    /**
     Runs a command under a lease. An error means it never started, so that a caller may start it itself; release is
     attempted after every successful acquire, and its failure is not an error of the run. The one launch that is made
     under a lease is a leased one.
     */
    method RunWrapped(command: seq<seq<Unit>>, lifetime: nat) returns (r: Result<(ExitCode, bool), LaunchError>)
      modifies this`resumes, this`acquires, this`releaseAttempts, this`attempts
      ensures resumes == old(resumes) + if r.Ok? then 1 else 0
      ensures 0 <= releaseAttempts - old(releaseAttempts) == acquires - old(acquires) <= 1
      ensures r.Ok? ==> acquires == old(acquires) + 1
      ensures !CommandLine.Launchable(command) ==> r.Err? && r.error.Rejected? && acquires == old(acquires)
      ensures acquires == old(acquires) ==> attempts == old(attempts)
      ensures acquires > old(acquires) ==>
                && |attempts| == |old(attempts)| + 1 && attempts[..|attempts| - 1] == old(attempts)
                && var made := attempts[|attempts| - 1];
                   && made.arguments == command && made.leased && (made.outcome.Ran? <==> r.Ok?)
                   && (r.Ok? ==> r.value.0 == CodeOf(made.outcome.exit))
    {
      var arguments := CommandLine.WideCommand(command);
      if arguments.Err? {
        return Err(Rejected(arguments.error));
      }
      var lease := Acquire();
      if !lease {
        return Err(NotAcquired);
      }
      var child := new Child(lifetime);
      var launched := LaunchAndWait(child, arguments.value, true);
      var released := Release();
      match launched
      case Ok(code) => r := Ok((code, released));
      case Err(error) => r := Err(error);
    }

    /** Runs a command without a lease: a command that can be launched gets one launch, and it is not a leased one. */
    method RunUnleased(command: seq<seq<Unit>>, lifetime: nat) returns (r: Result<ExitCode, LaunchError>)
      modifies this`resumes, this`attempts
      ensures resumes == old(resumes) + if r.Ok? then 1 else 0
      ensures !CommandLine.Launchable(command) ==> r.Err? && attempts == old(attempts)
      ensures CommandLine.Launchable(command) ==>
                && |attempts| == |old(attempts)| + 1 && attempts[..|attempts| - 1] == old(attempts)
                && var made := attempts[|attempts| - 1];
                   && made.arguments == command && !made.leased && (made.outcome.Ran? <==> r.Ok?)
                   && (r.Ok? ==> r.value == CodeOf(made.outcome.exit))
    {
      var arguments := CommandLine.WideCommand(command);
      if arguments.Err? {
        return Err(Rejected(arguments.error));
      }
      var child := new Child(lifetime);
      r := LaunchAndWait(child, arguments.value, false);
    }

    /**
     The launcher: leased if possible, otherwise without a lease. Over both attempts the program is started at most
     once. A command that can be launched is launched unleased unless its leased launch ran, so that the last launch is
     the only one that can have run, and its outcome is what the launcher answers.
     */
    method RunCommand(command: seq<seq<Unit>>, leasedLifetime: nat, unleasedLifetime: nat) returns (code: ExitCode)
      modifies this`resumes, this`acquires, this`releaseAttempts, this`attempts
      ensures old(resumes) <= resumes <= old(resumes) + 1
      ensures resumes == old(resumes) ==> code == 1
      ensures releaseAttempts - old(releaseAttempts) == acquires - old(acquires)
      ensures !CommandLine.Launchable(command) ==> resumes == old(resumes) && attempts == old(attempts)
      ensures CommandLine.Launchable(command) ==>
                && |old(attempts)| < |attempts| && attempts[..|old(attempts)|] == old(attempts)
                && var made, final := attempts[|old(attempts)|..], attempts[|attempts| - 1];
                   && (forall i :: 0 <= i < |made| ==> made[i].arguments == command)
                   && (forall i :: 0 <= i < |made| - 1 ==> made[i].leased && made[i].outcome == NotStarted)
                   && (final.leased ==> final.outcome.Ran?) && (made[0].leased <==> acquires > old(acquires))
                   && code == if final.outcome.Ran? then CodeOf(final.outcome.exit) else 1
    {
      hide CommandLine.Launchable;
      var run := RunWrapped(command, leasedLifetime);
      ghost var leased := attempts;
      assert leased == old(attempts) + leased[|old(attempts)|..];
      if run.Ok? {
        return run.value.0;
      }
      // Fail open: the error says the program never started.
      var fallback := RunUnleased(command, unleasedLifetime);
      assert CommandLine.Launchable(command) ==> attempts == leased + [attempts[|attempts| - 1]];
      code := if fallback.Ok? then fallback.value else 1;
    }
  }

  /** The answer for a process that ran: its exit code, or a distinct one if it was aborted or cannot be read. */
  function CodeOf(exit: Option<ExitCode>): ExitCode {
    if exit.Some? then exit.value else 1067
  }
}
