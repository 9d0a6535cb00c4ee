/**
 * `actual_main` and `main` (src/main.rs): create the cgroup, install the
 * limits, fork; the child enters the cgroup, drops its effective uid and
 * execs firefox; the parent waits for it, removes the cgroup and exits with
 * the child's code.
 */
module Launcher {
  import opened Wrappers
  import opened Decimal
  import opened Os
  import opened MemParser
  import opened Cgroup
  import opened Supervisor

  /** The program the child execs, passed as argv[0]. */
  const PROGRAM: string := "firefox"

  /** Arguments that `CString::new` accepts: none contains a NUL character. */
  predicate NoNul(args: seq<string>) {
    forall i :: 0 <= i < |args| ==> '\0' !in args[i]
  }

  /** The child's argv: the program name followed by the caller's arguments, verbatim. */
  function ChildArgv(args: seq<string>): (argv: seq<string>)
    requires NoNul(args)
    ensures |argv| == |args| + 1 && argv[0] == PROGRAM && argv[1..] == args
    ensures NoNul(argv)
  {
    [PROGRAM] + args
  }

  /** The calls the forked child makes when none fails: enter the cgroup, drop the effective uid, exec. */
  function ChildPlan(pid: nat, args: seq<string>): seq<Action>
    requires NoNul(args)
  {
    EnterPlan(pid) + [DropEuid, Exec(ChildArgv(args))]
  }

  /** How the child leaves the launcher's code: exit(1) after a failed step, or replaced by the program. */
  datatype ChildFate = ExitedEarly(status: int) | Replaced(argv: seq<string>)

  function ChildTrace(pid: nat, args: seq<string>, ok: Outcomes): seq<Event>
    requires NoNul(args)
  {
    var plan := ChildPlan(pid, args);
    RunPlan(plan, ok) + if AllSucceed(plan, ok) then [] else [ExitProcess(1)]
  }

  /**
   * The child branch of the fork in `actual_main`: each step that fails logs
   * and exits with status 1; a successful exec never returns.
   */
  method RunChild(pid: nat, args: seq<string>, ok: Outcomes) returns (fate: ChildFate, trace: seq<Event>)
    requires NoNul(args)
    ensures trace == ChildTrace(pid, args, ok)
    ensures fate == if AllSucceed(ChildPlan(pid, args), ok) then Replaced(ChildArgv(args)) else ExitedEarly(1)
  {
    ghost var plan := ChildPlan(pid, args);
    var open := OpenForWrite(PROCS_FILE);
    var write := WriteAll(PROCS_FILE, Payload(pid));
    var argv := ChildArgv(args);
    assert plan == [open, write, DropEuid, Exec(argv)];
    assert plan[1..] == [write, DropEuid, Exec(argv)];
    assert plan[2..] == [DropEuid, Exec(argv)];
    assert plan[3..] == [Exec(argv)];
    assert RunPlan(plan[3..], ok) == [Call(Exec(argv), ok(Exec(argv)))];
    assert RunPlan(plan[2..], ok) == [Call(DropEuid, ok(DropEuid))] + if ok(DropEuid) then RunPlan(plan[3..], ok) else [];
    assert RunPlan(plan[1..], ok) == [Call(write, ok(write))] + if ok(write) then RunPlan(plan[2..], ok) else [];
    assert RunPlan(plan, ok) == [Call(open, ok(open))] + if ok(open) then RunPlan(plan[1..], ok) else [];
    trace := [Call(open, ok(open))];
    if !ok(open) {
      assert !ok(plan[0]);
      return ExitedEarly(1), trace + [ExitProcess(1)];
    }
    trace := trace + [Call(write, ok(write))];
    if !ok(write) {
      assert !ok(plan[1]);
      return ExitedEarly(1), trace + [ExitProcess(1)];
    }
    trace := trace + [Call(DropEuid, ok(DropEuid))];
    if !ok(DropEuid) {
      assert !ok(plan[2]);
      return ExitedEarly(1), trace + [ExitProcess(1)];
    }
    trace := trace + [Call(Exec(argv), ok(Exec(argv)))];
    if !ok(Exec(argv)) {
      assert !ok(plan[3]);
      return ExitedEarly(1), trace + [ExitProcess(1)];
    }
    assert forall i :: 0 <= i < |plan| ==> ok(plan[i]);
    fate := Replaced(argv);
  }

  /**
   * The child execs only after it has joined the cgroup and dropped its
   * effective uid: an exec call is the fourth event, preceded by the
   * successful write of its pid into cgroup.procs and a successful seteuid.
   */
  lemma ExecOnlyAfterPrivilegeDrop(pid: nat, args: seq<string>, ok: Outcomes)
    requires NoNul(args)
    ensures var t := ChildTrace(pid, args, ok);
      forall i :: 0 <= i < |t| && t[i].Call? && t[i].action.Exec? ==>
        && i == 3
        && t[0] == Call(OpenForWrite(PROCS_FILE), true)
        && t[1] == Call(WriteAll(PROCS_FILE, Payload(pid)), true)
        && t[2] == Call(DropEuid, true)
        && t[3].action.argv == ChildArgv(args)
  {
    var plan := ChildPlan(pid, args);
    RunPlanStopsAtFirstFailure(plan, ok);
    assert plan == [OpenForWrite(PROCS_FILE), WriteAll(PROCS_FILE, Payload(pid)), DropEuid, Exec(ChildArgv(args))];
  }

  /**
   * A failed step ends the child: the failed call is followed only by
   * exit(1), and no later step is attempted. When every step succeeds the
   * last event is the exec of the program.
   */
  lemma ChildStopsAtFailure(pid: nat, args: seq<string>, ok: Outcomes)
    requires NoNul(args)
    ensures var t, plan := ChildTrace(pid, args, ok), ChildPlan(pid, args);
      var n := FirstFailure(plan, ok);
      && (n < |plan| ==> |t| == n + 2 && t[n] == Call(plan[n], false) && t[n + 1] == ExitProcess(1))
      && (n == |plan| ==> |t| == 4 && t[3] == Call(Exec(ChildArgv(args)), true))
  {
    var plan := ChildPlan(pid, args);
    RunPlanStopsAtFirstFailure(plan, ok);
    assert plan == [OpenForWrite(PROCS_FILE), WriteAll(PROCS_FILE, Payload(pid)), DropEuid, Exec(ChildArgv(args))];
  }

  /** Why `actual_main` returned an error; `main` turns each into exit code 1. */
  datatype LaunchError = CreateFailed | LimitsFailed | ForkFailed | WaitCallFailed

  /** The result of `actual_main`, or Waiting while the parent is still blocked in `waitpid`. */
  datatype Outcome = Returned(code: int) | Failed(error: LaunchError) | Waiting

  /** The environment of one run: which calls succeed, the child's pid, and what `waitpid` reports. */
  datatype Env = Env(ok: Outcomes, childPid: nat, statuses: seq<WaitStatus>)

  /** A run of `actual_main`: its outcome and the events of the parent and of the forked child. */
  datatype Run = Run(outcome: Outcome, parent: seq<Event>, child: seq<Event>)

  /**
   * What the parent does after the limit writes, as a run whose events
   * follow those writes: on a failed write, teardown; otherwise the fork,
   * then blocking signals and the wait, then teardown once the wait returns.
   * The cgroup is dropped on every return (Rust runs `Drop` when `tmp` goes
   * out of scope, then drops its `TempDir` field), but not while the parent
   * is still waiting.
   */
  function AfterLimits(mem: U64, args: seq<string>, env: Env): Run
    requires NoNul(args)
  {
    var ok := env.ok;
    if !AllSucceed(LimitsPlan(mem), ok) then
      Run(Failed(LimitsFailed), DisposeTrace(ok), [])
    else if !ok(Fork) then
      Run(Failed(ForkFailed), [Call(Fork, false)] + DisposeTrace(ok), [])
    else
      var child := ChildTrace(env.childPid, args, ok);
      var waited := [Call(Fork, true)] + [Call(BlockSignals, ok(BlockSignals))] + WaitTrace(env.statuses);
      match Supervise(env.statuses)
      case StillWaiting => Run(Waiting, waited, child)
      case WaitError => Run(Failed(WaitCallFailed), waited + DisposeTrace(ok), child)
      case Finished(c) => Run(Returned(c), waited + DisposeTrace(ok), child)
  }

  /** `actual_main` as a function of its environment: create the cgroup, write the limits, then the rest. */
  function Launch(mem: U64, args: seq<string>, env: Env): Run
    requires NoNul(args)
  {
    var ok := env.ok;
    if !ok(CreateCgroup) then Run(Failed(CreateFailed), [Call(CreateCgroup, false)], [])
    else
      var rest := AfterLimits(mem, args, env);
      Run(rest.outcome, [Call(CreateCgroup, true)] + RunPlan(LimitsPlan(mem), ok) + rest.parent, rest.child)
  }

  /** `actual_main`. A failure to block signals is only logged; the wait goes ahead. */
  method ActualMain(mem: U64, args: seq<string>, env: Env) returns (run: Run)
    requires NoNul(args)
    ensures run == Launch(mem, args, env)
  {
    var ok := env.ok;
    if !ok(CreateCgroup) {
      return Run(Failed(CreateFailed), [Call(CreateCgroup, false)], []);
    }
    var limits, writes := WriteMemlimits(mem, ok);
    var setup := [Call(CreateCgroup, true)] + writes;
    if limits.Err? {
      var teardown := Dispose(ok);
      return Run(Failed(LimitsFailed), setup + teardown, []);
    }
    var after := [Call(Fork, ok(Fork))];
    if !ok(Fork) {
      var teardown := Dispose(ok);
      return Run(Failed(ForkFailed), setup + (after + teardown), []);
    }
    var fate, child := RunChild(env.childPid, args, ok);
    after := after + [Call(BlockSignals, ok(BlockSignals))];
    var verdict, waits := WaitForChild(env.statuses);
    after := after + waits;
    if verdict.StillWaiting? {
      return Run(Waiting, setup + after, child);
    }
    var teardown := Dispose(ok);
    var outcome := if verdict.WaitError? then Failed(WaitCallFailed) else Returned(verdict.code);
    run := Run(outcome, setup + (after + teardown), child);
  }

  /**
   * The cgroup is torn down on every return of `actual_main` once it has been
   * created (the drop loop, then the `TempDir`'s own removal), after
   * everything else the parent did, whether the return is an
   * exit code or an error; a failed creation leaves nothing to remove.
   */
  lemma TeardownOnEveryReturn(mem: U64, args: seq<string>, env: Env)
    requires NoNul(args)
    ensures var run, t := Launch(mem, args, env), DisposeTrace(env.ok);
      && (!env.ok(CreateCgroup) ==> run.outcome == Failed(CreateFailed) && run.parent == [Call(CreateCgroup, false)])
      && (env.ok(CreateCgroup) && !run.outcome.Waiting? ==>
            |run.parent| > |t| && run.parent[0] == Call(CreateCgroup, true)
            && run.parent[|run.parent| - |t|..] == t)
  {
    var run, t := Launch(mem, args, env), DisposeTrace(env.ok);
    if env.ok(CreateCgroup) && !run.outcome.Waiting? {
      var r := AfterLimits(mem, args, env);
      var start := [Call(CreateCgroup, true)] + RunPlan(LimitsPlan(mem), env.ok);
      AfterLimitsEndsWithTeardown(mem, args, env);
      var front := r.parent[..|r.parent| - |t|];
      assert r.parent == front + t;
      assert run.parent == (start + front) + t;
      EndsWith(start + front, t);
    }
  }

  /** Every return after the limit writes ends with the whole teardown; only waiting does not. */
  lemma AfterLimitsEndsWithTeardown(mem: U64, args: seq<string>, env: Env)
    requires NoNul(args)
    ensures var r, t := AfterLimits(mem, args, env), DisposeTrace(env.ok);
      !r.outcome.Waiting? ==> |r.parent| >= |t| && r.parent[|r.parent| - |t|..] == t
  {
    var ok, r, t := env.ok, AfterLimits(mem, args, env), DisposeTrace(env.ok);
    if !AllSucceed(LimitsPlan(mem), ok) {
      EndsWith([], t);
      assert r.parent == [] + t;
    } else if !ok(Fork) {
      EndsWith([Call(Fork, false)], t);
    } else if !Supervise(env.statuses).StillWaiting? {
      EndsWith([Call(Fork, true)] + [Call(BlockSignals, ok(BlockSignals))] + WaitTrace(env.statuses), t);
    }
  }

  /**
   * The order of the parent's setup: create the cgroup, then the limit
   * writes (stopping at the first failure), then fork only if every write
   * succeeded; the child exists only after a successful fork.
   */
  lemma ParentOrder(mem: U64, args: seq<string>, env: Env)
    requires NoNul(args) && env.ok(CreateCgroup)
    ensures var run, limits := Launch(mem, args, env), RunPlan(LimitsPlan(mem), env.ok);
      && run.parent[..1 + |limits|] == [Call(CreateCgroup, true)] + limits
      && (AllSucceed(LimitsPlan(mem), env.ok) <==> run.parent[1 + |limits|].Call? && run.parent[1 + |limits|].action == Fork)
      && (run.child != [] ==> AllSucceed(LimitsPlan(mem), env.ok) && run.parent[1 + |limits|] == Call(Fork, true))
  {
    var run, limits := Launch(mem, args, env), RunPlan(LimitsPlan(mem), env.ok);
    var start, after := [Call(CreateCgroup, true)] + limits, AfterLimits(mem, args, env).parent;
    AfterLimitsStart(mem, args, env);
    assert run.parent == start + after;
    assert run.parent[..|start|] == start;
    assert run.parent[|start|] == after[0];
  }

  /** After the limit writes the parent forks exactly when they all succeeded, and otherwise tears down. */
  lemma AfterLimitsStart(mem: U64, args: seq<string>, env: Env)
    requires NoNul(args)
    ensures var r := AfterLimits(mem, args, env);
      && |r.parent| > 0
      && (AllSucceed(LimitsPlan(mem), env.ok) <==> r.parent[0].Call? && r.parent[0].action == Fork)
      && (r.child != [] ==> AllSucceed(LimitsPlan(mem), env.ok) && r.parent[0] == Call(Fork, true))
  {
    TeardownStartsWithRemoval(env.ok);
  }

  /** Dropping the cgroup starts with the first removal attempt (so it never looks like a fork). */
  lemma TeardownStartsWithRemoval(ok: Outcomes)
    ensures |DisposeTrace(ok)| > 0 && DisposeTrace(ok)[0] == Call(RemoveDir(0), ok(RemoveDir(0)))
  {
  }

  /** What `main` does: the process's exit code (None while still waiting) and the events of both processes. */
  datatype Process = Process(exit: Option<int>, parent: seq<Event>, child: seq<Event>)

  /**
   * `main` as a function: the size token defaults to "2G"; a token that does
   * not parse exits with 2 before anything else happens; otherwise the child's
   * code is the exit code, and every failure of `actual_main` is 1.
   */
  function MainRun(memArg: Option<string>, args: seq<string>, env: Env): Process
    requires NoNul(args)
  {
    match ParseMem(memArg.GetOr(DEFAULT_MEMORY))
    case Err(_) => Process(Some(2), [ExitProcess(2)], [])
    case Ok(mem) =>
      var run := Launch(mem, args, env);
      match run.outcome
      case Returned(c) => Process(Some(c), run.parent + [ExitProcess(c)], run.child)
      case Failed(_) => Process(Some(1), run.parent + [ExitProcess(1)], run.child)
      case Waiting => Process(None, run.parent, run.child)
  }

  /** `main`, after the command line has been split into the `-m` value and the trailing arguments. */
  method LauncherMain(memArg: Option<string>, args: seq<string>, env: Env) returns (p: Process)
    requires NoNul(args)
    ensures p == MainRun(memArg, args, env)
  {
    var token := memArg.GetOr(DEFAULT_MEMORY);
    var parsed := ParseMem(token);
    if parsed.Err? {
      return Process(Some(2), [ExitProcess(2)], []);
    }
    var run := ActualMain(parsed.value, args, env);
    match run.outcome {
      case Returned(c) =>
        p := Process(Some(c), run.parent + [ExitProcess(c)], run.child);
      case Failed(_) =>
        p := Process(Some(1), run.parent + [ExitProcess(1)], run.child);
      case Waiting =>
        p := Process(None, run.parent, run.child);
    }
  }

  /**
   * The exit codes of `main`: 2 for a size token that does not parse (and
   * nothing else happens), otherwise the code of the child's first terminal
   * status once the cgroup is set up and the fork succeeded, and 1 for every
   * failure of creation, limit writes, fork or wait.
   */
  lemma ExitCodes(memArg: Option<string>, args: seq<string>, env: Env)
    requires NoNul(args)
    ensures var p, parsed := MainRun(memArg, args, env), ParseMem(memArg.GetOr(DEFAULT_MEMORY));
      && (parsed.Err? ==> p.exit == Some(2) && p.parent == [ExitProcess(2)] && p.child == [])
      && (parsed.Ok? ==>
            var setUp := env.ok(CreateCgroup) && AllSucceed(LimitsPlan(parsed.value), env.ok) && env.ok(Fork);
            && (!setUp ==> p.exit == Some(1))
            && (setUp ==> match Supervise(env.statuses)
                          case Finished(c) => p.exit == Some(c)
                          case WaitError => p.exit == Some(1)
                          case StillWaiting => p.exit == None))
  {
    var parsed := ParseMem(memArg.GetOr(DEFAULT_MEMORY));
    if parsed.Ok? {
      var outcome := Launch(parsed.value, args, env).outcome;
      assert MainRun(memArg, args, env).exit
          == match outcome
             case Returned(c) => Some(c)
             case Failed(_) => Some(1)
             case Waiting => None;
    }
  }

  /**
   * Once the cgroup exists, the parent's first calls after creating it open
   * the limit file and write the size to it, as a decimal line.
   */
  lemma LaunchWritesLimitFirst(mem: U64, args: seq<string>, env: Env)
    requires NoNul(args) && env.ok(CreateCgroup)
    ensures var t, open, write := Launch(mem, args, env).parent, OpenForWrite(LIMIT_FILE), WriteAll(LIMIT_FILE, Payload(mem));
      && |t| >= 2 && t[1] == Call(open, env.ok(open))
      && (env.ok(open) ==> |t| >= 3 && t[2] == Call(write, env.ok(write)))
  {
    ParentOrder(mem, args, env);
    var plan := LimitsPlan(mem);
    assert plan[..2] == [OpenForWrite(LIMIT_FILE), WriteAll(LIMIT_FILE, Payload(mem))];
    RunPlanStopsAtFirstFailure(plan, env.ok);
  }

  /** When the size token parses, `main` begins with everything `actual_main` did. */
  lemma MainExtendsLaunch(memArg: Option<string>, args: seq<string>, env: Env)
    requires NoNul(args)
    requires ParseMem(memArg.GetOr(DEFAULT_MEMORY)).Ok?
    ensures var t := Launch(ParseMem(memArg.GetOr(DEFAULT_MEMORY)).value, args, env).parent;
      var p := MainRun(memArg, args, env);
      |p.parent| >= |t| && p.parent[..|t|] == t
  {
    var t := Launch(ParseMem(memArg.GetOr(DEFAULT_MEMORY)).value, args, env).parent;
    assert MainRun(memArg, args, env).parent[..|t|] == t;
  }

  /** With no `-m` option the limit written is 2 GiB. */
  lemma DefaultLimit(args: seq<string>, env: Env)
    requires NoNul(args) && env.ok(CreateCgroup)
    ensures var p, open := MainRun(None, args, env), OpenForWrite(LIMIT_FILE);
      && |p.parent| >= 2 && p.parent[1] == Call(open, env.ok(open))
      && (env.ok(open) ==>
            var write := WriteAll(LIMIT_FILE, Payload(2147483648));
            |p.parent| >= 3 && p.parent[2] == Call(write, env.ok(write)))
  {
    DefaultIsTwoGiB();
    assert None.GetOr(DEFAULT_MEMORY) == DEFAULT_MEMORY;
    MainExtendsLaunch(None, args, env);
    LaunchWritesLimitFirst(2147483648, args, env);
    var t := Launch(2147483648, args, env).parent;
    var p := MainRun(None, args, env);
    assert p.parent[1] == t[1];
    if env.ok(OpenForWrite(LIMIT_FILE)) {
      assert p.parent[2] == t[2];
    }
  }

  /** The outcome of `actual_main` does not depend on whether removing the cgroup succeeds. */
  lemma LaunchIgnoresRemovals(mem: U64, args: seq<string>, env: Env, removals: Outcomes)
    requires NoNul(args)
    requires forall a: Action :: !a.RemoveDir? && !a.RemoveAll? ==> removals(a) == env.ok(a)
    ensures Launch(mem, args, env).outcome == Launch(mem, args, env.(ok := removals)).outcome
  {
    var plan := LimitsPlan(mem);
    FilesPlanSucceeds(LIMIT_FILES, Payload(mem), env.ok);
    FilesPlanSucceeds(LIMIT_FILES, Payload(mem), removals);
    assert AllSucceed(plan, env.ok) <==> AllSucceed(plan, removals);
    assert env.ok(CreateCgroup) == removals(CreateCgroup);
    assert env.ok(Fork) == removals(Fork);
  }

  /**
   * Removing the cgroup never affects the exit code: two environments that
   * differ only in the outcomes of the removal attempts give the same exit code.
   */
  lemma TeardownNeverFails(memArg: Option<string>, args: seq<string>, env: Env, removals: Outcomes)
    requires NoNul(args)
    requires forall a: Action :: !a.RemoveDir? && !a.RemoveAll? ==> removals(a) == env.ok(a)
    ensures MainRun(memArg, args, env).exit == MainRun(memArg, args, env.(ok := removals)).exit
  {
    var parsed := ParseMem(memArg.GetOr(DEFAULT_MEMORY));
    if parsed.Ok? {
      LaunchIgnoresRemovals(parsed.value, args, env, removals);
    }
  }

  /** The forked child never removes the cgroup: it leaves by exit or exec, which run no destructors. */
  lemma ChildNeverTearsDown(pid: nat, args: seq<string>, ok: Outcomes)
    requires NoNul(args)
    ensures forall e :: e in ChildTrace(pid, args, ok) ==> !IsRemoval(e) && !(e.Call? && e.action.RemoveAll?) && !e.Slept?
  {
    var plan := ChildPlan(pid, args);
    RunPlanStopsAtFirstFailure(plan, ok);
    assert plan == [OpenForWrite(PROCS_FILE), WriteAll(PROCS_FILE, Payload(pid)), DropEuid, Exec(ChildArgv(args))];
  }
}
