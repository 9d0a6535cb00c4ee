/**
 * The operating-system calls the launcher makes, as abstract actions whose
 * outcomes are inputs of the model, and the trace of events a run leaves.
 */
module Os {

  /** The exit status of a child that exited normally (0..255). */
  type ExitStatus = c: int | 0 <= c < 256

  /** A signal number as the `nix` crate enumerates them on Linux. */
  type Signal = s: int | 1 <= s <= 31 witness 9

  /**
   * One result of `waitpid`: a normal exit, death by a signal, any other
   * status (stopped, continued, ptrace events, still alive), or the call
   * itself failing. `nix` turns a raw status into a `Signal` it enumerates,
   * so a child killed by a signal numbered 32 or above (a real-time signal)
   * makes `waitpid` return an error: that case is `WaitFailed`.
   */
  datatype WaitStatus = Exited(code: ExitStatus) | Signaled(signal: Signal) | Other | WaitFailed

  /** A fallible call; its success or failure is decided by the environment. */
  datatype Action =
    | CreateCgroup                              // tempdir "firefox.*" under the memory controller
    | OpenForWrite(file: string)                // a control file of the cgroup
    | WriteAll(file: string, payload: string)
    | Fork
    | DropEuid                                  // seteuid(getuid())
    | Exec(argv: seq<string>)                   // execvp; success never returns
    | BlockSignals                              // sigprocmask(SIG_BLOCK, all)
    | RemoveDir(attempt: nat)                   // remove_dir, the attempt-th try (from 0)
    | RemoveAll                                 // remove_dir_all when the TempDir itself is dropped

  /** What a process observably does, in order. */
  datatype Event =
    | Call(action: Action, ok: bool)
    | Waited(status: WaitStatus)
    | Slept                                     // sleep(1 s)
    | LogRemoved                                // info: removed temporary cgroup
    | LogRemoveFailed(attempt: nat, of: nat)    // warn: cannot remove ... (try attempt/of)
    | ExitProcess(code: int)                    // std::process::exit

  /** The environment's answer for every fallible call. */
  type Outcomes = Action -> bool

  /**
   * Performing the calls of `plan` in order and stopping at the first that
   * fails, as a chain of `?` operators does.
   */
  function RunPlan(plan: seq<Action>, ok: Outcomes): seq<Event> {
    if plan == [] then []
    else [Call(plan[0], ok(plan[0]))] + (if ok(plan[0]) then RunPlan(plan[1..], ok) else [])
  }

  predicate AllSucceed(plan: seq<Action>, ok: Outcomes) {
    forall i :: 0 <= i < |plan| ==> ok(plan[i])
  }

  /** A plan that starts with two calls: what running it does, and when all of it succeeds. */
  lemma RunPlanPair(a: Action, b: Action, rest: seq<Action>, ok: Outcomes)
    ensures RunPlan([a, b] + rest, ok)
         == [Call(a, ok(a))] + (if !ok(a) then [] else [Call(b, ok(b))] + (if !ok(b) then [] else RunPlan(rest, ok)))
    ensures AllSucceed([a, b] + rest, ok) <==> ok(a) && ok(b) && AllSucceed(rest, ok)
  {
    var plan := [a, b] + rest;
    assert plan[1..] == [b] + rest;
    assert plan[1..][1..] == rest;
    if ok(a) && ok(b) && AllSucceed(rest, ok) {
      forall i | 0 <= i < |plan| ensures ok(plan[i]) {
        if i >= 2 {
          assert plan[i] == rest[i - 2];
        }
      }
    }
    if AllSucceed(plan, ok) {
      assert ok(plan[0]) && ok(plan[1]);
      forall i | 0 <= i < |rest| ensures ok(rest[i]) {
        assert rest[i] == plan[i + 2];
      }
    }
  }

  /**
   * One step of a loop that performs two calls `a` and `b` after the events
   * `trace`, where `tail` is what performing them and the rest does: a failed
   * `a` ends it, a failed `b` ends it after `a`, and otherwise `later` follows.
   */
  lemma PairStep(trace: seq<Event>, a: Action, b: Action, okA: bool, okB: bool, later: seq<Event>, tail: seq<Event>, full: seq<Event>)
    requires tail == [Call(a, okA)] + (if !okA then [] else [Call(b, okB)] + (if !okB then [] else later))
    requires trace + tail == full
    ensures !okA ==> trace + [Call(a, false)] == full
    ensures okA && !okB ==> trace + [Call(a, true)] + [Call(b, false)] == full
    ensures okA && okB ==> trace + [Call(a, true)] + [Call(b, true)] + later == full
  {
    if okA && !okB {
      assert tail == [Call(a, true)] + [Call(b, false)];
    } else if okA && okB {
      assert tail == [Call(a, true)] + ([Call(b, true)] + later);
    }
  }

  /** A trace built as `front + t` ends with `t`. */
  lemma EndsWith(front: seq<Event>, t: seq<Event>)
    ensures |front + t| >= |t| && (front + t)[|front + t| - |t|..] == t
  {
  }

  /** Appending one event `e` to the trace so far, when `e` and then `later` complete it to `full`. */
  lemma AppendEvent(trace: seq<Event>, e: Event, later: seq<Event>, full: seq<Event>)
    requires trace + ([e] + later) == full
    ensures trace + [e] + later == full
    ensures later == [] ==> trace + [e] == full
  {
    if later == [] {
      assert [e] + later == [e];
    }
  }

  /** Appending one round `front + [e] + [f]` and what follows it, event by event. */
  lemma AppendRound(trace: seq<Event>, front: seq<Event>, e: Event, f: Event, rest: seq<Event>, full: seq<Event>)
    requires trace + (front + [e] + [f] + rest) == full
    ensures (trace + front) + [e] + [f] + rest == full
  {
  }

  /** The position of the first call of `plan` that fails, or |plan| when none does. */
  function FirstFailure(plan: seq<Action>, ok: Outcomes): (n: nat)
    ensures n <= |plan|
    ensures forall i :: 0 <= i < n ==> ok(plan[i])
    ensures n < |plan| ==> !ok(plan[n])
  {
    if plan == [] then 0
    else if !ok(plan[0]) then 0
    else 1 + FirstFailure(plan[1..], ok)
  }

  /**
   * A plan run stops at the first failure: it performs exactly the calls up to
   * and including the first that fails (all of them when none fails), in plan
   * order, and never one after it.
   */
  lemma {:induction false} RunPlanStopsAtFirstFailure(plan: seq<Action>, ok: Outcomes)
    ensures var t, n := RunPlan(plan, ok), FirstFailure(plan, ok);
      && |t| == (if n < |plan| then n + 1 else n)
      && (forall i :: 0 <= i < |t| ==> t[i] == Call(plan[i], ok(plan[i])))
    ensures AllSucceed(plan, ok) <==> FirstFailure(plan, ok) == |plan|
  {
    if plan != [] {
      RunPlanStopsAtFirstFailure(plan[1..], ok);
      if ok(plan[0]) {
        var t := RunPlan(plan, ok);
        assert forall i :: 1 <= i < |t| ==> t[i] == RunPlan(plan[1..], ok)[i - 1];
        if AllSucceed(plan[1..], ok) {
          forall i | 1 <= i < |plan| ensures ok(plan[i]) {
            assert plan[i] == plan[1..][i - 1];
          }
        }
      }
    }
  }

  /** Counting the events of a trace that satisfy `p`. */
  function Count(t: seq<Event>, p: Event -> bool): nat {
    if t == [] then 0 else (if p(t[0]) then 1 else 0) + Count(t[1..], p)
  }

  lemma {:induction false} CountAppend(a: seq<Event>, b: seq<Event>, p: Event -> bool)
    ensures Count(a + b, p) == Count(a, p) + Count(b, p)
  {
    if a == [] {
      assert a + b == b;
    } else {
      assert (a + b)[1..] == a[1..] + b;
      CountAppend(a[1..], b, p);
    }
  }
}
