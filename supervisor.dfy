/**
 * The parent's wait loop in `actual_main` (src/main.rs): `waitpid` is called
 * until the child exits or is killed, and that termination becomes the
 * launcher's own exit code.
 */
module Supervisor {
  import opened Os

  /**
   * Where the wait loop stands after a sequence of `waitpid` results: it
   * returned an exit code, it returned a wait error, or it is still waiting
   * (the real loop blocks until a terminal status arrives).
   */
  datatype Supervision = Finished(code: int) | WaitError | StillWaiting

  /**
   * `128 | signal`, the shell convention for a process killed by a signal.
   * Rust computes it on i32; both operands fit in 8 bits, so the bits above
   * the eighth are zero and the or is taken on bv8.
   */
  function SignalExitCode(s: Signal): int {
    ((128 as bv8) | (s as bv8)) as int
  }

  /** Signal numbers are below 128, so the bitwise or is an addition and stays within 129..159. */
  lemma SignalExitCodeIsOffset(s: Signal)
    ensures SignalExitCode(s) == 128 + s
    ensures 129 <= SignalExitCode(s) <= 159
  {
    var b := s as bv8;
    assert (128 as bv8) | b == 128 + b;
  }

  /** Whether a status ends the wait loop. */
  predicate IsTerminal(st: WaitStatus) {
    !st.Other?
  }

  /** What the wait loop returns on a terminal status. */
  function Verdict(st: WaitStatus): Supervision
    requires IsTerminal(st)
  {
    match st
    case Exited(c) => Finished(c)
    case Signaled(s) => Finished(SignalExitCode(s))
    case WaitFailed => WaitError
  }

  /** The outcome of the wait loop over the given `waitpid` results. */
  function Supervise(statuses: seq<WaitStatus>): Supervision {
    if statuses == [] then StillWaiting
    else if IsTerminal(statuses[0]) then Verdict(statuses[0])
    else Supervise(statuses[1..])
  }

  /** The `waitpid` results the loop consumes: up to and including the first terminal one. */
  function WaitTrace(statuses: seq<WaitStatus>): seq<Event> {
    if statuses == [] then []
    else [Waited(statuses[0])] + if IsTerminal(statuses[0]) then [] else WaitTrace(statuses[1..])
  }

  /** One turn of the wait loop, at the i-th `waitpid` result. */
  lemma WaitStep(statuses: seq<WaitStatus>, i: nat)
    requires i < |statuses|
    ensures IsTerminal(statuses[i]) ==>
      WaitTrace(statuses[i..]) == [Waited(statuses[i])] && Supervise(statuses[i..]) == Verdict(statuses[i])
    ensures !IsTerminal(statuses[i]) ==>
      && WaitTrace(statuses[i..]) == [Waited(statuses[i])] + WaitTrace(statuses[i + 1..])
      && Supervise(statuses[i..]) == Supervise(statuses[i + 1..])
  {
    assert statuses[i..][0] == statuses[i];
    assert statuses[i..][1..] == statuses[i + 1..];
  }

  /** The wait loop of `actual_main`, over the `waitpid` results the environment gives. */
  method WaitForChild(statuses: seq<WaitStatus>) returns (r: Supervision, trace: seq<Event>)
    ensures r == Supervise(statuses)
    ensures trace == WaitTrace(statuses)
  {
    r := StillWaiting;
    trace := [];
    var i := 0;
    while i < |statuses|
      invariant 0 <= i <= |statuses|
      invariant trace + WaitTrace(statuses[i..]) == WaitTrace(statuses)
      invariant Supervise(statuses[i..]) == Supervise(statuses)
    {
      var st := statuses[i];
      WaitStep(statuses, i);
      AppendEvent(trace, Waited(st), if IsTerminal(st) then [] else WaitTrace(statuses[i + 1..]), WaitTrace(statuses));
      trace := trace + [Waited(st)];
      if IsTerminal(st) {
        r := Verdict(st);
        return;
      }
      i := i + 1;
    }
  }

  /**
   * The wait loop is decided by the first terminal status: it skips every
   * other status, returns the exit code of the first `Exited`, 128 | s for
   * the first `Signaled(s)`, a wait error for the first failed call, and
   * keeps waiting while no terminal status has arrived.
   */
  lemma {:induction false} SuperviseFirstTerminal(statuses: seq<WaitStatus>, k: nat)
    requires k < |statuses| && IsTerminal(statuses[k])
    requires forall i :: 0 <= i < k ==> !IsTerminal(statuses[i])
    ensures Supervise(statuses) == Verdict(statuses[k])
    ensures WaitTrace(statuses) == seq(k + 1, i requires 0 <= i <= k => Waited(statuses[i]))
  {
    if k > 0 {
      SuperviseFirstTerminal(statuses[1..], k - 1);
      var rest := seq(k, i requires 0 <= i < k => Waited(statuses[1..][i]));
      assert seq(k + 1, i requires 0 <= i <= k => Waited(statuses[i])) == [Waited(statuses[0])] + rest;
    }
  }

  /** With no terminal status the loop is still waiting, having consumed everything. */
  lemma {:induction false} SuperviseNoTerminal(statuses: seq<WaitStatus>)
    requires forall i :: 0 <= i < |statuses| ==> !IsTerminal(statuses[i])
    ensures Supervise(statuses) == StillWaiting
    ensures |WaitTrace(statuses)| == |statuses|
  {
    if statuses != [] {
      SuperviseNoTerminal(statuses[1..]);
    }
  }

  /** A child exiting with 7 gives 7; a child killed by signal 9 gives 137. */
  lemma ExitCodeExamples()
    ensures Supervise([Other, Exited(7)]) == Finished(7)
    ensures Supervise([Signaled(9)]) == Finished(137)
  {
    SignalExitCodeIsOffset(9);
  }
}
