/**
 * The temporary memory cgroup (`TempMemCgroup` and the helpers around it in
 * src/main.rs): the payloads written into its control files, the order of
 * those writes, and the bounded retry loop that removes it on drop.
 */
module Cgroup {
  import opened Wrappers
  import opened Decimal
  import opened Os

  const LIMIT_FILE: string := "memory.limit_in_bytes"
  const MEMSW_FILE: string := "memory.memsw.limit_in_bytes"
  const PROCS_FILE: string := "cgroup.procs"

  /** How many times drop tries to remove the directory. */
  const RETRIES: nat := 5

  /** `format!("{}\n", n)`: the text written into a control file. */
  function Payload(n: nat): string {
    Format(n) + "\n"
  }

  /** The payload is the decimal text of the number, which parses back to it, then a newline. */
  lemma PayloadRoundTrip(n: U64)
    ensures var p := Payload(n);
      |p| >= 2 && p[|p| - 1] == '\n' && ParseU64(p[..|p| - 1]) == Ok(n)
  {
    var p := Payload(n);
    assert p[..|p| - 1] == Format(n);
    ParseFormat(n);
  }

  /** Opening one control file for writing and writing the whole payload into it. */
  function WritePlan(file: string, payload: string): seq<Action> {
    [OpenForWrite(file), WriteAll(file, payload)]
  }

  /** The control files `write_memlimits` writes, in order: the memory limit, then memory+swap. */
  const LIMIT_FILES: seq<string> := [LIMIT_FILE, MEMSW_FILE]

  /** Writing the same payload into each file of `files` in turn. */
  function FilesPlan(files: seq<string>, payload: string): seq<Action> {
    if files == [] then [] else WritePlan(files[0], payload) + FilesPlan(files[1..], payload)
  }

  /** The calls `write_memlimits` makes when nothing fails. */
  function LimitsPlan(mem: U64): seq<Action> {
    FilesPlan(LIMIT_FILES, Payload(mem))
  }

  /** Every call of a files plan succeeds exactly when every file can be opened and written. */
  lemma {:induction false} FilesPlanSucceeds(files: seq<string>, payload: string, ok: Outcomes)
    ensures AllSucceed(FilesPlan(files, payload), ok) <==>
      forall j :: 0 <= j < |files| ==> ok(OpenForWrite(files[j])) && ok(WriteAll(files[j], payload))
  {
    if files != [] {
      var plan := FilesPlan(files, payload);
      var tail := FilesPlan(files[1..], payload);
      FilesPlanSucceeds(files[1..], payload, ok);
      assert plan == [OpenForWrite(files[0]), WriteAll(files[0], payload)] + tail;
      if AllSucceed(plan, ok) {
        assert ok(plan[0]) && ok(plan[1]);
        forall i | 0 <= i < |tail| ensures ok(tail[i]) {
          assert tail[i] == plan[i + 2];
        }
        forall j | 0 <= j < |files| ensures ok(OpenForWrite(files[j])) && ok(WriteAll(files[j], payload)) {
          if j > 0 {
            assert files[j] == files[1..][j - 1];
          }
        }
      }
      if forall j :: 0 <= j < |files| ==> ok(OpenForWrite(files[j])) && ok(WriteAll(files[j], payload)) {
        forall j | 0 <= j < |files[1..]|
          ensures ok(OpenForWrite(files[1..][j])) && ok(WriteAll(files[1..][j], payload))
        {
          assert files[1..][j] == files[j + 1];
        }
        forall i | 0 <= i < |plan| ensures ok(plan[i]) {
          if i >= 2 {
            assert plan[i] == tail[i - 2];
          }
        }
      }
    }
  }

  /** The calls for the k-th file, followed by those for the files after it. */
  lemma FilesPlanAt(files: seq<string>, k: nat, payload: string)
    requires k < |files|
    ensures FilesPlan(files[k..], payload)
         == [OpenForWrite(files[k]), WriteAll(files[k], payload)] + FilesPlan(files[k + 1..], payload)
  {
    assert files[k..][1..] == files[k + 1..];
  }

  /** Every call from the k-th file on succeeds exactly when both calls for that file do and all later ones do. */
  lemma FilesSucceedAt(files: seq<string>, k: nat, payload: string, ok: Outcomes)
    requires k < |files|
    ensures AllSucceed(FilesPlan(files[k..], payload), ok)
        <==> ok(OpenForWrite(files[k])) && ok(WriteAll(files[k], payload)) && AllSucceed(FilesPlan(files[k + 1..], payload), ok)
  {
    FilesPlanAt(files, k, payload);
    RunPlanPair(OpenForWrite(files[k]), WriteAll(files[k], payload), FilesPlan(files[k + 1..], payload), ok);
  }

  /**
   * The loop of `write_memlimits`: for each file in turn, open it and write
   * the payload, returning the error of the first call that fails.
   */
  method WriteFiles(files: seq<string>, payload: string, ok: Outcomes) returns (r: Result<(), Action>, trace: seq<Event>)
    ensures trace == RunPlan(FilesPlan(files, payload), ok)
    ensures r.Ok? <==> AllSucceed(FilesPlan(files, payload), ok)
    ensures r.Err? ==> |trace| > 0 && trace[|trace| - 1] == Call(r.error, false)
  {
    trace := [];
    for k := 0 to |files|
      invariant trace + RunPlan(FilesPlan(files[k..], payload), ok) == RunPlan(FilesPlan(files, payload), ok)
      invariant AllSucceed(FilesPlan(files[k..], payload), ok) == AllSucceed(FilesPlan(files, payload), ok)
    {
      var open := OpenForWrite(files[k]);
      var write := WriteAll(files[k], payload);
      var rest := FilesPlan(files[k + 1..], payload);
      FilesPlanAt(files, k, payload);
      RunPlanPair(open, write, rest, ok);
      PairStep(trace, open, write, ok(open), ok(write), RunPlan(rest, ok),
               RunPlan(FilesPlan(files[k..], payload), ok), RunPlan(FilesPlan(files, payload), ok));
      FilesSucceedAt(files, k, payload, ok);
      trace := trace + [Call(open, ok(open))];
      if !ok(open) {
        r := Err(open);
        return;
      }
      trace := trace + [Call(write, ok(write))];
      if !ok(write) {
        r := Err(write);
        return;
      }
    }
    assert files[|files|..] == [];
    r := Ok(());
  }

  /** `write_memlimits`: the limit's payload into the memory file, then into the memory+swap file. */
  method WriteMemlimits(mem: U64, ok: Outcomes) returns (r: Result<(), Action>, trace: seq<Event>)
    ensures trace == RunPlan(LimitsPlan(mem), ok)
    ensures r.Ok? <==> AllSucceed(LimitsPlan(mem), ok)
    ensures r.Err? ==> |trace| > 0 && trace[|trace| - 1] == Call(r.error, false)
  {
    r, trace := WriteFiles(LIMIT_FILES, Payload(mem), ok);
  }

  /** Whether an event is a call on the control file `file`. */
  predicate Touches(e: Event, file: string) {
    e.Call? && (e.action.OpenForWrite? || e.action.WriteAll?) && e.action.file == file
  }

  /**
   * The memory+swap file is written only after the memory file was opened and
   * written successfully; the same payload goes to both.
   */
  lemma MemswOnlyAfterLimit(mem: U64, ok: Outcomes)
    ensures var t := RunPlan(LimitsPlan(mem), ok);
      forall i :: 0 <= i < |t| && Touches(t[i], MEMSW_FILE) ==>
        i >= 2 && t[0] == Call(OpenForWrite(LIMIT_FILE), true)
               && t[1] == Call(WriteAll(LIMIT_FILE, Payload(mem)), true)
  {
    var plan := LimitsPlan(mem);
    RunPlanStopsAtFirstFailure(plan, ok);
    var t := RunPlan(plan, ok);
    var n := FirstFailure(plan, ok);
    forall i | 0 <= i < |t| && Touches(t[i], MEMSW_FILE)
      ensures i >= 2 && t[0] == Call(OpenForWrite(LIMIT_FILE), true)
                     && t[1] == Call(WriteAll(LIMIT_FILE, Payload(mem)), true)
    {
      assert LIMIT_FILE != MEMSW_FILE;
      assert i >= 2;
    }
  }

  /** `format!("{}\n", getpid())`: what `enter_cgroup` writes into cgroup.procs. */
  function EnterPlan(pid: nat): seq<Action> {
    WritePlan(PROCS_FILE, Payload(pid))
  }

  /**
   * The events of the attempt-th try of the drop loop: a sleep before every
   * try but the first, the removal, and an info line when it worked or a
   * warning "try attempt + 1 of RETRIES" when it did not.
   */
  function Round(ok: Outcomes, attempt: nat): seq<Event>
    requires attempt < RETRIES
  {
    var removed := ok(RemoveDir(attempt));
    (if attempt > 0 then [Slept] else [])
    + [Call(RemoveDir(attempt), removed)]
    + [if removed then LogRemoved else LogRemoveFailed(attempt + 1, RETRIES)]
  }

  /** The events of the drop loop from the attempt-th try on. */
  function TeardownFrom(ok: Outcomes, attempt: nat): seq<Event>
    requires attempt <= RETRIES
    decreases RETRIES - attempt
  {
    if attempt == RETRIES then []
    else Round(ok, attempt) + if ok(RemoveDir(attempt)) then [] else TeardownFrom(ok, attempt + 1)
  }

  function TeardownTrace(ok: Outcomes): seq<Event> {
    TeardownFrom(ok, 0)
  }

  /** One try of the drop loop, in the order the loop appends its events to the trace so far. */
  lemma DropStep(trace: seq<Event>, ok: Outcomes, i: nat, full: seq<Event>)
    requires i < RETRIES
    requires trace + TeardownFrom(ok, i) == full
    ensures var removed := ok(RemoveDir(i));
      var tried := (if i > 0 then trace + [Slept] else trace) + [Call(RemoveDir(i), removed)];
      && (removed ==> tried + [LogRemoved] == full)
      && (!removed ==> tried + [LogRemoveFailed(i + 1, RETRIES)] + TeardownFrom(ok, i + 1) == full)
  {
    var removed := ok(RemoveDir(i));
    var sleep: seq<Event> := if i > 0 then [Slept] else [];
    var log := if removed then LogRemoved else LogRemoveFailed(i + 1, RETRIES);
    var rest := if removed then [] else TeardownFrom(ok, i + 1);
    assert TeardownFrom(ok, i) == Round(ok, i) + rest;
    assert Round(ok, i) == sleep + [Call(RemoveDir(i), removed)] + [log];
    AppendRound(trace, sleep, Call(RemoveDir(i), removed), log, rest, full);
    assert trace + sleep == if i > 0 then trace + [Slept] else trace;
    if removed {
      assert (trace + sleep) + [Call(RemoveDir(i), removed)] + [log] + rest
          == (trace + sleep) + [Call(RemoveDir(i), removed)] + [log];
    }
  }

  /**
   * `TempMemCgroup::drop`: up to RETRIES removal attempts, one second apart,
   * stopping at the first that succeeds; it reports nothing to its caller.
   */
  method Drop(ok: Outcomes) returns (trace: seq<Event>)
    ensures trace == TeardownTrace(ok)
  {
    trace := [];
    for i := 0 to RETRIES
      invariant trace + TeardownFrom(ok, i) == TeardownTrace(ok)
    {
      DropStep(trace, ok, i, TeardownTrace(ok));
      if i > 0 {
        trace := trace + [Slept];
      }
      var removed := ok(RemoveDir(i));
      trace := trace + [Call(RemoveDir(i), removed)];
      if removed {
        trace := trace + [LogRemoved];
        return;
      }
      trace := trace + [LogRemoveFailed(i + 1, RETRIES)];
    }
  }

  /** The first attempt from `attempt` on whose removal succeeds, or RETRIES. */
  function FirstRemoval(ok: Outcomes, attempt: nat): (n: nat)
    requires attempt <= RETRIES
    ensures attempt <= n <= RETRIES
    ensures forall j :: attempt <= j < n ==> !ok(RemoveDir(j))
    ensures n < RETRIES ==> ok(RemoveDir(n))
    decreases RETRIES - attempt
  {
    if attempt == RETRIES || ok(RemoveDir(attempt)) then attempt
    else FirstRemoval(ok, attempt + 1)
  }

  predicate IsRemoval(e: Event) {
    e.Call? && e.action.RemoveDir?
  }

  predicate IsSleep(e: Event) {
    e.Slept?
  }

  predicate IsRemovedLog(e: Event) {
    e.LogRemoved?
  }

  /** The warnings of a trace, as (try, of) pairs. */
  function Warnings(t: seq<Event>): seq<(nat, nat)> {
    if t == [] then []
    else (if t[0].LogRemoveFailed? then [(t[0].attempt, t[0].of)] else []) + Warnings(t[1..])
  }

  lemma {:induction false} WarningsAppend(a: seq<Event>, b: seq<Event>)
    ensures Warnings(a + b) == Warnings(a) + Warnings(b)
  {
    if a == [] {
      assert a + b == b;
    } else {
      var head := if a[0].LogRemoveFailed? then [(a[0].attempt, a[0].of)] else [];
      assert (a + b)[0] == a[0];
      assert (a + b)[1..] == a[1..] + b;
      WarningsAppend(a[1..], b);
      calc {
        Warnings(a + b);
        head + Warnings(a[1..] + b);
        head + (Warnings(a[1..]) + Warnings(b));
        (head + Warnings(a[1..])) + Warnings(b);
      }
    }
  }

  /** The number of removal attempts the drop loop makes from the attempt-th try on. */
  function AttemptsFrom(ok: Outcomes, attempt: nat): nat
    requires attempt <= RETRIES
  {
    var n := FirstRemoval(ok, attempt);
    (if n < RETRIES then n + 1 else n) - attempt
  }

  /** What one try contributes: one removal, a sleep unless it is the first, and one log line. */
  lemma RoundCounts(ok: Outcomes, attempt: nat)
    requires attempt < RETRIES
    ensures var r, removed := Round(ok, attempt), ok(RemoveDir(attempt));
      && Count(r, IsRemoval) == 1
      && Count(r, IsSleep) == (if attempt > 0 then 1 else 0)
      && Count(r, IsRemovedLog) == (if removed then 1 else 0)
      && Warnings(r) == if removed then [] else [(attempt + 1, RETRIES)]
  {
    var removed := ok(RemoveDir(attempt));
    var sleep := if attempt > 0 then [Slept] else [];
    var call := [Call(RemoveDir(attempt), removed)];
    var log := [if removed then LogRemoved else LogRemoveFailed(attempt + 1, RETRIES)];
    CountAppend(sleep + call, log, IsRemoval);
    CountAppend(sleep, call, IsRemoval);
    CountAppend(sleep + call, log, IsSleep);
    CountAppend(sleep, call, IsSleep);
    CountAppend(sleep + call, log, IsRemovedLog);
    CountAppend(sleep, call, IsRemovedLog);
    WarningsAppend(sleep + call, log);
    WarningsAppend(sleep, call);
  }

  lemma {:induction false} RemovalsFrom(ok: Outcomes, attempt: nat)
    requires attempt <= RETRIES
    ensures Count(TeardownFrom(ok, attempt), IsRemoval) == AttemptsFrom(ok, attempt)
    decreases RETRIES - attempt
  {
    if attempt < RETRIES {
      var removed := ok(RemoveDir(attempt));
      var rest := if removed then [] else TeardownFrom(ok, attempt + 1);
      RoundCounts(ok, attempt);
      if !removed {
        RemovalsFrom(ok, attempt + 1);
      }
      CountAppend(Round(ok, attempt), rest, IsRemoval);
    }
  }

  lemma {:induction false} SleepsFrom(ok: Outcomes, attempt: nat)
    requires attempt <= RETRIES
    ensures Count(TeardownFrom(ok, attempt), IsSleep)
         == if attempt > 0 then AttemptsFrom(ok, attempt) else AttemptsFrom(ok, attempt) - 1
    decreases RETRIES - attempt
  {
    if attempt < RETRIES {
      var removed := ok(RemoveDir(attempt));
      var rest := if removed then [] else TeardownFrom(ok, attempt + 1);
      RoundCounts(ok, attempt);
      if !removed {
        SleepsFrom(ok, attempt + 1);
      }
      CountAppend(Round(ok, attempt), rest, IsSleep);
    }
  }

  lemma {:induction false} RemovedLogsFrom(ok: Outcomes, attempt: nat)
    requires attempt <= RETRIES
    ensures Count(TeardownFrom(ok, attempt), IsRemovedLog)
         == if FirstRemoval(ok, attempt) < RETRIES then 1 else 0
    decreases RETRIES - attempt
  {
    if attempt < RETRIES {
      var removed := ok(RemoveDir(attempt));
      var rest := if removed then [] else TeardownFrom(ok, attempt + 1);
      RoundCounts(ok, attempt);
      if !removed {
        RemovedLogsFrom(ok, attempt + 1);
      }
      CountAppend(Round(ok, attempt), rest, IsRemovedLog);
    }
  }

  /** The warnings (attempt + 1, RETRIES), (attempt + 2, RETRIES), ... of `count` failed tries. */
  function Numbered(attempt: nat, count: nat): (w: seq<(nat, nat)>)
    ensures |w| == count
    ensures forall k :: 0 <= k < count ==> w[k] == (attempt + k + 1, RETRIES)
    decreases count
  {
    if count == 0 then [] else [(attempt + 1, RETRIES)] + Numbered(attempt + 1, count - 1)
  }

  /** One failed try followed by the warnings of the later tries numbers them on from that try. */
  lemma WarningsStep(r: seq<Event>, rest: seq<Event>, attempt: nat, n: nat)
    requires attempt < n
    requires Warnings(r) == [(attempt + 1, RETRIES)]
    requires Warnings(rest) == Numbered(attempt + 1, n - (attempt + 1))
    ensures Warnings(r + rest) == Numbered(attempt, n - attempt)
  {
    WarningsAppend(r, rest);
  }

  lemma {:induction false} WarningsFrom(ok: Outcomes, attempt: nat)
    requires attempt <= RETRIES
    ensures Warnings(TeardownFrom(ok, attempt)) == Numbered(attempt, FirstRemoval(ok, attempt) - attempt)
    decreases RETRIES - attempt
  {
    if attempt < RETRIES {
      var removed := ok(RemoveDir(attempt));
      RoundCounts(ok, attempt);
      var rest := if removed then [] else TeardownFrom(ok, attempt + 1);
      if removed {
        WarningsAppend(Round(ok, attempt), rest);
      } else {
        WarningsFrom(ok, attempt + 1);
        WarningsStep(Round(ok, attempt), rest, attempt, FirstRemoval(ok, attempt));
      }
    }
  }

  /**
   * The drop loop makes between 1 and RETRIES removal attempts and stops at
   * the first that succeeds; it sleeps before every attempt but the first;
   * it logs one info exactly when an attempt succeeded, and one warning per
   * failed attempt, numbered 1, 2, ... out of RETRIES.
   */
  lemma TeardownCounts(ok: Outcomes)
    ensures var t, n := TeardownTrace(ok), FirstRemoval(ok, 0);
      && Count(t, IsRemoval) == (if n < RETRIES then n + 1 else RETRIES)
      && 1 <= Count(t, IsRemoval) <= RETRIES
      && Count(t, IsSleep) == Count(t, IsRemoval) - 1
      && Count(t, IsRemovedLog) == (if n < RETRIES then 1 else 0)
      && Warnings(t) == Numbered(0, n)
  {
    RemovalsFrom(ok, 0);
    SleepsFrom(ok, 0);
    RemovedLogsFrom(ok, 0);
    WarningsFrom(ok, 0);
  }

  /**
   * When the first four removals fail and the fifth succeeds, the drop loop
   * makes five attempts with four sleeps between them, logs the warnings
   * "try 1/5" to "try 4/5" and then one info.
   */
  lemma FifthRemovalSucceeds(ok: Outcomes)
    requires forall j :: 0 <= j < 4 ==> !ok(RemoveDir(j))
    requires ok(RemoveDir(4))
    ensures var t := TeardownTrace(ok);
      && Count(t, IsRemoval) == 5 && Count(t, IsSleep) == 4 && Count(t, IsRemovedLog) == 1
      && Warnings(t) == [(1, 5), (2, 5), (3, 5), (4, 5)]
  {
    FirstRemovalIsFifth(ok);
    FourWarnings();
    TeardownCounts(ok);
  }

  lemma FirstRemovalIsFifth(ok: Outcomes)
    requires forall j :: 0 <= j < 4 ==> !ok(RemoveDir(j))
    requires ok(RemoveDir(4))
    ensures FirstRemoval(ok, 0) == 4
  {
  }

  lemma FourWarnings()
    ensures Numbered(0, 4) == [(1, 5), (2, 5), (3, 5), (4, 5)]
  {
    var w := Numbered(0, 4);
    assert w[0] == (1, 5) && w[1] == (2, 5) && w[2] == (3, 5) && w[3] == (4, 5);
  }

  /** Every removal call of the drop loop from the attempt-th try on is a try between that one and the first success. */
  lemma {:induction false} TeardownFromOnlyLater(ok: Outcomes, attempt: nat)
    requires attempt <= RETRIES
    ensures forall e :: e in TeardownFrom(ok, attempt) && IsRemoval(e) ==>
      attempt <= e.action.attempt <= FirstRemoval(ok, attempt)
    decreases RETRIES - attempt
  {
    if attempt < RETRIES {
      forall e | e in Round(ok, attempt) && IsRemoval(e) ensures e.action.attempt == attempt {
      }
      if !ok(RemoveDir(attempt)) {
        TeardownFromOnlyLater(ok, attempt + 1);
      }
    }
  }

  /** The drop loop makes no remove_dir try after one succeeds, and none beyond the fifth. */
  lemma StopsAtFirstRemoval(ok: Outcomes)
    ensures forall e :: e in TeardownTrace(ok) && IsRemoval(e) ==>
      e.action.attempt <= FirstRemoval(ok, 0) && e.action.attempt < RETRIES
  {
    TeardownFromOnlyLater(ok, 0);
    TeardownFromBelowRetries(ok, 0);
  }

  lemma {:induction false} TeardownFromBelowRetries(ok: Outcomes, attempt: nat)
    requires attempt <= RETRIES
    ensures forall e :: e in TeardownFrom(ok, attempt) && e.Call? ==> e.action.RemoveDir? && e.action.attempt < RETRIES
    decreases RETRIES - attempt
  {
    if attempt < RETRIES && !ok(RemoveDir(attempt)) {
      TeardownFromBelowRetries(ok, attempt + 1);
    }
  }

  /**
   * Dropping a `TempMemCgroup`: first its own `drop`, the retry loop; then
   * Rust drops its `TempDir` field, whose destructor calls `remove_dir_all`
   * on the same directory once more and ignores the result.
   */
  function DisposeTrace(ok: Outcomes): seq<Event> {
    TeardownTrace(ok) + [Call(RemoveAll, ok(RemoveAll))]
  }

  /** The end of the scope of a `TempMemCgroup`: `drop`, then the drop of its field. */
  method Dispose(ok: Outcomes) returns (trace: seq<Event>)
    ensures trace == DisposeTrace(ok)
  {
    trace := Drop(ok);
    trace := trace + [Call(RemoveAll, ok(RemoveAll))];
  }

  /**
   * Disposal is the retry loop followed by exactly one `remove_dir_all`, the
   * last event; every call of the loop itself is one of its remove_dir tries.
   */
  lemma DisposeEndsWithRemoveAll(ok: Outcomes)
    ensures var t := DisposeTrace(ok);
      && |t| >= 2 && t[..|t| - 1] == TeardownTrace(ok) && t[|t| - 1] == Call(RemoveAll, ok(RemoveAll))
      && forall i :: 0 <= i < |t| - 1 && t[i].Call? ==> t[i].action.RemoveDir? && t[i].action.attempt < RETRIES
  {
    var t := DisposeTrace(ok);
    TeardownFromBelowRetries(ok, 0);
    assert t[..|t| - 1] == TeardownTrace(ok);
    forall i | 0 <= i < |t| - 1 && t[i].Call?
      ensures t[i].action.RemoveDir? && t[i].action.attempt < RETRIES
    {
      assert t[i] in TeardownTrace(ok);
    }
  }
}
