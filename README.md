# firefox-memlimit in Dafny

firefox-memlimit is a small Linux launcher. It creates a temporary memory cgroup, writes
a byte limit into it, forks, moves the child into the cgroup, drops the
child's effective uid and execs `firefox`. The parent waits for the child, removes the cgroup
with a bounded retry loop (after which the cgroup's `TempDir` tries once more to remove it),
and exits with the child's exit code.

This project models that launcher's core in Dafny and proves properties of the model:

- `Decimal` (decimal.dfy): `u64::from_str` as the digit loop of Rust's standard
  library, and the `{}` formatting of integers.
- `MemParser` (mem_parser.dfy): `parse_mem`, which turns a size token such as `2G`
  into a byte count.
- `Os` (os.dfy): fallible system calls as abstract actions. Their outcomes are an input
  `Action -> bool`. A chain of `?` operators becomes `RunPlan`, which stops at the
  first failure, and what each process does becomes a trace of events.
- `Cgroup` (cgroup.dfy): the payload and order of `write_memlimits`, the payload of
  `enter_cgroup`, the retry loop of `Drop for TempMemCgroup`, and the `remove_dir_all`
  of its `TempDir` field, which Rust drops right after.
- `Supervisor` (supervisor.dfy): the `waitpid` loop of `actual_main` and the
  `128 | signal` exit code.
- `Launcher` (launcher.dfy): the child branch after `fork` and the child's argv;
  `actual_main` as a method proved against the function `Launch`; `main` as a
  method proved against the function `MainRun`.
- `Wrappers` (wrappers.dfy): `Option` and `Result`.

The loops of the source are methods with loop invariants: `Cgroup.WriteFiles`,
`Cgroup.Drop` and `Supervisor.WaitForChild`. Each is proved equal to a function of
its inputs, and the lemmas state what the source promises about those functions.

## Model

| member | source | states |
|---|---|---|
| Decimal.Format | src/main.rs:96 | the `{}` text of a number is a non-empty string of decimal digits |
| Decimal.ValueOfFormat | src/main.rs:96 | the digits `{}` prints denote the number printed |
| Decimal.ScanAfter | src/main.rs:63 | the digit loop of `u64::from_str`, resumed after an accepted prefix, succeeds exactly when the rest is all digits and the whole number fits in u64, and then returns that number |
| Decimal.ScanErrors | src/main.rs:63 | the digit loop never reports Empty, and on an all-digit string it can only fail with PosOverflow |
| Decimal.ParseU64Accepts | src/main.rs:63 | `parse::<u64>` accepts exactly an optional `+` followed by one or more digits that denote at most 2^64 - 1, and returns their value |
| Decimal.ParseU64Errors | src/main.rs:63 | the parse is Err(Empty) exactly for the empty string, and a well-formed number that is too large is Err(PosOverflow) |
| Decimal.ParseFormat | src/main.rs:96 | parsing the `{}` text of any u64 gives that u64 back |
| MemParser.SuffixShift | src/main.rs:52-58 | the shift that a final character selects is one of 0, 10, 20, 30 and 40 |
| MemParser.ShiftOfSuffix | src/main.rs:52-58 | a final character selects a non-zero shift exactly when it is an upper-case K, M, G or T |
| MemParser.SuffixMultipliers | src/main.rs:53-56 | the shifts of K, M, G and T multiply by 1024, 1048576, 1073741824 and 1099511627776 |
| MemParser.Pow2Is64Bit | src/main.rs:64 | u64 arithmetic is modulo 2^64 |
| MemParser.ParseMemAccepts | src/main.rs:51-66 | `parse_mem` succeeds exactly when the part before a stripped suffix parses as a u64, and then returns that number times 2^shift modulo 2^64; otherwise it returns the integer parser's own error |
| MemParser.ParseMemSuffix | src/main.rs:52-64 | digits N followed by no suffix, K, M, G or T give N shifted left by 0, 10, 20, 30 or 40 bits, high bits discarded |
| MemParser.ShiftKeepsLowBits | src/main.rs:64 | `x << shift` never fails; it keeps the low 64 - shift bits of x and moves them up by shift |
| MemParser.OtherFinalCharFails | src/main.rs:52-65 | a final character that is neither a digit nor an upper-case suffix is not stripped and makes the parse fail (for example "2g") |
| MemParser.SuffixNeedsDigits | src/main.rs:52-65 | only one suffix letter is stripped, so a non-digit other than a leading '+' anywhere before it makes the parse fail (for example "2GK", "x1G") |
| MemParser.BareSuffixIsEmpty | src/main.rs:52-63 | a lone suffix letter such as "K" leaves nothing to parse and gives Err(Empty) |
| MemParser.SignedBareSuffixFails | src/main.rs:52-63 | a '+' followed by a suffix letter, such as "+K", leaves a lone "+" and gives Err(InvalidDigit) |
| MemParser.EmptyTokenFails | src/main.rs:52 | the empty token is rejected with Err(Empty), not read as 0 |
| MemParser.ParseFormatted | src/main.rs:51-66 | the decimal text of n followed by the k-th suffix parses to n * 2^(10k) modulo 2^64 |
| MemParser.DefaultIsTwoGiB | src/main.rs:82-85 | the default token "2G" parses to 2147483648 |
| MemParser.MebibyteExample | src/main.rs:51-66 | "512M" parses to 536870912 |
| MemParser.PlainBytesExample | src/main.rs:51-66 | "100" parses to 100 |
| Os.RunPlanPair | src/main.rs:99-102 | a chain of two `?` calls followed by more records the first call, the second only if the first succeeded, the rest only if both did; and everything succeeds exactly when both calls and the rest do |
| Os.PairStep | src/main.rs:99-102 | one turn of a loop making an open and a write chained by `?`: a failed open ends it, a failed write ends it after the open, and otherwise the later calls follow |
| Os.FirstFailure | src/main.rs:99-102 | the position of the first failing call: every call before it succeeds, and the call at it fails |
| Os.RunPlanStopsAtFirstFailure | src/main.rs:99-102 | a chain of `?` calls makes exactly the calls up to and including the first failure, in order, and none after it; everything succeeds exactly when there is no failure |
| Cgroup.PayloadRoundTrip | src/main.rs:96 | the payload is the decimal text of the limit followed by a newline, and that text parses back to the limit |
| Cgroup.FilesPlanSucceeds | src/main.rs:97-103 | writing a payload into several files succeeds exactly when every file can be opened and written |
| Cgroup.FilesSucceedAt | src/main.rs:97-103 | the writes from the k-th file on all succeed exactly when that file's open and write and all later writes succeed |
| Cgroup.WriteFiles | src/main.rs:97-104 | the loop opens and writes each file in turn and stops at the first failed call; the result is Ok exactly when every call succeeded, and an error names the last call made |
| Cgroup.WriteMemlimits | src/main.rs:95-105 | `write_memlimits` writes the same payload into memory.limit_in_bytes and then memory.memsw.limit_in_bytes, stopping at the first failure and returning it |
| Cgroup.MemswOnlyAfterLimit | src/main.rs:97-104 | memory.memsw.limit_in_bytes is touched only after memory.limit_in_bytes was opened and written successfully with the same payload |
| Cgroup.DropStep | src/main.rs:33-46 | one try of the drop loop: sleep unless it is the first try, one removal, then an info line and the end, or a warning and the next try |
| Cgroup.Drop | src/main.rs:31-48 | the drop loop produces exactly the teardown trace; it returns nothing, so no error reaches its caller |
| Cgroup.FirstRemoval | src/main.rs:33-47 | the first try whose removal succeeds: every earlier try failed |
| Cgroup.RoundCounts | src/main.rs:34-45 | each try makes one removal, sleeps unless it is the first, and logs one info if the removal worked or else one warning numbered try + 1 of 5 |
| Cgroup.RemovalsFrom | src/main.rs:33-40 | the loop makes one removal per try, up to and including the first success |
| Cgroup.SleepsFrom | src/main.rs:34-36 | the loop sleeps before every try except the first |
| Cgroup.RemovedLogsFrom | src/main.rs:37-40 | the info line is logged once if some removal succeeded and never otherwise |
| Cgroup.Numbered | src/main.rs:43-44 | the warnings of consecutive failed tries are numbered one after another, each out of 5 |
| Cgroup.WarningsFrom | src/main.rs:42-44 | the loop logs one warning per failed try, numbered 1, 2, ... out of 5 |
| Cgroup.TeardownCounts | src/main.rs:31-48 | the drop loop makes between 1 and 5 removal attempts and stops at the first success; sleeps = attempts - 1; one info exactly when a removal worked; the warnings are numbered 1 to n out of 5 for the n failed tries |
| Cgroup.FifthRemovalSucceeds | src/main.rs:31-48 | if the first four removals fail and the fifth works: 5 attempts, 4 sleeps, warnings 1/5 to 4/5, then one info |
| Cgroup.TeardownFromOnlyLater | src/main.rs:33-40 | each removal in the loop is a try no later than the first success |
| Cgroup.TeardownFromBelowRetries | src/main.rs:32-37 | every call the drop loop makes is a `remove_dir` of one of the 5 tries |
| Cgroup.StopsAtFirstRemoval | src/main.rs:33-40 | the drop loop makes no `remove_dir` try after one succeeds, and every try is one of the 5 |
| Cgroup.Dispose | src/main.rs:13-48 | dropping a `TempMemCgroup` is exactly the drop loop's trace followed by one `remove_dir_all` call from its `TempDir` field, whatever the loop did |
| Cgroup.DisposeEndsWithRemoveAll | src/main.rs:13-48 | the disposal ends with the `TempDir`'s `remove_dir_all`; every call before it is a `remove_dir` of one of the 5 tries |
| Supervisor.SignalExitCodeIsOffset | src/main.rs:176 | `128 \| signal` equals 128 + signal, between 129 and 159 |
| Supervisor.WaitStep | src/main.rs:167-179 | one turn of the wait loop: a terminal status ends it with its verdict, and any other status is skipped |
| Supervisor.WaitForChild | src/main.rs:167-180 | the wait loop consumes `waitpid` results up to and including the first terminal one and returns that result's verdict |
| Supervisor.SuperviseFirstTerminal | src/main.rs:167-180 | the first terminal status decides the outcome: an exit code c gives c, a signal s gives 128 \| s, and a failed call gives a wait error; the statuses before it are skipped |
| Supervisor.SuperviseNoTerminal | src/main.rs:167-180 | with no terminal status the loop keeps waiting |
| Supervisor.ExitCodeExamples | src/main.rs:172-177 | a child exiting with 7 gives 7, and a child killed by signal 9 gives 137 |
| Launcher.ChildArgv | src/main.rs:143-147 | the exec argv is "firefox" followed by the caller's arguments verbatim, so it has length \|args\| + 1 |
| Launcher.RunChild | src/main.rs:130-154 | the child writes its pid into cgroup.procs, drops its effective uid and execs; any failed step exits with 1 and skips the later steps; success means it is replaced by firefox with that argv |
| Launcher.ExecOnlyAfterPrivilegeDrop | src/main.rs:131-148 | an exec happens only as the fourth event, after the pid was written into cgroup.procs and seteuid succeeded |
| Launcher.ChildStopsAtFailure | src/main.rs:131-153 | a failed step is followed only by exit(1); when no step fails, the last event is the exec |
| Launcher.ChildNeverTearsDown | src/main.rs:130-154 | the forked child never removes the cgroup (neither `remove_dir` nor `remove_dir_all`) and never sleeps |
| Launcher.ActualMain | src/main.rs:115-181 | `actual_main`: create, write the limits, fork, block signals, wait; the cgroup is dropped on every return after it was created |
| Launcher.TeardownOnEveryReturn | src/main.rs:115-181 | once the cgroup exists, every return of `actual_main` ends with the full disposal of the cgroup (the drop loop, then the `TempDir`'s `remove_dir_all`) after everything else the parent did; a failed creation does nothing else |
| Launcher.ParentOrder | src/main.rs:116-159 | the parent creates, then writes the limits until the first failure, and forks only if every write succeeded; a child exists only after a successful fork |
| Launcher.AfterLimitsStart | src/main.rs:122-129 | after the limit writes, the parent forks exactly when every write succeeded and otherwise starts the teardown; a child exists only after a successful fork |
| Launcher.AfterLimitsEndsWithTeardown | src/main.rs:122-181 | every return after the limit writes ends with the whole disposal of the cgroup; only a parent still waiting has not torn down |
| Launcher.TeardownStartsWithRemoval | src/main.rs:33-37 | disposing of the cgroup begins with the first `remove_dir` try |
| Launcher.LaunchWritesLimitFirst | src/main.rs:116-124 | right after creating the cgroup, the parent opens memory.limit_in_bytes and writes the limit's payload into it |
| Launcher.LaunchIgnoresRemovals | src/main.rs:13-48 | the outcome of `actual_main` does not depend on whether the `remove_dir` tries or the `TempDir`'s `remove_dir_all` work |
| Launcher.LauncherMain | src/main.rs:183-206 | `main`: parse the size (default "2G"), run `actual_main`, and exit with its code, or with 1 on its error |
| Launcher.MainExtendsLaunch | src/main.rs:196-204 | when the size parses, `main` does everything `actual_main` did before it exits |
| Launcher.ExitCodes | src/main.rs:188-204 | exit 2 for a size that does not parse, with nothing else done; 1 for a failed creation, limit write, fork or wait; otherwise the code of the child's first terminal status |
| Launcher.DefaultLimit | src/main.rs:82-85 | without `-m`, the first write into memory.limit_in_bytes is the payload of 2147483648 |
| Launcher.TeardownNeverFails | src/main.rs:13-48 | whether the `remove_dir` tries or the `TempDir`'s `remove_dir_all` work never changes the exit code |

## Left out

- The real `fork`, `execvp`, `seteuid`, `getuid`, `getpid`, `waitpid` and `sigprocmask` calls. Each fallible call is an action whose success comes from the environment. `waitpid` results are an input sequence, and the pid is an input number.
- The cgroup's directory name. `tempfile` picks a unique name at random, so the model has one abstract cgroup and names its control files only.
- The file system and the kernel: what is written into a control file has no effect in the model. EBUSY on removal and the kernel's checks on limit values are just failed outcomes.
- How `remove_dir_all` walks the cgroup directory: the `TempDir`'s removal is one action whose outcome comes from the environment, and Rust's `Drop for TempDir` ignores it.
- The one-second duration of `sleep`: the model records a sleep event, not a time.
- clap parsing and help text. `LauncherMain` receives the `-m` value, if any, and the trailing arguments already split.
- env_logger setup and every log line except the drop loop's info and warnings. The text of error messages is also left out.
- The panic of `CString::new(..).unwrap()` on an argument containing NUL. The child's operations require that no argument contains NUL (`NoNul`).
- Signal-mask semantics and concurrency between parent and child. The child affects the parent only through the `waitpid` results. Blocking signals is a call whose failure is only logged.
- Real-time signals are covered, not left out: `nix` converts a raw wait status's signal into its `Signal` enum (1 to 31 on Linux), and that conversion fails for a signal numbered 32 or above, so `waitpid` returns an error. The model's `WaitFailed` is that case: `actual_main` fails and `main` exits 1, not 128 + N.
- A parent blocked forever in `waitpid`: when the input statuses run out with no terminal one, the outcome is Waiting, and the teardown has not happened yet.
- MemParser.ParseMem: for the empty token, the model follows a release build, where `mem.len() - 1` wraps around, `get` returns None and the integer parser reports Empty. A debug build panics on the subtraction instead.
- Decimal.ParseU64: a lone "+" is InvalidDigit, as in current Rust; older Rust versions reported Empty for it.
- Truncating the exit code to 8 bits is not modelled. Every code the model produces is already between 0 and 255.
