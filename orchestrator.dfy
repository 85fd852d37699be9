// `DataCleanerStatus` and the step bookkeeping of `FreeAugmentCodeCleaner`
// (data_cleaner.py): how the status counts steps and keeps its log, what
// discovery gathers and totals, and how cleanup counts its steps, ANDs the
// results of its sub-operations and reports an exception.  The sub-operations
// themselves (telemetry, databases, workspaces, account data) are modelled in
// their own modules; here their results come in as values.
module Cleaner {
  import opened Common
  import opened Utils

  /** A line of `detailed_log`, without its `%H:%M:%S` time prefix; `Failure` is an `ERROR:` line. */
  datatype LogEntry = Info(text: string) | Failure(text: string)

  /** The fields of `DataCleanerStatus`; `progress` is exact where Python uses a float. */
  datatype Status = Status(operation: string, progress: real, totalSteps: int, completedSteps: int,
                           isRunning: bool, success: bool, errorMessage: string, log: seq<LogEntry>)

  const Initial: Status := Status("", 0.0, 0, 0, false, true, "", [])

  /** `DataCleanerStatus.update`. */
  function Updated(s: Status, operation: string, progress: Option<real>, stepCompleted: bool): Status
  {
    var s1 := s.(operation := operation, progress := if progress.Some? then progress.value else s.progress);
    var s2 :=
      if stepCompleted then
        var c := s1.completedSteps + 1;
        s1.(completedSteps := c, progress := if s1.totalSteps > 0 then c as real / s1.totalSteps as real else s1.progress)
      else s1;
    s2.(log := s.log + [Info(operation)])
  }

  /** `DataCleanerStatus.set_error`. */
  function WithError(s: Status, message: string): Status
  {
    s.(success := false, errorMessage := message, log := s.log + [Failure(message)])
  }

  /**
   * `update` appends exactly one log line and changes nothing but the
   * operation, the progress and the step counter; a completed step counts
   * one more and, when a total is known, sets the progress to the ratio.
   */
  lemma UpdateSpec(s: Status, operation: string, progress: Option<real>, stepCompleted: bool)
    ensures var t := Updated(s, operation, progress, stepCompleted);
      && t.log == s.log + [Info(operation)]
      && t.operation == operation
      && t.completedSteps == s.completedSteps + (if stepCompleted then 1 else 0)
      && (stepCompleted && s.totalSteps > 0 ==> t.progress * s.totalSteps as real == t.completedSteps as real)
      && (!stepCompleted || s.totalSteps <= 0 ==> t.progress == (if progress.Some? then progress.value else s.progress))
      && t.(operation := s.operation, progress := s.progress, completedSteps := s.completedSteps, log := s.log) == s
  {
  }

  /** `set_error` clears `success`, keeps the message and logs one `ERROR` line; nothing else changes. */
  lemma SetErrorSpec(s: Status, message: string)
    ensures var t := WithError(s, message);
      && !t.success && t.errorMessage == message && t.log == s.log + [Failure(message)]
      && t.(success := s.success, errorMessage := s.errorMessage, log := s.log) == s
  {
  }

  // ------------------------------------------------------------------ steps

  /** A step of discovery or cleanup: the messages before and after its work, and whether the work succeeded. */
  datatype Step = Step(start: string, finish: string, ok: bool)

  /** The two `update` calls around one step's work. */
  function OneStep(s: Status, step: Step): Status
  {
    Updated(Updated(s, step.start, None, false), step.finish, None, true)
  }

  function Run(s: Status, steps: seq<Step>): Status
  {
    if steps == [] then s else OneStep(Run(s, steps[..|steps| - 1]), steps[|steps| - 1])
  }

  lemma TakeAll(steps: seq<Step>)
    ensures steps[..|steps|] == steps
  {
  }

  lemma RunSnoc(s: Status, steps: seq<Step>, k: nat)
    requires k < |steps|
    ensures Run(s, steps[..k + 1]) == OneStep(Run(s, steps[..k]), steps[k])
  {
    TakeTake(steps, k + 1, k);
  }

  /**
   * A run of steps counts each of them, logs two lines for each, and leaves
   * the total, the success flag, the error and the running flag alone; after
   * at least one step the progress is the ratio of completed to total steps.
   */
  lemma {:induction false} RunSpec(s: Status, steps: seq<Step>)
    ensures var t := Run(s, steps);
      && t.completedSteps == s.completedSteps + |steps|
      && |t.log| == |s.log| + 2 * |steps|
      && t.totalSteps == s.totalSteps && t.success == s.success && t.errorMessage == s.errorMessage
      && t.isRunning == s.isRunning
      && (steps != [] && s.totalSteps > 0 ==> t.progress == t.completedSteps as real / s.totalSteps as real)
      && (steps == [] ==> t == s)
  {
    if steps != [] {
      RunSpec(s, steps[..|steps| - 1]);
    }
  }

  /** Starting from zero, a run of exactly `totalSteps` steps ends with the progress at one. */
  lemma RunToCompletion(s: Status, steps: seq<Step>)
    requires s.completedSteps == 0 && s.totalSteps == |steps| > 0
    ensures Run(s, steps).progress == 1.0 && Run(s, steps).completedSteps == Run(s, steps).totalSteps
  {
    RunSpec(s, steps);
  }

  /** An exception raised by the work of step `step` (counted from 0), with the text of the exception. */
  datatype Crash = Crash(step: nat, reason: string)

  predicate CrashesAt(crash: Option<Crash>, k: nat)
  {
    crash.Some? && crash.value.step == k
  }

  /** How many steps complete out of `total`: all of them, unless one raises. */
  function Reached(crash: Option<Crash>, total: nat): (k: nat)
    ensures k <= total
  {
    if crash.Some? && crash.value.step < total then crash.value.step else total
  }

  /** The status after `k` steps completed and step `k` raised: its start logged, then the error. */
  function Crashed(s: Status, steps: seq<Step>, k: nat, message: string): Status
    requires k < |steps|
  {
    WithError(Updated(Run(s, steps[..k]), steps[k].start, None, false), message)
  }

  // ------------------------------------------------------------------ discovery

  const DiscoverySteps: seq<Step> := [
    Step("Searching for AugmentCode directories...", "Found AugmentCode directories", true),
    Step("Discovering telemetry data...", "Telemetry data discovery complete", true),
    Step("Searching for database files...", "Database file search complete", true),
    Step("Discovering workspace locations...", "Workspace discovery complete", true),
    Step("Discovering account data...", "Account data discovery complete", true),
    Step("Scanning IDEs for AugmentCode installations...", "IDE scan complete", true),
    Step("Finalizing discovery results...", "Discovery complete", true)
  ]

  /** The status before the first discovery step: the opening line, seven steps to go, none done. */
  function DiscoveryStart(s0: Status): Status
  {
    Updated(s0, "Starting AugmentCode data discovery...", None, false).(totalSteps := 7, completedSteps := 0)
  }

  const DiscoveryError: string := "Error during discovery: "

  /** The status `discover_augmentcode_data` leaves. */
  function DiscoveryStatus(s0: Status, crash: Option<Crash>): Status
  {
    var k := Reached(crash, 7);
    if k < 7 then Crashed(DiscoveryStart(s0), DiscoverySteps, k, DiscoveryError + crash.value.reason)
    else Run(DiscoveryStart(s0), DiscoverySteps)
  }

  /**
   * A discovery without an exception completes all seven steps and ends at
   * full progress, with success as it was; one that raises in step `k` has
   * completed `k` steps, clears success and ends its log with the error.
   */
  lemma DiscoveryStatusSpec(s0: Status, crash: Option<Crash>)
    ensures var t := DiscoveryStatus(s0, crash);
      var k := Reached(crash, 7);
      && t.totalSteps == 7 && t.completedSteps == k
      && (k == 7 ==> t.progress == 1.0 && t.success == s0.success && |t.log| == |s0.log| + 15)
      && (k < 7 ==> !t.success && t.errorMessage == "Error during discovery: " + crash.value.reason &&
                    |t.log| == |s0.log| + 2 * k + 3 &&
                    t.log[|t.log| - 1] == Failure("Error during discovery: " + crash.value.reason))
  {
    var k := Reached(crash, 7);
    var s1 := DiscoveryStart(s0);
    if k < 7 {
      RunSpec(s1, DiscoverySteps[..k]);
    } else {
      RunSpec(s1, DiscoverySteps);
      RunToCompletion(s1, DiscoverySteps);
    }
  }

  /**
   * What the telemetry, workspace and account discoveries return for the
   * located directories, reduced to what the cleaner keeps: the number of
   * IDs found, the workspace names, and the numbers of e-mail addresses and
   * account files.
   */
  datatype SubDiscovery = SubDiscovery(foundIds: nat, workspaces: seq<string>, emails: nat, accountFiles: nat)

  /**
   * What discovery reads besides the custom paths: the application-data
   * roots, the file system as a map from path to its snapshot, and what the
   * other discoveries return.
   */
  datatype Environment = Environment(appData: seq<Path>, fs: map<Path, Node>, sub: SubDiscovery)

  /** What discovery keeps in the cleaner's fields. */
  datatype Found = Found(paths: seq<Path>, foundIds: nat, databaseFiles: seq<Path>, workspaces: seq<string>,
                         emails: nat, accountFiles: nat)

  /** What `discover_augmentcode_data` returns: what it found, and the total number of locations. */
  datatype Discovery = Discovery(found: Found, totalLocations: nat)

  /** What the file system holds at a path. */
  function NodeAt(fs: map<Path, Node>, p: Path): Option<Node>
  {
    if p in fs then Some(fs[p]) else None
  }

  function RootsAt(paths: seq<Path>, fs: map<Path, Node>): seq<Root>
  {
    seq(|paths|, i requires 0 <= i < |paths| => Root(paths[i], NodeAt(fs, paths[i])))
  }

  /** Step 1: the custom paths when any are given, else the product directories under the application-data roots. */
  function Located(custom: seq<Path>, appData: seq<Path>, fs: map<Path, Node>): seq<Path>
  {
    if custom != [] then custom else ProductDirs(RootsAt(appData, fs))
  }

  /** `find_database_files` on one directory of the file system. */
  function DatabaseFilesIn(dir: Path, fs: map<Path, Node>): seq<Path>
  {
    FilesWithSuffix(Below(dir, NodeAt(fs, dir)), DatabaseExtensions)
  }

  /** Step 3: the database files below the first `n` located directories, directory by directory. */
  function DatabaseFilesUnder(paths: seq<Path>, fs: map<Path, Node>, n: nat): seq<Path>
    requires n <= |paths|
  {
    if n == 0 then [] else DatabaseFilesUnder(paths, fs, n - 1) + DatabaseFilesIn(paths[n - 1], fs)
  }

  /** A file is found exactly when the search of one of the directories returns it. */
  lemma {:induction false} DatabaseFilesUnderSpec(paths: seq<Path>, fs: map<Path, Node>, n: nat, f: Path)
    requires n <= |paths|
    ensures f in DatabaseFilesUnder(paths, fs, n) <==> exists i :: 0 <= i < n && f in DatabaseFilesIn(paths[i], fs)
  {
    if n > 0 {
      DatabaseFilesUnderSpec(paths, fs, n - 1, f);
      var last := DatabaseFilesIn(paths[n - 1], fs);
      assert DatabaseFilesUnder(paths, fs, n) == DatabaseFilesUnder(paths, fs, n - 1) + last;
      if f in last {
        assert 0 <= n - 1 < n && f in DatabaseFilesIn(paths[n - 1], fs);
      }
      if exists i :: 0 <= i < n && f in DatabaseFilesIn(paths[i], fs) {
        var i :| 0 <= i < n && f in DatabaseFilesIn(paths[i], fs);
        if i < n - 1 {
          assert f in DatabaseFilesUnder(paths, fs, n - 1);
        } else {
          assert f in last;
        }
      }
    }
  }

  /** The results after `k` steps: a step not reached leaves its entry empty, and only the last step totals. */
  function DiscoveryOutcome(custom: seq<Path>, env: Environment, k: nat): Discovery
  {
    var paths := if k > 0 then Located(custom, env.appData, env.fs) else [];
    var db := if k > 2 then DatabaseFilesUnder(paths, env.fs, |paths|) else [];
    var sub := env.sub;
    var found := Found(paths, if k > 1 then sub.foundIds else 0, db, if k > 3 then sub.workspaces else [],
                       if k > 4 then sub.emails else 0, if k > 4 then sub.accountFiles else 0);
    Discovery(found, if k > 6 then Total(found) else 0)
  }

  /** Step 7: the number of locations found. */
  function Total(f: Found): nat
  {
    |f.paths| + |f.databaseFiles| + |f.workspaces| + f.foundIds + f.emails + f.accountFiles
  }

  /** The cleaner's fields after `k` steps: those of the steps reached from `after`, the rest from `before`. */
  function Merge(before: Found, after: Found, k: nat): Found
  {
    Found(if k > 0 then after.paths else before.paths, if k > 1 then after.foundIds else before.foundIds,
          if k > 2 then after.databaseFiles else before.databaseFiles,
          if k > 3 then after.workspaces else before.workspaces,
          if k > 4 then after.emails else before.emails, if k > 4 then after.accountFiles else before.accountFiles)
  }

  /**
   * The fields a discovery that completed `k` steps leaves: as `Merge` says,
   * except that one raising in the database step has already emptied the
   * database file list.
   */
  function Left(before: Found, after: Found, k: nat): (f: Found)
    ensures k != 2 ==> f == Merge(before, after, k)
    ensures k == 2 ==> f.databaseFiles == [] && f.paths == after.paths && f.workspaces == before.workspaces
  {
    var m := Merge(before, after, k);
    if k == 2 then m.(databaseFiles := []) else m
  }

  /**
   * The exception discovery meets: the one `crash` names, except that
   * without custom paths an application-data root that is a plain file makes
   * the first step raise `NotADirectoryError` (an exception `crash` already
   * names for that step comes first).
   */
  function DiscoveryCrash(custom: seq<Path>, env: Environment, crash: Option<Crash>): (c: Option<Crash>)
    ensures CrashesAt(c, 0) <==> CrashesAt(crash, 0) || (custom == [] && exists i :: FileRoot(RootsAt(env.appData, env.fs), i))
    ensures !CrashesAt(c, 0) ==> c == crash
  {
    SearchRootsSpec(RootsAt(env.appData, env.fs));
    if custom == [] && SearchRoots(RootsAt(env.appData, env.fs)).Err? && !CrashesAt(crash, 0)
    then Some(Crash(0, NotADirectory)) else crash
  }

  /**
   * A complete discovery totals its six counts, uses non-empty custom paths
   * verbatim, and searches each located directory for database files; one
   * that raises reports no total and leaves the fields of the steps it did
   * not reach as they were.
   */
  lemma DiscoveryOutcomeSpec(custom: seq<Path>, env: Environment, k: nat, before: Found)
    ensures var d := DiscoveryOutcome(custom, env, k);
      var r := d.found;
      && (k >= 7 ==> d.totalLocations ==
                     |r.paths| + |r.databaseFiles| + |r.workspaces| + r.foundIds + r.emails + r.accountFiles)
      && (k < 7 ==> d.totalLocations == 0)
      && (k > 0 && custom != [] ==> r.paths == custom)
      && (k > 2 ==> forall f :: f in r.databaseFiles <==>
            exists i :: 0 <= i < |r.paths| && f in DatabaseFilesIn(r.paths[i], env.fs))
      && (k >= 5 ==> Merge(before, r, k) == r)
      && (k == 0 ==> Merge(before, r, k) == before)
  {
    var r := DiscoveryOutcome(custom, env, k).found;
    if k > 2 {
      forall f
        ensures f in r.databaseFiles <==> exists i :: 0 <= i < |r.paths| && f in DatabaseFilesIn(r.paths[i], env.fs)
      {
        DatabaseFilesUnderSpec(r.paths, env.fs, |r.paths|, f);
      }
    }
  }

  // ------------------------------------------------------------------ cleanup

  /** The categories `perform_cleanup` is asked for; a missing option counts as not asked. */
  datatype CleanupOptions = CleanupOptions(modifyTelemetryIds: bool, cleanDatabase: bool, cleanWorkspace: bool,
                                           cleanAccountData: bool)

  /** What each sub-operation returns: one result per database file and per workspace. */
  datatype Outcomes = Outcomes(telemetry: bool, databases: seq<bool>, workspaces: seq<bool>, account: bool)

  const BackupStep: Step := Step("Creating backup directory...", "Backup directory created", true)

  function TelemetryStep(ok: bool): Step
  {
    Step("Modifying telemetry IDs...", "Telemetry ID modification complete", ok)
  }

  function DatabaseStep(name: string, ok: bool): Step
  {
    Step("Cleaning database: " + name, "Database " + name + " cleaned", ok)
  }

  function WorkspaceStep(name: string, ok: bool): Step
  {
    Step("Cleaning workspace: " + name, "Workspace " + name + " cleaned", ok)
  }

  function AccountStep(ok: bool): Step
  {
    Step("Cleaning account data...", "Account data cleaning complete", ok)
  }

  function DatabaseSteps(files: seq<Path>, oks: seq<bool>): seq<Step>
    requires |oks| == |files|
  {
    seq(|files|, i requires 0 <= i < |files| => DatabaseStep(PathName(files[i]), oks[i]))
  }

  function WorkspaceSteps(names: seq<string>, oks: seq<bool>): seq<Step>
    requires |oks| == |names|
  {
    seq(|names|, i requires 0 <= i < |names| => WorkspaceStep(names[i], oks[i]))
  }

  /** The steps before the per-file loops: the backup directory, then the telemetry IDs if asked. */
  function HeadSteps(o: CleanupOptions, out: Outcomes): seq<Step>
  {
    [BackupStep] + (if o.modifyTelemetryIds then [TelemetryStep(out.telemetry)] else [])
  }

  /** The steps of `perform_cleanup`, in order, with the result of each. */
  function CleanupSteps(o: CleanupOptions, files: seq<Path>, workspaces: seq<string>, out: Outcomes): seq<Step>
    requires |out.databases| == |files| && |out.workspaces| == |workspaces|
  {
    HeadSteps(o, out)
    + (if o.cleanDatabase then DatabaseSteps(files, out.databases) else [])
    + (if o.cleanWorkspace then WorkspaceSteps(workspaces, out.workspaces) else [])
    + (if o.cleanAccountData then [AccountStep(out.account)] else [])
  }

  /** The `total_steps` formula. */
  function StepTotal(o: CleanupOptions, files: nat, workspaces: nat): nat
  {
    1 + (if o.modifyTelemetryIds then 1 else 0) + (if o.cleanDatabase then files else 0)
    + (if o.cleanWorkspace then workspaces else 0) + (if o.cleanAccountData then 1 else 0)
  }

  /** The total announced up front is the number of steps the cleanup goes through. */
  lemma StepTotalCounts(o: CleanupOptions, files: seq<Path>, workspaces: seq<string>, out: Outcomes)
    requires |out.databases| == |files| && |out.workspaces| == |workspaces|
    ensures |CleanupSteps(o, files, workspaces, out)| == StepTotal(o, |files|, |workspaces|)
  {
  }

  predicate AllOk(steps: seq<Step>)
  {
    forall i :: 0 <= i < |steps| ==> steps[i].ok
  }

  /**
   * The steps all succeed exactly when every sub-operation that was asked
   * for succeeded: the result is the AND over every selected category.
   */
  lemma CleanupStepsOk(o: CleanupOptions, files: seq<Path>, workspaces: seq<string>, out: Outcomes)
    requires |out.databases| == |files| && |out.workspaces| == |workspaces|
    ensures AllOk(CleanupSteps(o, files, workspaces, out)) <==>
            && (o.modifyTelemetryIds ==> out.telemetry)
            && (o.cleanDatabase ==> forall i :: 0 <= i < |files| ==> out.databases[i])
            && (o.cleanWorkspace ==> forall i :: 0 <= i < |workspaces| ==> out.workspaces[i])
            && (o.cleanAccountData ==> out.account)
  {
    var h := HeadSteps(o, out);
    var d := if o.cleanDatabase then DatabaseSteps(files, out.databases) else [];
    var w := if o.cleanWorkspace then WorkspaceSteps(workspaces, out.workspaces) else [];
    var a := if o.cleanAccountData then [AccountStep(out.account)] else [];
    AllOkConcat(h, d);
    AllOkConcat(h + d, w);
    AllOkConcat(h + d + w, a);
    if o.modifyTelemetryIds {
      assert h[1] == TelemetryStep(out.telemetry);
    }
    if o.cleanDatabase {
      assert forall i :: 0 <= i < |files| ==> d[i].ok == out.databases[i];
    }
    if o.cleanWorkspace {
      assert forall i :: 0 <= i < |workspaces| ==> w[i].ok == out.workspaces[i];
    }
    if o.cleanAccountData {
      assert a[0].ok == out.account;
    }
  }

  lemma AllOkConcat(a: seq<Step>, b: seq<Step>)
    ensures AllOk(a + b) <==> AllOk(a) && AllOk(b)
  {
    if AllOk(a) && AllOk(b) {
      forall i | 0 <= i < |a + b|
        ensures (a + b)[i].ok
      {
        if i >= |a| {
          assert (a + b)[i] == b[i - |a|];
        }
      }
    }
    if AllOk(a + b) {
      forall i | 0 <= i < |a|
        ensures a[i].ok
      {
        assert (a + b)[i] == a[i];
      }
      forall i | 0 <= i < |b|
        ensures b[i].ok
      {
        assert (a + b)[|a| + i] == b[i];
      }
    }
  }

  const CleanupError: string := "Error during cleanup: "

  const SuccessMessage: string := "Data cleanup completed successfully!"
  const PartialMessage: string := "Data cleanup completed with some errors"

  /** The status before the first cleanup step: the opening line, running, the total announced, none done. */
  function CleanupStart(s0: Status, total: nat): Status
  {
    Updated(s0, "Starting data cleanup...", None, false).(isRunning := true, totalSteps := total, completedSteps := 0)
  }

  /** The status `perform_cleanup` leaves. */
  function CleanupStatus(s0: Status, steps: seq<Step>, crash: Option<Crash>): Status
  {
    var s1 := CleanupStart(s0, |steps|);
    var k := Reached(crash, |steps|);
    if k < |steps| then Crashed(s1, steps, k, CleanupError + crash.value.reason).(isRunning := false)
    else Updated(Run(s1, steps), if AllOk(steps) then SuccessMessage else PartialMessage, None, false).(isRunning := false)
  }

  /**
   * Cleanup is no longer running when it returns, normally or through an
   * exception; a normal return has completed every announced step and ends
   * at full progress, and an exception clears success.
   */
  lemma CleanupStatusSpec(s0: Status, steps: seq<Step>, crash: Option<Crash>)
    ensures var t := CleanupStatus(s0, steps, crash);
      var k := Reached(crash, |steps|);
      && !t.isRunning && t.totalSteps == |steps| && t.completedSteps == k
      && (k == |steps| ==> t.success == s0.success &&
                           t.log[|t.log| - 1] == Info(if AllOk(steps) then SuccessMessage else PartialMessage))
      && (k < |steps| ==> !t.success && t.log[|t.log| - 1] == Failure("Error during cleanup: " + crash.value.reason))
      && (k == |steps| > 0 ==> t.progress == 1.0)
  {
    var s1 := CleanupStart(s0, |steps|);
    var k := Reached(crash, |steps|);
    if k < |steps| {
      RunSpec(s1, steps[..k]);
    } else {
      RunSpec(s1, steps);
      if steps != [] {
        RunToCompletion(s1, steps);
      }
    }
  }

  // ------------------------------------------------------------------ classes

  /** `DataCleanerStatus`. */
  class DataCleanerStatus {
    var operation: string
    var progress: real
    var totalSteps: int
    var completedSteps: int
    var isRunning: bool
    var success: bool
    var errorMessage: string
    var log: seq<LogEntry>

    function State(): Status
      reads this
    {
      Status(operation, progress, totalSteps, completedSteps, isRunning, success, errorMessage, log)
    }

    constructor ()
      ensures State() == Initial
    {
      operation, progress, totalSteps, completedSteps := "", 0.0, 0, 0;
      isRunning, success, errorMessage, log := false, true, "", [];
    }

    method Update(op: string, newProgress: Option<real>, stepCompleted: bool)
      modifies this
      ensures State() == Updated(old(State()), op, newProgress, stepCompleted)
    {
      operation := op;
      if newProgress.Some? {
        progress := newProgress.value;
      }
      if stepCompleted {
        completedSteps := completedSteps + 1;
        if totalSteps > 0 {
          progress := completedSteps as real / totalSteps as real;
        }
      }
      log := log + [Info(op)];
    }

    method SetError(message: string)
      modifies this
      ensures State() == WithError(old(State()), message)
    {
      success := false;
      errorMessage := message;
      log := log + [Failure(message)];
    }
  }

  /**
   * `FreeAugmentCodeCleaner`: the status it reports and what the last
   * discovery found.
   */
  class AugmentCodeCleaner {
    const status: DataCleanerStatus
    var paths: seq<Path>
    var foundIds: nat
    var databaseFiles: seq<Path>
    var workspaces: seq<string>
    var emails: nat
    var accountFiles: nat

    function Fields(): Found
      reads this
    {
      Found(paths, foundIds, databaseFiles, workspaces, emails, accountFiles)
    }

    constructor ()
      ensures fresh(status) && status.State() == Initial && Fields() == Found([], 0, [], [], 0, 0)
    {
      status := new DataCleanerStatus();
      paths, foundIds, databaseFiles, workspaces, emails, accountFiles := [], 0, [], [], 0, 0;
    }

    /**
     * The start of step `k`: its opening line, then, if the step's work
     * raises, the error.
     */
    method BeginStep(ghost s1: Status, ghost steps: seq<Step>, k: nat, start: string, crash: Option<Crash>,
                     prefix: string) returns (crashed: bool)
      requires k < |steps| && start == steps[k].start && status.State() == Run(s1, steps[..k])
      modifies status
      ensures crashed == CrashesAt(crash, k)
      ensures crashed ==> status.State() == Crashed(s1, steps, k, prefix + crash.value.reason)
      ensures !crashed ==> status.State() == Updated(Run(s1, steps[..k]), start, None, false)
      ensures Fields() == old(Fields())
    {
      status.Update(start, None, false);
      crashed := crash.Some? && crash.value.step == k;
      if crashed {
        status.SetError(prefix + crash.value.reason);
      }
    }

    /** The end of step `k`: its closing line, counting the step. */
    method EndStep(ghost s1: Status, ghost steps: seq<Step>, k: nat, finish: string)
      requires k < |steps| && finish == steps[k].finish
      requires status.State() == Updated(Run(s1, steps[..k]), steps[k].start, None, false)
      modifies status
      ensures status.State() == Run(s1, steps[..k + 1])
      ensures Fields() == old(Fields())
    {
      status.Update(finish, None, true);
      RunSnoc(s1, steps, k);
    }

    /**
     * Step `k` as far as the status sees it: its opening line, then the
     * error if its work raises, else its closing line.  The work of a step
     * changes nothing in the status, so the callers perform it after this.
     */
    method RunStep(ghost s1: Status, ghost steps: seq<Step>, k: nat, start: string, finish: string,
                   crash: Option<Crash>, prefix: string) returns (crashed: bool)
      requires k < |steps| && start == steps[k].start && finish == steps[k].finish
      requires status.State() == Run(s1, steps[..k])
      requires crash.Some? ==> crash.value.step >= k
      modifies status
      ensures crashed == CrashesAt(crash, k)
      ensures !crashed ==> (crash.Some? ==> crash.value.step > k)
      ensures crashed ==> status.State() == Crashed(s1, steps, k, prefix + crash.value.reason)
      ensures !crashed ==> status.State() == Run(s1, steps[..k + 1])
      ensures Fields() == old(Fields())
    {
      crashed := BeginStep(s1, steps, k, start, crash, prefix);
      if !crashed {
        EndStep(s1, steps, k, finish);
      }
    }

    /** What the first `k` steps of discovery leave in the fields and in the result. */
    ghost predicate Discovered(before: Found, custom: seq<Path>, env: Environment, k: nat, r: Discovery)
      reads this
    {
      r == DiscoveryOutcome(custom, env, k) && Fields() == Merge(before, r.found, k)
    }

    /**
     * `discover_augmentcode_data`: `env` is what it reads besides the custom
     * paths, `crash` an exception raised by one of its steps.
     */
    method DiscoverAugmentcodeData(custom: seq<Path>, env: Environment, crash: Option<Crash>) returns (r: Discovery)
      modifies this, status
      ensures status.State() == DiscoveryStatus(old(status.State()), DiscoveryCrash(custom, env, crash))
      ensures var k := Reached(DiscoveryCrash(custom, env, crash), 7);
        r == DiscoveryOutcome(custom, env, k) && Fields() == Left(old(Fields()), r.found, k)
    {
      status.Update("Starting AugmentCode data discovery...", None, false);
      status.totalSteps := 7;
      status.completedSteps := 0;
      ghost var s1 := status.State();
      assert s1 == DiscoveryStart(old(status.State()));
      ghost var before := Fields();
      assert before == old(Fields());
      var steps := DiscoverySteps;
      r := Discovery(Found([], 0, [], [], 0, 0), 0);
      assert steps[..0] == [];
      var located, c := SearchLocations(custom, env, crash);
      var crashed;

      crashed := RunStep(s1, steps, 0, steps[0].start, steps[0].finish, c, DiscoveryError);
      if crashed {
        assert Reached(c, 7) == 0;
        return;
      }
      r := LocateDirectories(before, custom, env, r, located);
      crashed := RunStep(s1, steps, 1, steps[1].start, steps[1].finish, c, DiscoveryError);
      if crashed {
        assert Reached(c, 7) == 1;
        return;
      }
      r := DiscoverTelemetry(before, custom, env, r);
      crashed := RunStep(s1, steps, 2, steps[2].start, steps[2].finish, c, DiscoveryError);
      if crashed {
        databaseFiles := [];
        assert Reached(c, 7) == 2;
        return;
      }
      r := SearchDatabaseFiles(before, custom, env, r);
      r := DiscoverLater(old(status.State()), s1, before, custom, env, c, r);
    }

    /** Steps 4 to 7 of discovery, from the status the first three steps left. */
    method DiscoverLater(ghost s0: Status, ghost s1: Status, ghost before: Found, custom: seq<Path>, env: Environment,
                         crash: Option<Crash>, r0: Discovery) returns (r: Discovery)
      requires s1 == DiscoveryStart(s0) && status.State() == Run(s1, DiscoverySteps[..3])
      requires crash.Some? ==> crash.value.step >= 3
      requires Discovered(before, custom, env, 3, r0)
      modifies this, status
      ensures status.State() == DiscoveryStatus(s0, crash)
      ensures Discovered(before, custom, env, Reached(crash, 7), r)
    {
      var steps := DiscoverySteps;
      r := r0;
      var crashed := RunStep(s1, steps, 3, steps[3].start, steps[3].finish, crash, DiscoveryError);
      if crashed {
        assert Reached(crash, 7) == 3;
        return;
      }
      r := DiscoverWorkspaces(before, custom, env, r);
      crashed := RunStep(s1, steps, 4, steps[4].start, steps[4].finish, crash, DiscoveryError);
      if crashed {
        assert Reached(crash, 7) == 4;
        return;
      }
      r := DiscoverAccounts(before, custom, env, r);
      r := DiscoverFinal(s0, s1, before, custom, env, crash, r);
    }

    /** Steps 6 and 7 of discovery: the account step's closing line, then the summary. */
    method DiscoverFinal(ghost s0: Status, ghost s1: Status, ghost before: Found, custom: seq<Path>, env: Environment,
                         crash: Option<Crash>, r0: Discovery) returns (r: Discovery)
      requires s1 == DiscoveryStart(s0) && status.State() == Run(s1, DiscoverySteps[..5])
      requires crash.Some? ==> crash.value.step >= 5
      requires Discovered(before, custom, env, 5, r0)
      modifies this, status
      ensures status.State() == DiscoveryStatus(s0, crash)
      ensures Discovered(before, custom, env, Reached(crash, 7), r)
    {
      var steps := DiscoverySteps;
      r := r0;
      var crashed := RunStep(s1, steps, 5, steps[5].start, steps[5].finish, crash, DiscoveryError);
      if crashed {
        assert Reached(crash, 7) == 5;
        return;
      }
      assert DiscoveryOutcome(custom, env, 6) == DiscoveryOutcome(custom, env, 5);
      crashed := RunStep(s1, steps, 6, steps[6].start, steps[6].finish, crash, DiscoveryError);
      if crashed {
        assert Reached(crash, 7) == 6;
        return;
      }
      r := FinalizeDiscovery(before, custom, env, r);
      TakeAll(steps);
      assert Reached(crash, 7) == 7;
    }

    /**
     * The work of step 1 before anything is stored: the custom paths, or the
     * search of the application-data roots, and whether that search raises.
     */
    method SearchLocations(custom: seq<Path>, env: Environment, crash: Option<Crash>)
      returns (located: seq<Path>, c: Option<Crash>)
      ensures c == DiscoveryCrash(custom, env, crash)
      ensures !CrashesAt(c, 0) ==> located == Located(custom, env.appData, env.fs)
    {
      var roots := RootsAt(env.appData, env.fs);
      SearchRootsSpec(roots);
      located := custom;
      c := crash;
      if custom == [] {
        var result := FindAugmentCodeDirectories(roots);
        if result.Ok? {
          located := result.value;
        } else if !CrashesAt(crash, 0) {
          c := Some(Crash(0, result.error));
        }
      }
    }

    /** Step 1: the custom paths when any are given, else the product directories under the application-data roots. */
    method LocateDirectories(ghost before: Found, custom: seq<Path>, env: Environment, r0: Discovery,
                             located: seq<Path>) returns (r: Discovery)
      requires Discovered(before, custom, env, 0, r0) && located == Located(custom, env.appData, env.fs)
      modifies this
      ensures Discovered(before, custom, env, 1, r)
    {
      paths := located;
      r := r0.(found := r0.found.(paths := paths));
    }

    /** Step 2: the number of telemetry IDs found. */
    method DiscoverTelemetry(ghost before: Found, custom: seq<Path>, env: Environment, r0: Discovery)
      returns (r: Discovery)
      requires Discovered(before, custom, env, 1, r0)
      modifies this
      ensures Discovered(before, custom, env, 2, r)
    {
      foundIds := env.sub.foundIds;
      r := r0.(found := r0.found.(foundIds := foundIds));
    }

    /** Step 3: the database files below the located directories. */
    method SearchDatabaseFiles(ghost before: Found, custom: seq<Path>, env: Environment, r0: Discovery)
      returns (r: Discovery)
      requires Discovered(before, custom, env, 2, r0)
      modifies this
      ensures Discovered(before, custom, env, 3, r)
    {
      databaseFiles := SearchDatabases(paths, env.fs);
      r := r0.(found := r0.found.(databaseFiles := databaseFiles));
    }

    /** Step 4: the workspace locations. */
    method DiscoverWorkspaces(ghost before: Found, custom: seq<Path>, env: Environment, r0: Discovery)
      returns (r: Discovery)
      requires Discovered(before, custom, env, 3, r0)
      modifies this
      ensures Discovered(before, custom, env, 4, r)
    {
      workspaces := env.sub.workspaces;
      r := r0.(found := r0.found.(workspaces := workspaces));
    }

    /** Step 5: the account data. */
    method DiscoverAccounts(ghost before: Found, custom: seq<Path>, env: Environment, r0: Discovery)
      returns (r: Discovery)
      requires Discovered(before, custom, env, 4, r0)
      modifies this
      ensures Discovered(before, custom, env, 5, r)
    {
      emails, accountFiles := env.sub.emails, env.sub.accountFiles;
      r := r0.(found := r0.found.(emails := emails, accountFiles := accountFiles));
    }

    /** Step 7: the total number of locations found. */
    method FinalizeDiscovery(ghost before: Found, custom: seq<Path>, env: Environment, r0: Discovery)
      returns (r: Discovery)
      requires Discovered(before, custom, env, 6, r0)
      ensures Discovered(before, custom, env, 7, r)
    {
      r := r0.(totalLocations := |paths| + |databaseFiles| + |workspaces| + foundIds + emails + accountFiles);
    }

    /** Step 3 of discovery: the database files below each located directory. */
    static method SearchDatabases(paths: seq<Path>, fs: map<Path, Node>) returns (files: seq<Path>)
      ensures files == DatabaseFilesUnder(paths, fs, |paths|)
    {
      files := [];
      var i := 0;
      while i < |paths|
        invariant 0 <= i <= |paths|
        invariant files == DatabaseFilesUnder(paths, fs, i)
      {
        var found := FindDatabaseFiles(paths[i], NodeAt(fs, paths[i]));
        files := files + found;
        i := i + 1;
      }
    }

    /**
     * After `done` steps of a run from `s1`: the status, the AND of their
     * results, and no exception yet.
     */
    ghost predicate Progressed(s1: Status, steps: seq<Step>, done: nat, success: bool, crash: Option<Crash>)
      reads status
    {
      && done <= |steps| && status.State() == Run(s1, steps[..done]) && success == AllOk(steps[..done])
      && (crash.Some? ==> crash.value.step >= done)
    }

    /** The status after step `k` of a cleanup from `s1` raised. */
    ghost predicate CleanupCrashed(s1: Status, steps: seq<Step>, crash: Option<Crash>)
      reads status
    {
      crash.Some? && crash.value.step < |steps| &&
      status.State() == Crashed(s1, steps, crash.value.step, CleanupError + crash.value.reason)
    }

    /** One cleanup step whose work returned `ok`: `success &= ok` between the two updates. */
    method CleanupStep(ghost s1: Status, ghost steps: seq<Step>, done: nat, start: string, finish: string, ok: bool,
                       crash: Option<Crash>, success: bool) returns (crashed: bool, success': bool)
      requires done < |steps| && steps[done] == Step(start, finish, ok) && Progressed(s1, steps, done, success, crash)
      modifies status
      ensures crashed ==> CleanupCrashed(s1, steps, crash)
      ensures !crashed ==> Progressed(s1, steps, done + 1, success', crash)
    {
      crashed := RunStep(s1, steps, done, start, finish, crash, CleanupError);
      success' := success && ok;
      AllOkSnoc(steps, done);
    }

    /** The loop over the database files. */
    method CleanDatabases(ghost s1: Status, ghost steps: seq<Step>, o: CleanupOptions, files: seq<Path>,
                          out: Outcomes, done: nat, crash: Option<Crash>, success: bool)
      returns (crashed: bool, done': nat, success': bool)
      requires |out.databases| == |files|
      requires o.cleanDatabase ==> DatabasesAt(steps, done, files, out.databases)
      requires Progressed(s1, steps, done, success, crash)
      modifies status
      ensures crashed ==> CleanupCrashed(s1, steps, crash)
      ensures !crashed ==> done' == done + (if o.cleanDatabase then |files| else 0)
      ensures !crashed ==> Progressed(s1, steps, done', success', crash)
    {
      done', success' := done, success;
      crashed := false;
      if !o.cleanDatabase {
        return;
      }
      var i := 0;
      while i < |files|
        invariant 0 <= i <= |files| && done' == done + i
        invariant Progressed(s1, steps, done', success', crash)
      {
        var name := PathName(files[i]);
        crashed, success' := CleanupStep(s1, steps, done', "Cleaning database: " + name, "Database " + name + " cleaned",
                                         out.databases[i], crash, success');
        if crashed {
          return;
        }
        done', i := done' + 1, i + 1;
      }
      crashed := false;
    }

    /** The loop over the workspaces. */
    method CleanWorkspaces(ghost s1: Status, ghost steps: seq<Step>, o: CleanupOptions, names: seq<string>,
                           out: Outcomes, done: nat, crash: Option<Crash>, success: bool)
      returns (crashed: bool, done': nat, success': bool)
      requires |out.workspaces| == |names|
      requires o.cleanWorkspace ==> WorkspacesAt(steps, done, names, out.workspaces)
      requires Progressed(s1, steps, done, success, crash)
      modifies status
      ensures crashed ==> CleanupCrashed(s1, steps, crash)
      ensures !crashed ==> done' == done + (if o.cleanWorkspace then |names| else 0)
      ensures !crashed ==> Progressed(s1, steps, done', success', crash)
    {
      done', success' := done, success;
      crashed := false;
      if !o.cleanWorkspace {
        return;
      }
      var i := 0;
      while i < |names|
        invariant 0 <= i <= |names| && done' == done + i
        invariant Progressed(s1, steps, done', success', crash)
      {
        var name := names[i];
        crashed, success' := CleanupStep(s1, steps, done', "Cleaning workspace: " + name,
                                         "Workspace " + name + " cleaned", out.workspaces[i], crash, success');
        if crashed {
          return;
        }
        done', i := done' + 1, i + 1;
      }
      crashed := false;
    }

    /** The telemetry step, when asked for. */
    method BackupAndTelemetry(ghost s1: Status, ghost steps: seq<Step>, o: CleanupOptions, out: Outcomes,
                              crash: Option<Crash>)
      returns (crashed: bool, done: nat, success: bool)
      requires 0 < |steps| && steps[0] == BackupStep
      requires o.modifyTelemetryIds ==> 1 < |steps| && steps[1] == TelemetryStep(out.telemetry)
      requires Progressed(s1, steps, 0, true, crash)
      modifies status
      ensures crashed ==> CleanupCrashed(s1, steps, crash)
      ensures !crashed ==> done == (if o.modifyTelemetryIds then 2 else 1)
      ensures !crashed ==> Progressed(s1, steps, done, success, crash)
    {
      crashed, success := CleanupStep(s1, steps, 0, "Creating backup directory...", "Backup directory created", true,
                                      crash, true);
      done := 1;
      if !crashed && o.modifyTelemetryIds {
        crashed, success := CleanupStep(s1, steps, 1, "Modifying telemetry IDs...",
                                        "Telemetry ID modification complete", out.telemetry, crash, success);
        done := 2;
      }
    }

    /** The account step, when asked for. */
    method CleanAccount(ghost s1: Status, ghost steps: seq<Step>, o: CleanupOptions, out: Outcomes, done: nat,
                        crash: Option<Crash>, success: bool)
      returns (crashed: bool, done': nat, success': bool)
      requires o.cleanAccountData ==> done < |steps| && steps[done] == AccountStep(out.account)
      requires Progressed(s1, steps, done, success, crash)
      modifies status
      ensures crashed ==> CleanupCrashed(s1, steps, crash)
      ensures !crashed ==> done' == done + (if o.cleanAccountData then 1 else 0)
      ensures !crashed ==> Progressed(s1, steps, done', success', crash)
    {
      crashed, done', success' := false, done, success;
      if o.cleanAccountData {
        crashed, success' := CleanupStep(s1, steps, done, "Cleaning account data...", "Account data cleaning complete",
                                         out.account, crash, success);
        done' := done + 1;
      }
    }

    /** The `except` branch of `perform_cleanup`: the error is logged, and the cleanup stops running. */
    method Abort(ghost s0: Status, ghost s1: Status, ghost steps: seq<Step>, crash: Option<Crash>)
      returns (success: bool)
      requires s1 == CleanupStart(s0, |steps|) && CleanupCrashed(s1, steps, crash)
      modifies status
      ensures status.State() == CleanupStatus(s0, steps, crash) && Reached(crash, |steps|) < |steps|
      ensures success == (Reached(crash, |steps|) == |steps| && AllOk(steps))
    {
      status.isRunning := false;
      success := false;
    }

    /** The end of a cleanup that did not raise: the closing line, and the cleanup stops running. */
    method Finish(ghost s0: Status, ghost s1: Status, ghost steps: seq<Step>, done: nat, crash: Option<Crash>,
                  success: bool)
      requires s1 == CleanupStart(s0, |steps|) && done == |steps| && Progressed(s1, steps, done, success, crash)
      modifies status
      ensures status.State() == CleanupStatus(s0, steps, crash) && Reached(crash, |steps|) == |steps|
      ensures success == (Reached(crash, |steps|) == |steps| && AllOk(steps))
    {
      TakeAll(steps);
      if success {
        status.Update(SuccessMessage, None, false);
      } else {
        status.Update(PartialMessage, None, false);
      }
      status.isRunning := false;
    }

    /**
     * `perform_cleanup`, given what each sub-operation returns and, if one
     * raises, where.
     */
    method PerformCleanup(o: CleanupOptions, out: Outcomes, crash: Option<Crash>) returns (success: bool)
      requires |out.databases| == |databaseFiles| && |out.workspaces| == |workspaces|
      modifies status
      ensures var steps := CleanupSteps(o, old(databaseFiles), old(workspaces), out);
        && success == (Reached(crash, |steps|) == |steps| && AllOk(steps))
        && status.State() == CleanupStatus(old(status.State()), steps, crash)
    {
      var files, names := databaseFiles, workspaces;
      CleanupLayout(o, files, names, out);
      success := RunCleanup(status.State(), CleanupSteps(o, files, names, out), o, files, names, out, crash);
    }

    /** The opening line, the running flag and the `total_steps` formula. */
    method StartCleanup(o: CleanupOptions, files: nat, names: nat)
      modifies status
      ensures status.State() == CleanupStart(old(status.State()), StepTotal(o, files, names))
    {
      status.Update("Starting data cleanup...", None, false);
      status.isRunning := true;
      var total := 1;
      if o.modifyTelemetryIds { total := total + 1; }
      if o.cleanDatabase { total := total + files; }
      if o.cleanWorkspace { total := total + names; }
      if o.cleanAccountData { total := total + 1; }
      status.totalSteps := total;
      status.completedSteps := 0;
    }

    /** The body of `perform_cleanup` over the steps laid out as `Layout` says. */
    method RunCleanup(ghost s0: Status, ghost steps: seq<Step>, o: CleanupOptions, files: seq<Path>, names: seq<string>,
                      out: Outcomes, crash: Option<Crash>) returns (success: bool)
      requires |out.databases| == |files| && |out.workspaces| == |names|
      requires Layout(steps, o, files, names, out) && status.State() == s0
      modifies status
      ensures success == (Reached(crash, |steps|) == |steps| && AllOk(steps))
      ensures status.State() == CleanupStatus(s0, steps, crash)
    {
      StartCleanup(o, |files|, |names|);
      ghost var s1 := status.State();
      assert steps[..0] == [] && AllOk(steps[..0]);
      ghost var h := if o.modifyTelemetryIds then 2 else 1;
      ghost var d := h + (if o.cleanDatabase then |files| else 0);
      ghost var w := d + (if o.cleanWorkspace then |names| else 0);
      success := RunSteps(s0, s1, steps, o, files, names, out, crash, d, w);
    }

    /** The steps of `perform_cleanup` after the step count is set, at the positions the layout gives them. */
    method RunSteps(ghost s0: Status, ghost s1: Status, ghost steps: seq<Step>, o: CleanupOptions, files: seq<Path>,
                    names: seq<string>, out: Outcomes, crash: Option<Crash>, ghost d: nat, ghost w: nat)
      returns (success: bool)
      requires |out.databases| == |files| && |out.workspaces| == |names| && s1 == CleanupStart(s0, |steps|)
      requires 0 < |steps| && steps[0] == BackupStep
      requires o.modifyTelemetryIds ==> 1 < |steps| && steps[1] == TelemetryStep(out.telemetry)
      requires d == (if o.modifyTelemetryIds then 2 else 1) + (if o.cleanDatabase then |files| else 0)
      requires o.cleanDatabase ==> DatabasesAt(steps, if o.modifyTelemetryIds then 2 else 1, files, out.databases)
      requires o.cleanWorkspace ==> WorkspacesAt(steps, d, names, out.workspaces)
      requires w == d + (if o.cleanWorkspace then |names| else 0)
      requires |steps| == w + (if o.cleanAccountData then 1 else 0)
      requires o.cleanAccountData ==> steps[w] == AccountStep(out.account)
      requires Progressed(s1, steps, 0, true, crash)
      modifies status
      ensures success == (Reached(crash, |steps|) == |steps| && AllOk(steps))
      ensures status.State() == CleanupStatus(s0, steps, crash)
    {
      var crashed, done;
      crashed, done, success := BackupAndTelemetry(s1, steps, o, out, crash);
      if crashed {
        success := Abort(s0, s1, steps, crash);
        return;
      }
      crashed, done, success := CleanDatabases(s1, steps, o, files, out, done, crash, success);
      if crashed {
        success := Abort(s0, s1, steps, crash);
        return;
      }
      success := FinishCleanup(s0, s1, steps, o, names, out, done, w, crash, success);
    }

    /** The workspaces, the account data and the closing line. */
    method FinishCleanup(ghost s0: Status, ghost s1: Status, ghost steps: seq<Step>, o: CleanupOptions,
                         names: seq<string>, out: Outcomes, done: nat, ghost w: nat, crash: Option<Crash>,
                         success: bool)
      returns (success': bool)
      requires |out.workspaces| == |names| && s1 == CleanupStart(s0, |steps|)
      requires o.cleanWorkspace ==> WorkspacesAt(steps, done, names, out.workspaces)
      requires w == done + (if o.cleanWorkspace then |names| else 0)
      requires |steps| == w + (if o.cleanAccountData then 1 else 0)
      requires o.cleanAccountData ==> steps[w] == AccountStep(out.account)
      requires Progressed(s1, steps, done, success, crash)
      modifies status
      ensures success' == (Reached(crash, |steps|) == |steps| && AllOk(steps))
      ensures status.State() == CleanupStatus(s0, steps, crash)
    {
      var crashed, done', success'' := CleanWorkspaces(s1, steps, o, names, out, done, crash, success);
      if crashed {
        success' := Abort(s0, s1, steps, crash);
        return;
      }
      crashed, done', success'' := CleanAccount(s1, steps, o, out, done', crash, success'');
      if crashed {
        success' := Abort(s0, s1, steps, crash);
        return;
      }
      Finish(s0, s1, steps, done', crash, success'');
      success' := success'';
    }
  }

  /** From position `at` on, `steps` holds one step per database file, in order. */
  ghost predicate DatabasesAt(steps: seq<Step>, at: nat, files: seq<Path>, oks: seq<bool>)
    requires |oks| == |files|
  {
    at + |files| <= |steps| &&
    forall i :: 0 <= i < |files| ==> steps[at + i] == DatabaseStep(PathName(files[i]), oks[i])
  }

  /** From position `at` on, `steps` holds one step per workspace, in order. */
  ghost predicate WorkspacesAt(steps: seq<Step>, at: nat, names: seq<string>, oks: seq<bool>)
    requires |oks| == |names|
  {
    at + |names| <= |steps| &&
    forall i :: 0 <= i < |names| ==> steps[at + i] == WorkspaceStep(names[i], oks[i])
  }

  /**
   * Where each step of a cleanup sits: the backup first, the telemetry IDs
   * next if asked, then the database files, the workspaces and the account
   * data, each block present only when its option is set.
   */
  ghost predicate Layout(steps: seq<Step>, o: CleanupOptions, files: seq<Path>, workspaces: seq<string>, out: Outcomes)
    requires |out.databases| == |files| && |out.workspaces| == |workspaces|
  {
    var h := if o.modifyTelemetryIds then 2 else 1;
    var d := h + (if o.cleanDatabase then |files| else 0);
    var w := d + (if o.cleanWorkspace then |workspaces| else 0);
    && |steps| == w + (if o.cleanAccountData then 1 else 0) == StepTotal(o, |files|, |workspaces|)
    && steps[0] == BackupStep
    && (o.modifyTelemetryIds ==> steps[1] == TelemetryStep(out.telemetry))
    && (o.cleanDatabase ==> DatabasesAt(steps, h, files, out.databases))
    && (o.cleanWorkspace ==> WorkspacesAt(steps, d, workspaces, out.workspaces))
    && (o.cleanAccountData ==> steps[w] == AccountStep(out.account))
  }

  lemma CleanupLayout(o: CleanupOptions, files: seq<Path>, workspaces: seq<string>, out: Outcomes)
    requires |out.databases| == |files| && |out.workspaces| == |workspaces|
    ensures Layout(CleanupSteps(o, files, workspaces, out), o, files, workspaces, out)
  {
    StepTotalCounts(o, files, workspaces, out);
    HeadStepsAt(o, files, workspaces, out);
    if o.cleanDatabase {
      forall i | 0 <= i < |files| {
        DatabaseStepAt(o, files, workspaces, out, i);
      }
    }
    if o.cleanWorkspace {
      forall i | 0 <= i < |workspaces| {
        WorkspaceStepAt(o, files, workspaces, out, i);
      }
    }
    if o.cleanAccountData {
      AccountStepAt(o, files, workspaces, out);
    }
  }

  /** The backup step comes first, then the telemetry step if asked. */
  lemma HeadStepsAt(o: CleanupOptions, files: seq<Path>, workspaces: seq<string>, out: Outcomes)
    requires |out.databases| == |files| && |out.workspaces| == |workspaces|
    ensures var steps := CleanupSteps(o, files, workspaces, out);
      && |HeadSteps(o, out)| == (if o.modifyTelemetryIds then 2 else 1)
      && steps[0] == BackupStep
      && (o.modifyTelemetryIds ==> steps[1] == TelemetryStep(out.telemetry))
  {
    var steps := CleanupSteps(o, files, workspaces, out);
    var hs := HeadSteps(o, out);
    assert steps == hs + (steps[|hs|..]);
  }

  /** The step of database file `i`. */
  lemma DatabaseStepAt(o: CleanupOptions, files: seq<Path>, workspaces: seq<string>, out: Outcomes, i: nat)
    requires |out.databases| == |files| && |out.workspaces| == |workspaces|
    requires o.cleanDatabase && i < |files|
    ensures CleanupSteps(o, files, workspaces, out)[|HeadSteps(o, out)| + i] ==
            DatabaseStep(PathName(files[i]), out.databases[i])
  {
    var hs := HeadSteps(o, out);
    var ds := DatabaseSteps(files, out.databases);
    var rest := (if o.cleanWorkspace then WorkspaceSteps(workspaces, out.workspaces) else [])
                + (if o.cleanAccountData then [AccountStep(out.account)] else []);
    assert CleanupSteps(o, files, workspaces, out) == hs + ds + rest;
    assert (hs + ds + rest)[|hs| + i] == ds[i];
  }

  /** The step of workspace `i`, after the database steps. */
  lemma WorkspaceStepAt(o: CleanupOptions, files: seq<Path>, workspaces: seq<string>, out: Outcomes, i: nat)
    requires |out.databases| == |files| && |out.workspaces| == |workspaces|
    requires o.cleanWorkspace && i < |workspaces|
    ensures CleanupSteps(o, files, workspaces, out)[|HeadSteps(o, out)| + (if o.cleanDatabase then |files| else 0) + i]
            == WorkspaceStep(workspaces[i], out.workspaces[i])
  {
    var front := HeadSteps(o, out) + (if o.cleanDatabase then DatabaseSteps(files, out.databases) else []);
    var ws := WorkspaceSteps(workspaces, out.workspaces);
    var acc := if o.cleanAccountData then [AccountStep(out.account)] else [];
    assert CleanupSteps(o, files, workspaces, out) == front + ws + acc;
    assert (front + ws + acc)[|front| + i] == ws[i];
  }

  /** The account step comes last. */
  lemma AccountStepAt(o: CleanupOptions, files: seq<Path>, workspaces: seq<string>, out: Outcomes)
    requires |out.databases| == |files| && |out.workspaces| == |workspaces|
    requires o.cleanAccountData
    ensures var steps := CleanupSteps(o, files, workspaces, out);
      steps[|steps| - 1] == AccountStep(out.account)
  {
  }

  lemma AllOkSnoc(steps: seq<Step>, k: nat)
    requires k < |steps|
    ensures AllOk(steps[..k + 1]) <==> AllOk(steps[..k]) && steps[k].ok
  {
    assert steps[..k + 1] == steps[..k] + [steps[k]];
    AllOkConcat(steps[..k], [steps[k]]);
  }
}
