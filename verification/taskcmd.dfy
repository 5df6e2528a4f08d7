/**
 * The `task` sub-commands (src/cli/commands/task.ts): `list` filters the
 * loaded tasks by status and assignee, `create` builds a task from the
 * command-line options and saves it under an id derived from the clock.
 */
module TaskCommands {
  import opened Wrappers
  import opened Strings
  import opened Radix
  import opened Seqs
  import opened Types
  import opened Store

  // ---------------------------------------------------------------------------
  // task list
  // ---------------------------------------------------------------------------

  /** The `--status` filter admits the task (an absent filter admits all). */
  predicate StatusMatches(t: Task, status: Option<string>) {
    !Given(status) || TaskStatusName(t.status) == status.value
  }

  /** The `--assigned` filter admits the task (an absent filter admits all). */
  predicate AssigneeMatches(t: Task, agent: Option<string>) {
    !Given(agent) || t.assignee == Some(agent.value)
  }

  /** The task appears in `task list` with these options. */
  predicate Listed(t: Task, status: Option<string>, agent: Option<string>) {
    StatusMatches(t, status) && AssigneeMatches(t, agent)
  }

  function MatchStatus(status: Option<string>): Task -> bool {
    t => StatusMatches(t, status)
  }

  function MatchAssignee(agent: Option<string>): Task -> bool {
    t => AssigneeMatches(t, agent)
  }

  function ListedBy(status: Option<string>, agent: Option<string>): Task -> bool {
    t => Listed(t, status, agent)
  }

  /** The rows of `task list`: the status filter first, then the assignee
      filter, each applied only when its option is given. */
  function ListTasks(tasks: seq<Task>, status: Option<string>, agent: Option<string>)
    : (r: seq<Task>)
    ensures |r| <= |tasks|
    ensures forall i :: 0 <= i < |r| ==> r[i] in tasks && Listed(r[i], status, agent)
    ensures forall i :: 0 <= i < |tasks| && Listed(tasks[i], status, agent) ==> tasks[i] in r
    ensures !Given(status) && !Given(agent) ==> r == tasks
  {
    var byStatus := if Given(status) then Filter(tasks, MatchStatus(status)) else tasks;
    if Given(agent) then Filter(byStatus, MatchAssignee(agent)) else byStatus
  }

  /** The two filters in sequence are one filter by their conjunction: the
      listing is exactly the matching tasks, in load order, duplicates kept. */
  lemma ListTasksIsOneFilter(tasks: seq<Task>, status: Option<string>, agent: Option<string>)
    ensures ListTasks(tasks, status, agent) == Filter(tasks, ListedBy(status, agent))
    ensures IsSubsequence(ListTasks(tasks, status, agent), tasks)
  {
    var listed := ListedBy(status, agent);
    if Given(status) && Given(agent) {
      FilterFilter(tasks, MatchStatus(status), MatchAssignee(agent), listed);
    } else if Given(status) {
      FilterExt(tasks, MatchStatus(status), listed);
    } else if Given(agent) {
      FilterExt(tasks, MatchAssignee(agent), listed);
    } else {
      FilterAll(tasks, listed);
    }
    FilterIsSubsequence(tasks, listed);
  }

  /** Listing by status and then listing that by assignee gives the listing
      by both. */
  lemma ListByStatusThenAssignee(tasks: seq<Task>, status: Option<string>, agent: Option<string>)
    ensures ListTasks(ListTasks(tasks, status, None), None, agent) == ListTasks(tasks, status, agent)
  {
    var byStatus := ListTasks(tasks, status, None);
    ListTasksIsOneFilter(tasks, status, None);
    ListTasksIsOneFilter(byStatus, None, agent);
    ListTasksIsOneFilter(tasks, status, agent);
    FilterFilter(tasks, ListedBy(status, None), ListedBy(None, agent), ListedBy(status, agent));
  }

  /** The filters commute: by assignee first, then by status, is the same
      listing. */
  lemma ListByAssigneeThenStatus(tasks: seq<Task>, status: Option<string>, agent: Option<string>)
    ensures ListTasks(ListTasks(tasks, None, agent), status, None) == ListTasks(tasks, status, agent)
  {
    var byAgent := ListTasks(tasks, None, agent);
    ListTasksIsOneFilter(tasks, None, agent);
    ListTasksIsOneFilter(byAgent, status, None);
    ListTasksIsOneFilter(tasks, status, agent);
    FilterFilter(tasks, ListedBy(None, agent), ListedBy(status, None), ListedBy(status, agent));
  }

  // ---------------------------------------------------------------------------
  // Task ids
  // ---------------------------------------------------------------------------

  /** `s.slice(-k)` for k > 0: the last `k` characters, or all of `s` when it
      is shorter. */
  function Last(s: string, k: nat): (r: string)
    ensures |r| == if |s| < k then |s| else k
    ensures r == s[|s| - |r|..]
  {
    if |s| <= k then s else s[|s| - k..]
  }

  /** A character of an upper-cased base-36 numeral. */
  predicate IsIdDigit(c: char) {
    '0' <= c <= '9' || 'A' <= c <= 'Z'
  }

  /** `generateTaskId`: `TASK-` and the last four digits of the clock in
      upper-case base 36. */
  function GenerateTaskId(now: nat): (id: string)
    ensures 6 <= |id| <= 9
  {
    "TASK-" + Last(Upper(Base36(now)), 4)
  }

  /** The digits an id carries, in the form `toString(36)` wrote them. */
  function IdDigits(now: nat): (d: string)
    ensures AllDigits36(d) && 1 <= |d| <= 4
  {
    var digits := Base36(now);
    digits[|digits| - |Last(digits, 4)|..]
  }

  /** Every id is `TASK-` and one to four upper-case base-36 digits. */
  lemma TaskIdShape(now: nat)
    ensures var id := GenerateTaskId(now);
      StartsWith(id, "TASK-") && forall i :: 5 <= i < |id| ==> IsIdDigit(id[i])
  {
    IdOfDigits(now);
    UpperDigits("TASK-", IdDigits(now));
  }

  lemma UpperDigits(prefix: string, d: string)
    requires |prefix| == 5 && AllDigits36(d)
    ensures StartsWith(prefix + Upper(d), prefix)
    ensures forall i :: 5 <= i < |prefix + Upper(d)| ==> IsIdDigit((prefix + Upper(d))[i])
  {
    var id := prefix + Upper(d);
    assert id[..5] == prefix;
    forall i | 5 <= i < |id|
      ensures IsIdDigit(id[i])
    {
      assert id[i] == UpperChar(d[i - 5]);
    }
  }

  /** Upper-casing a base-36 numeral loses nothing. */
  lemma LowerUpperDigits(d: string)
    requires AllDigits36(d)
    ensures Lower(Upper(d)) == d
  {
    assert forall i :: 0 <= i < |d| ==> LowerChar(UpperChar(d[i])) == d[i];
  }

  /** The id is `TASK-` followed by the upper-cased digits. */
  lemma IdOfDigits(now: nat)
    ensures GenerateTaskId(now) == "TASK-" + Upper(IdDigits(now))
  {
    var digits := Base36(now);
    var k := |Last(digits, 4)|;
    assert Last(Upper(digits), 4) == Upper(digits)[|digits| - k..];
    assert Upper(digits)[|digits| - k..] == Upper(digits[|digits| - k..]);
  }

  /** Once the clock has four base-36 digits (any time after the first 46.656
      seconds of 1970), the id's suffix spells the clock modulo 36^4 ms, about
      28 minutes. */
  lemma TaskIdEncodesTime(now: nat)
    requires now >= Pow36(3)
    ensures |GenerateTaskId(now)| == 9
    ensures var d := Lower(GenerateTaskId(now)[5..]);
      AllDigits36(d) && ParseBase36(d) == now % Pow36(4)
  {
    Base36Length(now, 3);
    Base36Suffix(now, 4);
    IdOfDigits(now);
    var d := IdDigits(now);
    assert GenerateTaskId(now)[5..] == Upper(d);
    LowerUpperDigits(d);
  }

  /** Two clocks of at least 36^3 ms give the same id exactly when they agree
      modulo 36^4 ms: ids repeat every 1679616 ms and are otherwise distinct. */
  lemma TaskIdCollision(t1: nat, t2: nat)
    requires t1 >= Pow36(3) && t2 >= Pow36(3)
    ensures GenerateTaskId(t1) == GenerateTaskId(t2) <==> t1 % Pow36(4) == t2 % Pow36(4)
  {
    TaskIdEncodesTime(t1);
    TaskIdEncodesTime(t2);
    Base36Length(t1, 3);
    Base36Length(t2, 3);
    Base36Suffix(t1, 4);
    Base36Suffix(t2, 4);
    IdOfDigits(t1);
    IdOfDigits(t2);
    var d1 := IdDigits(t1);
    var d2 := IdDigits(t2);
    if t1 % Pow36(4) == t2 % Pow36(4) {
      ParseBase36Injective(d1, d2);
    }
  }

  /** A task created 36^4 ms after another gets the other's id. */
  lemma TaskIdRepeats(now: nat)
    requires now >= Pow36(3)
    ensures GenerateTaskId(now + Pow36(4)) == GenerateTaskId(now)
  {
    var p := Pow36(4);
    var later := now + p;
    ModShift(now, p);
    assert later % p == now % p;
    TaskIdCollision(now, later);
  }

  lemma ModShift(n: nat, p: nat)
    requires p >= 1
    ensures (n + p) % p == n % p
  {
    ModUnique(n + p, p, n / p + 1, n % p);
  }

  // ---------------------------------------------------------------------------
  // task create
  // ---------------------------------------------------------------------------

  /** The options of `task create`; None when the option is not given.
      `--title` is required by the command line itself. */
  datatype CreateOptions = CreateOptions(
    title: string,
    description: Option<string>,
    priority: Option<string>,
    assign: Option<string>,
    depends: Option<string>)

  const DefaultPriority: string := "normal"
  const CliReporter: string := "cli-user"

  /** `--depends` split at commas and trimmed; nothing when not given. */
  function Dependencies(depends: Option<string>): (r: seq<string>)
    ensures Given(depends) ==> |r| >= 1
    ensures !Given(depends) ==> r == []
  {
    if Given(depends) then SplitTrim(depends.value, ',') else []
  }

  /** The task `task create` writes, before any work on it. */
  function CreateTask(id: string, project: Project, opts: CreateOptions, now: int): (t: Task)
    ensures t.id == id && t.title == opts.title && t.description == opts.description
    ensures t.status == (if Given(opts.assign) then Todo else Backlog)
    ensures t.assignee == opts.assign
    ensures opts.priority.None? ==> t.priority == DefaultPriority
    ensures opts.priority.Some? ==> t.priority == opts.priority.value
    ensures t.reporter == CliReporter && t.project == project.id
    ensures t.dependencies == Dependencies(opts.depends) && t.dependents == []
    ensures t.createdAt == now && t.startedAt.None? && t.completedAt.None? && t.dueDate.None?
    ensures t.progress == 0 && ProgressInRange(t) && t.checkpoints == []
  {
    Task(id, opts.title, opts.description,
         if Given(opts.assign) then Todo else Backlog,
         opts.priority.GetOr(DefaultPriority),
         opts.assign, CliReporter,
         Dependencies(opts.depends), [],
         now, None, None, None,
         project.id, 0, [])
  }

  /** The dependency list round-trips: ids joined with commas come back one
      by one, in order. */
  lemma CreateTaskReadsDepends(id: string, project: Project, opts: CreateOptions, now: int,
                               deps: seq<string>)
    requires |deps| >= 1 && deps[0] != ""
    requires forall i :: 0 <= i < |deps| ==> ',' !in deps[i] && Unpadded(deps[i])
    requires opts.depends == Some(Join(deps, ','))
    ensures CreateTask(id, project, opts, now).dependencies == deps
  {
    DependenciesOfJoin(deps);
  }

  lemma DependenciesOfJoin(deps: seq<string>)
    requires |deps| >= 1 && deps[0] != ""
    requires forall i :: 0 <= i < |deps| ==> ',' !in deps[i] && Unpadded(deps[i])
    ensures Dependencies(Some(Join(deps, ','))) == deps
  {
    var joined := Join(deps, ',');
    JoinNonEmpty(deps, ',');
    DependenciesSplit(joined);
    forall i | 0 <= i < |deps| ensures Trim(deps[i]) == deps[i] {
      TrimIdentity(deps[i]);
    }
    SplitTrimJoin(deps, ',');
  }

  lemma DependenciesSplit(depends: string)
    requires depends != ""
    ensures Dependencies(Some(depends)) == SplitTrim(depends, ',')
  {
  }

  /** `task create`: read the project file in the current directory, build
      the task under the clock's id and save it as `<id>.json` under the
      path that file records; with no project nothing is written. */
  function CreateTaskCommand(disk: Disk, cwd: string, opts: CreateOptions, now: nat)
    : (r: (Disk, Result<Task, LoadError>))
    ensures r.1.Failure? <==> At(disk, cwd).project.None?
    ensures r.1.Failure? ==> r == (disk, Failure(NoProject(cwd)))
    ensures r.1.Success? ==>
      var project := At(disk, cwd).project.value;
      var home := At(disk, project.path);
      var t := CreateTask(GenerateTaskId(now), project, opts, now);
      r == (Put(disk, project.path, home.(tasks := SaveTask(home.tasks, t))), Success(t))
  {
    match LoadProject(At(disk, cwd), cwd)
    case Failure(e) => (disk, Failure(e))
    case Success(project) =>
      var home := At(disk, project.path);
      var t := CreateTask(GenerateTaskId(now), project, opts, now);
      (Put(disk, project.path, home.(tasks := SaveTask(home.tasks, t))), Success(t))
  }

  /** `task list` run in `cwd`: the project file is read there and the tasks
      under the path it records. */
  function ListTasksCommand(disk: Disk, cwd: string, listing: seq<string>,
                            status: Option<string>, agent: Option<string>): (r: Result<seq<Task>, LoadError>)
    ensures r.Failure? <==> At(disk, cwd).project.None?
    ensures r.Success? ==>
      r.value == ListTasks(LoadTasks(At(disk, At(disk, cwd).project.value.path).tasks, listing), status, agent)
  {
    match LoadProject(At(disk, cwd), cwd)
    case Failure(e) => Failure(e)
    case Success(project) => Success(ListTasks(LoadTasks(At(disk, project.path).tasks, listing), status, agent))
  }

  /** A created task shows up in `task list`, run from the same directory
      and filtered by the task's own status and by the assignee it was
      created for, once no task file is broken. */
  lemma CreatedTaskIsListed(disk: Disk, cwd: string, opts: CreateOptions, now: nat, listing: seq<string>)
    requires At(disk, cwd).project.Some?
    requires var project := At(disk, cwd).project.value;
      var t := CreateTask(GenerateTaskId(now), project, opts, now);
      var files := SaveTask(At(disk, project.path).tasks, t).value;
      && Enumerates(files, listing)
      && forall i :: 0 <= i < |listing| ==> !Broken(files, IsJsonFileName, listing[i])
    ensures var r := CreateTaskCommand(disk, cwd, opts, now);
      var t := r.1.value;
      && r.1.Success?
      && ListTasksCommand(r.0, cwd, listing, Some(TaskStatusName(t.status)), opts.assign).Success?
      && t in ListTasksCommand(r.0, cwd, listing, Some(TaskStatusName(t.status)), opts.assign).value
  {
    var r := CreateTaskCommand(disk, cwd, opts, now);
    var project := At(disk, cwd).project.value;
    var t := r.1.value;
    assert At(r.0, cwd).project == At(disk, cwd).project;
    var dir := At(r.0, project.path).tasks;
    var files := dir.value;
    var n := t.id + ".json";
    assert IsJsonFileName(n) by {
      assert n[|n| - 5..] == ".json";
    }
    assert n in listing;
    ScanWithoutBroken(listing, files, IsJsonFileName, TaskOfDocument);
    assert TaskOfDocument(files[n].doc) == Some(t);
    ScanAllMembers(listing, files, IsJsonFileName, TaskOfDocument, t);
    var loaded := LoadTasks(dir, listing);
    var k :| 0 <= k < |loaded| && loaded[k] == t;
    assert Listed(loaded[k], Some(TaskStatusName(t.status)), opts.assign);
  }
}
