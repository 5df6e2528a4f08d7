/**
 * `acp status` (src/cli/commands/status.ts): a summary of the loaded slots,
 * agents and tasks, the agents that are not offline, and the tasks that are
 * in progress or blocked. The console output is modelled as the values it
 * prints.
 */
module StatusCommand {
  import opened Wrappers
  import opened Strings
  import opened Seqs
  import opened Types
  import opened Store
  import ClaimSlot

  // ---------------------------------------------------------------------------
  // The summary counts
  // ---------------------------------------------------------------------------

  function IsClaimed(): Slot -> bool {
    (s: Slot) => s.status == Claimed
  }

  /** The agents the summary counts as active: active or busy. */
  function IsWorking(): Agent -> bool {
    (a: Agent) => a.status == Active || a.status == Busy
  }

  function IsInProgress(): Task -> bool {
    (t: Task) => t.status == InProgress
  }

  function IsBlocked(): Task -> bool {
    (t: Task) => t.status == TaskBlocked
  }

  /** The tasks of the "Active Tasks" section: in progress or blocked. */
  function IsActiveTask(): Task -> bool {
    (t: Task) => t.status == InProgress || t.status == TaskBlocked
  }

  /** The four figures of the "Summary" block and the totals beside them. */
  datatype Summary = Summary(
    claimedSlots: nat, totalSlots: nat,
    activeAgents: nat, totalAgents: nat,
    inProgressTasks: nat, blockedTasks: nat)

  function Summarize(slots: seq<Slot>, agents: seq<Agent>, tasks: seq<Task>): (s: Summary)
    ensures s.totalSlots == |slots| && s.totalAgents == |agents|
    ensures s.claimedSlots <= s.totalSlots && s.activeAgents <= s.totalAgents
    ensures s.claimedSlots == |Filter(slots, IsClaimed())|
    ensures s.activeAgents == |Filter(agents, IsWorking())|
    ensures s.inProgressTasks == |Filter(tasks, IsInProgress())|
    ensures s.blockedTasks == |Filter(tasks, IsBlocked())|
  {
    Summary(|Filter(slots, IsClaimed())|, |slots|,
            |Filter(agents, IsWorking())|, |agents|,
            |Filter(tasks, IsInProgress())|, |Filter(tasks, IsBlocked())|)
  }

  // ---------------------------------------------------------------------------
  // The agent and task sections
  // ---------------------------------------------------------------------------

  /** The marker before an agent: blue for busy, red for blocked, green for
      every other status that is listed. */
  datatype AgentIcon = BusyIcon | BlockedIcon | OkIcon

  datatype AgentRow = AgentRow(icon: AgentIcon, id: string, role: string, task: string)

  function IconOf(s: AgentStatus): (i: AgentIcon)
    ensures i == BusyIcon <==> s == Busy
    ensures i == BlockedIcon <==> s == Blocked
  {
    if s == Busy then BusyIcon else if s == Blocked then BlockedIcon else OkIcon
  }

  function AgentRowOf(a: Agent): (r: AgentRow)
    ensures r.id == a.id && r.role == a.role && r.icon == IconOf(a.status)
    ensures r.task == OrElse(a.currentTask, "idle")
  {
    AgentRow(IconOf(a.status), a.id, a.role, OrElse(a.currentTask, "idle"))
  }

  function NotOffline(): Agent -> bool {
    (a: Agent) => a.status != Offline
  }

  function IsOffline(): Agent -> bool {
    (a: Agent) => a.status == Offline
  }

  /** The rows under "Active Agents": one per agent that is not offline, in
      load order. */
  function AgentRows(agents: seq<Agent>): (rows: seq<AgentRow>)
    ensures forall a :: a in agents && a.status != Offline ==> AgentRowOf(a) in rows
    ensures forall i :: 0 <= i < |rows| ==>
              exists a :: a in agents && a.status != Offline && rows[i] == AgentRowOf(a)
  {
    var shown := Filter(agents, NotOffline());
    FilterMapCovers(agents, NotOffline(), AgentRowOf);
    forall i | 0 <= i < |shown|
      ensures exists a :: a in agents && a.status != Offline && Map(shown, AgentRowOf)[i] == AgentRowOf(a)
    {
      var a := shown[i];
      assert a in agents && NotOffline()(a);
      assert Map(shown, AgentRowOf)[i] == AgentRowOf(a);
    }
    Map(shown, AgentRowOf)
  }

  /** Every agent is either listed or offline; the summary's active agents
      are among those listed, but idle, blocked and errored agents are listed
      too. */
  lemma AgentRowsCount(agents: seq<Agent>)
    ensures |AgentRows(agents)| + |Filter(agents, IsOffline())| == |agents|
    ensures Summarize([], agents, []).activeAgents <= |AgentRows(agents)|
  {
    FilterComplement(agents, NotOffline(), IsOffline());
    FilterMonotone(agents, IsWorking(), NotOffline());
  }

  datatype TaskRow = TaskRow(blocked: bool, id: string, title: string, assignee: string)

  /** `s.slice(0, n)` */
  function Take(s: string, n: nat): (r: string)
    ensures |r| == if |s| < n then |s| else n
    ensures r == s[..|r|]
  {
    if |s| <= n then s else s[..n]
  }

  function TaskRowOf(t: Task): (r: TaskRow)
    ensures r.blocked <==> t.status == TaskBlocked
    ensures r.id == t.id && |r.title| <= 40 && StartsWith(t.title, r.title)
    ensures r.assignee == OrElse(t.assignee, "unassigned")
  {
    TaskRow(t.status == TaskBlocked, t.id, Take(t.title, 40), OrElse(t.assignee, "unassigned"))
  }

  /** The rows under "Active Tasks", in load order. */
  function TaskRows(tasks: seq<Task>): (rows: seq<TaskRow>)
    ensures forall i :: 0 <= i < |rows| ==>
              exists t :: t in tasks && (t.status == InProgress || t.status == TaskBlocked)
                          && rows[i] == TaskRowOf(t)
    ensures forall t :: t in tasks && (t.status == InProgress || t.status == TaskBlocked) ==>
              TaskRowOf(t) in rows
  {
    var shown := Filter(tasks, IsActiveTask());
    FilterMapCovers(tasks, IsActiveTask(), TaskRowOf);
    forall i | 0 <= i < |shown|
      ensures exists t :: t in tasks && (t.status == InProgress || t.status == TaskBlocked)
                          && Map(shown, TaskRowOf)[i] == TaskRowOf(t)
    {
      var t := shown[i];
      assert t in tasks && IsActiveTask()(t);
      assert Map(shown, TaskRowOf)[i] == TaskRowOf(t);
    }
    Map(shown, TaskRowOf)
  }

  /** The section agrees with the summary: it has one row per task counted
      as in progress or as blocked. */
  lemma TaskRowsMatchSummary(tasks: seq<Task>)
    ensures var s := Summarize([], [], tasks);
      |TaskRows(tasks)| == s.inProgressTasks + s.blockedTasks
  {
    FilterDisjointCount(tasks, IsInProgress(), IsBlocked(), IsActiveTask());
  }

  // ---------------------------------------------------------------------------
  // The command
  // ---------------------------------------------------------------------------

  /** What `acp status` prints. The "Active Agents" section appears whenever
      any agent is loaded (None otherwise), even if every agent is offline;
      the "Active Tasks" section is printed only when it has rows. */
  datatype Report = Report(
    projectName: string,
    projectPath: string,
    summary: Summary,
    agentSection: Option<seq<AgentRow>>,
    taskSection: seq<TaskRow>)

  /** The directory listings are parameters: the model does not read the
      file system. */
  datatype Listings = Listings(slots: seq<string>, agents: seq<string>, tasks: seq<string>)

  /** `acp status` run in `cwd`: the project file is read there, the slots,
      agents and tasks under the path it records. */
  function Status(disk: Disk, cwd: string, l: Listings): (r: Result<Report, LoadError>)
    ensures r.Failure? <==> At(disk, cwd).project.None?
    ensures r.Failure? ==> r.error == NoProject(cwd)
    ensures r.Success? ==>
      var project := At(disk, cwd).project.value;
      var w := At(disk, project.path);
      var slots := LoadSlots(w.slots, l.slots);
      var agents := LoadAgents(w.agents, l.agents);
      var tasks := LoadTasks(w.tasks, l.tasks);
      && r.value.projectName == project.name && r.value.projectPath == project.path
      && r.value.summary == Summarize(slots, agents, tasks)
      && (r.value.agentSection.Some? <==> |agents| > 0)
      && (r.value.agentSection.Some? ==> r.value.agentSection.value == AgentRows(agents))
      && r.value.taskSection == TaskRows(tasks)
  {
    match LoadProject(At(disk, cwd), cwd)
    case Failure(e) => Failure(e)
    case Success(project) =>
      var w := At(disk, project.path);
      var slots := LoadSlots(w.slots, l.slots);
      var agents := LoadAgents(w.agents, l.agents);
      var tasks := LoadTasks(w.tasks, l.tasks);
      Success(Report(project.name, project.path,
                     Summarize(slots, agents, tasks),
                     if |agents| > 0 then Some(AgentRows(agents)) else None,
                     TaskRows(tasks)))
  }

  /** A successful claim shows in the summary: the claimed count rises by one
      when the slot was not yet claimed and stays put when it already was. */
  lemma ClaimRaisesClaimedCount(slots: seq<Slot>, req: ClaimSlot.ClaimRequest, now: nat)
    requires ClaimSlot.Admission(slots, req, now).Success?
    ensures var a := ClaimSlot.Admission(slots, req, now).value;
      var before := Summarize(slots, [], []).claimedSlots;
      var after := Summarize(a.slots, [], []).claimedSlots;
      && (slots[a.index].status == Claimed ==> after == before)
      && (slots[a.index].status != Claimed ==> after == before + 1)
  {
    var a := ClaimSlot.Admission(slots, req, now).value;
    var k := a.index;
    assert a.slots == slots[k := a.slots[k]];
    FilterCountUpdate(slots, k, a.slots[k], IsClaimed());
  }
}
