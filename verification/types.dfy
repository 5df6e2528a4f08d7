/**
 * The record shapes and closed tag sets of the coordination protocol
 * (src/types/index.ts). Timestamps are milliseconds since the epoch as `int`;
 * a JSON/YAML date string is identified with the instant it denotes.
 *
 * Fields the source types as closed unions but that the command-line front
 * end fills from unchecked option strings (provider names, task priority,
 * message type) are kept as strings here; each union still has its own
 * datatype, with its wire name and a parser that recognises exactly those
 * names. The parsers stand alone: the source casts these strings without
 * checking them, so no loader or command of the model goes through a parser.
 */
module Types {
  import opened Wrappers
  import opened Radix

  // ---------------------------------------------------------------------------
  // Agents
  // ---------------------------------------------------------------------------

  datatype AgentStatus = Idle | Active | Busy | Blocked | Offline | Error

  function AgentStatusName(s: AgentStatus): string {
    match s
    case Idle => "idle"
    case Active => "active"
    case Busy => "busy"
    case Blocked => "blocked"
    case Offline => "offline"
    case Error => "error"
  }

  function ParseAgentStatus(s: string): (r: Option<AgentStatus>)
    ensures r.Some? ==> AgentStatusName(r.value) == s
    ensures r.None? ==> forall x :: AgentStatusName(x) != s
  {
    if s == "idle" then Some(Idle)
    else if s == "active" then Some(Active)
    else if s == "busy" then Some(Busy)
    else if s == "blocked" then Some(Blocked)
    else if s == "offline" then Some(Offline)
    else if s == "error" then Some(Error)
    else None
  }

  datatype AgentProvider = OpenClaw | Claude | Codex | OpenAI | CustomProvider

  function ProviderName(p: AgentProvider): string {
    match p
    case OpenClaw => "openclaw"
    case Claude => "claude"
    case Codex => "codex"
    case OpenAI => "openai"
    case CustomProvider => "custom"
  }

  function ParseProvider(s: string): (r: Option<AgentProvider>)
    ensures r.Some? ==> ProviderName(r.value) == s
    ensures r.None? ==> forall x :: ProviderName(x) != s
  {
    if s == "openclaw" then Some(OpenClaw)
    else if s == "claude" then Some(Claude)
    else if s == "codex" then Some(Codex)
    else if s == "openai" then Some(OpenAI)
    else if s == "custom" then Some(CustomProvider)
    else None
  }

  datatype AgentMetrics = AgentMetrics(
    tasksCompleted: int,
    tasksAssigned: int,
    avgResponseTime: string,
    uptime: string)

  /** `provider` is the string the agent was claimed with. */
  datatype Agent = Agent(
    id: string,
    name: string,
    slotId: string,
    role: string,
    provider: string,
    model: string,
    status: AgentStatus,
    currentTask: Option<string>,
    sessionKey: Option<string>,
    capabilities: seq<string>,
    joinedAt: int,
    lastActive: int,
    metrics: AgentMetrics)

  // ---------------------------------------------------------------------------
  // Slots
  // ---------------------------------------------------------------------------

  datatype SlotStatus = Available | Claimed | Suspended | Expired

  function SlotStatusName(s: SlotStatus): string {
    match s
    case Available => "available"
    case Claimed => "claimed"
    case Suspended => "suspended"
    case Expired => "expired"
  }

  function ParseSlotStatus(s: string): (r: Option<SlotStatus>)
    ensures r.Some? ==> SlotStatusName(r.value) == s
    ensures r.None? ==> forall x :: SlotStatusName(x) != s
  {
    if s == "available" then Some(Available)
    else if s == "claimed" then Some(Claimed)
    else if s == "suspended" then Some(Suspended)
    else if s == "expired" then Some(Expired)
    else None
  }

  /** A claim date as the program holds it at run time: a `Date` object for
      the instant `ms`, or the ISO-8601 text of that instant, a plain string,
      as a YAML file gives it back. Only a `Date` has `toISOString`. */
  datatype ClaimDate = DateObject(ms: int) | IsoText(ms: int)

  /** One agent session's occupancy of a slot. */
  datatype SlotClaim = SlotClaim(
    sessionKey: string,
    provider: string,
    model: string,
    claimedAt: ClaimDate,
    releasedAt: Option<ClaimDate>,
    tasksCompleted: int,
    uptime: string)

  /** Every date of the claim is a `Date` object. */
  predicate DatedByObjects(c: SlotClaim) {
    c.claimedAt.DateObject? && (c.releasedAt.Some? ==> c.releasedAt.value.DateObject?)
  }

  /** Every date of the claim is text. */
  predicate DatedByText(c: SlotClaim) {
    c.claimedAt.IsoText? && (c.releasedAt.Some? ==> c.releasedAt.value.IsoText?)
  }

  /** A slot after loading: status and both claim lists are always present.
      `maxConcurrent` is whatever number the slot file holds (NaN included). */
  datatype Slot = Slot(
    id: string,
    name: string,
    role: string,
    status: SlotStatus,
    approvedProviders: seq<string>,
    approvedModels: seq<string>,
    maxConcurrent: JsNumber,
    approved: bool,
    approvedBy: Option<string>,
    approvedAt: Option<int>,
    currentClaims: seq<SlotClaim>,
    claimHistory: seq<SlotClaim>)

  /** Every claim the slot holds, current or past, is dated by `Date` objects. */
  predicate SlotDatedByObjects(s: Slot) {
    && (forall i :: 0 <= i < |s.currentClaims| ==> DatedByObjects(s.currentClaims[i]))
    && (forall i :: 0 <= i < |s.claimHistory| ==> DatedByObjects(s.claimHistory[i]))
  }

  /** Every claim the slot holds, current or past, is dated by text. */
  predicate SlotDatedByText(s: Slot) {
    && (forall i :: 0 <= i < |s.currentClaims| ==> DatedByText(s.currentClaims[i]))
    && (forall i :: 0 <= i < |s.claimHistory| ==> DatedByText(s.claimHistory[i]))
  }

  /** The status agrees with the claim list: claimed exactly when occupied. */
  predicate StatusAgreesWithClaims(s: Slot) {
    s.status == Claimed <==> |s.currentClaims| > 0
  }

  /** The number of current claims is within the slot's capacity. */
  predicate WithinCapacity(s: Slot) {
    s.maxConcurrent.Num? && |s.currentClaims| <= s.maxConcurrent.value
  }

  // ---------------------------------------------------------------------------
  // Roles
  // ---------------------------------------------------------------------------

  datatype Permission =
    | AssignTasks | ApproveChanges | SubmitCode | ReviewCode
    | DeployToDev | DeployToStaging | DeployToProd | Escalate
    | OverrideDecisions | ManageAgents | ViewAllTasks

  function PermissionName(p: Permission): string {
    match p
    case AssignTasks => "assign_tasks"
    case ApproveChanges => "approve_changes"
    case SubmitCode => "submit_code"
    case ReviewCode => "review_code"
    case DeployToDev => "deploy_to_dev"
    case DeployToStaging => "deploy_to_staging"
    case DeployToProd => "deploy_to_prod"
    case Escalate => "escalate"
    case OverrideDecisions => "override_decisions"
    case ManageAgents => "manage_agents"
    case ViewAllTasks => "view_all_tasks"
  }

  function ParsePermission(s: string): (r: Option<Permission>)
    ensures r.Some? ==> PermissionName(r.value) == s
    ensures r.None? ==> forall x :: PermissionName(x) != s
  {
    if s == "assign_tasks" then Some(AssignTasks)
    else if s == "approve_changes" then Some(ApproveChanges)
    else if s == "submit_code" then Some(SubmitCode)
    else if s == "review_code" then Some(ReviewCode)
    else if s == "deploy_to_dev" then Some(DeployToDev)
    else if s == "deploy_to_staging" then Some(DeployToStaging)
    else if s == "deploy_to_prod" then Some(DeployToProd)
    else if s == "escalate" then Some(Escalate)
    else if s == "override_decisions" then Some(OverrideDecisions)
    else if s == "manage_agents" then Some(ManageAgents)
    else if s == "view_all_tasks" then Some(ViewAllTasks)
    else None
  }

  // ---------------------------------------------------------------------------
  // Tasks
  // ---------------------------------------------------------------------------

  datatype TaskStatus = Backlog | Todo | InProgress | Review | Testing | Done | TaskBlocked | Cancelled

  function TaskStatusName(s: TaskStatus): string {
    match s
    case Backlog => "backlog"
    case Todo => "todo"
    case InProgress => "in-progress"
    case Review => "review"
    case Testing => "testing"
    case Done => "done"
    case TaskBlocked => "blocked"
    case Cancelled => "cancelled"
  }

  function ParseTaskStatus(s: string): (r: Option<TaskStatus>)
    ensures r.Some? ==> TaskStatusName(r.value) == s
    ensures r.None? ==> forall x :: TaskStatusName(x) != s
  {
    if s == "backlog" then Some(Backlog)
    else if s == "todo" then Some(Todo)
    else if s == "in-progress" then Some(InProgress)
    else if s == "review" then Some(Review)
    else if s == "testing" then Some(Testing)
    else if s == "done" then Some(Done)
    else if s == "blocked" then Some(TaskBlocked)
    else if s == "cancelled" then Some(Cancelled)
    else None
  }

  datatype TaskPriority = Critical | High | Normal | Low

  function PriorityName(p: TaskPriority): string {
    match p
    case Critical => "critical"
    case High => "high"
    case Normal => "normal"
    case Low => "low"
  }

  function ParsePriority(s: string): (r: Option<TaskPriority>)
    ensures r.Some? ==> PriorityName(r.value) == s
    ensures r.None? ==> forall x :: PriorityName(x) != s
  {
    if s == "critical" then Some(Critical)
    else if s == "high" then Some(High)
    else if s == "normal" then Some(Normal)
    else if s == "low" then Some(Low)
    else None
  }

  datatype Checkpoint = Checkpoint(
    id: string,
    description: string,
    completed: bool,
    completedAt: Option<int>,
    completedBy: Option<string>)

  /** `priority` is the option string the task was created with. `progress`
      is documented as a percentage. */
  datatype Task = Task(
    id: string,
    title: string,
    description: Option<string>,
    status: TaskStatus,
    priority: string,
    assignee: Option<string>,
    reporter: string,
    dependencies: seq<string>,
    dependents: seq<string>,
    createdAt: int,
    startedAt: Option<int>,
    completedAt: Option<int>,
    dueDate: Option<int>,
    project: string,
    progress: int,
    checkpoints: seq<Checkpoint>)

  predicate ProgressInRange(t: Task) {
    0 <= t.progress <= 100
  }

  // ---------------------------------------------------------------------------
  // Messages
  // ---------------------------------------------------------------------------

  datatype MessageType =
    | TaskAssign | TaskComplete | TaskBlockedMsg | ReviewRequest | ReviewComplete
    | DependencyMet | DependencyNeeded | ChangeProposal | ChangeApproved
    | ChangeRejected | Query | Response | DecisionRequest | DecisionMade
    | Sync | Handoff | Heartbeat

  function MessageTypeName(t: MessageType): string {
    match t
    case TaskAssign => "TASK_ASSIGN"
    case TaskComplete => "TASK_COMPLETE"
    case TaskBlockedMsg => "TASK_BLOCKED"
    case ReviewRequest => "REVIEW_REQUEST"
    case ReviewComplete => "REVIEW_COMPLETE"
    case DependencyMet => "DEPENDENCY_MET"
    case DependencyNeeded => "DEPENDENCY_NEEDED"
    case ChangeProposal => "CHANGE_PROPOSAL"
    case ChangeApproved => "CHANGE_APPROVED"
    case ChangeRejected => "CHANGE_REJECTED"
    case Query => "QUERY"
    case Response => "RESPONSE"
    case DecisionRequest => "DECISION_REQUEST"
    case DecisionMade => "DECISION_MADE"
    case Sync => "SYNC"
    case Handoff => "HANDOFF"
    case Heartbeat => "HEARTBEAT"
  }

  function ParseMessageType(s: string): (r: Option<MessageType>)
    ensures r.Some? ==> MessageTypeName(r.value) == s
    ensures r.None? ==> forall x :: MessageTypeName(x) != s
  {
    if s == "TASK_ASSIGN" then Some(TaskAssign)
    else if s == "TASK_COMPLETE" then Some(TaskComplete)
    else if s == "TASK_BLOCKED" then Some(TaskBlockedMsg)
    else if s == "REVIEW_REQUEST" then Some(ReviewRequest)
    else if s == "REVIEW_COMPLETE" then Some(ReviewComplete)
    else if s == "DEPENDENCY_MET" then Some(DependencyMet)
    else if s == "DEPENDENCY_NEEDED" then Some(DependencyNeeded)
    else if s == "CHANGE_PROPOSAL" then Some(ChangeProposal)
    else if s == "CHANGE_APPROVED" then Some(ChangeApproved)
    else if s == "CHANGE_REJECTED" then Some(ChangeRejected)
    else if s == "QUERY" then Some(Query)
    else if s == "RESPONSE" then Some(Response)
    else if s == "DECISION_REQUEST" then Some(DecisionRequest)
    else if s == "DECISION_MADE" then Some(DecisionMade)
    else if s == "SYNC" then Some(Sync)
    else if s == "HANDOFF" then Some(Handoff)
    else if s == "HEARTBEAT" then Some(Heartbeat)
    else None
  }

  /** A mailbox message. `msgType` is the tag as found in the message file;
      the payload is opaque and not consulted by the worker. */
  datatype Message = Message(
    id: string,
    timestamp: int,
    from: string,
    to: string,
    msgType: string,
    project: string,
    task: Option<string>,
    priority: string,
    requiresAck: bool)

  // ---------------------------------------------------------------------------
  // Projects
  // ---------------------------------------------------------------------------

  datatype ProjectStatus = ProjectActive | Paused | Completed | Archived

  datatype ProjectConfig = ProjectConfig(
    inboxPath: string,
    outboxPath: string,
    repository: string,
    defaultBranch: string,
    autoAssign: bool,
    requireApproval: bool)

  /** A sprint, reduced to the identifier the manifest uses. */
  datatype Sprint = Sprint(id: string)

  datatype Project = Project(
    id: string,
    name: string,
    description: string,
    path: string,
    status: ProjectStatus,
    currentSprint: Option<Sprint>,
    agents: seq<string>,
    config: ProjectConfig)

  // ---------------------------------------------------------------------------
  // Role manifest
  // ---------------------------------------------------------------------------

  datatype ManifestAgent = ManifestAgent(id: string, slotId: string, sessionKey: string)

  datatype ManifestRole = ManifestRole(
    id: string,
    title: string,
    responsibilities: seq<string>,
    permissions: seq<Permission>,
    escalationPath: seq<string>)

  datatype ManifestTeam = ManifestTeam(
    project: string,
    sprint: string,
    reportsTo: string,
    teammates: seq<string>)

  datatype Communication = Communication(inbox: string, outbox: string, broadcast: string)

  datatype Constraints = Constraints(
    maxTaskDuration: string,
    requiresReview: bool,
    canDeployTo: seq<string>)

  /** The snapshot handed to an agent when it claims a slot. */
  datatype RoleManifest = RoleManifest(
    manifestVersion: string,
    agent: ManifestAgent,
    role: ManifestRole,
    team: ManifestTeam,
    communication: Communication,
    loadFiles: seq<string>,
    constraints: Constraints)
}
