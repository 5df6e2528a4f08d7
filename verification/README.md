# ACP coordination CLI: a Dafny model

ACP (Agent Coordination Protocol) is a command-line tool that coordinates
several AI coding agents working on one repository. It keeps all of its
state as files under `.acp/`:
- **slots** are approved seats that name a role, the providers and models allowed in it, and a capacity;
- **agents** are the records created when an agent claims a slot;
- **tasks**;
- **inboxes** hold one JSON message file per message.

This project models the core of that tool as pure functions over immutable
values:

- **the store** (`store.dfy`, module `Store`): loading and saving the project, slots, agents and tasks. A directory is a map from file names to documents, and the directory listing is a parameter.
- **`claim-slot`** (`claim.dfy`, `ClaimSlot`): the three gates, which are capacity, provider and model. Then the session key, the agent record, the updated slot and the role manifest.
- **the mailbox worker** (`worker.dfy`, `Worker`): it polls the inbox in timestamp order, dispatches on the message type, acknowledges each message by moving it to `.read/`, and updates the heartbeat. It repeats this until stopped.
- **the `slot`, `task` and `status` commands** (`slotcmd.dfy`, `taskcmd.dfy`, `status.dfy`).
- **the GitHub helpers** (`github.dfy`, `GitHub`): URL parsing and the issue-body template.
- **the Codex provider** (`codex.dfy`, `Codex`): its settings, its command line, the task prompt and the parser for review output.
- **the shared vocabulary** (`types.dfy`, `Types`): the enumerations and records. Each enumeration has a parser from its wire name. The parsers stand alone: the commands keep option strings and file contents as given, as the source does, so no loader or command goes through them.

Supporting modules:
- `Wrappers`: `Option` and `Result`.
- `Strings`: trimming, case mapping, `split` and `join`, and search.
- `Radix`: base 36 rendering, and JavaScript's `parseInt`.
- `Seqs`: filtering and searching.

The clock is an explicit `now` parameter. Directory listings are parameters. A file that cannot be read or parsed is the value `Unreadable`. YAML and JSON serialisation is the identity on the modelled records, with one exception: dates.
- A claim date is either a JavaScript `Date` or the ISO text that stands for one (`Types.ClaimDate`).
- The YAML writer turns a `Date` into its ISO text, and the YAML reader gives that text back as a string. So every slot that `loadSlots` returns carries its dates as text.

The file system is a map from project paths to `.acp/` directories (`Store.Disk`). The `slot`, `task` and `status` commands read `project.json` in the working directory and then work under the path recorded in it.

A few places where the behaviour of the code differs from what its documentation suggests. The model follows the code in each case:

- **Capacity gate.** `claim-slot` checks capacity only for a slot whose status is already `claimed`. A slot that is `available` with `maxConcurrent` 0 still admits its first agent (`ClaimSlot.ZeroCapacityAdmitsOne`).
- **Worker failures.**
  - The worker has no per-message error isolation. One failure abandons the rest of the batch and skips the heartbeat.
  - A message is acknowledged by moving it to `<inbox>/.read/<id>.json`, named after the message id and not after the original file.
  - The `.read` directory is never created (see Findings).
- **Task ids.** A task id is `TASK-` followed by the upper-cased last four base-36 digits of the millisecond clock. Two tasks created 36^4 ms apart (about 28 minutes) get the same id, and saving the second overwrites the first.
- **`task create --assign ""`** creates a task in `backlog` whose assignee is the empty string.
- **`acp status` agents section.** It lists idle, blocked and errored agents as well as active and busy ones, while the summary counts only active and busy agents. The section's heading is printed whenever any agent exists, even when every agent is offline.
- **Claim dates.** `claim-slot` calls `toISOString` on every claim date of the slot it writes back, but the dates it loaded are strings. So a claim on a slot that already holds a claim throws after the agent file is written, and `slot show` of such a slot throws too (see Findings).
- **Review parsing.**
  - A negated approval such as "I do not approve" counts as approval.
  - A bullet that mentions "issue", "comment", "suggestion" or "improvement" is read as a section header, and its text is lost.
  - Bullets before the first header are dropped.

## Model

| member | source | states |
|---|---|---|
| Types.ParseAgentStatus | src/types/index.ts:10 | a status name parses to the status with exactly that name, and a string that names no status is rejected |
| Types.ParseProvider | src/types/index.ts:12 | a provider name parses to the provider with that name, and any other string is rejected |
| Types.ParseSlotStatus | src/types/index.ts:41 | a slot status name parses to the status with that name, and any other string is rejected |
| Types.ParsePermission | src/types/index.ts:95-106 | each of the eleven permission names parses to its permission, and any other string is rejected |
| Types.ParseTaskStatus | src/types/index.ts:112-120 | each of the eight task status names, such as `in-progress`, parses to its status, and any other string is rejected |
| Types.ParsePriority | src/types/index.ts:122 | a priority name parses to the priority with that name, and any other string is rejected |
| Types.ParseMessageType | src/types/index.ts:173-190 | each of the seventeen message type names parses to its type, and any other string is rejected |
| Store.ScanStopsAtFirstBroken | src/core/project.ts:80-107 | loading slots yields the slots of the files before the first unreadable file, because the single try around the loop abandons the rest |
| Store.ScanAllMembers | src/core/project.ts:87-101 | without a failure, a record is loaded exactly when some listed, wanted file holds a document that converts to it |
| Store.ScanWithoutBroken | src/core/project.ts:102-104 | with no unreadable wanted file, nothing is cut short |
| Store.ScanAllAppend | src/core/project.ts:87-101 | loading a listing in two parts gives the two results concatenated, in listing order |
| Store.ScanAllPermutation | src/core/project.ts:87-101 | reordering the directory listing changes the order of the loaded records but not which records are loaded |
| Store.ScanMember | src/core/project.ts:80-107 | every loaded record comes from some listed file |
| Store.NormalizeFacts | src/core/project.ts:92-98 | defaults fill only the missing fields: status `available`, and no current claims or history. Present fields are kept, except that every claim date comes back as text. Normalising a written-back slot again changes nothing, and a slot written with every field present and text dates reads back unchanged |
| Store.StoredClaimRoundTrip | src/cli/commands/claim-slot.ts:92-99 | writing a claim's dates as text and reviving them gives back a claim dated by `Date`s; a claim already dated by text is written unchanged |
| Store.StoredSlotRoundTrip | src/core/project.ts:109-118 | a slot dated by `Date`s is given back by reviving its stored form; a slot dated by text is stored unchanged |
| Store.ReadBack | src/core/project.ts:92-98 | a written slot reads back as its stored form, with every date as text. That is the slot itself when its dates were text, and the slot after revival when they were `Date`s |
| Store.LoadedSlotsDatedByText | src/core/project.ts:90-98 | every loaded slot carries all of its claim dates as text, because nothing revives them |
| Store.LoadSlotsRevived | src/core/project.ts:80-107 | a loader that revives dates gives the same slots one for one, each dated by `Date`s |
| Store.SingleSlotLoads | src/core/project.ts:80-118 | a directory holding one slot's file loads exactly that slot with text dates, and with revival exactly the slot |
| Store.LoadSlots | src/core/project.ts:80-107 | a missing slots directory yields no slots, and there are never more slots than listed files |
| Store.LoadedSlotOrigin | src/core/project.ts:87-101 | each loaded slot is the normalised `slot` entry of some listed `.yaml` or `.yml` file |
| Store.SaveSlot | src/core/project.ts:109-118 | saving writes the slot, with every field present, to its own file and leaves every other file untouched |
| Store.SlotFileName | src/core/project.ts:115 | the file a slot is saved to is one that loading reads (`.yaml`) |
| Store.SaveThenLoad | src/core/project.ts:80-118 | a saved slot is loaded afterwards with its dates as text. It is the slot itself when its dates were text, and after revival when they were `Date`s |
| Store.LoadAgents | src/core/project.ts:120-143 | a missing agents directory yields no agents |
| Store.SaveAgent | src/core/project.ts:145-153 | the agent is written to `<id>.json` and every other agent file is untouched |
| Store.LoadTasks | src/core/project.ts:155-180 | a missing tasks directory yields no tasks |
| Store.SaveTask | src/core/project.ts:182-190 | the task is written to `<id>.json` and every other task file is untouched |
| Store.LoadProject | src/core/project.ts:69-78 | loading fails with the "no project" error exactly when there is no `project.json`, and otherwise returns its contents |
| Store.Basename | src/core/project.ts:27 | the project id is the path's last segment: it contains no slash, starts the path or follows a slash, and only slashes come after it |
| Store.InitProject | src/core/project.ts:12-67 | init writes the project record (id is the path's last segment) and creates the slots, agents and tasks directories along with the example slot file |
| Store.ExampleSlotLoads | src/core/project.ts:49-64 | after init, the example slot loads as an available, unapproved slot with no claims and capacity 1 |
| Radix.Base36RoundTrip | src/cli/commands/task.ts:125-128 | reading back the base-36 rendering of the clock gives the clock value |
| Radix.Base36Suffix | src/cli/commands/task.ts:125-128 | the last k base-36 digits spell the clock modulo 36^k |
| Radix.Base36Length | src/cli/commands/task.ts:125-128 | a value of at least 36^k has more than k base-36 digits |
| Radix.ParseBase36Injective | src/cli/commands/task.ts:125-128 | two digit strings of equal length with equal values are equal |
| Radix.ParseIntOfDecimal | src/cli/commands/slot.ts:72 | `parseInt` of a decimal rendering gives back the number |
| Radix.ParseIntDecimal | src/cli/commands/slot.ts:72 | `parseInt` reads a sign and a decimal run and ignores any trailing text |
| Radix.ParseIntSigned | src/cli/commands/slot.ts:72 | an optional leading minus negates the value read after it |
| Radix.ParseIntNaN | src/cli/commands/slot.ts:72 | text with no digits after the sign gives NaN |
| ClaimSlot.AgentName | src/cli/acp-agent.ts:38 | the agent is named by the option when one is given, and otherwise by the slot id |
| ClaimSlot.SessionKeyInjective | src/cli/commands/claim-slot.ts:42 | two session keys of one slot are equal only if they were taken at the same instant |
| ClaimSlot.RoleTitleShape | src/cli/commands/claim-slot.ts:118 | the role title is as long as the role, each dash becomes a blank, and each piece starts upper-case |
| ClaimSlot.RoleTitleUnfold | src/cli/commands/claim-slot.ts:118 | the title is the capitalised first piece, a blank, and the title of the rest |
| ClaimSlot.SelectModel | src/cli/commands/claim-slot.ts:46-49 | a non-empty requested model is kept. Otherwise the slot's first approved model is used, and with none there is no model |
| ClaimSlot.CheckGates | src/cli/commands/claim-slot.ts:33-49 | a claim passes exactly when the capacity, provider and model gates all pass, checked in that order. It reports the first gate that fails, the full-slot error only for a slot already claimed, and the selected model on success |
| ClaimSlot.Admit | src/cli/commands/claim-slot.ts:75-85 | the claim is appended to the current claims, the slot becomes claimed, and nothing else changes |
| ClaimSlot.NewAgent | src/cli/commands/claim-slot.ts:52-70 | the agent record is named by the request, bound to the slot and its role, and idle, with zeroed metrics |
| ClaimSlot.SprintName | src/cli/commands/claim-slot.ts:125 | the manifest names the current sprint, or `none` |
| ClaimSlot.Teammates | src/cli/commands/claim-slot.ts:127 | the teammates are exactly the ids of the claimed slots |
| ClaimSlot.BuildManifest | src/cli/commands/claim-slot.ts:109-145 | the manifest carries the agent and its session key, the role title, the fixed permissions and constraints, the teammates and the inbox path |
| ClaimSlot.Admission | src/cli/commands/claim-slot.ts:27-85 | an unknown id fails with "not found" exactly when no slot has it. Otherwise the first slot with the id goes through the gates, and on success only that slot changes, by the new claim |
| ClaimSlot.SlotRecord | src/cli/commands/claim-slot.ts:88-102 | the slot record is built exactly when every date it converts is a `Date`, and is then the slot with its dates as text. Otherwise the conversion throws; a current claim dated by text gives `c.claimedAt.toISOString is not a function` |
| ClaimSlot.FirstTextDate | src/cli/commands/claim-slot.ts:92-99 | no conversion fails exactly when every converted date is a `Date`; a current claim's text `claimedAt` fails first |
| ClaimSlot.LoadedClaimsUnwritable | src/cli/commands/claim-slot.ts:92-99 | a loaded slot that holds any claim cannot be written back, and with a current claim the error names `claimedAt` |
| ClaimSlot.AdmitKeepsWritable | src/cli/commands/claim-slot.ts:75-85 | adding a claim dated by a `Date` leaves a slot writable exactly when it was |
| ClaimSlot.Claim | src/cli/commands/claim-slot.ts:21-145 | a refused admission fails with its error. An admitted claim fails exactly when the slot's earlier claims cannot be written, with the writer's error. A successful claim returns the agent, the slot record with text dates, and a manifest that lists the claimed slot as a teammate |
| ClaimSlot.ClaimOver | src/cli/commands/claim-slot.ts:21-159 | without a project or with a refused claim nothing is written. A claim that throws while writing the slot leaves only the agent file written. A successful one saves the agent, the slot record and the manifest, and nothing else |
| ClaimSlot.ClaimSlotCommand | src/cli/commands/claim-slot.ts:21-106 | as written, with the slots loaded from their files, a claim succeeds only on a slot whose file held no claim, current or past: any claim read back from the file makes the write throw |
| ClaimSlot.ClaimSlotCommandRevived | src/cli/commands/claim-slot.ts:21-106 | with dates revived on load, writing the slot never throws: every refusal comes from the project lookup or the gates, and writes nothing |
| ClaimSlot.ClaimedSlotReloads | src/cli/commands/claim-slot.ts:84-106 | after a successful claim, loading the slots again gives the claimed slot with text dates: claimed, with the new claim last. With revival it is the claimed slot itself |
| ClaimSlot.ClaimOnHeldFile | src/cli/commands/claim-slot.ts:72-99 | on a file whose slot holds a claim, a claim that passes the gates throws on `claimedAt`. The agent file of the new session is written and the slot file is left as it was |
| ClaimSlot.SecondClaimThrows | src/cli/commands/claim-slot.ts:72-99 | as written, on the file of a fresh two-seat slot the first claim succeeds. The second claim throws after writing its agent file, and the slot file keeps the first claim only |
| ClaimSlot.CommandStep | src/cli/commands/claim-slot.ts:21-159 | with dates revived on load, a claim on a file holding one slot fails exactly as its admission fails. Otherwise it leaves the file written from the admitted slot |
| ClaimSlot.RevivedClaimsFillSlot | src/cli/commands/claim-slot.ts:33-106 | with dates revived on load, a fresh slot file of capacity m takes m claims in a row, at any instants, and the next one is refused as full |
| ClaimSlot.ClaimKeepsSlotInvariants | src/cli/commands/claim-slot.ts:33-85 | when every slot's status agrees with its claims and is within a capacity of at least 1, a claim keeps both true |
| ClaimSlot.ZeroCapacityAdmitsOne | src/cli/commands/claim-slot.ts:33-35 | an unclaimed slot with capacity 0 still admits one agent and ends over capacity |
| ClaimSlot.RepeatedClaimsAdmitted | src/cli/commands/claim-slot.ts:33-85 | up to its capacity, a fresh slot admits every successive claim, at any instants; after n of them it holds exactly n current claims and is claimed (when n > 0), and every other slot is untouched |
| ClaimSlot.CapacityExhausted | src/cli/commands/claim-slot.ts:33-35 | whatever the instants of the claims, the claim after m of them fails with "already claimed by m agents" |
| ClaimSlot.SingleSeatAdmits | src/cli/commands/claim-slot.ts:21-145 | a one-seat slot admits an approved agent, whose manifest grants `submit_code` |
| ClaimSlot.SingleSeatFull | src/cli/commands/claim-slot.ts:33-35 | a held one-seat slot refuses a second agent |
| ClaimSlot.SingleSeatWrongProvider | src/cli/commands/claim-slot.ts:37-39 | a provider that is not approved is refused, and the error names the approved ones |
| Worker.InsertKeepsOrder | src/cli/commands/worker.ts:90 | inserting a message into a timestamp-ordered list keeps it ordered |
| Worker.SortByTime | src/cli/commands/worker.ts:90 | sorting gives a permutation of the messages in timestamp order, and it is stable: for every timestamp, the messages with that timestamp keep their reading order |
| Worker.SortedUnique | src/cli/commands/worker.ts:90 | when timestamps tell messages apart, there is only one ordered arrangement |
| Worker.EarliestFirst | src/cli/commands/worker.ts:90 | the first polled message is the earliest |
| Worker.Poll | src/cli/commands/worker.ts:69-91 | the poll holds, ordered by timestamp, the `.json` messages read before the first unreadable message file in listing order: an unreadable file ends the one try around the loop, so the files listed after it are not read. A missing inbox polls nothing |
| Worker.PolledFromInbox | src/cli/commands/worker.ts:76 | every polled message comes from a listed `.json` file of the inbox |
| Worker.PollIgnoresListingOrder | src/cli/commands/worker.ts:69-91 | when no listed message file is unreadable and no two different messages share a timestamp, the order in which the directory is listed does not change the poll. Both conditions are needed: messages with equal timestamps keep their reading order, and an unreadable file cuts off the files listed after it |
| Worker.Dispatch | src/cli/commands/worker.ts:93-110 | a handled task assignment names the message's task, and an unknown type is reported with its own name |
| Worker.DispatchByType | src/cli/commands/worker.ts:97-109 | `TASK_ASSIGN` assigns the task and `SYNC` is a sync. Every other type, including the known ones, is reported as unknown |
| Worker.Acknowledge | src/cli/commands/worker.ts:49-52 | acknowledging succeeds exactly when the message file and `.read` both exist. It moves that one file and leaves every other file alone |
| Worker.AcknowledgedNotPolledAgain | src/cli/commands/worker.ts:49-52 | once acknowledged, a message is not polled again from an inbox whose files are named by their ids |
| Worker.Heartbeat | src/cli/commands/worker.ts:112-123 | the heartbeat sets `lastActive` in the agent's own file. A missing or unreadable file is left alone |
| Worker.ProcessBatch | src/cli/commands/worker.ts:42-53 | the trace handles each message and then acknowledges it, in poll order. A failure ends the batch right after a handling |
| Worker.AckFollowsProcessing | src/cli/commands/worker.ts:42-53 | every acknowledgement immediately follows the handling of the same message |
| Worker.BatchAcknowledgesAll | src/cli/commands/worker.ts:42-53 | with `.read` present and distinct files, every message of the batch moves to `.read` with its contents |
| Worker.KeptAcrossBatch | src/cli/commands/worker.ts:42-53 | a message already in `.read` stays there, unchanged |
| Worker.Cycle | src/cli/commands/worker.ts:37-64 | one iteration runs the batch and then the heartbeat. A failure skips the heartbeat and leaves the agents unchanged |
| Worker.LoopStep | src/cli/commands/worker.ts:24-37 | a stopped worker does nothing, and a running one finishes the iteration before it honours a stop |
| Worker.NothingAfterStop | src/cli/commands/worker.ts:24-37 | after a stop the worker emits nothing and changes nothing |
| Worker.StopEndsRun | src/cli/commands/worker.ts:24-37 | a stop during an iteration makes that iteration the run's last |
| Worker.StartAsWritten | src/cli/commands/worker.ts:21 | starting creates the inbox but not `.read` |
| Worker.AsWrittenNeverAcknowledges | src/cli/commands/worker.ts:21-60 | as written, each cycle handles the earliest message, fails to acknowledge it, skips the heartbeat, and leaves the state as it was |
| Worker.Start | src/cli/commands/worker.ts:21 | the corrected start creates both the inbox and `.read` |
| Worker.StartedCycleAcknowledgesAll | src/cli/commands/worker.ts:37-64 | after the corrected start, a cycle acknowledges every polled message and then beats the heart |
| SlotCommands.CreateSlot | src/cli/commands/slot.ts:65-78 | a created slot is approved by `cli` and available, with no claims and non-empty provider and model lists |
| SlotCommands.CreateSlotDefaults | src/cli/commands/slot.ts:58-60 | with no options the slot admits `openclaw` running `kimi-coding/k2p5`, one at a time |
| SlotCommands.CreateSlotReadsOptions | src/cli/commands/slot.ts:58-72 | comma-joined provider and model lists come back item by item, and a decimal capacity comes back as that number |
| SlotCommands.CreateSlotCommand | src/cli/commands/slot.ts:54-93 | without a project in the working directory nothing is written. Otherwise the created slot is saved under the project's recorded path, and no other directory changes |
| SlotCommands.CreatedSlotIsShown | src/cli/commands/slot.ts:54-107 | after `slot create`, the slot loads from the project's directory and `slot show` of its name no longer reports it missing |
| SlotCommands.ClaimedBy | src/cli/commands/slot.ts:35-37 | the column shows `-` exactly for a slot that nobody holds |
| SlotCommands.ClaimedByAfterClaim | src/cli/commands/slot.ts:33-45 | after a claim the column names the new agent when the slot was free, and the earlier holder otherwise |
| SlotCommands.ShowSlot | src/cli/commands/slot.ts:100-123 | `show` reports an unknown id exactly when no slot has it. For the first slot with the id it succeeds exactly when every current claim is dated by a `Date`, and otherwise fails on `toISOString`. Success returns that first slot |
| SlotCommands.ShowSlotCommand | src/cli/commands/slot.ts:98-101 | `show` fails without a project in the working directory, and otherwise shows from the slots under the project's recorded path |
| SlotCommands.ShowAgreesWithClaim | src/cli/commands/slot.ts:100-107 | `show` and `claim-slot` agree on which ids are unknown |
| SlotCommands.ShowFailsOnHeldSlots | src/cli/commands/slot.ts:117-123 | on loaded slots, `show` of a known id succeeds exactly when that slot holds no current claim |
| SlotCommands.ShowSucceedsOnRevivedSlots | src/cli/commands/slot.ts:117-123 | with dates revived, `show` of a known id always succeeds |
| TaskCommands.ListTasks | src/cli/commands/task.ts:18-23 | the list holds exactly the tasks that match both filters, and with no filter every task |
| TaskCommands.ListTasksIsOneFilter | src/cli/commands/task.ts:18-23 | the two filters in sequence are one filter, and the result keeps load order |
| TaskCommands.ListByStatusThenAssignee | src/cli/commands/task.ts:18-23 | filtering by status and then by assignee gives the combined filter |
| TaskCommands.ListByAssigneeThenStatus | src/cli/commands/task.ts:18-23 | the two filters commute |
| TaskCommands.GenerateTaskId | src/cli/commands/task.ts:125-128 | a task id has 6 to 9 characters |
| TaskCommands.TaskIdShape | src/cli/commands/task.ts:125-128 | a task id is `TASK-` followed by upper-case base-36 digits |
| TaskCommands.TaskIdEncodesTime | src/cli/commands/task.ts:125-128 | the id's digits spell the clock modulo 36^4 |
| TaskCommands.TaskIdCollision | src/cli/commands/task.ts:125-128 | two instants get the same id exactly when they agree modulo 36^4 |
| TaskCommands.TaskIdRepeats | src/cli/commands/task.ts:125-128 | ids repeat every 36^4 milliseconds |
| TaskCommands.Dependencies | src/cli/commands/task.ts:82 | a given dependency option yields at least one entry, and none yields none |
| TaskCommands.CreateTask | src/cli/commands/task.ts:74-88 | the new task is `todo` exactly when an assignee is given and `backlog` otherwise, with the default priority, no progress and no checkpoints |
| TaskCommands.CreateTaskReadsDepends | src/cli/commands/task.ts:82 | comma-joined dependencies come back item by item |
| TaskCommands.CreateTaskCommand | src/cli/commands/task.ts:63-107 | without a project in the working directory nothing is written. Otherwise the task gets the clock-derived id and is saved under the project's recorded path, and no other directory changes |
| TaskCommands.ListTasksCommand | src/cli/commands/task.ts:12-23 | `task list` fails exactly without a project, and otherwise filters the tasks under the project's recorded path |
| TaskCommands.CreatedTaskIsListed | src/cli/commands/task.ts:12-107 | a created task is listed by `task list` when filtering by its own status and assignee |
| StatusCommand.Summarize | src/cli/commands/status.ts:17-25 | the summary counts claimed slots, active or busy agents, and tasks in progress and blocked, against the totals |
| StatusCommand.IconOf | src/cli/commands/status.ts:32 | busy and blocked agents get their own markers |
| StatusCommand.AgentRowOf | src/cli/commands/status.ts:29-37 | an agent's row shows its id, role and current task, or `idle` |
| StatusCommand.AgentRows | src/cli/commands/status.ts:29-37 | the rows are exactly those of the agents that are not offline |
| StatusCommand.AgentRowsCount | src/cli/commands/status.ts:17-37 | every agent is either listed or offline, and the active count is at most the number listed |
| StatusCommand.TaskRowOf | src/cli/commands/status.ts:40-47 | a task row shows at most 40 characters of the title and the assignee or `unassigned` |
| StatusCommand.TaskRows | src/cli/commands/status.ts:40-47 | the rows are exactly those of the tasks in progress or blocked |
| StatusCommand.TaskRowsMatchSummary | src/cli/commands/status.ts:17-47 | the task section has one row per task that the summary counts as in progress or blocked |
| StatusCommand.Status | src/cli/commands/status.ts:4-47 | status fails exactly without a project in the working directory. It reports the project's name and recorded path, and summarises what is loaded from that path. The agents section appears exactly when any agent is loaded |
| StatusCommand.ClaimRaisesClaimedCount | src/cli/commands/status.ts:17-20 | a claim on an unclaimed slot raises the claimed count by one, and one on a claimed slot keeps it |
| GitHub.StripGit | src/core/github.ts:186 | the repository name is the text with one trailing `.git` removed when there is more before it |
| GitHub.MatchAt | src/core/github.ts:186 | a match at a position has `github.com` and a separator there, then a slash-free owner, a slash and a slash-free name |
| GitHub.MatchAtComplete | src/core/github.ts:186 | every such position matches, with the owner and the stripped name |
| GitHub.ParseGitHubUrl | src/core/github.ts:185-191 | parsing fails exactly when no position matches, and otherwise takes the first match |
| GitHub.ParseHttpsGit | src/core/github.ts:185-191 | an https URL ending in `.git` parses to its owner and name |
| GitHub.ParseHttps | src/core/github.ts:185-191 | an https URL without `.git` parses to its owner and name |
| GitHub.ParseSsh | src/core/github.ts:185-191 | an ssh URL parses to its owner and name |
| GitHub.ParseRejectsDeeperPath | src/core/github.ts:185-191 | a URL with a path below the repository is rejected |
| GitHub.IssueBodyLines | src/core/github.ts:194-225 | the body's lines show the task id, priority, assignee and description, then one unchecked box per dependency, in order |
| GitHub.IssueBodySplits | src/core/github.ts:206-224 | the body splits back into the template's lines |
| GitHub.IssueBodyHasDependenciesIff | src/core/github.ts:202-204 | the body has a dependencies heading exactly when the task has dependencies |
| Codex.NewProvider | src/providers/codex.ts:20-25 | the model defaults to `gpt-4o` and the working directory to the current one, and accept-all is on only when set to true |
| Codex.CodexArgs | src/providers/codex.ts:117-125 | the arguments are the prompt, then `--accept-all` exactly when enabled, then `--model` and the model exactly when a model is set |
| Codex.ConstructedArgsNameModel | src/providers/codex.ts:20-25 | a constructed provider always passes `--model` with the configured or default model |
| Codex.PromptReadsBack | src/providers/codex.ts:168-189 | the prompt's lines give back the agent, the task title, the description when there is one, and each responsibility on its own bullet line |
| Codex.PromptSplits | src/providers/codex.ts:168-189 | the prompt splits back into the template's lines |
| Codex.PromptHasDescriptionIff | src/providers/codex.ts:172 | the prompt has a description line exactly when the task has a non-empty description |
| Codex.Classify | src/providers/codex.ts:211-219 | a line is a header exactly when it names a section, and a comments header exactly when it names comments. A bullet's item is the trimmed text after its marker |
| Codex.ParseReviewResult | src/providers/codex.ts:194-225 | approval means the output mentions "approve" and not "request changes". The comments and suggestions are the bullets under the matching last header |
| Codex.SectionIsLastHeader | src/providers/codex.ts:209-222 | the current section is the one named by the last header so far, and there is none before the first header |
| Codex.ItemsAreSectionBullets | src/providers/codex.ts:209-222 | an item is collected exactly when some bullet with that text lies in its section |
| Codex.BulletsBeforeHeaderDropped | src/providers/codex.ts:209-222 | bullets before any header are dropped |
| Codex.ItemsCount | src/providers/codex.ts:209-222 | no line is collected twice |
| Codex.BulletReadsBack | src/providers/codex.ts:216-219 | a `-` or `*` line that names no section reads back as its text |
| Codex.RenderedReviewReadsBack | src/providers/codex.ts:194-225 | parsing a rendered review gives back its comments and suggestions, in order |
| Codex.ApprovalIgnoresCase | src/providers/codex.ts:199-200 | approval does not depend on letter case |
| Codex.MentionApproves | src/providers/codex.ts:199-200 | any mention of "approve", even a negated one, approves unless changes are requested |
| Codex.RequestChangesVetoes | src/providers/codex.ts:199-200 | asking for changes always withholds approval |

## Left out

- Console output: the colours, icons and column padding of every listing are left out. The model keeps only the values printed.
- YAML and JSON serialisation: it is modelled as the identity on the records, and a file that fails to parse is `Unreadable`.
- Dates: a `Date` is an integer instant in milliseconds, and the clock is a parameter. The ISO rendering is not spelled out: text keeps the instant it stands for. That the YAML writer renders a `Date` as ISO text follows from `Date.prototype.toJSON`.
- Error text: the `... is not a function` wording of the TypeErrors is that of the V8 engine.
- `slot show` prints the slot's fields before it throws on a claim date. Printed output is not modelled, so the model returns only the error.
- Store.NormalizeFacts: a slot read back is unchanged only when its dates are already text. A slot dated by `Date`s reads back with text dates, as Store.ReadBack states.
- ClaimSlot.RepeatedClaimsAdmitted: it chains admissions in memory. Through the slot file as written, the second claim throws (see Findings); ClaimSlot.RevivedClaimsFillSlot states the chain through the file with dates revived.
- ClaimSlot.CapacityExhausted: it is stated in memory, for the same reason; the file-level statement is ClaimSlot.RevivedClaimsFillSlot.
- ClaimSlot.Admission: one instant `now` stands for the separate clock readings of one claim: the session key (claim-slot.ts:41) and `claimedAt` (claim-slot.ts:79). The source reads the clock for each, and the readings can fall in different milliseconds; the model does not cover that case.
- ClaimSlot.NewAgent: `joinedAt` and `lastActive` (claim-slot.ts:62-63) are set from the same instant as the session key. The source reads the clock for each.
- TaskCommands.CreateTask: one instant gives both the task id (task.ts:126) and `createdAt` (task.ts:85). The source reads the clock twice.
- Strings.PathJoin: `path.join` normalisation of `.`, `..`, doubled slashes and a trailing slash is not modelled. So `--project ./proj/` gives `./proj//.acp/...` in the manifest paths of ClaimSlot.BuildManifest, where Node gives `proj/.acp/...`.
- ClaimSlot.Capitalize: upper-casing maps only the ASCII letters a to z, while JavaScript's `toUpperCase` maps every Unicode letter. `charAt(0)` is a UTF-16 unit, and the model takes a whole character.
- StatusCommand.TaskRowOf: `slice(0, 40)` counts UTF-16 units, and StatusCommand.Take counts characters. The two differ on titles outside the Basic Multilingual Plane.
- Signal handling: the worker's SIGINT and SIGTERM handlers are a `stopRequested` input to each iteration.
- Sleeping: the five-second sleep between polls is left out.
- `slot release` and the other parts of `src/cli/commands/agent.ts` are left out because that source is not part of this model.
- `slot delete`, `task assign` and `task show` only print "Not implemented yet", so they are left out.
- The Codex provider's `executeTask`, `reviewCode` and `generateCode` prompts, the `spawn` of the `codex` process and its environment, `isAvailable`, `detectFileChanges`, `getProviderInfo` and `createCodexProvider` are left out. They are process I/O, or templates that no property here depends on.
- The GitHub REST client methods are left out because they are network calls. Only URL parsing and the issue-body template are modelled.
- Whitespace: trimming and `parseInt` recognise space, tab, newline, carriage return, vertical tab and form feed, but not the other Unicode blanks that JavaScript also trims.
- Number precision: numbers are unbounded integers, so JavaScript's rounding of values above 2^53 is not modelled.
- GitHub.ParseRejectsDeeperPath: it is stated only for owners that do not themselves end in `github.com`, and for repository names without a colon. A name holding `github.com:` would give the pattern a second place to match.

## Findings

| source | as written | input that shows it | evidently intended | confidence | as-written member | corrected member |
|---|---|---|---|---|---|---|
| src/cli/commands/worker.ts:21, 49-52 | `startWorker` creates the inbox but never its `.read` sub-directory. Every acknowledgement renames into `.read`, so the rename fails and the `catch` abandons the batch | a fresh inbox holding one message file `m1.json`, with no `.read` directory. Each cycle handles `m1` again, never moves it, and never updates the heartbeat | the start also creates `.read`, so that each handled message moves there once and the heartbeat follows | not executed | Worker.AsWrittenNeverAcknowledges | Worker.StartedCycleAcknowledgesAll |
| src/cli/commands/claim-slot.ts:94, 98; src/core/project.ts:93-98; src/cli/commands/slot.ts:122 | `claim-slot` writes each claim date as ISO text, and `loadSlots` hands the text back as a string without turning it into a `Date`. The next `claim-slot` of that slot passes the gates, writes its agent file, and then throws at `c.claimedAt.toISOString()`. `slot show` throws at `claim.claimedAt.toISOString()` | a slot of capacity 2 claimed once through `claim-slot`, then claimed a second time | loading turns the dates back into `Date`s. The second claim is then written, and the slot takes claims up to its capacity and refuses the next as full | not executed | ClaimSlot.SecondClaimThrows | ClaimSlot.RevivedClaimsFillSlot |
