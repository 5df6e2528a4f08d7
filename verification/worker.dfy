/**
 * The agent's mailbox worker (src/cli/commands/worker.ts): poll the inbox,
 * handle each message in timestamp order and move it to `<inbox>/.read/`,
 * then touch the agent's heartbeat. One loop iteration is a step function;
 * signals and the five-second sleep are left to the caller, which supplies
 * the directory listing, the clock and whether a stop was requested.
 */
module Worker {
  import opened Wrappers
  import opened Strings
  import opened Seqs
  import opened Types
  import opened Store

  /** The agent's inbox directory and its `.read` sub-directory. Files are
      named by file name; a directory that does not exist holds nothing. */
  datatype Mailbox = Mailbox(
    inboxExists: bool,
    inbox: map<string, File<Message>>,
    readExists: bool,
    read: map<string, File<Message>>)

  /** Entries the poll reads: `*.json`, not hidden. */
  predicate IsMessageFileName(n: string) {
    EndsWith(n, ".json") && !StartsWith(n, ".")
  }

  function MessageFileName(id: string): string {
    id + ".json"
  }

  /** Every readable message sits in the file named by its own id. */
  predicate WellNamed(inbox: map<string, File<Message>>) {
    forall n :: n in inbox && inbox[n].Document? ==> n == MessageFileName(inbox[n].doc.id)
  }

  /** No two different readable messages of the inbox share a timestamp. */
  predicate TimestampsDistinguish(inbox: map<string, File<Message>>) {
    forall n1, n2 :: n1 in inbox && n2 in inbox && inbox[n1].Document? && inbox[n2].Document?
                     && inbox[n1].doc.timestamp == inbox[n2].doc.timestamp
                     ==> inbox[n1] == inbox[n2]
  }

  function KeepMessage(m: Message): Option<Message> {
    Some(m)
  }

  // ---------------------------------------------------------------------------
  // Ordering by timestamp
  // ---------------------------------------------------------------------------

  ghost predicate SortedByTime(s: seq<Message>) {
    forall i, j :: 0 <= i < j < |s| ==> s[i].timestamp <= s[j].timestamp
  }

  /** Insert `x` before the first element that is not earlier than it. */
  function InsertByTime(x: Message, s: seq<Message>): (r: seq<Message>)
    ensures |r| == |s| + 1
    ensures multiset(r) == multiset(s) + multiset{x}
    ensures r[0] == x || (|s| > 0 && r[0] == s[0])
    decreases |s|
  {
    if |s| == 0 then [x]
    else if x.timestamp <= s[0].timestamp then [x] + s
    else
      assert s == [s[0]] + s[1..];
      [s[0]] + InsertByTime(x, s[1..])
  }

  /** Inserting into an ordered sequence keeps it ordered. */
  lemma {:induction false} InsertKeepsOrder(x: Message, s: seq<Message>)
    requires SortedByTime(s)
    ensures SortedByTime(InsertByTime(x, s))
    decreases |s|
  {
    if |s| == 0 {
    } else if x.timestamp <= s[0].timestamp {
      ConsSorted(x, s);
    } else {
      InsertKeepsOrder(x, s[1..]);
      var rest := InsertByTime(x, s[1..]);
      assert s[0].timestamp <= rest[0].timestamp;
      ConsSorted(s[0], rest);
    }
  }

  /** An element no later than the head of an ordered sequence can go in
      front of it. */
  lemma ConsSorted(h: Message, s: seq<Message>)
    requires SortedByTime(s)
    requires |s| > 0 ==> h.timestamp <= s[0].timestamp
    ensures SortedByTime([h] + s)
  {
    var r := [h] + s;
    forall i, j | 0 <= i < j < |r| ensures r[i].timestamp <= r[j].timestamp {
      if i == 0 && j > 1 {
        assert s[0].timestamp <= s[j - 1].timestamp;
      }
    }
  }

  /** The messages stamped `t`. */
  function HasTime(t: int): Message -> bool {
    (m: Message) => m.timestamp == t
  }

  /** Inserting `x` puts it ahead of every message with its timestamp and
      leaves the messages of each timestamp in their order. */
  lemma {:induction false} InsertKeepsTies(x: Message, s: seq<Message>, t: int)
    ensures Filter(InsertByTime(x, s), HasTime(t)) == Filter([x], HasTime(t)) + Filter(s, HasTime(t))
    decreases |s|
  {
    var p := HasTime(t);
    if |s| == 0 {
      assert InsertByTime(x, s) == [x] + s;
    } else if x.timestamp <= s[0].timestamp {
      FilterCons(x, s, p);
    } else {
      var rest := InsertByTime(x, s[1..]);
      InsertKeepsTies(x, s[1..], t);
      FilterCons(s[0], rest, p);
      assert s == [s[0]] + s[1..];
      FilterCons(s[0], s[1..], p);
      FilterSingle(s[0], p);
      FilterSingle(x, p);
    }
  }

  /** Inserting the first message into the sorted rest keeps, for every
      timestamp, the messages of that timestamp in their reading order. */
  lemma SortStepKeepsTies(s: seq<Message>, rest: seq<Message>)
    requires |s| > 0
    requires forall t :: Filter(rest, HasTime(t)) == Filter(s[1..], HasTime(t))
    ensures forall t :: Filter(InsertByTime(s[0], rest), HasTime(t)) == Filter(s, HasTime(t))
  {
    assert s == [s[0]] + s[1..];
    forall t ensures Filter(InsertByTime(s[0], rest), HasTime(t)) == Filter(s, HasTime(t)) {
      InsertKeepsTies(s[0], rest, t);
      FilterCons(s[0], s[1..], HasTime(t));
    }
  }

  /** `messages.sort((a, b) => a.timestamp - b.timestamp)`: a stable sort,
      so messages with equal timestamps keep their reading order. */
  function SortByTime(s: seq<Message>): (r: seq<Message>)
    ensures |r| == |s|
    ensures multiset(r) == multiset(s)
    ensures SortedByTime(r)
    ensures forall t :: Filter(r, HasTime(t)) == Filter(s, HasTime(t))
    decreases |s|
  {
    if |s| == 0 then []
    else
      assert s == [s[0]] + s[1..];
      var rest := SortByTime(s[1..]);
      InsertKeepsOrder(s[0], rest);
      SortStepKeepsTies(s, rest);
      InsertByTime(s[0], rest)
  }

  /** Two orderings by time of the same messages are the same sequence, as
      long as no two different messages share a timestamp. */
  lemma {:induction false} SortedUnique(a: seq<Message>, b: seq<Message>)
    requires SortedByTime(a) && SortedByTime(b)
    requires multiset(a) == multiset(b)
    requires Distinguished(multiset(a))
    ensures a == b
    decreases |a|
  {
    if |a| == 0 {
      assert |b| == |multiset(b)| == 0;
    } else {
      assert |b| == |multiset(b)| == |a|;
      SameHead(a, b);
      DropHead(a);
      DropHead(b);
      SortedUnique(a[1..], b[1..]);
    }
  }

  /** Different messages of `ms` have different timestamps. */
  ghost predicate Distinguished(ms: multiset<Message>) {
    forall x, y :: x in ms && y in ms && x.timestamp == y.timestamp ==> x == y
  }

  /** The tail of an ordering is an ordering of the other elements. */
  lemma DropHead(a: seq<Message>)
    requires |a| > 0 && SortedByTime(a)
    ensures SortedByTime(a[1..])
    ensures multiset(a[1..]) == multiset(a) - multiset{a[0]}
    ensures Distinguished(multiset(a)) ==> Distinguished(multiset(a[1..]))
  {
    assert a == [a[0]] + a[1..];
    forall i, j | 0 <= i < j < |a[1..]| ensures a[1..][i].timestamp <= a[1..][j].timestamp {
      assert a[1..][i] == a[i + 1] && a[1..][j] == a[j + 1];
    }
  }

  /** The first elements of two such orderings coincide. */
  lemma SameHead(a: seq<Message>, b: seq<Message>)
    requires |a| > 0 && |b| > 0
    requires SortedByTime(a) && SortedByTime(b)
    requires multiset(a) == multiset(b)
    requires Distinguished(multiset(a))
    ensures a[0] == b[0]
  {
    EarliestFirst(a, b[0]);
    EarliestFirst(b, a[0]);
    assert a[0] in multiset(a) && b[0] in multiset(a);
  }

  /** The head of an ordering is no later than any of its elements. */
  lemma EarliestFirst(s: seq<Message>, x: Message)
    requires |s| > 0 && SortedByTime(s) && x in multiset(s)
    ensures s[0].timestamp <= x.timestamp
  {
    var i :| 0 <= i < |s| && s[i] == x;
    if i > 0 {
      assert s[0].timestamp <= s[i].timestamp;
    }
  }

  // ---------------------------------------------------------------------------
  // Polling
  // ---------------------------------------------------------------------------

  /** `checkInbox`: read the message files in listing order, stop at the
      first one that cannot be read or parsed, and return what was read
      sorted by timestamp; a missing inbox gives nothing. */
  function Poll(mb: Mailbox, listing: seq<string>): (r: seq<Message>)
    ensures !mb.inboxExists ==> r == []
    ensures mb.inboxExists ==>
              multiset(r) == multiset(Scan(listing, mb.inbox, IsMessageFileName, KeepMessage))
    ensures SortedByTime(r)
  {
    if !mb.inboxExists then []
    else SortByTime(Scan(listing, mb.inbox, IsMessageFileName, KeepMessage))
  }

  /** Every polled message was read from a visible `.json` file of the inbox
      holding exactly that message; hidden entries such as `.read` never are. */
  lemma PolledFromInbox(mb: Mailbox, listing: seq<string>, m: Message)
    requires m in Poll(mb, listing)
    ensures mb.inboxExists
    ensures exists i :: 0 <= i < |listing| && IsMessageFileName(listing[i])
                        && listing[i] in mb.inbox && mb.inbox[listing[i]] == Document(m)
  {
    var r := Poll(mb, listing);
    assert m in multiset(r);
    ScanMember(listing, mb.inbox, IsMessageFileName, KeepMessage, m);
  }

  /** The poll does not depend on the order the directory lists its entries
      in, when no message file is broken and timestamps tell the messages
      apart. */
  lemma PollIgnoresListingOrder(mb: Mailbox, l1: seq<string>, l2: seq<string>)
    requires multiset(l1) == multiset(l2)
    requires forall i :: 0 <= i < |l1| ==> !Broken(mb.inbox, IsMessageFileName, l1[i])
    requires TimestampsDistinguish(mb.inbox)
    ensures Poll(mb, l1) == Poll(mb, l2)
  {
    if mb.inboxExists {
      forall i | 0 <= i < |l2| ensures !Broken(mb.inbox, IsMessageFileName, l2[i]) {
        assert l2[i] in multiset(l1);
      }
      ScanWithoutBroken(l1, mb.inbox, IsMessageFileName, KeepMessage);
      ScanWithoutBroken(l2, mb.inbox, IsMessageFileName, KeepMessage);
      ScanAllPermutation(l1, l2, mb.inbox, IsMessageFileName, KeepMessage);
      var a := Poll(mb, l1);
      forall x: Message, y: Message | x in multiset(a) && y in multiset(a) && x.timestamp == y.timestamp
        ensures x == y
      {
        PolledFromInbox(mb, l1, x);
        PolledFromInbox(mb, l1, y);
      }
      SortedUnique(a, Poll(mb, l2));
    }
  }

  // ---------------------------------------------------------------------------
  // Handling one message
  // ---------------------------------------------------------------------------

  /** What `processMessage` did with a message. No branch fails. */
  datatype Handled = TaskAssigned(task: Option<string>) | SyncRequested | UnknownType(msgType: string)

  function Dispatch(m: Message): (h: Handled)
    ensures h.TaskAssigned? ==> h.task == m.task
    ensures h.UnknownType? ==> h.msgType == m.msgType
  {
    match m.msgType
    case "TASK_ASSIGN" => TaskAssigned(m.task)
    case "SYNC" => SyncRequested
    case _ => UnknownType(m.msgType)
  }

  /** Of the seventeen message types only TASK_ASSIGN and SYNC have a
      handler; HEARTBEAT and every other tag fall through to the default. */
  lemma DispatchByType(m: Message, t: MessageType)
    requires m.msgType == MessageTypeName(t)
    ensures t == TaskAssign ==> Dispatch(m) == TaskAssigned(m.task)
    ensures t == Sync ==> Dispatch(m) == SyncRequested
    ensures t != TaskAssign && t != Sync ==> Dispatch(m) == UnknownType(m.msgType)
  {
  }

  // ---------------------------------------------------------------------------
  // Acknowledging
  // ---------------------------------------------------------------------------

  /** Why a rename fails: its source or its target directory is missing. */
  datatype IoError = NoSuchFile(name: string)

  /** Rename `<inbox>/<id>.json` to `<inbox>/.read/<id>.json`. */
  function Acknowledge(mb: Mailbox, id: string): (r: Result<Mailbox, IoError>)
    ensures r.Success? <==> mb.inboxExists && MessageFileName(id) in mb.inbox && mb.readExists
    ensures r.Success? ==>
      var n := MessageFileName(id);
      && r.value.inboxExists && r.value.readExists
      && n !in r.value.inbox && n in r.value.read && r.value.read[n] == mb.inbox[n]
      && (forall k :: k in mb.inbox && k != n ==> k in r.value.inbox && r.value.inbox[k] == mb.inbox[k])
      && r.value.inbox.Keys == mb.inbox.Keys - {n}
      && (forall k :: k in mb.read && k != n ==> k in r.value.read && r.value.read[k] == mb.read[k])
  {
    var n := MessageFileName(id);
    if !mb.inboxExists || n !in mb.inbox then Failure(NoSuchFile(n))
    else if !mb.readExists then Failure(NoSuchFile(".read/" + n))
    else Success(mb.(inbox := mb.inbox - {n}, read := mb.read[n := mb.inbox[n]]))
  }

  /** A message file once moved is not read by any later poll. */
  lemma AcknowledgedNotPolledAgain(mb: Mailbox, id: string, listing: seq<string>, m: Message)
    requires Acknowledge(mb, id).Success?
    requires m in Poll(Acknowledge(mb, id).value, listing)
    ensures m.id != id || !WellNamed(Acknowledge(mb, id).value.inbox)
  {
    var mb' := Acknowledge(mb, id).value;
    PolledFromInbox(mb', listing, m);
  }

  // ---------------------------------------------------------------------------
  // Heartbeat
  // ---------------------------------------------------------------------------

  /** `updateHeartbeat`: rewrite `<agentId>.json` with `lastActive` set to
      now; a missing or unreadable agent file is silently left alone. */
  function Heartbeat(agents: Dir<Agent>, agentId: string, now: int): (r: Dir<Agent>)
    ensures var n := AgentFileName(agentId);
      agents.None? || n !in agents.value || agents.value[n].Unreadable? ==> r == agents
    ensures var n := AgentFileName(agentId);
      agents.Some? && n in agents.value && agents.value[n].Document? ==>
        && r.Some? && r.value.Keys == agents.value.Keys
        && r.value[n] == Document(agents.value[n].doc.(lastActive := now))
        && (forall k :: k in agents.value && k != n ==> r.value[k] == agents.value[k])
  {
    var n := AgentFileName(agentId);
    if agents.None? || n !in agents.value || agents.value[n].Unreadable? then agents
    else Some(agents.value[n := Document(agents.value[n].doc.(lastActive := now))])
  }

  // ---------------------------------------------------------------------------
  // One batch
  // ---------------------------------------------------------------------------

  datatype Event = Processed(id: string, handled: Handled) | Acked(id: string)

  /** The event the batch emits at position `i`: message i/2 is processed,
      then acknowledged. */
  function BatchEvent(msgs: seq<Message>, i: nat): Event
    requires i / 2 < |msgs|
  {
    var m := msgs[i / 2];
    if i % 2 == 0 then Processed(m.id, Dispatch(m)) else Acked(m.id)
  }

  datatype BatchResult = BatchResult(mailbox: Mailbox, trace: seq<Event>, failed: bool)

  /** The `for` loop: process a message, then acknowledge it; the first
      failed rename throws out of the loop with the rest unhandled. */
  function ProcessBatch(mb: Mailbox, msgs: seq<Message>): (r: BatchResult)
    ensures |r.trace| <= 2 * |msgs|
    ensures forall i :: 0 <= i < |r.trace| ==> i / 2 < |msgs| && r.trace[i] == BatchEvent(msgs, i)
    ensures !r.failed ==> |r.trace| == 2 * |msgs|
    ensures r.failed ==> |r.trace| % 2 == 1
    decreases |msgs|
  {
    if |msgs| == 0 then BatchResult(mb, [], false)
    else
      var m := msgs[0];
      var ev := Processed(m.id, Dispatch(m));
      match Acknowledge(mb, m.id)
      case Failure(_) => BatchResult(mb, [ev], true)
      case Success(mb') =>
        var rest := ProcessBatch(mb', msgs[1..]);
        ShiftedEvents(msgs, rest.trace);
        BatchResult(rest.mailbox, [ev, Acked(m.id)] + rest.trace, rest.failed)
  }

  /** The events of the rest of the batch, shifted behind the first message's
      two events, are the batch's events. */
  lemma ShiftedEvents(msgs: seq<Message>, tail: seq<Event>)
    requires |msgs| > 0
    requires forall i :: 0 <= i < |tail| ==> i / 2 < |msgs[1..]| && tail[i] == BatchEvent(msgs[1..], i)
    ensures var trace := [Processed(msgs[0].id, Dispatch(msgs[0])), Acked(msgs[0].id)] + tail;
      forall i :: 0 <= i < |trace| ==> i / 2 < |msgs| && trace[i] == BatchEvent(msgs, i)
  {
    var trace := [Processed(msgs[0].id, Dispatch(msgs[0])), Acked(msgs[0].id)] + tail;
    forall i | 0 <= i < |trace|
      ensures i / 2 < |msgs| && trace[i] == BatchEvent(msgs, i)
    {
      if i >= 2 {
        assert trace[i] == tail[i - 2];
        assert (i - 2) / 2 == i / 2 - 1 && (i - 2) % 2 == i % 2;
        assert msgs[1..][(i - 2) / 2] == msgs[i / 2];
      }
    }
  }

  /** Each acknowledgement directly follows the processing of its message. */
  lemma AckFollowsProcessing(mb: Mailbox, msgs: seq<Message>, i: nat)
    requires i < |ProcessBatch(mb, msgs).trace| && ProcessBatch(mb, msgs).trace[i].Acked?
    ensures i > 0 && ProcessBatch(mb, msgs).trace[i - 1].Processed?
    ensures ProcessBatch(mb, msgs).trace[i - 1].id == ProcessBatch(mb, msgs).trace[i].id
  {
    var t := ProcessBatch(mb, msgs).trace;
    assert t[i] == BatchEvent(msgs, i) && i % 2 == 1;
    assert t[i - 1] == BatchEvent(msgs, i - 1) && (i - 1) / 2 == i / 2;
  }

  /** Messages with distinct ids, each in its own file of the inbox, are all
      acknowledged when `.read` exists: every file moves there and nothing
      fails. */
  lemma {:induction false} BatchAcknowledgesAll(mb: Mailbox, msgs: seq<Message>)
    requires mb.inboxExists && mb.readExists
    requires forall i :: 0 <= i < |msgs| ==> MessageFileName(msgs[i].id) in mb.inbox
    requires forall i, j :: 0 <= i < j < |msgs| ==> msgs[i].id != msgs[j].id
    ensures !ProcessBatch(mb, msgs).failed
    ensures var out := ProcessBatch(mb, msgs).mailbox;
      forall i :: 0 <= i < |msgs| ==>
        MessageFileName(msgs[i].id) !in out.inbox
        && MessageFileName(msgs[i].id) in out.read
        && out.read[MessageFileName(msgs[i].id)] == mb.inbox[MessageFileName(msgs[i].id)]
    decreases |msgs|
  {
    if |msgs| > 0 {
      var n := MessageFileName(msgs[0].id);
      var mb' := Acknowledge(mb, msgs[0].id).value;
      forall i | 0 <= i < |msgs[1..]| ensures MessageFileName(msgs[1..][i].id) in mb'.inbox {
        assert msgs[1..][i] == msgs[i + 1];
        IdsGiveFileNames(msgs[0].id, msgs[i + 1].id);
      }
      forall i, j | 0 <= i < j < |msgs[1..]| ensures msgs[1..][i].id != msgs[1..][j].id {
        assert msgs[1..][i] == msgs[i + 1] && msgs[1..][j] == msgs[j + 1];
      }
      BatchAcknowledgesAll(mb', msgs[1..]);
      var out := ProcessBatch(mb, msgs).mailbox;
      assert out == ProcessBatch(mb', msgs[1..]).mailbox;
      forall i | 0 <= i < |msgs|
        ensures MessageFileName(msgs[i].id) !in out.inbox
        ensures MessageFileName(msgs[i].id) in out.read
        ensures out.read[MessageFileName(msgs[i].id)] == mb.inbox[MessageFileName(msgs[i].id)]
      {
        if i > 0 {
          assert msgs[1..][i - 1] == msgs[i];
          IdsGiveFileNames(msgs[0].id, msgs[i].id);
        } else {
          KeptAcrossBatch(mb', msgs[1..], n);
        }
      }
    }
  }

  /** Different ids name different files. */
  lemma IdsGiveFileNames(a: string, b: string)
    requires a != b
    ensures MessageFileName(a) != MessageFileName(b)
  {
    assert MessageFileName(a)[..|a|] == a;
    assert MessageFileName(b)[..|b|] == b;
  }

  /** A file already in `.read` and absent from the inbox stays so while the
      rest of the batch runs. */
  lemma {:induction false} KeptAcrossBatch(mb: Mailbox, msgs: seq<Message>, n: string)
    requires n in mb.read && n !in mb.inbox
    ensures var out := ProcessBatch(mb, msgs).mailbox;
      n in out.read && out.read[n] == mb.read[n] && n !in out.inbox
    decreases |msgs|
  {
    if |msgs| > 0 && Acknowledge(mb, msgs[0].id).Success? {
      var mb' := Acknowledge(mb, msgs[0].id).value;
      assert MessageFileName(msgs[0].id) != n;
      KeptAcrossBatch(mb', msgs[1..], n);
    }
  }

  // ---------------------------------------------------------------------------
  // The loop
  // ---------------------------------------------------------------------------

  /** What the loop keeps between iterations: the mailbox, the agent files
      and the `running` flag. */
  datatype WorkerState = WorkerState(mailbox: Mailbox, agents: Dir<Agent>, running: bool)

  datatype CycleReport = CycleReport(state: WorkerState, trace: seq<Event>, failed: bool)

  /** The body of the `try`: poll, run the batch, then the heartbeat. A
      failure skips the rest of the batch and the heartbeat; the catch logs
      it and the loop goes on. Renames done before the failure stay done. */
  function Cycle(st: WorkerState, agentId: string, listing: seq<string>, now: int): (r: CycleReport)
    ensures r.state.running == st.running
    ensures var b := ProcessBatch(st.mailbox, Poll(st.mailbox, listing));
      r.trace == b.trace && r.failed == b.failed && r.state.mailbox == b.mailbox
    ensures r.failed ==> r.state.agents == st.agents
    ensures !r.failed ==> r.state.agents == Heartbeat(st.agents, agentId, now)
  {
    var b := ProcessBatch(st.mailbox, Poll(st.mailbox, listing));
    if b.failed then CycleReport(st.(mailbox := b.mailbox), b.trace, true)
    else CycleReport(st.(mailbox := b.mailbox, agents := Heartbeat(st.agents, agentId, now)), b.trace, false)
  }

  /** What the surroundings provide to one iteration. */
  datatype StepInput = StepInput(listing: seq<string>, now: int, stopRequested: bool)

  /** One turn of `while (running)`: a stopped worker does nothing; a running
      one completes a whole cycle and only then notices a stop signal that
      arrived meanwhile. */
  function LoopStep(st: WorkerState, agentId: string, input: StepInput): (r: (WorkerState, seq<Event>))
    ensures !st.running ==> r == (st, [])
    ensures st.running ==>
      var c := Cycle(st, agentId, input.listing, input.now);
      r.1 == c.trace && r.0 == c.state.(running := !input.stopRequested)
  {
    if !st.running then (st, [])
    else
      var c := Cycle(st, agentId, input.listing, input.now);
      (c.state.(running := !input.stopRequested), c.trace)
  }

  /** Several iterations; the trace is everything they emitted. */
  function Run(st: WorkerState, agentId: string, inputs: seq<StepInput>): (WorkerState, seq<Event>)
    decreases |inputs|
  {
    if |inputs| == 0 then (st, [])
    else
      var (st', t) := LoopStep(st, agentId, inputs[0]);
      var (st'', t') := Run(st', agentId, inputs[1..]);
      (st'', t + t')
  }

  /** After a stop request the worker handles nothing more: the iterations
      that follow leave the state alone and emit no event. */
  lemma {:induction false} NothingAfterStop(st: WorkerState, agentId: string, inputs: seq<StepInput>)
    requires !st.running
    ensures Run(st, agentId, inputs) == (st, [])
    decreases |inputs|
  {
    if |inputs| > 0 {
      NothingAfterStop(st, agentId, inputs[1..]);
      assert LoopStep(st, agentId, inputs[0]) == (st, []);
      var none: seq<Event> := [];
      assert none + none == none;
    }
  }

  /** A stop requested during an iteration ends the run after that iteration:
      the run's events are exactly that iteration's. */
  lemma StopEndsRun(st: WorkerState, agentId: string, inputs: seq<StepInput>)
    requires st.running && |inputs| > 0 && inputs[0].stopRequested
    ensures Run(st, agentId, inputs).1 == Cycle(st, agentId, inputs[0].listing, inputs[0].now).trace
    ensures !Run(st, agentId, inputs).0.running
  {
    var st' := LoopStep(st, agentId, inputs[0]).0;
    NothingAfterStop(st', agentId, inputs[1..]);
    assert Cycle(st, agentId, inputs[0].listing, inputs[0].now).trace + [] ==
           Cycle(st, agentId, inputs[0].listing, inputs[0].now).trace;
  }

  // ---------------------------------------------------------------------------
  // Starting, as written and corrected
  // ---------------------------------------------------------------------------

  /** `startWorker` as written: `mkdir -p` of the inbox only. */
  function StartAsWritten(mb: Mailbox, agents: Dir<Agent>): (st: WorkerState)
    ensures st.running && st.mailbox.inboxExists
    ensures st.mailbox.readExists == mb.readExists
  {
    WorkerState(mb.(inboxExists := true), agents, true)
  }

  /** Start creating `.read` as well, which every acknowledgement needs. */
  function Start(mb: Mailbox, agents: Dir<Agent>): (st: WorkerState)
    ensures st.running && st.mailbox.inboxExists && st.mailbox.readExists
    ensures st.mailbox.inbox == mb.inbox && st.mailbox.read == mb.read
  {
    WorkerState(mb.(inboxExists := true, readExists := true), agents, true)
  }

  /** As written, a fresh inbox never gets its `.read` directory, so the first
      rename of every cycle fails: the earliest message is handled, never
      acknowledged, the heartbeat is skipped, and the next cycle sees the
      very same state and handles that message again. */
  lemma AsWrittenNeverAcknowledges(mb: Mailbox, agents: Dir<Agent>, agentId: string,
                                   listing: seq<string>, now: int)
    requires !mb.readExists
    requires Poll(StartAsWritten(mb, agents).mailbox, listing) != []
    ensures var st := StartAsWritten(mb, agents);
      var first := Poll(st.mailbox, listing)[0];
      var c := Cycle(st, agentId, listing, now);
      && c.failed
      && c.trace == [Processed(first.id, Dispatch(first))]
      && c.state == st
  {
  }

  /** Started with `.read`, on an inbox whose files are named by their
      messages' ids and listed once each, a cycle acknowledges every polled
      message, moving its file to `.read`, and then beats the heart. */
  lemma StartedCycleAcknowledgesAll(mb: Mailbox, agents: Dir<Agent>, agentId: string,
                                    listing: seq<string>, now: int)
    requires WellNamed(mb.inbox)
    requires forall i, j :: 0 <= i < j < |listing| ==> listing[i] != listing[j]
    ensures var st := Start(mb, agents);
      var polled := Poll(st.mailbox, listing);
      var c := Cycle(st, agentId, listing, now);
      && !c.failed
      && |c.trace| == 2 * |polled|
      && c.state.agents == Heartbeat(agents, agentId, now)
      && (forall i :: 0 <= i < |polled| ==>
            MessageFileName(polled[i].id) !in c.state.mailbox.inbox
            && MessageFileName(polled[i].id) in c.state.mailbox.read)
  {
    var st := Start(mb, agents);
    var polled := Poll(st.mailbox, listing);
    PolledFilesPresent(st.mailbox, listing);
    PolledIdsDistinct(st.mailbox, listing);
    BatchAcknowledgesAll(st.mailbox, polled);
  }

  /** Under id-named files each polled message's own file is in the inbox. */
  lemma PolledFilesPresent(mb: Mailbox, listing: seq<string>)
    requires WellNamed(mb.inbox)
    ensures var polled := Poll(mb, listing);
      forall i :: 0 <= i < |polled| ==>
        MessageFileName(polled[i].id) in mb.inbox
        && mb.inbox[MessageFileName(polled[i].id)] == Document(polled[i])
  {
    var polled := Poll(mb, listing);
    forall i | 0 <= i < |polled|
      ensures MessageFileName(polled[i].id) in mb.inbox
      ensures mb.inbox[MessageFileName(polled[i].id)] == Document(polled[i])
    {
      PolledFromInbox(mb, listing, polled[i]);
    }
  }

  /** Under id-named files and a listing without repeats, no two polled
      messages share an id. */
  lemma PolledIdsDistinct(mb: Mailbox, listing: seq<string>)
    requires WellNamed(mb.inbox)
    requires forall i, j :: 0 <= i < j < |listing| ==> listing[i] != listing[j]
    ensures var polled := Poll(mb, listing);
      forall i, j :: 0 <= i < j < |polled| ==> polled[i].id != polled[j].id
  {
    var polled := Poll(mb, listing);
    if mb.inboxExists {
      var k := FindIndex(listing, n => Broken(mb.inbox, IsMessageFileName, n));
      ScanStopsAtFirstBroken(listing, mb.inbox, IsMessageFileName, KeepMessage);
      forall i, j | 0 <= i < j < |listing[..k]| ensures listing[..k][i] != listing[..k][j] {
        assert listing[..k][i] == listing[i] && listing[..k][j] == listing[j];
      }
      ScanAllOnce(mb.inbox, listing[..k]);
      PolledFilesPresent(mb, listing);
      forall i, j | 0 <= i < j < |polled| ensures polled[i].id != polled[j].id {
        if polled[i].id == polled[j].id {
          assert polled[i] == polled[j];
          RepeatCounted(polled, i, j);
        }
      }
    }
  }

  /** A value at two positions is counted twice. */
  lemma RepeatCounted<T>(s: seq<T>, i: nat, j: nat)
    requires i < j < |s| && s[i] == s[j]
    ensures multiset(s)[s[i]] >= 2
  {
    assert s == s[..j] + s[j..];
    assert s[i] in multiset(s[..j]);
    assert s[j..][0] == s[j];
    assert s[j] in multiset(s[j..]);
    assert multiset(s) == multiset(s[..j]) + multiset(s[j..]);
  }

  /** Over a listing without repeats and id-named files, the failure-free walk
      returns each message at most once. */
  lemma {:induction false} ScanAllOnce(inbox: map<string, File<Message>>, listing: seq<string>)
    requires WellNamed(inbox)
    requires forall i, j :: 0 <= i < j < |listing| ==> listing[i] != listing[j]
    ensures forall m :: multiset(ScanAll(listing, inbox, IsMessageFileName, KeepMessage))[m] <= 1
    decreases |listing|
  {
    if |listing| > 0 {
      var rest := listing[1..];
      forall i, j | 0 <= i < j < |rest| ensures rest[i] != rest[j] {
        assert rest[i] == listing[i + 1] && rest[j] == listing[j + 1];
      }
      ScanAllOnce(inbox, rest);
      var n := listing[0];
      if IsMessageFileName(n) && n in inbox && inbox[n].Document? {
        var m := inbox[n].doc;
        ScanAllMembers(rest, inbox, IsMessageFileName, KeepMessage, m);
        assert m !in ScanAll(rest, inbox, IsMessageFileName, KeepMessage) by {
          forall i | 0 <= i < |rest| ensures rest[i] != n {
            assert rest[i] == listing[i + 1];
          }
        }
        assert ScanAll(listing, inbox, IsMessageFileName, KeepMessage)
               == [m] + ScanAll(rest, inbox, IsMessageFileName, KeepMessage);
      }
    }
  }
}
