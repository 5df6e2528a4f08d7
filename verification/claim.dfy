/**
 * Claiming a slot (src/cli/commands/claim-slot.ts): load the project and the
 * slots, run the admission gates in order, then record the claim on the slot,
 * create the agent record and hand back a role manifest. The clock is the
 * `now` parameter (milliseconds).
 */
module ClaimSlot {
  import opened Wrappers
  import opened Strings
  import opened Radix
  import opened Seqs
  import opened Types
  import opened Store

  datatype ClaimRequest = ClaimRequest(
    slotId: string,
    provider: string,
    model: Option<string>,
    name: string)

  datatype ClaimError =
    | NoProjectFound(path: string)
    | SlotNotFound(slotId: string)
    | SlotFull(slotId: string, claims: nat)
    | ProviderNotApproved(provider: string, allowed: seq<string>)
    | ModelNotApproved(model: Option<string>)
    | DateNotRevived(call: string)

  /** The message each error carries; an absent model prints as `undefined`. */
  function ClaimErrorText(e: ClaimError): string {
    match e
    case NoProjectFound(p) => LoadErrorText(NoProject(p))
    case SlotNotFound(id) => "Slot " + id + " not found"
    case SlotFull(id, n) => "Slot " + id + " is already claimed by " + Decimal(n) + " agent(s)"
    case ProviderNotApproved(p, allowed) =>
      "Provider " + p + " not approved for this slot. Allowed: " + JoinWith(allowed, ", ")
    case ModelNotApproved(m) => "Model " + m.GetOr("undefined") + " not approved for this slot"
    case DateNotRevived(call) => call + " is not a function"
  }

  function JoinWith(items: seq<string>, sep: string): string
    decreases |items|
  {
    if |items| == 0 then "" else if |items| == 1 then items[0]
    else items[0] + sep + JoinWith(items[1..], sep)
  }

  /** What a successful claim produces. `slots` is the loaded slot list with
      the claimed slot updated in place; `record` is that slot as its file
      is written. */
  datatype ClaimOutcome = ClaimOutcome(
    agentId: string,
    sessionKey: string,
    manifest: RoleManifest,
    agent: Agent,
    index: nat,
    slots: seq<Slot>,
    record: Slot)

  // ---------------------------------------------------------------------------
  // Identifiers
  // ---------------------------------------------------------------------------

  /** The agent name: the `--name` option, or the slot id when it is absent
      or empty. */
  function AgentName(name: Option<string>, slotId: string): (n: string)
    ensures Given(name) ==> n == name.value
    ensures !Given(name) ==> n == slotId
  {
    OrElse(name, slotId)
  }

  /** `main-<slotId>-<now in base 36>`. */
  function SessionKey(slotId: string, now: nat): string {
    "main-" + slotId + "-" + Base36(now)
  }

  /** Session keys of one slot taken at different instants differ, and the
      instant can be read back from the key. */
  lemma SessionKeyInjective(slotId: string, t1: nat, t2: nat)
    requires SessionKey(slotId, t1) == SessionKey(slotId, t2)
    ensures t1 == t2
  {
    var p := "main-" + slotId + "-";
    var k1 := SessionKey(slotId, t1);
    assert k1[|p|..] == Base36(t1);
    assert SessionKey(slotId, t2)[|p|..] == Base36(t2);
    Base36RoundTrip(t1);
    Base36RoundTrip(t2);
  }

  // ---------------------------------------------------------------------------
  // Role title
  // ---------------------------------------------------------------------------

  /** `w.charAt(0).toUpperCase() + w.slice(1)` */
  function Capitalize(w: string): (r: string)
    ensures |r| == |w|
    ensures |w| > 0 ==> r[0] == UpperChar(w[0]) && r[1..] == w[1..]
  {
    if |w| == 0 then [] else [UpperChar(w[0])] + w[1..]
  }

  /** `role.split('-').map(Capitalize).join(' ')` */
  function RoleTitle(role: string): string {
    Join(Map(Split(role, '-'), Capitalize), ' ')
  }

  /** The character the title holds at position `i`: a blank for each dash,
      the upper-cased character at the start of each piece, otherwise the
      role's own character. */
  function TitleCharAt(role: string, i: nat): char
    requires i < |role|
  {
    if role[i] == '-' then ' '
    else if i == 0 || role[i - 1] == '-' then UpperChar(role[i])
    else role[i]
  }

  /** The title is the role, position by position, with dashes turned into
      blanks and each piece's first character upper-cased. */
  lemma {:induction false} RoleTitleShape(role: string)
    ensures |RoleTitle(role)| == |role|
    ensures forall i :: 0 <= i < |role| ==> RoleTitle(role)[i] == TitleCharAt(role, i)
    decreases |role|
  {
    var k := IndexOf(role, '-');
    if k == |role| {
      RoleTitleOnePiece(role);
    } else {
      RoleTitleShape(role[k + 1..]);
      RoleTitleUnfold(role, k);
      TitleStep(role, k, RoleTitle(role[k + 1..]), RoleTitle(role));
    }
  }

  /** A role without a dash is capitalised as a whole. */
  lemma RoleTitleOnePiece(role: string)
    requires IndexOf(role, '-') == |role|
    ensures |RoleTitle(role)| == |role|
    ensures forall i :: 0 <= i < |role| ==> RoleTitle(role)[i] == TitleCharAt(role, i)
  {
    assert role[..|role|] == role;
    assert Split(role, '-') == [role];
    assert RoleTitle(role) == Capitalize(role);
  }

  /** The shape of the title carries over from `rest` to `piece-rest`. */
  lemma TitleStep(role: string, k: nat, rt: string, t: string)
    requires k < |role| && role[k] == '-' && '-' !in role[..k]
    requires |rt| == |role| - k - 1
    requires forall i :: 0 <= i < |rt| ==> rt[i] == TitleCharAt(role[k + 1..], i)
    requires t == Capitalize(role[..k]) + " " + rt
    ensures |t| == |role|
    ensures forall i :: 0 <= i < |role| ==> t[i] == TitleCharAt(role, i)
  {
    var rest := role[k + 1..];
    forall i | 0 <= i < |role|
      ensures t[i] == TitleCharAt(role, i)
    {
      if i < k {
        assert role[..k][i] == role[i];
        if i > 0 { assert role[..k][i - 1] == role[i - 1]; }
      } else if i > k {
        assert t[i] == rt[i - k - 1];
        assert rest[i - k - 1] == role[i];
        if i - k - 1 > 0 { assert rest[i - k - 2] == role[i - 1]; }
      }
    }
  }

  /** The title of `piece-rest` is the capitalised piece, a blank, and the
      title of `rest`. */
  lemma RoleTitleUnfold(role: string, k: nat)
    requires k == IndexOf(role, '-') && k < |role|
    ensures RoleTitle(role) == Capitalize(role[..k]) + " " + RoleTitle(role[k + 1..])
  {
    var first := role[..k];
    var rest := Split(role[k + 1..], '-');
    SplitAtFirst(role, '-', k);
    MapCons(first, rest, Capitalize);
    JoinCons(Capitalize(first), Map(rest, Capitalize), ' ');
  }

  // ---------------------------------------------------------------------------
  // Admission gates
  // ---------------------------------------------------------------------------

  /** `length >= maxConcurrent`, false when the capacity is NaN. */
  predicate AtCapacity(count: nat, max: JsNumber) {
    max.Num? && count >= max.value
  }

  /** `model || approvedModels[0]`: None stands for `undefined`, which no
      list of strings includes. */
  function SelectModel(model: Option<string>, approvedModels: seq<string>): (m: Option<string>)
    ensures model.Some? && model.value != "" ==> m == model
    ensures (model.None? || model.value == "") && |approvedModels| > 0 ==> m == Some(approvedModels[0])
    ensures (model.None? || model.value == "") && |approvedModels| == 0 ==> m.None?
  {
    if model.Some? && model.value != "" then model
    else if |approvedModels| > 0 then Some(approvedModels[0])
    else None
  }

  /** The gates of one slot, in the source's order: capacity (only for a slot
      already `claimed`), provider, model. Success carries the model to use.
      The slot's `approved` flag is not consulted. */
  function CheckGates(slot: Slot, req: ClaimRequest): (r: Result<string, ClaimError>)
    ensures r.Success? <==>
      && !(slot.status == Claimed && AtCapacity(|slot.currentClaims|, slot.maxConcurrent))
      && req.provider in slot.approvedProviders
      && SelectModel(req.model, slot.approvedModels).Some?
      && SelectModel(req.model, slot.approvedModels).value in slot.approvedModels
    ensures r.Success? ==> r.value in slot.approvedModels
    ensures r.Success? && req.model.Some? && req.model.value != "" ==> r.value == req.model.value
    ensures r.Success? && (req.model.None? || req.model.value == "") ==> r.value == slot.approvedModels[0]
    ensures r.Failure? ==> r.error.SlotFull? || r.error.ProviderNotApproved? || r.error.ModelNotApproved?
    ensures slot.status != Claimed ==> !(r.Failure? && r.error.SlotFull?)
    ensures r.Failure? && r.error.SlotFull? <==>
              slot.status == Claimed && AtCapacity(|slot.currentClaims|, slot.maxConcurrent)
    ensures !(slot.status == Claimed && AtCapacity(|slot.currentClaims|, slot.maxConcurrent))
            && req.provider !in slot.approvedProviders
            ==> r == Failure(ProviderNotApproved(req.provider, slot.approvedProviders))
    ensures r.Failure? && r.error.ModelNotApproved? ==>
              req.provider in slot.approvedProviders
              && r.error.model == SelectModel(req.model, slot.approvedModels)
  {
    if slot.status == Claimed && AtCapacity(|slot.currentClaims|, slot.maxConcurrent) then
      Failure(SlotFull(slot.id, |slot.currentClaims|))
    else if req.provider !in slot.approvedProviders then
      Failure(ProviderNotApproved(req.provider, slot.approvedProviders))
    else
      var selected := SelectModel(req.model, slot.approvedModels);
      if selected.None? || selected.value !in slot.approvedModels then
        Failure(ModelNotApproved(selected))
      else
        Success(selected.value)
  }

  // ---------------------------------------------------------------------------
  // Effects
  // ---------------------------------------------------------------------------

  /** The slot after admitting `claim`: appended to the current claims and
      the status set to `claimed`; nothing else changes. */
  function Admit(slot: Slot, claim: SlotClaim): (s: Slot)
    ensures s.currentClaims == slot.currentClaims + [claim]
    ensures |s.currentClaims| == |slot.currentClaims| + 1
    ensures s.status == Claimed
    ensures StatusAgreesWithClaims(s)
    ensures s.claimHistory == slot.claimHistory
    ensures s.approvedProviders == slot.approvedProviders && s.approvedModels == slot.approvedModels
    ensures s.(currentClaims := slot.currentClaims, status := slot.status) == slot
  {
    slot.(currentClaims := slot.currentClaims + [claim], status := Claimed)
  }

  function NewClaim(sessionKey: string, provider: string, model: string, now: nat): SlotClaim {
    SlotClaim(sessionKey, provider, model, DateObject(now), None, 0, "0%")
  }

  /** The agent record: named by the request, bound to the slot and its role,
      idle, with zeroed metrics and no capabilities. */
  function NewAgent(req: ClaimRequest, slot: Slot, model: string, sessionKey: string, now: nat): (a: Agent)
    ensures a.id == req.name && a.name == req.name
    ensures a.slotId == req.slotId && a.role == slot.role
    ensures a.provider == req.provider && a.model == model
    ensures a.status == Idle && a.sessionKey == Some(sessionKey)
    ensures a.capabilities == [] && a.currentTask.None?
    ensures a.joinedAt == now && a.lastActive == now
    ensures a.metrics == AgentMetrics(0, 0, "0s", "0%")
  {
    Agent(req.name, req.name, req.slotId, slot.role, req.provider, model, Idle,
          None, Some(sessionKey), [], now, now, AgentMetrics(0, 0, "0s", "0%"))
  }

  const Responsibilities: seq<string> :=
    ["Execute assigned tasks", "Communicate status", "Request help when blocked"]

  /** `currentSprint?.id || 'none'` */
  function SprintName(project: Project): (s: string)
    ensures project.currentSprint.None? ==> s == "none"
    ensures s != ""
  {
    if project.currentSprint.Some? && project.currentSprint.value.id != "" then
      project.currentSprint.value.id
    else "none"
  }

  /** Ids of the slots whose status is `claimed`, in order. */
  function Teammates(slots: seq<Slot>): (ids: seq<string>)
    ensures |ids| <= |slots|
    ensures forall i :: 0 <= i < |slots| && slots[i].status == Claimed ==> slots[i].id in ids
    ensures forall x :: x in ids ==> exists i :: 0 <= i < |slots| && slots[i].status == Claimed && slots[i].id == x
  {
    var claimed := Filter(slots, (s: Slot) => s.status == Claimed);
    var ids := Map(claimed, (s: Slot) => s.id);
    forall x | x in ids
      ensures exists i :: 0 <= i < |slots| && slots[i].status == Claimed && slots[i].id == x
    {
      var j :| 0 <= j < |ids| && ids[j] == x;
      var s := claimed[j];
      assert s in slots && s.status == Claimed;
      var i :| 0 <= i < |slots| && slots[i] == s;
    }
    ids
  }

  /** The role manifest of a fresh claim. */
  function BuildManifest(project: Project, projectPath: string, slot: Slot, slots: seq<Slot>,
                         agentId: string, slotId: string, sessionKey: string): (m: RoleManifest)
    ensures m.manifestVersion == "1.0"
    ensures m.agent == ManifestAgent(agentId, slotId, sessionKey)
    ensures m.role.id == slot.role && m.role.title == RoleTitle(slot.role)
    ensures m.role.permissions == [SubmitCode, Escalate]
    ensures m.role.escalationPath == ["team-lead"] && m.role.responsibilities == Responsibilities
    ensures m.team.project == project.id && m.team.reportsTo == "team-lead"
    ensures m.team.sprint == SprintName(project)
    ensures m.team.teammates == Teammates(slots)
    ensures m.communication.inbox == PathJoin(project.config.inboxPath, agentId)
    ensures m.communication.outbox == project.config.outboxPath
    ensures m.constraints == Constraints("4h", true, ["dev"])
    ensures |m.loadFiles| == 2 && EndsWith(m.loadFiles[0], "README.md")
            && EndsWith(m.loadFiles[1], "context.md")
  {
    var acp := PathJoin(projectPath, ".acp");
    RoleManifest(
      "1.0",
      ManifestAgent(agentId, slotId, sessionKey),
      ManifestRole(slot.role, RoleTitle(slot.role), Responsibilities, [SubmitCode, Escalate], ["team-lead"]),
      ManifestTeam(project.id, SprintName(project), "team-lead", Teammates(slots)),
      Communication(PathJoin(project.config.inboxPath, agentId),
                    project.config.outboxPath,
                    PathJoin(PathJoin(acp, "messages"), "broadcast")),
      [PathJoin(projectPath, "README.md"),
       PathJoin(PathJoin(PathJoin(acp, "agents"), agentId), "context.md")],
      Constraints("4h", true, ["dev"]))
  }

  // ---------------------------------------------------------------------------
  // The claim
  // ---------------------------------------------------------------------------

  /** The lookup predicate `s => s.id === slotId`. */
  function SlotWithId(id: string): Slot -> bool {
    (s: Slot) => s.id == id
  }

  /** The slot side of a claim: the index of the claimed slot, the model the
      gates selected, the session key and the updated slot list. */
  datatype Admitted = Admitted(index: nat, model: string, sessionKey: string, slots: seq<Slot>)

  /** Find the first slot with the id, run its gates, and on success append
      the claim to that slot alone. */
  function Admission(slots: seq<Slot>, req: ClaimRequest, now: nat): (r: Result<Admitted, ClaimError>)
    ensures r.Failure? ==> !r.error.DateNotRevived?
    ensures (r.Failure? && r.error == SlotNotFound(req.slotId)) <==>
              forall i :: 0 <= i < |slots| ==> slots[i].id != req.slotId
    ensures r.Failure? && !r.error.SlotNotFound? ==>
              var k := FindIndex(slots, SlotWithId(req.slotId));
              k < |slots| && CheckGates(slots[k], req) == Failure(r.error)
    ensures r.Success? ==>
      var a := r.value;
      var k := a.index;
      && k == FindIndex(slots, SlotWithId(req.slotId)) && k < |slots|
      && slots[k].id == req.slotId
      && CheckGates(slots[k], req) == Success(a.model)
      && a.sessionKey == SessionKey(req.slotId, now)
      && |a.slots| == |slots|
      && (forall i :: 0 <= i < |slots| && i != k ==> a.slots[i] == slots[i])
      && a.slots[k] == Admit(slots[k], NewClaim(a.sessionKey, req.provider, a.model, now))
  {
    var k := FindIndex(slots, SlotWithId(req.slotId));
    if k == |slots| then Failure(SlotNotFound(req.slotId))
    else
      match CheckGates(slots[k], req)
      case Failure(e) => Failure(e)
      case Success(model) =>
        var key := SessionKey(req.slotId, now);
        Success(Admitted(k, model, key, slots[k := Admit(slots[k], NewClaim(key, req.provider, model, now))]))
  }

  // ---------------------------------------------------------------------------
  // The slot record
  // ---------------------------------------------------------------------------

  /** The slot can be written as claim-slot writes it: `toISOString` is
      called on every current claim's `claimedAt` and on every past claim's
      `claimedAt` and `releasedAt`, and each of these is a `Date`. */
  predicate RecordWritable(s: Slot) {
    && (forall i :: 0 <= i < |s.currentClaims| ==> s.currentClaims[i].claimedAt.DateObject?)
    && (forall i :: 0 <= i < |s.claimHistory| ==> DatedByObjects(s.claimHistory[i]))
  }

  /** The first call in `claims` that throws because its date is text:
      `claimedAt` of each claim in turn, followed, for past claims, by its
      `releasedAt` (absent is fine: the call is optional). */
  function FirstTextDate(claims: seq<SlotClaim>, past: bool): (call: Option<string>)
    ensures call.None? <==> forall i :: 0 <= i < |claims| ==>
              claims[i].claimedAt.DateObject? && (past ==> DatedByObjects(claims[i]))
    ensures call.Some? && (!past || claims[0].claimedAt.IsoText?) ==> call == Some(ClaimedAtCall)
    ensures call.Some? ==> call == Some(ClaimedAtCall) || call == Some(ReleasedAtCall)
    decreases |claims|
  {
    if |claims| == 0 then None
    else if claims[0].claimedAt.IsoText? then Some(ClaimedAtCall)
    else if past && claims[0].releasedAt.Some? && claims[0].releasedAt.value.IsoText? then Some(ReleasedAtCall)
    else
      var rest := FirstTextDate(claims[1..], past);
      assert forall i :: 1 <= i < |claims| ==> claims[i] == claims[1..][i - 1];
      rest
  }

  const ClaimedAtCall: string := "c.claimedAt.toISOString"
  const ReleasedAtCall: string := "c.releasedAt?.toISOString"

  /** The slot as claim-slot writes it to its file (claim-slot.ts:88-101):
      the current claims, then the past claims, with each date turned into
      its ISO text; the first date that is already text throws a TypeError. */
  function SlotRecord(s: Slot): (r: Result<Slot, ClaimError>)
    ensures r.Success? <==> RecordWritable(s)
    ensures r.Success? ==> r.value == StoredSlot(s)
    ensures r.Failure? ==> r.error == DateNotRevived(ClaimedAtCall) || r.error == DateNotRevived(ReleasedAtCall)
    ensures (exists i :: 0 <= i < |s.currentClaims| && s.currentClaims[i].claimedAt.IsoText?) ==>
              r == Failure(DateNotRevived(ClaimedAtCall))
  {
    match FirstTextDate(s.currentClaims, false)
    case Some(call) => Failure(DateNotRevived(call))
    case None =>
      match FirstTextDate(s.claimHistory, true)
      case Some(call) => Failure(DateNotRevived(call))
      case None => Success(StoredSlot(s))
  }

  /** Every slot loaded from a file that holds a claim, current or past,
      cannot be written back: its dates are text. */
  lemma LoadedClaimsUnwritable(dir: Dir<SlotDocument>, listing: seq<string>, i: nat)
    requires i < |LoadSlots(dir, listing)|
    requires var s := LoadSlots(dir, listing)[i]; |s.currentClaims| > 0 || |s.claimHistory| > 0
    ensures !RecordWritable(LoadSlots(dir, listing)[i])
    ensures |LoadSlots(dir, listing)[i].currentClaims| > 0 ==>
              SlotRecord(LoadSlots(dir, listing)[i]) == Failure(DateNotRevived(ClaimedAtCall))
  {
    LoadedSlotsDatedByText(dir, listing);
    var s := LoadSlots(dir, listing)[i];
    if |s.currentClaims| > 0 {
      assert DatedByText(s.currentClaims[0]);
    } else {
      assert DatedByText(s.claimHistory[0]);
    }
  }

  /** Admitting a fresh claim, dated by a `Date`, does not change whether
      the slot can be written. */
  lemma AdmitKeepsWritable(slot: Slot, claim: SlotClaim)
    requires claim.claimedAt.DateObject?
    ensures RecordWritable(Admit(slot, claim)) <==> RecordWritable(slot)
  {
    var s := Admit(slot, claim);
    if RecordWritable(slot) {
      forall i | 0 <= i < |s.currentClaims| ensures s.currentClaims[i].claimedAt.DateObject? {
        if i < |slot.currentClaims| { assert s.currentClaims[i] == slot.currentClaims[i]; }
      }
    }
    if RecordWritable(s) {
      forall i | 0 <= i < |slot.currentClaims| ensures slot.currentClaims[i].claimedAt.DateObject? {
        assert s.currentClaims[i] == slot.currentClaims[i];
      }
    }
  }

  // ---------------------------------------------------------------------------
  // The command
  // ---------------------------------------------------------------------------

  /** Claiming over the loaded slot list: the admission, then the slot
      record, then the agent and the manifest (whose teammates already
      include the claimed slot). */
  function Claim(project: Project, projectPath: string, slots: seq<Slot>,
                 req: ClaimRequest, now: nat): (r: Result<ClaimOutcome, ClaimError>)
    ensures Admission(slots, req, now).Failure? ==> r == Failure(Admission(slots, req, now).error)
    ensures Admission(slots, req, now).Success? ==>
      var a := Admission(slots, req, now).value;
      && (r.Failure? <==> !RecordWritable(slots[a.index]))
      && (r.Failure? ==> SlotRecord(a.slots[a.index]).Failure? && r.error == SlotRecord(a.slots[a.index]).error)
    ensures r.Success? ==>
      var a := Admission(slots, req, now).value;
      var o := r.value;
      && o.index == a.index && o.slots == a.slots && o.sessionKey == a.sessionKey
      && o.record == StoredSlot(a.slots[a.index])
      && o.agentId == req.name
      && o.agent == NewAgent(req, slots[a.index], a.model, a.sessionKey, now)
      && o.manifest == BuildManifest(project, projectPath, slots[a.index], a.slots, req.name, req.slotId, a.sessionKey)
      && req.slotId in o.manifest.team.teammates
  {
    match Admission(slots, req, now)
    case Failure(e) => Failure(e)
    case Success(a) =>
      var slot := slots[a.index];
      AdmitKeepsWritable(slot, NewClaim(a.sessionKey, req.provider, a.model, now));
      match SlotRecord(a.slots[a.index])
      case Failure(e) => Failure(e)
      case Success(record) =>
        assert a.slots[a.index].status == Claimed && a.slots[a.index].id == req.slotId;
        var agent := NewAgent(req, slot, a.model, a.sessionKey, now);
        var manifest := BuildManifest(project, projectPath, slot, a.slots, req.name, req.slotId, a.sessionKey);
        Success(ClaimOutcome(req.name, a.sessionKey, manifest, agent, a.index, a.slots, record))
  }

  /** The claim-slot command over the coordination directory at
      `projectPath` and a loaded slot list: claim, writing the agent file
      after the gates pass, then the slot file `<id>.yaml` and the manifest.
      A refusal by the gates writes nothing; a slot record that throws
      leaves the agent file written. */
  function ClaimOver(w: Workspace, projectPath: string, slots: seq<Slot>,
                     req: ClaimRequest, now: nat): (r: (Workspace, Result<ClaimOutcome, ClaimError>))
    ensures w.project.None? ==> r == (w, Failure(NoProjectFound(projectPath)))
    ensures w.project.Some? ==> r.1 == Claim(w.project.value, projectPath, slots, req, now)
    ensures r.1.Failure? && !r.1.error.DateNotRevived? ==> r.0 == w
    ensures r.1.Failure? && r.1.error.DateNotRevived? ==>
      var a := Admission(slots, req, now).value;
      && r.0 == w.(agents := SaveAgent(w.agents, NewAgent(req, slots[a.index], a.model, a.sessionKey, now)))
      && !RecordWritable(slots[a.index])
    ensures r.1.Success? ==>
      var o := r.1.value;
      && r.0.agents == SaveAgent(w.agents, o.agent)
      && r.0.slots == SaveSlot(w.slots, o.record)
      && r.0.manifests == w.manifests[o.agentId := o.manifest]
      && r.0.project == w.project && r.0.tasks == w.tasks
  {
    match LoadProject(w, projectPath)
    case Failure(_) => (w, Failure(NoProjectFound(projectPath)))
    case Success(project) =>
      match Claim(project, projectPath, slots, req, now)
      case Failure(e) =>
        if e.DateNotRevived? then
          var a := Admission(slots, req, now).value;
          (w.(agents := SaveAgent(w.agents, NewAgent(req, slots[a.index], a.model, a.sessionKey, now))), Failure(e))
        else (w, Failure(e))
      case Success(o) =>
        var w' := w.(agents := SaveAgent(w.agents, o.agent),
                     slots := SaveSlot(w.slots, o.record),
                     manifests := w.manifests[o.agentId := o.manifest]);
        (w', Success(o))
  }

  /** `claimSlot` as written: the slots are loaded with their dates as the
      file gives them, as text. It can only succeed on a slot whose file
      held no claim, current or past: any loaded claim makes the write
      throw. */
  function ClaimSlotCommand(w: Workspace, projectPath: string, listing: seq<string>,
                            req: ClaimRequest, now: nat): (r: (Workspace, Result<ClaimOutcome, ClaimError>))
    ensures r.1.Success? ==>
      var slots := LoadSlots(w.slots, listing);
      && r.1.value.index < |slots|
      && slots[r.1.value.index].currentClaims == [] && slots[r.1.value.index].claimHistory == []
  {
    ClaimNeedsClaimlessFile(w, projectPath, listing, req, now);
    ClaimOver(w, projectPath, LoadSlots(w.slots, listing), req, now)
  }

  /** A claim over loaded slots succeeds only on a slot that was loaded
      without any claim. */
  lemma ClaimNeedsClaimlessFile(w: Workspace, projectPath: string, listing: seq<string>,
                                req: ClaimRequest, now: nat)
    ensures var slots := LoadSlots(w.slots, listing);
      var r := ClaimOver(w, projectPath, slots, req, now);
      r.1.Success? ==>
        && r.1.value.index < |slots|
        && slots[r.1.value.index].currentClaims == [] && slots[r.1.value.index].claimHistory == []
  {
    var slots := LoadSlots(w.slots, listing);
    var r := ClaimOver(w, projectPath, slots, req, now);
    if r.1.Success? && (slots[r.1.value.index].currentClaims != [] || slots[r.1.value.index].claimHistory != []) {
      LoadedClaimsUnwritable(w.slots, listing, r.1.value.index);
    }
  }

  /** `claimSlot` with the slots loaded by the corrected loader, which
      revives each claim date. Writing the slot then never throws: every
      refusal comes from the project lookup or the gates. */
  function ClaimSlotCommandRevived(w: Workspace, projectPath: string, listing: seq<string>,
                                   req: ClaimRequest, now: nat): (r: (Workspace, Result<ClaimOutcome, ClaimError>))
    ensures r.1.Failure? ==> !r.1.error.DateNotRevived?
    ensures r.1.Failure? ==> r.0 == w
  {
    RevivedClaimWritable(w, projectPath, listing, req, now);
    ClaimOver(w, projectPath, LoadSlotsRevived(w.slots, listing), req, now)
  }

  /** A claim over revived slots is refused only by the project lookup or
      the gates, and a refusal writes nothing. */
  lemma RevivedClaimWritable(w: Workspace, projectPath: string, listing: seq<string>,
                             req: ClaimRequest, now: nat)
    ensures var r := ClaimOver(w, projectPath, LoadSlotsRevived(w.slots, listing), req, now);
      r.1.Failure? ==> !r.1.error.DateNotRevived? && r.0 == w
  {
    var slots := LoadSlotsRevived(w.slots, listing);
    if Admission(slots, req, now).Success? {
      assert SlotDatedByObjects(slots[Admission(slots, req, now).value.index]);
    }
  }

  // ---------------------------------------------------------------------------
  // Properties over several claims
  // ---------------------------------------------------------------------------

  /** A slot no claim has touched yet. */
  predicate Fresh(slot: Slot) {
    slot.currentClaims == [] && slot.status != Claimed
  }

  /** A successful claim keeps "claimed iff some claim is current" and, when
      every slot's capacity is at least 1, "no more claims than capacity", on
      every slot. */
  lemma ClaimKeepsSlotInvariants(slots: seq<Slot>, req: ClaimRequest, now: nat)
    requires forall i :: 0 <= i < |slots| ==> StatusAgreesWithClaims(slots[i])
    requires forall i :: 0 <= i < |slots| ==> WithinCapacity(slots[i]) && slots[i].maxConcurrent.value >= 1
    requires Admission(slots, req, now).Success?
    ensures var t := Admission(slots, req, now).value.slots;
      forall i :: 0 <= i < |t| ==> StatusAgreesWithClaims(t[i]) && WithinCapacity(t[i])
  {
    var o := Admission(slots, req, now).value;
    var k := o.index;
    var slot := slots[k];
    assert StatusAgreesWithClaims(slot) && WithinCapacity(slot);
    assert |o.slots[k].currentClaims| <= slot.maxConcurrent.value by {
      if slot.status == Claimed {
        assert !AtCapacity(|slot.currentClaims|, slot.maxConcurrent);
      } else {
        assert |slot.currentClaims| == 0;
      }
    }
  }

  /** With a capacity of 0 the code still admits one claim into a fresh slot,
      because the capacity gate only applies to a slot already `claimed`;
      the result exceeds its capacity. */
  lemma ZeroCapacityAdmitsOne(slots: seq<Slot>, req: ClaimRequest, now: nat)
    requires FindIndex(slots, SlotWithId(req.slotId)) < |slots|
    requires var slot := slots[FindIndex(slots, SlotWithId(req.slotId))];
      Fresh(slot) && slot.maxConcurrent == Num(0) && CheckGates(slot, req).Success?
    ensures Admission(slots, req, now).Success?
    ensures var o := Admission(slots, req, now).value;
      !WithinCapacity(o.slots[o.index])
  {
  }

  /** Runs of `step` in a row, one at each of the instants `times` (which
      need not be distinct or ordered), each on the state the previous run
      left behind; the first failure ends the row. */
  function Repeat<S, E>(step: (S, nat) -> Result<S, E>, s: S, times: seq<nat>): Result<S, E>
    decreases |times|
  {
    if |times| == 0 then Success(s)
    else
      match Repeat(step, s, times[..|times| - 1])
      case Failure(e) => Failure(e)
      case Success(prev) => step(prev, times[|times| - 1])
  }

  /** The last run of a row, on the state the others left. */
  lemma RepeatOnce<S, E>(step: (S, nat) -> Result<S, E>, s: S, times: seq<nat>, at: nat)
    ensures var prev := Repeat(step, s, times);
      Repeat(step, s, times + [at]) == if prev.Failure? then Failure(prev.error) else step(prev.value, at)
  {
    assert (times + [at])[..|times|] == times;
  }

  /** One admission, as a step on the slot list. */
  function AdmitStep(req: ClaimRequest): (seq<Slot>, nat) -> Result<seq<Slot>, ClaimError> {
    (t: seq<Slot>, at: nat) => AdmitSlots(t, req, at)
  }

  /** The slot side of admissions in a row on the same request, one at
      each of the instants `times`, each on the slots the previous one left
      behind. */
  function ClaimRepeatedly(slots: seq<Slot>, req: ClaimRequest, times: seq<nat>): Result<seq<Slot>, ClaimError> {
    Repeat(AdmitStep(req), slots, times)
  }

  /** The last claim of a row, on the slots the others left. */
  lemma ClaimOnceMore(slots: seq<Slot>, req: ClaimRequest, times: seq<nat>, at: nat)
    ensures var prev := ClaimRepeatedly(slots, req, times);
      ClaimRepeatedly(slots, req, times + [at])
      == if prev.Failure? then Failure(prev.error) else AdmitSlots(prev.value, req, at)
  {
    RepeatOnce(AdmitStep(req), slots, times, at);
  }

  /** The slot side of one admission. */
  function AdmitSlots(slots: seq<Slot>, req: ClaimRequest, at: nat): Result<seq<Slot>, ClaimError> {
    match Admission(slots, req, at)
    case Failure(e) => Failure(e)
    case Success(o) => Success(o.slots)
  }

  /** A slot holding the given current claims: claimed as soon as it holds
      one, otherwise as it was. */
  function WithClaims(slot: Slot, claims: seq<SlotClaim>): Slot {
    slot.(currentClaims := claims, status := if claims == [] then slot.status else Claimed)
  }

  /** The slots after `n` claims: the claimed slot holds `n` current claims
      and is otherwise as it was; every other slot is untouched. */
  ghost predicate ClaimedNTimes(slots: seq<Slot>, t: seq<Slot>, k: nat, n: nat) {
    && k < |slots| && |t| == |slots|
    && |t[k].currentClaims| == n
    && t == slots[k := WithClaims(slots[k], t[k].currentClaims)]
  }

  /** Up to its capacity m >= 1, a fresh admissible slot takes every claim. */
  lemma {:induction false} RepeatedClaimsAdmitted(slots: seq<Slot>, req: ClaimRequest, times: seq<nat>, k: nat)
    returns (t: seq<Slot>)
    requires FreshAdmissible(slots, req, k, |times|)
    ensures ClaimRepeatedly(slots, req, times) == Success(t)
    ensures ClaimedNTimes(slots, t, k, |times|)
    decreases |times|
  {
    if |times| == 0 {
      t := slots;
    } else {
      var init := times[..|times| - 1];
      var prev := RepeatedClaimsAdmitted(slots, req, init, k);
      assert times == init + [times[|times| - 1]];
      t := RepeatedStep(slots, req, init, times[|times| - 1], k, prev);
    }
  }

  /** The slot at `k` is the first with the requested id, fresh, passes the
      gates, and has a capacity of at least `n`. */
  predicate FreshAdmissible(slots: seq<Slot>, req: ClaimRequest, k: nat, n: nat) {
    && k == FindIndex(slots, SlotWithId(req.slotId)) && k < |slots|
    && Fresh(slots[k]) && CheckGates(slots[k], req).Success?
    && slots[k].maxConcurrent.Num? && n <= slots[k].maxConcurrent.value
  }

  /** One claim more after the claims at `times`, on what they left
      behind, is admitted while the slot is below capacity. */
  lemma RepeatedStep(slots: seq<Slot>, req: ClaimRequest, times: seq<nat>, at: nat, k: nat, prev: seq<Slot>)
    returns (t: seq<Slot>)
    requires FreshAdmissible(slots, req, k, |times| + 1)
    requires ClaimRepeatedly(slots, req, times) == Success(prev)
    requires ClaimedNTimes(slots, prev, k, |times|)
    ensures ClaimRepeatedly(slots, req, times + [at]) == Success(t)
    ensures ClaimedNTimes(slots, t, k, |times| + 1)
  {
    ClaimOnceMore(slots, req, times, at);
    ClaimStep(slots, prev, req, at, k, |times|);
    t := Admission(prev, req, at).value.slots;
  }

  /** One more claim on slots already claimed `n` times, below capacity. */
  lemma ClaimStep(slots: seq<Slot>, prev: seq<Slot>,
                  req: ClaimRequest, at: nat, k: nat, n: nat)
    requires k == FindIndex(slots, SlotWithId(req.slotId)) && k < |slots|
    requires Fresh(slots[k]) && CheckGates(slots[k], req).Success?
    requires slots[k].maxConcurrent.Num? && n < slots[k].maxConcurrent.value
    requires ClaimedNTimes(slots, prev, k, n)
    ensures Admission(prev, req, at).Success?
    ensures ClaimedNTimes(slots, Admission(prev, req, at).value.slots, k, n + 1)
  {
    var claims := prev[k].currentClaims;
    var x := WithClaims(slots[k], claims);
    LookupAfterUpdate(slots, k, x, req.slotId);
    GatesIgnoreClaims(slots[k], claims, req);
    var model := CheckGates(x, req).value;
    var claim := NewClaim(SessionKey(req.slotId, at), req.provider, model, at);
    AdmitWithClaims(slots[k], claims, claim);
    assert slots[k := x][k := Admit(x, claim)] == slots[k := Admit(x, claim)];
  }

  /** Replacing the slot the lookup found by one with the same id leaves
      the lookup where it was. */
  lemma LookupAfterUpdate(slots: seq<Slot>, k: nat, x: Slot, id: string)
    requires k == FindIndex(slots, SlotWithId(id)) && k < |slots|
    requires x.id == slots[k].id
    ensures FindIndex(slots[k := x], SlotWithId(id)) == k
  {
    var t := slots[k := x];
    forall j | 0 <= j < k ensures !SlotWithId(id)(t[j]) {
      assert t[j] == slots[j];
    }
    FindIndexIs(t, SlotWithId(id), k);
  }

  /** A fresh slot holding fewer claims than its capacity passes the same
      gates as before it held any. */
  lemma GatesIgnoreClaims(slot: Slot, claims: seq<SlotClaim>, req: ClaimRequest)
    requires Fresh(slot) && !AtCapacity(|claims|, slot.maxConcurrent)
    ensures CheckGates(WithClaims(slot, claims), req) == CheckGates(slot, req)
  {
  }

  /** Admitting a claim into a slot holding `claims` gives the slot holding
      one claim more. */
  lemma AdmitWithClaims(slot: Slot, claims: seq<SlotClaim>, claim: SlotClaim)
    ensures Admit(WithClaims(slot, claims), claim) == WithClaims(slot, claims + [claim])
  {
  }

  /** Exactly `maxConcurrent` claims are admitted into a fresh slot, at
      whatever instants they come: the one after them fails with SlotFull. */
  lemma CapacityExhausted(slots: seq<Slot>, req: ClaimRequest, times: seq<nat>, at: nat)
    requires FindIndex(slots, SlotWithId(req.slotId)) < |slots|
    requires var slot := slots[FindIndex(slots, SlotWithId(req.slotId))];
      Fresh(slot) && CheckGates(slot, req).Success? && slot.maxConcurrent == Num(|times|) && |times| >= 1
    ensures ClaimRepeatedly(slots, req, times).Success?
    ensures ClaimRepeatedly(slots, req, times + [at])
            == Failure(SlotFull(req.slotId, |times|))
  {
    var k := FindIndex(slots, SlotWithId(req.slotId));
    var prev := RepeatedClaimsAdmitted(slots, req, times, k);
    ClaimOnceMore(slots, req, times, at);
    FullSlotRefuses(slots, prev, req, at, k, |times|);
  }

  /** Slots whose claimed slot holds as many claims as its capacity refuse
      the next claim as full. */
  lemma FullSlotRefuses(slots: seq<Slot>, prev: seq<Slot>, req: ClaimRequest, at: nat, k: nat, m: nat)
    requires k == FindIndex(slots, SlotWithId(req.slotId)) && k < |slots|
    requires slots[k].maxConcurrent == Num(m) && m >= 1
    requires ClaimedNTimes(slots, prev, k, m)
    ensures AdmitSlots(prev, req, at) == Failure(SlotFull(req.slotId, m))
  {
    LookupAfterUpdate(slots, k, WithClaims(slots[k], prev[k].currentClaims), req.slotId);
  }

  // ---------------------------------------------------------------------------
  // Claims through the slot file
  // ---------------------------------------------------------------------------

  /** After a successful claim, listing the slot directory again (with no
      broken slot file) loads the claimed slot with its dates as text; it
      holds the new claim last and is `claimed`. With its dates revived it
      is the claimed slot itself, when that slot's dates were objects. */
  lemma ClaimedSlotReloads(w: Workspace, projectPath: string, slots: seq<Slot>,
                           req: ClaimRequest, now: nat, listing: seq<string>)
    requires ClaimOver(w, projectPath, slots, req, now).1.Success?
    requires var files := ClaimOver(w, projectPath, slots, req, now).0.slots.value;
      && Enumerates(files, listing)
      && forall i :: 0 <= i < |listing| ==> !Broken(files, IsSlotFileName, listing[i])
    ensures var r := ClaimOver(w, projectPath, slots, req, now);
      var o := r.1.value;
      var s := o.slots[o.index];
      && StoredSlot(s) in LoadSlots(r.0.slots, listing)
      && s.id == req.slotId && s.status == Claimed && |s.currentClaims| > 0
      && s.currentClaims[|s.currentClaims| - 1] == NewClaim(o.sessionKey, req.provider, o.agent.model, now)
      && (SlotDatedByObjects(s) ==> s in LoadSlotsRevived(r.0.slots, listing))
  {
    var r := ClaimOver(w, projectPath, slots, req, now);
    var o := r.1.value;
    var s := o.slots[o.index];
    SaveThenLoad(w.slots, o.record, listing);
    StoredSlotRoundTrip(o.record);
    var loaded := LoadSlots(r.0.slots, listing);
    var j :| 0 <= j < |loaded| && loaded[j] == StoredSlot(s);
    StoredSlotRoundTrip(s);
    assert LoadSlotsRevived(r.0.slots, listing)[j] == RevivedSlot(StoredSlot(s));
  }

  /** The admission of a slot list holding one slot of the requested id
      that passes the gates. */
  lemma AdmitSingle(x: Slot, req: ClaimRequest, at: nat)
    requires x.id == req.slotId && CheckGates(x, req).Success?
    ensures var key := SessionKey(req.slotId, at);
      var model := CheckGates(x, req).value;
      Admission([x], req, at) == Success(Admitted(0, model, key, [Admit(x, NewClaim(key, req.provider, model, at))]))
  {
    assert FindIndex([x], SlotWithId(req.slotId)) == 0;
    var v := Admit(x, NewClaim(SessionKey(req.slotId, at), req.provider, CheckGates(x, req).value, at));
    assert [x][0 := v] == [v];
  }

  /** Once admitted, the command writes the slot file when the slot can be
      written, and otherwise throws with only the agent file written. */
  lemma ClaimOverAdmitted(w: Workspace, projectPath: string, slots: seq<Slot>, req: ClaimRequest, at: nat)
    requires w.project.Some? && Admission(slots, req, at).Success?
    ensures var a := Admission(slots, req, at).value;
      var r := ClaimOver(w, projectPath, slots, req, at);
      && (RecordWritable(slots[a.index]) ==>
            r.1.Success? && r.0.slots == SaveSlot(w.slots, StoredSlot(a.slots[a.index])) && r.0.project == w.project)
      && (!RecordWritable(slots[a.index]) ==>
            && r.1 == Failure(SlotRecord(a.slots[a.index]).error)
            && r.0 == w.(agents := SaveAgent(w.agents, NewAgent(req, slots[a.index], a.model, a.sessionKey, at))))
  {
  }

  /** The command threw on the slot record after writing the agent file of
      the claiming session: the slot files are as they were. */
  predicate ThrewAfterAgentFile(r: (Workspace, Result<ClaimOutcome, ClaimError>), w: Workspace,
                                req: ClaimRequest, at: nat) {
    && r.1 == Failure(DateNotRevived(ClaimedAtCall))
    && r.0.slots == w.slots
    && r.0.agents.Some? && AgentFileName(req.name) in r.0.agents.value
    && r.0.agents.value[AgentFileName(req.name)].Document?
    && r.0.agents.value[AgentFileName(req.name)].doc.sessionKey == Some(SessionKey(req.slotId, at))
  }

  /** As written, a second claim on a two-seat slot passes every gate and
      then throws while writing the slot file: the claim the first command
      wrote reads back with a text `claimedAt`. The slot file stays as the
      first command left it, while the agent file of the second session has
      been written. */
  lemma SecondClaimThrows(w: Workspace, projectPath: string, slot: Slot, req: ClaimRequest,
                          now: nat, later: nat)
    requires w.project.Some? && w.slots == SingleSlotDir(slot)
    requires slot.id == req.slotId && Fresh(slot) && slot.claimHistory == []
    requires CheckGates(slot, req).Success? && !AtCapacity(1, slot.maxConcurrent)
    ensures var l := [SlotFileName(slot.id)];
      var first := ClaimSlotCommand(w, projectPath, l, req, now);
      var second := ClaimSlotCommand(first.0, projectPath, l, req, later);
      first.1.Success? && ThrewAfterAgentFile(second, first.0, req, later)
  {
    var y := FirstClaimOnFile(w, projectPath, slot, req, now);
    var first := ClaimSlotCommand(w, projectPath, [SlotFileName(slot.id)], req, now);
    var c1 := y.currentClaims[0];
    assert StoredSlot(y) == WithClaims(slot, [AsStored(c1)]);
    GatesIgnoreClaims(slot, [AsStored(c1)], req);
    ClaimOnHeldFile(first.0, projectPath, y, req, later);
  }

  /** The first claim on a file holding a fresh slot with no history is
      admitted and writes the file anew from the claimed slot. */
  lemma FirstClaimOnFile(w: Workspace, projectPath: string, slot: Slot, req: ClaimRequest, now: nat)
    returns (y: Slot)
    requires w.project.Some? && w.slots == SingleSlotDir(slot)
    requires slot.id == req.slotId && Fresh(slot) && slot.claimHistory == []
    requires CheckGates(slot, req).Success?
    ensures var r := ClaimSlotCommand(w, projectPath, [SlotFileName(slot.id)], req, now);
      && r.1.Success? && r.0.project == w.project && r.0.slots == SingleSlotDir(y)
    ensures y.id == slot.id && y == WithClaims(slot, y.currentClaims) && |y.currentClaims| == 1
  {
    SingleSlotLoads(slot);
    StoredSlotRoundTrip(slot);
    AdmitSingle(slot, req, now);
    ClaimOverAdmitted(w, projectPath, [slot], req, now);
    var c1 := NewClaim(SessionKey(req.slotId, now), req.provider, CheckGates(slot, req).value, now);
    y := Admit(slot, c1);
    SaveOverSingleSlot(slot, y);
  }

  /** As written, a claim on a file whose slot already holds a claim throws
      once it has passed the gates: the slot file is left as it was and only
      the agent file is written. */
  lemma ClaimOnHeldFile(w: Workspace, projectPath: string, y: Slot, req: ClaimRequest, at: nat)
    requires w.project.Some? && w.slots == SingleSlotDir(y)
    requires y.id == req.slotId && |y.currentClaims| > 0 && CheckGates(StoredSlot(y), req).Success?
    ensures ThrewAfterAgentFile(ClaimSlotCommand(w, projectPath, [SlotFileName(y.id)], req, at), w, req, at)
  {
    var x := StoredSlot(y);
    SingleSlotLoads(y);
    AdmitSingle(x, req, at);
    var a := Admission([x], req, at).value;
    assert a.slots[0].currentClaims[0].claimedAt.IsoText?;
    ClaimOverAdmitted(w, projectPath, [x], req, at);
  }

  /** `got` fails as `want` fails, and otherwise ends in a state related to
      the one `want` ends in. */
  ghost predicate Agrees<S, T, E>(got: Result<S, E>, want: Result<T, E>, rel: (S, T) -> bool) {
    match want
    case Failure(e) => got == Failure(e)
    case Success(t) => got.Success? && rel(got.value, t)
  }

  /** From related states, `step` agrees with `spec` at every instant. */
  ghost predicate Simulates<S(!new), T(!new), E>(step: (S, nat) -> Result<S, E>, spec: (T, nat) -> Result<T, E>,
                                     rel: (S, T) -> bool) {
    forall s: S, t: T, at: nat :: rel(s, t) ==> Agrees(step(s, at), spec(t, at), rel)
  }

  /** A step that simulates another, repeated from related states, agrees
      with the other repeated. */
  lemma {:induction false} RepeatSimulates<S(!new), T(!new), E>(step: (S, nat) -> Result<S, E>, spec: (T, nat) -> Result<T, E>,
                                                     rel: (S, T) -> bool, s: S, t: T, times: seq<nat>)
    requires Simulates(step, spec, rel) && rel(s, t)
    ensures Agrees(Repeat(step, s, times), Repeat(spec, t, times), rel)
    decreases |times|
  {
    if |times| > 0 {
      RepeatSimulates(step, spec, rel, s, t, times[..|times| - 1]);
    }
  }

  /** One claim-slot command with the corrected loader, as a step: the
      directory it leaves, or its error. */
  function RevivedStep(projectPath: string, listing: seq<string>, req: ClaimRequest)
    : (Workspace, nat) -> Result<Workspace, ClaimError>
  {
    (w: Workspace, at: nat) =>
      var r := ClaimSlotCommandRevived(w, projectPath, listing, req, at);
      if r.1.Failure? then Failure(r.1.error) else Success(r.0)
  }

  /** A directory of the project `proj` holding exactly the file written
      from the one slot (of id `id`, dated by objects) in memory. */
  function OnFileOf(proj: Option<Project>, id: string): (Workspace, seq<Slot>) -> bool {
    (w: Workspace, t: seq<Slot>) =>
      |t| == 1 && w.project == proj && w.slots == SingleSlotDir(t[0])
      && t[0].id == id && SlotDatedByObjects(t[0])
  }

  /** The directory of a project holding one slot file, written from
      `slot`, whose dates are objects. */
  predicate OnSlotFile(w: Workspace, slot: Slot) {
    w.project.Some? && w.slots == SingleSlotDir(slot) && SlotDatedByObjects(slot)
  }

  /** On a directory holding one slot file, written from a slot dated by
      objects, the corrected loader gives back that slot. */
  lemma RevivedOnSlotFile(w: Workspace, projectPath: string, x: Slot, req: ClaimRequest, at: nat)
    requires OnSlotFile(w, x)
    ensures ClaimSlotCommandRevived(w, projectPath, [SlotFileName(x.id)], req, at)
            == ClaimOver(w, projectPath, [x], req, at)
  {
    SingleSlotLoads(x);
  }

  /** A claim refused in memory is refused by the command. */
  lemma CommandStepRefused(w: Workspace, projectPath: string, x: Slot, req: ClaimRequest, at: nat)
    requires OnSlotFile(w, x) && Admission([x], req, at).Failure?
    ensures Agrees(RevivedStep(projectPath, [SlotFileName(x.id)], req)(w, at), AdmitStep(req)([x], at),
                   OnFileOf(w.project, x.id))
  {
    RevivedOnSlotFile(w, projectPath, x, req, at);
    assert AdmitStep(req)([x], at) == Failure(Admission([x], req, at).error);
  }

  /** A claim admitted in memory is written by the command, and the file
      it leaves is the one written from the admitted slot. */
  lemma CommandStepAdmitted(w: Workspace, projectPath: string, x: Slot, req: ClaimRequest, at: nat)
    requires OnSlotFile(w, x) && Admission([x], req, at).Success?
    ensures Agrees(RevivedStep(projectPath, [SlotFileName(x.id)], req)(w, at), AdmitStep(req)([x], at),
                   OnFileOf(w.project, x.id))
  {
    var a := Admission([x], req, at).value;
    assert AdmitStep(req)([x], at) == Success(a.slots);
    AdmitSingle(x, req, at);
    RevivedOnSlotFile(w, projectPath, x, req, at);
    ClaimOverAdmitted(w, projectPath, [x], req, at);
    AdmitKeepsDated(x, NewClaim(a.sessionKey, req.provider, a.model, at));
    SaveOverSingleSlot(x, a.slots[0]);
  }

  /** One command of the corrected kind on a directory holding one slot
      file agrees with the admission of that slot. */
  lemma CommandStep(w: Workspace, projectPath: string, x: Slot, req: ClaimRequest, at: nat)
    requires OnSlotFile(w, x)
    ensures Agrees(RevivedStep(projectPath, [SlotFileName(x.id)], req)(w, at), AdmitStep(req)([x], at),
                   OnFileOf(w.project, x.id))
  {
    if Admission([x], req, at).Failure? {
      CommandStepRefused(w, projectPath, x, req, at);
    } else {
      CommandStepAdmitted(w, projectPath, x, req, at);
    }
  }

  /** Admitting a claim dated by a `Date` keeps a slot dated by objects. */
  lemma AdmitKeepsDated(slot: Slot, claim: SlotClaim)
    requires SlotDatedByObjects(slot) && DatedByObjects(claim)
    ensures SlotDatedByObjects(Admit(slot, claim))
  {
    var s := Admit(slot, claim);
    forall i | 0 <= i < |s.currentClaims| ensures DatedByObjects(s.currentClaims[i]) {
      if i < |slot.currentClaims| { assert s.currentClaims[i] == slot.currentClaims[i]; }
    }
  }

  /** Commands of the corrected kind on the slot's file simulate
      admissions in memory. */
  lemma RevivedStepSimulates(proj: Option<Project>, projectPath: string, id: string, req: ClaimRequest)
    requires proj.Some?
    ensures Simulates(RevivedStep(projectPath, [SlotFileName(id)], req), AdmitStep(req), OnFileOf(proj, id))
  {
    forall w: Workspace, t: seq<Slot>, at: nat | OnFileOf(proj, id)(w, t)
      ensures Agrees(RevivedStep(projectPath, [SlotFileName(id)], req)(w, at), AdmitStep(req)(t, at),
                     OnFileOf(proj, id))
    {
      assert t == [t[0]];
      CommandStep(w, projectPath, t[0], req, at);
    }
  }

  /** A fresh slot of capacity m >= 1 that passes the gates. */
  predicate FreshWithCapacity(slot: Slot, req: ClaimRequest, m: nat) {
    slot.id == req.slotId && Fresh(slot) && CheckGates(slot, req).Success?
    && slot.maxConcurrent == Num(m) && m >= 1
  }

  /** With the corrected loader, a fresh slot file of capacity m >= 1 takes
      m claim-slot commands in a row, at any instants; the next one is
      refused as full. */
  lemma RevivedClaimsFillSlot(w: Workspace, projectPath: string, slot: Slot, req: ClaimRequest,
                              times: seq<nat>, at: nat)
    requires OnSlotFile(w, slot) && FreshWithCapacity(slot, req, |times|)
    ensures var step := RevivedStep(projectPath, [SlotFileName(slot.id)], req);
      && Repeat(step, w, times).Success?
      && Repeat(step, w, times + [at]) == Failure(SlotFull(req.slotId, |times|))
  {
    var step := RevivedStep(projectPath, [SlotFileName(slot.id)], req);
    var rel := OnFileOf(w.project, slot.id);
    RevivedStepSimulates(w.project, projectPath, slot.id, req);
    assert rel(w, [slot]);
    assert FindIndex([slot], SlotWithId(req.slotId)) == 0;
    CapacityExhausted([slot], req, times, at);
    RepeatSimulates(step, AdmitStep(req), rel, w, [slot], times);
    RepeatSimulates(step, AdmitStep(req), rel, w, [slot], times + [at]);
  }

  // ---------------------------------------------------------------------------
  // Worked examples
  // ---------------------------------------------------------------------------

  function SampleSlot(): Slot {
    Slot("s1", "s1", "backend-developer", Available, ["openclaw"], ["m1"], Num(1),
         true, None, None, [], [])
  }

  /** A single-seat slot admits `agent-x`, whose manifest grants submit_code. */
  lemma SingleSeatAdmits(project: Project, path: string, now: nat)
    ensures var x := Claim(project, path, [SampleSlot()], ClaimRequest("s1", "openclaw", Some("m1"), "agent-x"), now);
      && x.Success? && x.value.agentId == "agent-x"
      && SubmitCode in x.value.manifest.role.permissions
      && x.value.slots == [SampleSlot().(status := Claimed, currentClaims := [NewClaim(SessionKey("s1", now), "openclaw", "m1", now)])]
  {
    var req := ClaimRequest("s1", "openclaw", Some("m1"), "agent-x");
    assert FindIndex([SampleSlot()], SlotWithId("s1")) == 0;
    assert CheckGates(SampleSlot(), req) == Success("m1");
    var key := SessionKey("s1", now);
    var held := SampleSlot().(status := Claimed, currentClaims := [NewClaim(key, "openclaw", "m1", now)]);
    assert SampleSlot().currentClaims + [NewClaim(key, "openclaw", "m1", now)] == [NewClaim(key, "openclaw", "m1", now)];
    assert Admit(SampleSlot(), NewClaim(key, "openclaw", "m1", now)) == held;
    assert [SampleSlot()][0 := held] == [held];
    assert Admission([SampleSlot()], req, now) == Success(Admitted(0, "m1", key, [held]));
    var x := Claim(project, path, [SampleSlot()], req, now);
    assert x.Success?;
    assert x.value.manifest.role.permissions == [SubmitCode, Escalate];
  }

  /** Once `agent-x` holds the seat, `agent-y` is turned away as full. */
  lemma SingleSeatFull(now: nat, later: nat)
    ensures var held := SampleSlot().(status := Claimed, currentClaims := [NewClaim(SessionKey("s1", now), "openclaw", "m1", now)]);
      Admission([held], ClaimRequest("s1", "openclaw", Some("m1"), "agent-y"), later) == Failure(SlotFull("s1", 1))
  {
    var held := SampleSlot().(status := Claimed, currentClaims := [NewClaim(SessionKey("s1", now), "openclaw", "m1", now)]);
    assert FindIndex([held], SlotWithId("s1")) == 0;
  }

  /** `claude` is refused as a provider, and nothing is admitted. */
  lemma SingleSeatWrongProvider(now: nat)
    ensures Admission([SampleSlot()], ClaimRequest("s1", "claude", Some("m1"), "agent-z"), now)
            == Failure(ProviderNotApproved("claude", ["openclaw"]))
  {
    assert FindIndex([SampleSlot()], SlotWithId("s1")) == 0;
  }
}
