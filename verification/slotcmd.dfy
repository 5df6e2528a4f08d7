/**
 * The `slot` sub-commands (src/cli/commands/slot.ts): `create` builds a fresh
 * approved slot from the command-line options, `list` shows who holds each
 * slot, `show` looks one slot up by id.
 */
module SlotCommands {
  import opened Wrappers
  import opened Strings
  import opened Radix
  import opened Seqs
  import opened Types
  import opened Store
  import ClaimSlot

  /** The options of `slot create`; None when the option is not given. */
  datatype CreateOptions = CreateOptions(
    role: string,
    providers: Option<string>,
    models: Option<string>,
    max: Option<string>)

  const DefaultProviders: string := "openclaw"
  const DefaultModels: string := "kimi-coding/k2p5"
  const DefaultMax: string := "1"

  /** The slot `slot create <name>` writes: approved by the CLI at `now`,
      available, with no claims, its lists split at commas and trimmed, and
      its capacity read by `parseInt` with no check of its sign. */
  function CreateSlot(name: string, opts: CreateOptions, now: int): (s: Slot)
    ensures s.id == name && s.name == name && s.role == opts.role
    ensures s.status == Available && s.currentClaims == [] && s.claimHistory == []
    ensures s.approved && s.approvedBy == Some("cli") && s.approvedAt == Some(now)
    ensures |s.approvedProviders| >= 1 && |s.approvedModels| >= 1
    ensures StatusAgreesWithClaims(s) && ClaimSlot.Fresh(s)
  {
    Slot(name, name, opts.role, Available,
         SplitTrim(opts.providers.GetOr(DefaultProviders), ','),
         SplitTrim(opts.models.GetOr(DefaultModels), ','),
         ParseInt(opts.max.GetOr(DefaultMax)),
         true, Some("cli"), Some(now), [], [])
  }

  /** With no options the slot admits `openclaw` running `kimi-coding/k2p5`,
      one agent at a time. */
  lemma CreateSlotDefaults(name: string, opts: CreateOptions, now: int)
    requires opts.providers.None? && opts.models.None? && opts.max.None?
    ensures var s := CreateSlot(name, opts, now);
      && s.approvedProviders == ["openclaw"]
      && s.approvedModels == ["kimi-coding/k2p5"]
      && s.maxConcurrent == Num(1)
      && WithinCapacity(s)
  {
    DefaultProvidersRead(name, opts, now);
    DefaultModelsRead(name, opts, now);
    DefaultMaxRead(name, opts, now);
  }

  lemma DefaultProvidersRead(name: string, opts: CreateOptions, now: int)
    requires opts.providers.None?
    ensures CreateSlot(name, opts, now).approvedProviders == ["openclaw"]
  {
    SplitTrimSingle(DefaultProviders, ',');
  }

  lemma DefaultModelsRead(name: string, opts: CreateOptions, now: int)
    requires opts.models.None?
    ensures CreateSlot(name, opts, now).approvedModels == ["kimi-coding/k2p5"]
  {
    SplitTrimSingle(DefaultModels, ',');
  }

  lemma DefaultMaxRead(name: string, opts: CreateOptions, now: int)
    requires opts.max.None?
    ensures CreateSlot(name, opts, now).maxConcurrent == Num(1)
  {
    ParseIntOfDecimal(1);
    assert Decimal(1) == DefaultMax;
  }

  /** The lists round-trip: lists given as comma-joined items (trimmed, comma
      free) come back item for item, in order; a capacity written in decimal
      comes back as that number. */
  lemma CreateSlotReadsOptions(name: string, role: string, now: int,
                               providers: seq<string>, models: seq<string>, max: nat)
    requires |providers| >= 1 && |models| >= 1
    requires forall i :: 0 <= i < |providers| ==> ',' !in providers[i] && Trim(providers[i]) == providers[i]
    requires forall i :: 0 <= i < |models| ==> ',' !in models[i] && Trim(models[i]) == models[i]
    ensures var s := CreateSlot(name, CreateOptions(role, Some(Join(providers, ',')), Some(Join(models, ',')),
                                                    Some(Decimal(max))), now);
      s.approvedProviders == providers && s.approvedModels == models && s.maxConcurrent == Num(max)
  {
    var opts := CreateOptions(role, Some(Join(providers, ',')), Some(Join(models, ',')), Some(Decimal(max)));
    ListOptionRead(opts.providers.value, providers);
    ListOptionRead(opts.models.value, models);
    ParseIntOfDecimal(max);
    var s := CreateSlot(name, opts, now);
    assert s.approvedProviders == SplitTrim(opts.providers.value, ',');
    assert s.approvedModels == SplitTrim(opts.models.value, ',');
    assert s.maxConcurrent == ParseInt(opts.max.value);
  }

  lemma ListOptionRead(option: string, items: seq<string>)
    requires |items| >= 1 && option == Join(items, ',')
    requires forall i :: 0 <= i < |items| ==> ',' !in items[i] && Trim(items[i]) == items[i]
    ensures SplitTrim(option, ',') == items
  {
    SplitTrimJoin(items, ',');
  }

  /** `slot create`: read the project file in the current directory, then
      save the slot as `<name>.yaml` under the path that file records; with
      no project nothing is written. */
  function CreateSlotCommand(disk: Disk, cwd: string, name: string, opts: CreateOptions, now: int)
    : (r: (Disk, Result<Slot, LoadError>))
    ensures r.1.Failure? <==> At(disk, cwd).project.None?
    ensures r.1.Failure? ==> r == (disk, Failure(NoProject(cwd)))
    ensures r.1.Success? ==>
      var home := At(disk, cwd).project.value.path;
      var s := CreateSlot(name, opts, now);
      r == (Put(disk, home, At(disk, home).(slots := SaveSlot(At(disk, home).slots, s))), Success(s))
  {
    var w := At(disk, cwd);
    match LoadProject(w, cwd)
    case Failure(e) => (disk, Failure(e))
    case Success(project) =>
      var home := At(disk, project.path);
      var s := CreateSlot(name, opts, now);
      (Put(disk, project.path, home.(slots := SaveSlot(home.slots, s))), Success(s))
  }

  /** A created slot is there for `slot list` and `slot show` run from the
      same directory, once no slot file is broken: the project file is left
      as it was, the slot loads as written, and `show` finds its id. */
  lemma CreatedSlotIsShown(disk: Disk, cwd: string, name: string, opts: CreateOptions, now: int,
                           listing: seq<string>)
    requires At(disk, cwd).project.Some?
    requires var home := At(disk, cwd).project.value.path;
      var files := SaveSlot(At(disk, home).slots, CreateSlot(name, opts, now)).value;
      && Enumerates(files, listing)
      && forall i :: 0 <= i < |listing| ==> !Broken(files, IsSlotFileName, listing[i])
    ensures var r := CreateSlotCommand(disk, cwd, name, opts, now);
      var home := At(disk, cwd).project.value.path;
      && At(r.0, cwd).project == At(disk, cwd).project
      && r.1.Success? && r.1.value in LoadSlots(At(r.0, home).slots, listing)
      && ShowSlotCommand(r.0, cwd, listing, name) != Failure(NotFoundText(name))
  {
    var r := CreateSlotCommand(disk, cwd, name, opts, now);
    var home := At(disk, cwd).project.value.path;
    var s := r.1.value;
    SaveThenLoad(At(disk, home).slots, s, listing);
    assert SlotDatedByText(s);
    var loaded := LoadSlots(At(r.0, home).slots, listing);
    var j :| 0 <= j < |loaded| && loaded[j] == s;
    assert loaded[j].id == name;
  }

  /** The CLAIMED BY column of `slot list`: the first current claim's
      `provider/model`, or `-` for a slot nobody holds. */
  function ClaimedBy(s: Slot): (col: string)
    ensures |s.currentClaims| == 0 <==> col == "-"
  {
    if |s.currentClaims| > 0 then
      var c := s.currentClaims[0];
      var col := c.provider + "/" + c.model;
      assert col[|c.provider|] == '/';
      col
    else "-"
  }

  /** After a successful claim the column names the first claimant: the new
      agent when the slot was free, the earlier holder otherwise. */
  lemma ClaimedByAfterClaim(slots: seq<Slot>, req: ClaimSlot.ClaimRequest, now: nat)
    requires ClaimSlot.Admission(slots, req, now).Success?
    ensures var a := ClaimSlot.Admission(slots, req, now).value;
      var before := slots[a.index];
      && (before.currentClaims == [] ==> ClaimedBy(a.slots[a.index]) == req.provider + "/" + a.model)
      && (before.currentClaims != [] ==> ClaimedBy(a.slots[a.index]) == ClaimedBy(before))
  {
  }

  function NotFoundText(name: string): string {
    "Slot " + name + " not found"
  }

  /** The TypeError `slot show` stops with on a claim whose date is text. */
  const ShowDateError: string := "claim.claimedAt.toISOString is not a function"

  /** `slot show <name>`: the first slot with that id, or "not found". The
      claimed time of each current claim is printed through `toISOString`,
      so a current claim dated by text stops the command with a TypeError. */
  function ShowSlot(slots: seq<Slot>, name: string): (r: Result<Slot, string>)
    ensures r == Failure(NotFoundText(name)) <==> forall i :: 0 <= i < |slots| ==> slots[i].id != name
    ensures var k := FindIndex(slots, ClaimSlot.SlotWithId(name));
      k < |slots| ==>
        && (r.Success? <==> forall j :: 0 <= j < |slots[k].currentClaims| ==> slots[k].currentClaims[j].claimedAt.DateObject?)
        && (r.Failure? ==> r.error == ShowDateError)
    ensures r.Success? ==> r.value.id == name && r.value in slots
    ensures r.Success? ==> forall i :: 0 <= i < |slots| && slots[i] != r.value ==>
              slots[i].id == name ==> exists j :: 0 <= j < i && slots[j] == r.value
  {
    assert ShowDateError == "c" + ShowDateError[1..];
    assert NotFoundText(name)[0] == 'S';
    match Find(slots, ClaimSlot.SlotWithId(name))
    case None => Failure(NotFoundText(name))
    case Some(s) =>
      if exists j :: 0 <= j < |s.currentClaims| && s.currentClaims[j].claimedAt.IsoText? then
        Failure(ShowDateError)
      else Success(s)
  }

  /** `slot show` run in `cwd`: the project file is read there and the slots
      under the path it records; with no project the load error's message. */
  function ShowSlotCommand(disk: Disk, cwd: string, listing: seq<string>, name: string): (r: Result<Slot, string>)
    ensures At(disk, cwd).project.None? ==> r == Failure(LoadErrorText(NoProject(cwd)))
    ensures At(disk, cwd).project.Some? ==>
      r == ShowSlot(LoadSlots(At(disk, At(disk, cwd).project.value.path).slots, listing), name)
  {
    match LoadProject(At(disk, cwd), cwd)
    case Failure(e) => Failure(LoadErrorText(e))
    case Success(project) => ShowSlot(LoadSlots(At(disk, project.path).slots, listing), name)
  }

  /** `slot show` and `claim-slot` agree on which ids are unknown. */
  lemma ShowAgreesWithClaim(slots: seq<Slot>, req: ClaimSlot.ClaimRequest, now: nat)
    ensures ShowSlot(slots, req.slotId) == Failure(NotFoundText(req.slotId)) <==>
            ClaimSlot.Admission(slots, req, now) == Failure(ClaimSlot.SlotNotFound(req.slotId))
  {
  }

  /** On slots as `loadSlots` returns them, `slot show` of a known id
      succeeds exactly when that slot holds no current claim: every claim
      reads back with a text date. */
  lemma ShowFailsOnHeldSlots(dir: Dir<SlotDocument>, listing: seq<string>, name: string)
    ensures var slots := LoadSlots(dir, listing);
      var k := FindIndex(slots, ClaimSlot.SlotWithId(name));
      k < |slots| ==> (ShowSlot(slots, name).Success? <==> |slots[k].currentClaims| == 0)
  {
    var slots := LoadSlots(dir, listing);
    var k := FindIndex(slots, ClaimSlot.SlotWithId(name));
    LoadedSlotsDatedByText(dir, listing);
    if k < |slots| && |slots[k].currentClaims| > 0 {
      assert DatedByText(slots[k].currentClaims[0]);
    }
  }

  /** With the dates revived, `slot show` of a known id always succeeds. */
  lemma ShowSucceedsOnRevivedSlots(dir: Dir<SlotDocument>, listing: seq<string>, name: string)
    ensures var revived := LoadSlotsRevived(dir, listing);
      (exists i :: 0 <= i < |revived| && revived[i].id == name) ==> ShowSlot(revived, name).Success?
  {
    var revived := LoadSlotsRevived(dir, listing);
    var kr := FindIndex(revived, ClaimSlot.SlotWithId(name));
    if kr < |revived| {
      assert SlotDatedByObjects(revived[kr]);
    }
  }
}
