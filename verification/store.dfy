/**
 * The project's coordination directory (src/core/project.ts): one file per
 * slot, agent and task, plus the project file. A directory is a map from
 * file name to the document the file holds; the YAML/JSON encoders are taken
 * to round-trip, so a file is represented by its decoded document, or by
 * `Unreadable` when reading or parsing it fails. The order in which the
 * directory lists its entries is an explicit `listing`.
 */
module Store {
  import opened Wrappers
  import opened Strings
  import opened Radix
  import opened Types
  import opened Seqs

  /** One file: its decoded document, or a failure to read or parse it. */
  datatype File<+D> = Unreadable | Document(doc: D)

  /** A directory: None when it does not exist. */
  type Dir<D> = Option<map<string, File<D>>>

  /** `listing` names every file of `files`, each once. */
  ghost predicate Enumerates<D>(files: map<string, File<D>>, listing: seq<string>) {
    && (forall i :: 0 <= i < |listing| ==> listing[i] in files)
    && (forall n :: n in files ==> n in listing)
    && (forall i, j :: 0 <= i < j < |listing| ==> listing[i] != listing[j])
  }

  // ---------------------------------------------------------------------------
  // Scanning a directory
  // ---------------------------------------------------------------------------

  /** The loop shared by the three loaders: walk the listing, skip names that
      are not `wanted`, decode the rest and keep what `convert` accepts; the
      first unreadable wanted file ends the scan (the loader's catch block)
      with what was collected so far. */
  function Scan<D, R>(listing: seq<string>, files: map<string, File<D>>,
                      wanted: string -> bool, convert: D -> Option<R>): seq<R>
    decreases |listing|
  {
    if |listing| == 0 then []
    else if !wanted(listing[0]) then Scan(listing[1..], files, wanted, convert)
    else if listing[0] !in files || files[listing[0]].Unreadable? then []
    else match convert(files[listing[0]].doc)
      case None => Scan(listing[1..], files, wanted, convert)
      case Some(r) => [r] + Scan(listing[1..], files, wanted, convert)
  }

  /** The same walk with no failure: every wanted, readable, accepted file. */
  function ScanAll<D, R>(listing: seq<string>, files: map<string, File<D>>,
                         wanted: string -> bool, convert: D -> Option<R>): seq<R>
    decreases |listing|
  {
    if |listing| == 0 then []
    else
      var rest := ScanAll(listing[1..], files, wanted, convert);
      var n := listing[0];
      if wanted(n) && n in files && files[n].Document? && convert(files[n].doc).Some?
      then [convert(files[n].doc).value] + rest
      else rest
  }

  /** The name is wanted but cannot be read. */
  predicate Broken<D>(files: map<string, File<D>>, wanted: string -> bool, n: string) {
    wanted(n) && (n !in files || files[n].Unreadable?)
  }

  /** A scan returns exactly what the failure-free walk collects from the
      listing up to the first broken file. */
  lemma {:induction false} ScanStopsAtFirstBroken<D, R>(listing: seq<string>, files: map<string, File<D>>,
                                                         wanted: string -> bool, convert: D -> Option<R>)
    ensures var k := FindIndex(listing, n => Broken(files, wanted, n));
            Scan(listing, files, wanted, convert) == ScanAll(listing[..k], files, wanted, convert)
    decreases |listing|
  {
    var k := FindIndex(listing, n => Broken(files, wanted, n));
    if |listing| > 0 {
      if Broken(files, wanted, listing[0]) {
        assert k == 0;
      } else {
        ScanStopsAtFirstBroken(listing[1..], files, wanted, convert);
        assert listing[..k][1..] == listing[1..][..k - 1];
      }
    }
  }

  /** Everything the failure-free walk returns comes from a wanted, readable
      file of the listing whose document `convert` accepts, and everything
      such a file yields is returned. */
  lemma {:induction false} ScanAllMembers<D, R>(listing: seq<string>, files: map<string, File<D>>,
                                                wanted: string -> bool, convert: D -> Option<R>, r: R)
    ensures r in ScanAll(listing, files, wanted, convert) <==>
      exists i :: 0 <= i < |listing| && wanted(listing[i]) && listing[i] in files
                  && files[listing[i]].Document? && convert(files[listing[i]].doc) == Some(r)
    decreases |listing|
  {
    if |listing| > 0 {
      ScanAllMembers(listing[1..], files, wanted, convert, r);
      var P := i => 0 <= i < |listing| && wanted(listing[i]) && listing[i] in files
                    && files[listing[i]].Document? && convert(files[listing[i]].doc) == Some(r);
      if exists i :: 0 < i < |listing| && P(i) {
        var i :| 0 < i < |listing| && P(i);
        assert listing[1..][i - 1] == listing[i];
      }
      if exists i :: 0 <= i < |listing[1..]|
                     && wanted(listing[1..][i]) && listing[1..][i] in files
                     && files[listing[1..][i]].Document? && convert(files[listing[1..][i]].doc) == Some(r) {
        var i :| 0 <= i < |listing[1..]|
                 && wanted(listing[1..][i]) && listing[1..][i] in files
                 && files[listing[1..][i]].Document? && convert(files[listing[1..][i]].doc) == Some(r);
        assert P(i + 1);
      }
    }
  }

  /** With no broken file, a scan loses nothing. */
  lemma ScanWithoutBroken<D, R>(listing: seq<string>, files: map<string, File<D>>,
                                wanted: string -> bool, convert: D -> Option<R>)
    requires forall i :: 0 <= i < |listing| ==> !Broken(files, wanted, listing[i])
    ensures Scan(listing, files, wanted, convert) == ScanAll(listing, files, wanted, convert)
  {
    ScanStopsAtFirstBroken(listing, files, wanted, convert);
    assert listing[..|listing|] == listing;
  }

  /** The failure-free walk over two listings one after the other. */
  lemma {:induction false} ScanAllAppend<D, R>(a: seq<string>, b: seq<string>, files: map<string, File<D>>,
                                               wanted: string -> bool, convert: D -> Option<R>)
    ensures ScanAll(a + b, files, wanted, convert)
            == ScanAll(a, files, wanted, convert) + ScanAll(b, files, wanted, convert)
    decreases |a|
  {
    if |a| == 0 {
      assert a + b == b;
    } else {
      assert (a + b)[0] == a[0];
      assert (a + b)[1..] == a[1..] + b;
      ScanAllAppend(a[1..], b, files, wanted, convert);
    }
  }

  /** The failure-free walk collects the same documents, with the same
      multiplicities, whatever order the directory lists its entries in. */
  lemma {:induction false} ScanAllPermutation<D, R>(l1: seq<string>, l2: seq<string>, files: map<string, File<D>>,
                                                    wanted: string -> bool, convert: D -> Option<R>)
    requires multiset(l1) == multiset(l2)
    ensures multiset(ScanAll(l1, files, wanted, convert)) == multiset(ScanAll(l2, files, wanted, convert))
    decreases |l1|
  {
    if |l1| == 0 {
      assert |l2| == |multiset(l2)| == 0;
    } else {
      var x := l1[0];
      assert x in multiset(l2);
      var j :| 0 <= j < |l2| && l2[j] == x;
      var rest := l2[..j] + l2[j + 1..];
      assert l2 == l2[..j] + ([x] + l2[j + 1..]);
      assert l1 == [x] + l1[1..];
      assert multiset(l1) == multiset{x} + multiset(l1[1..]);
      assert multiset(l2) == multiset(l2[..j]) + multiset{x} + multiset(l2[j + 1..]) by {
        assert multiset([x] + l2[j + 1..]) == multiset{x} + multiset(l2[j + 1..]);
      }
      assert multiset(rest) == multiset(l2[..j]) + multiset(l2[j + 1..]);
      assert multiset(l1[1..]) == multiset(l1) - multiset{x};
      assert multiset(rest) == multiset(l2) - multiset{x};
      ScanAllPermutation(l1[1..], rest, files, wanted, convert);
      ScanAllAppend(l2[..j], [x] + l2[j + 1..], files, wanted, convert);
      ScanAllAppend([x], l2[j + 1..], files, wanted, convert);
      ScanAllAppend(l2[..j], l2[j + 1..], files, wanted, convert);
      ScanAllAppend([x], l1[1..], files, wanted, convert);
    }
  }

  /** Whatever a scan returns was read from a wanted, readable file of the
      listing. */
  lemma ScanMember<D, R>(listing: seq<string>, files: map<string, File<D>>,
                         wanted: string -> bool, convert: D -> Option<R>, r: R)
    requires r in Scan(listing, files, wanted, convert)
    ensures exists i :: 0 <= i < |listing| && wanted(listing[i]) && listing[i] in files
                        && files[listing[i]].Document? && convert(files[listing[i]].doc) == Some(r)
  {
    var k := FindIndex(listing, n => Broken(files, wanted, n));
    ScanStopsAtFirstBroken(listing, files, wanted, convert);
    ScanAllMembers(listing[..k], files, wanted, convert, r);
    var i :| 0 <= i < k && wanted(listing[..k][i]) && listing[..k][i] in files
             && files[listing[..k][i]].Document? && convert(files[listing[..k][i]].doc) == Some(r);
    assert listing[..k][i] == listing[i];
  }

  // ---------------------------------------------------------------------------
  // Slots
  // ---------------------------------------------------------------------------

  /** A slot as written in its YAML file: status and claim lists may be absent. */
  datatype RawSlot = RawSlot(
    id: string,
    name: string,
    role: string,
    status: Option<SlotStatus>,
    approvedProviders: seq<string>,
    approvedModels: seq<string>,
    maxConcurrent: JsNumber,
    approved: bool,
    approvedBy: Option<string>,
    approvedAt: Option<int>,
    currentClaims: Option<seq<SlotClaim>>,
    claimHistory: Option<seq<SlotClaim>>)

  /** A slot file's document: `slot` is its top-level key, absent or not. */
  datatype SlotDocument = SlotDocument(slot: Option<RawSlot>)

  // A claim date goes into a slot file as text whatever value it was written
  // from: `YAML.stringify` writes a `Date` as the ISO string its `toJSON`
  // gives, and the YAML 1.2 core schema has no timestamp type, so the string
  // reads back as a string. `loadSlots` does not turn it back into a `Date`.

  /** A claim as a slot file gives it back: each date as its text. */
  function AsStored(c: SlotClaim): (t: SlotClaim)
    ensures DatedByText(t)
    ensures t.claimedAt.ms == c.claimedAt.ms
    ensures t.(claimedAt := c.claimedAt, releasedAt := c.releasedAt) == c
  {
    c.(claimedAt := IsoText(c.claimedAt.ms),
       releasedAt := if c.releasedAt.Some? then Some(IsoText(c.releasedAt.value.ms)) else None)
  }

  /** A claim with each date passed through `new Date(...)`, as `loadAgents`
      and `loadTasks` do for their own dates. */
  function Revived(c: SlotClaim): (t: SlotClaim)
    ensures DatedByObjects(t)
    ensures t.(claimedAt := c.claimedAt, releasedAt := c.releasedAt) == c
  {
    c.(claimedAt := DateObject(c.claimedAt.ms),
       releasedAt := if c.releasedAt.Some? then Some(DateObject(c.releasedAt.value.ms)) else None)
  }

  /** Storing a claim keeps its instants: reviving the stored claim gives
      back a claim dated by objects, and a claim already dated by text is
      stored unchanged. */
  lemma StoredClaimRoundTrip(c: SlotClaim)
    ensures DatedByObjects(c) ==> Revived(AsStored(c)) == c
    ensures DatedByText(c) ==> AsStored(c) == c
    ensures AsStored(Revived(c)) == AsStored(c)
  {
  }

  /** A slot with every claim as its file gives it back. */
  function StoredSlot(s: Slot): (t: Slot)
    ensures SlotDatedByText(t)
    ensures |t.currentClaims| == |s.currentClaims| && |t.claimHistory| == |s.claimHistory|
    ensures t.(currentClaims := s.currentClaims, claimHistory := s.claimHistory) == s
  {
    s.(currentClaims := Map(s.currentClaims, AsStored), claimHistory := Map(s.claimHistory, AsStored))
  }

  /** A slot with every claim revived. */
  function RevivedSlot(s: Slot): (t: Slot)
    ensures SlotDatedByObjects(t)
    ensures |t.currentClaims| == |s.currentClaims| && |t.claimHistory| == |s.claimHistory|
    ensures t.(currentClaims := s.currentClaims, claimHistory := s.claimHistory) == s
  {
    s.(currentClaims := Map(s.currentClaims, Revived), claimHistory := Map(s.claimHistory, Revived))
  }

  /** Storing and reviving a slot gives it back when its dates are objects;
      a slot dated by text is its own stored form. */
  lemma StoredSlotRoundTrip(s: Slot)
    ensures SlotDatedByObjects(s) ==> RevivedSlot(StoredSlot(s)) == s
    ensures SlotDatedByText(s) ==> StoredSlot(s) == s
  {
    if SlotDatedByObjects(s) {
      StoredClaimsRevive(s.currentClaims);
      StoredClaimsRevive(s.claimHistory);
    }
    if SlotDatedByText(s) {
      TextClaimsStored(s.currentClaims);
      TextClaimsStored(s.claimHistory);
    }
  }

  lemma StoredClaimsRevive(cs: seq<SlotClaim>)
    requires forall i :: 0 <= i < |cs| ==> DatedByObjects(cs[i])
    ensures Map(Map(cs, AsStored), Revived) == cs
  {
    var t := Map(Map(cs, AsStored), Revived);
    forall i | 0 <= i < |cs| ensures t[i] == cs[i] {
      StoredClaimRoundTrip(cs[i]);
    }
  }

  lemma TextClaimsStored(cs: seq<SlotClaim>)
    requires forall i :: 0 <= i < |cs| ==> DatedByText(cs[i])
    ensures Map(cs, AsStored) == cs
  {
    var t := Map(cs, AsStored);
    forall i | 0 <= i < |cs| ensures t[i] == cs[i] {
      StoredClaimRoundTrip(cs[i]);
    }
  }

  /** The defaults `loadSlots` fills in: a missing status is `available`, a
      missing claim list is empty; everything else is copied, claim dates as
      the text the file holds. */
  function Normalize(r: RawSlot): Slot {
    StoredSlot(Slot(r.id, r.name, r.role, r.status.GetOr(Available),
                    r.approvedProviders, r.approvedModels, r.maxConcurrent,
                    r.approved, r.approvedBy, r.approvedAt,
                    r.currentClaims.GetOr([]), r.claimHistory.GetOr([])))
  }

  /** What `saveSlot` writes: every field present. */
  function Denormalize(s: Slot): RawSlot {
    RawSlot(s.id, s.name, s.role, Some(s.status),
            s.approvedProviders, s.approvedModels, s.maxConcurrent,
            s.approved, s.approvedBy, s.approvedAt,
            Some(s.currentClaims), Some(s.claimHistory))
  }

  /** Defaults only fill gaps: present values are kept, missing ones get the
      defaults, and no date comes back as a `Date`. */
  lemma NormalizeFacts(r: RawSlot)
    ensures r.status.Some? ==> Normalize(r).status == r.status.value
    ensures r.status.None? ==> Normalize(r).status == Available
    ensures r.currentClaims.None? ==> Normalize(r).currentClaims == []
    ensures r.claimHistory.None? ==> Normalize(r).claimHistory == []
    ensures r.currentClaims.Some? ==> Normalize(r).currentClaims == Map(r.currentClaims.value, AsStored)
    ensures r.claimHistory.Some? ==> Normalize(r).claimHistory == Map(r.claimHistory.value, AsStored)
    ensures SlotDatedByText(Normalize(r))
    ensures Normalize(Denormalize(Normalize(r))) == Normalize(r)
    ensures r.status.Some? && r.currentClaims.Some? && r.claimHistory.Some? && RawDatedByText(r) ==>
              Denormalize(Normalize(r)) == r
  {
    StoredSlotRoundTrip(Normalize(r));
    if r.currentClaims.Some? && RawDatedByText(r) {
      TextClaimsStored(r.currentClaims.value);
    }
    if r.claimHistory.Some? && RawDatedByText(r) {
      TextClaimsStored(r.claimHistory.value);
    }
  }

  /** Every claim date the document holds is text, as in any file the
      program writes. */
  predicate RawDatedByText(r: RawSlot) {
    && (r.currentClaims.Some? ==>
          forall i :: 0 <= i < |r.currentClaims.value| ==> DatedByText(r.currentClaims.value[i]))
    && (r.claimHistory.Some? ==>
          forall i :: 0 <= i < |r.claimHistory.value| ==> DatedByText(r.claimHistory.value[i]))
  }

  /** A written slot reads back as its stored form: unchanged when its dates
      are already text, and unchanged once revived when they are objects. */
  lemma ReadBack(s: Slot)
    ensures Normalize(Denormalize(s)) == StoredSlot(s)
    ensures SlotDatedByText(s) ==> Normalize(Denormalize(s)) == s
    ensures SlotDatedByObjects(s) ==> RevivedSlot(Normalize(Denormalize(s))) == s
  {
    StoredSlotRoundTrip(s);
  }

  predicate IsSlotFileName(n: string) {
    EndsWith(n, ".yaml") || EndsWith(n, ".yml")
  }

  function SlotOfDocument(d: SlotDocument): Option<Slot> {
    if d.slot.Some? then Some(Normalize(d.slot.value)) else None
  }

  /** `loadSlots`: the normalised slots of the `.yaml`/`.yml` files that have a
      top-level `slot` key, in listing order; a missing directory is empty. */
  function LoadSlots(dir: Dir<SlotDocument>, listing: seq<string>): (slots: seq<Slot>)
    ensures dir.None? ==> slots == []
    ensures |slots| <= |listing|
  {
    match dir
    case None => []
    case Some(files) => ScanLength(listing, files, IsSlotFileName, SlotOfDocument);
                        Scan(listing, files, IsSlotFileName, SlotOfDocument)
  }

  lemma {:induction false} ScanLength<D, R>(listing: seq<string>, files: map<string, File<D>>,
                                            wanted: string -> bool, convert: D -> Option<R>)
    ensures |Scan(listing, files, wanted, convert)| <= |listing|
    decreases |listing|
  {
    if |listing| > 0 {
      ScanLength(listing[1..], files, wanted, convert);
    }
  }

  /** A loaded slot comes from a readable `.yaml`/`.yml` file whose `slot`
      key normalises to it; files of other names are never read. */
  lemma LoadedSlotOrigin(files: map<string, File<SlotDocument>>, listing: seq<string>, s: Slot)
    requires s in LoadSlots(Some(files), listing)
    ensures exists i :: 0 <= i < |listing| && IsSlotFileName(listing[i]) && listing[i] in files
                        && files[listing[i]].Document? && files[listing[i]].doc.slot.Some?
                        && Normalize(files[listing[i]].doc.slot.value) == s
  {
    var k := FindIndex(listing, n => Broken(files, IsSlotFileName, n));
    ScanStopsAtFirstBroken(listing, files, IsSlotFileName, SlotOfDocument);
    ScanAllMembers(listing[..k], files, IsSlotFileName, SlotOfDocument, s);
    var i :| 0 <= i < k && IsSlotFileName(listing[..k][i]) && listing[..k][i] in files
             && files[listing[..k][i]].Document? && SlotOfDocument(files[listing[..k][i]].doc) == Some(s);
    assert listing[..k][i] == listing[i];
  }

  /** `saveSlot`: creates the directory if needed and writes `{ slot }` to
      `<id>.yaml`, replacing any file of that name. */
  function SaveSlot(dir: Dir<SlotDocument>, s: Slot): (dir': Dir<SlotDocument>)
    ensures dir'.Some?
    ensures SlotFileName(s.id) in dir'.value
    ensures dir'.value[SlotFileName(s.id)] == Document(SlotDocument(Some(Denormalize(s))))
    ensures forall n :: n != SlotFileName(s.id) && dir.Some? && n in dir.value ==>
              n in dir'.value && dir'.value[n] == dir.value[n]
    ensures dir'.value.Keys == (if dir.Some? then dir.value.Keys else {}) + {SlotFileName(s.id)}
  {
    var files := if dir.Some? then dir.value else map[];
    Some(files[SlotFileName(s.id) := Document(SlotDocument(Some(Denormalize(s))))])
  }

  function SlotFileName(id: string): (n: string)
    ensures IsSlotFileName(n)
  {
    var n := id + ".yaml";
    assert n[|n| - 5..] == ".yaml";
    n
  }

  /** Every slot `loadSlots` returns holds its claim dates as text. */
  lemma LoadedSlotsDatedByText(dir: Dir<SlotDocument>, listing: seq<string>)
    ensures forall i :: 0 <= i < |LoadSlots(dir, listing)| ==> SlotDatedByText(LoadSlots(dir, listing)[i])
  {
    var slots := LoadSlots(dir, listing);
    forall i | 0 <= i < |slots| ensures SlotDatedByText(slots[i]) {
      LoadedSlotOrigin(dir.value, listing, slots[i]);
    }
  }

  /** `loadSlots` with each claim date revived, as `loadAgents` and
      `loadTasks` revive theirs. */
  function LoadSlotsRevived(dir: Dir<SlotDocument>, listing: seq<string>): (slots: seq<Slot>)
    ensures |slots| == |LoadSlots(dir, listing)|
    ensures forall i :: 0 <= i < |slots| ==>
              SlotDatedByObjects(slots[i]) && slots[i] == RevivedSlot(LoadSlots(dir, listing)[i])
  {
    Map(LoadSlots(dir, listing), RevivedSlot)
  }

  /** Saving a slot and listing the directory again, with no broken slot file,
      loads the slot with its dates as text: the slot itself when they are
      text already, and the slot itself once revived when they are objects. */
  lemma SaveThenLoad(dir: Dir<SlotDocument>, s: Slot, listing: seq<string>)
    requires Enumerates(SaveSlot(dir, s).value, listing)
    requires forall i :: 0 <= i < |listing| ==> !Broken(SaveSlot(dir, s).value, IsSlotFileName, listing[i])
    ensures StoredSlot(s) in LoadSlots(SaveSlot(dir, s), listing)
    ensures SlotDatedByText(s) ==> s in LoadSlots(SaveSlot(dir, s), listing)
    ensures SlotDatedByObjects(s) ==> s in LoadSlotsRevived(SaveSlot(dir, s), listing)
  {
    var files := SaveSlot(dir, s).value;
    var n := SlotFileName(s.id);
    assert n in listing;
    var i :| 0 <= i < |listing| && listing[i] == n;
    ReadBack(s);
    ScanWithoutBroken(listing, files, IsSlotFileName, SlotOfDocument);
    assert SlotOfDocument(files[n].doc) == Some(StoredSlot(s));
    ScanAllMembers(listing, files, IsSlotFileName, SlotOfDocument, StoredSlot(s));
    var loaded := LoadSlots(SaveSlot(dir, s), listing);
    var j :| 0 <= j < |loaded| && loaded[j] == StoredSlot(s);
    assert LoadSlotsRevived(SaveSlot(dir, s), listing)[j] == RevivedSlot(StoredSlot(s));
  }

  /** A slot directory holding only the file `<id>.yaml` written from `s`. */
  function SingleSlotDir(s: Slot): Dir<SlotDocument> {
    Some(map[SlotFileName(s.id) := Document(SlotDocument(Some(Denormalize(StoredSlot(s)))))])
  }

  /** That directory loads as the slot with its dates as text, and as the
      slot itself once revived when its dates are objects. */
  lemma SingleSlotLoads(s: Slot)
    ensures LoadSlots(SingleSlotDir(s), [SlotFileName(s.id)]) == [StoredSlot(s)]
    ensures SlotDatedByObjects(s) ==> LoadSlotsRevived(SingleSlotDir(s), [SlotFileName(s.id)]) == [s]
  {
    var n := SlotFileName(s.id);
    ReadBack(StoredSlot(s));
    StoredSlotRoundTrip(s);
    assert [n][1..] == [];
    assert LoadSlots(SingleSlotDir(s), [n]) == [StoredSlot(s)];
  }

  /** Writing the stored form of a slot of the same id over that directory
      leaves the directory written from that slot. */
  lemma SaveOverSingleSlot(s: Slot, t: Slot)
    requires t.id == s.id
    ensures SaveSlot(SingleSlotDir(s), StoredSlot(t)) == SingleSlotDir(t)
  {
    var n := SlotFileName(s.id);
    var d := Document(SlotDocument(Some(Denormalize(StoredSlot(t)))));
    assert SingleSlotDir(s).value[n := d] == map[n := d];
  }

  // ---------------------------------------------------------------------------
  // Agents and tasks
  // ---------------------------------------------------------------------------

  predicate IsJsonFileName(n: string) {
    EndsWith(n, ".json")
  }

  /** `loadAgents`: the agents of the `.json` files, in listing order; a
      missing directory is empty; an unreadable file ends the scan. */
  function LoadAgents(dir: Dir<Agent>, listing: seq<string>): (agents: seq<Agent>)
    ensures dir.None? ==> agents == []
  {
    match dir
    case None => []
    case Some(files) => Scan(listing, files, IsJsonFileName, (a: Agent) => Some(a))
  }

  function AgentFileName(id: string): string {
    id + ".json"
  }

  /** `saveAgent`: writes the agent to `<id>.json`. */
  function SaveAgent(dir: Dir<Agent>, a: Agent): (dir': Dir<Agent>)
    ensures dir'.Some? && AgentFileName(a.id) in dir'.value
    ensures dir'.value[AgentFileName(a.id)] == Document(a)
    ensures forall n :: n != AgentFileName(a.id) && dir.Some? && n in dir.value ==>
              n in dir'.value && dir'.value[n] == dir.value[n]
  {
    var files := if dir.Some? then dir.value else map[];
    Some(files[AgentFileName(a.id) := Document(a)])
  }

  /** A task file's document. Optional dates are absent unless the file
      holds a non-empty date. */
  function TaskOfDocument(t: Task): Option<Task> {
    Some(t)
  }

  /** `loadTasks`: the tasks of the `.json` files, in listing order. */
  function LoadTasks(dir: Dir<Task>, listing: seq<string>): (tasks: seq<Task>)
    ensures dir.None? ==> tasks == []
  {
    match dir
    case None => []
    case Some(files) => Scan(listing, files, IsJsonFileName, TaskOfDocument)
  }

  /** `saveTask`: writes the task to `<id>.json`. */
  function SaveTask(dir: Dir<Task>, t: Task): (dir': Dir<Task>)
    ensures dir'.Some? && t.id + ".json" in dir'.value
    ensures dir'.value[t.id + ".json"] == Document(t)
    ensures forall n :: n != t.id + ".json" && dir.Some? && n in dir.value ==>
              n in dir'.value && dir'.value[n] == dir.value[n]
  {
    var files := if dir.Some? then dir.value else map[];
    Some(files[t.id + ".json" := Document(t)])
  }

  // ---------------------------------------------------------------------------
  // The whole coordination directory
  // ---------------------------------------------------------------------------

  /** `.acp/` of one project: `project.json` (None when it cannot be read),
      the slot, agent and task directories, and the manifests written under
      `agents/<id>/manifest.json`. */
  datatype Workspace = Workspace(
    project: Option<Project>,
    slots: Dir<SlotDocument>,
    agents: Dir<Agent>,
    tasks: Dir<Task>,
    manifests: map<string, RoleManifest>)

  /** The file system as the commands reach it: the coordination directory
      under each project path. A path nothing was written under holds
      nothing. */
  type Disk = map<string, Workspace>

  const Nothing: Workspace := Workspace(None, None, None, None, map[])

  function At(disk: Disk, path: string): Workspace {
    if path in disk then disk[path] else Nothing
  }

  /** The disk with the coordination directory under `path` replaced by
      `w`, every other one as it was. */
  function Put(disk: Disk, path: string, w: Workspace): (d: Disk)
    ensures At(d, path) == w
    ensures forall p :: p != path ==> At(d, p) == At(disk, p)
  {
    disk[path := w]
  }

  datatype LoadError = NoProject(path: string)

  function LoadErrorText(e: LoadError): string {
    "No ACP project found in " + e.path + ". Run 'acp init' first."
  }

  /** `loadProject`: the parsed `project.json`, or the "no project" error. */
  function LoadProject(w: Workspace, projectPath: string): (r: Result<Project, LoadError>)
    ensures r.Failure? <==> w.project.None?
    ensures r.Failure? ==> r.error == NoProject(projectPath)
    ensures r.Success? ==> r.value == w.project.value
  {
    if w.project.None? then Failure(NoProject(projectPath)) else Success(w.project.value)
  }

  /** `path.basename`: the last path segment, ignoring trailing slashes. */
  function Basename(p: string): (b: string)
    ensures '/' !in b
    ensures exists k: nat :: LastSegmentAt(p, b, k)
  {
    var q := p[..|p| - TrailingSlashes(p)];
    var k := LastSlash(q);
    assert p[k..k + |q[k..]|] == q[k..];
    assert LastSegmentAt(p, q[k..], k);
    q[k..]
  }

  /** Number of slashes the path ends with. */
  function TrailingSlashes(p: string): (n: nat)
    ensures n <= |p|
    ensures forall j :: |p| - n <= j < |p| ==> p[j] == '/'
  {
    if |p| == 0 || p[|p| - 1] != '/' then 0
    else 1 + TrailingSlashes(p[..|p| - 1])
  }

  /** `b` sits at `k` in `p`, at the start or after a slash, and only slashes
      follow it. */
  predicate LastSegmentAt(p: string, b: string, k: nat) {
    && k + |b| <= |p| && p[k..k + |b|] == b
    && (k == 0 || p[k - 1] == '/')
    && forall j :: k + |b| <= j < |p| ==> p[j] == '/'
  }

  function LastSlash(p: string): (k: nat)
    ensures k <= |p|
    ensures '/' !in p[k..]
    ensures k > 0 ==> p[k - 1] == '/'
  {
    if |p| == 0 then 0
    else if p[|p| - 1] == '/' then |p|
    else
      var k := LastSlash(p[..|p| - 1]);
      assert p[k..] == p[..|p| - 1][k..] + [p[|p| - 1]];
      k
  }

  const ExampleSlotFile: string := "example-agent.yaml"

  /** The example slot `initProject` writes, still to be approved by a human:
      it carries no status and no claim lists. */
  const ExampleSlot: RawSlot := RawSlot(
    "example-agent", "Example Agent", "backend-developer", None,
    ["openclaw"], ["kimi-coding/k2p5"], Num(1), false, None, None, None, None)

  /** `initProject`: creates the directories (keeping existing files), writes
      `project.json` and the example slot file. */
  function InitProject(w: Workspace, projectPath: string): (r: (Workspace, Project))
    ensures r.0.project == Some(r.1)
    ensures r.1.id == Basename(projectPath) && r.1.path == projectPath
    ensures r.0.slots.Some? && ExampleSlotFile in r.0.slots.value
    ensures r.0.agents.Some? && r.0.tasks.Some?
  {
    var acp := PathJoin(projectPath, ".acp");
    var project := Project(
      Basename(projectPath), Basename(projectPath), "", projectPath, ProjectActive, None, [],
      ProjectConfig(PathJoin(PathJoin(acp, "messages"), "inbox"),
                    PathJoin(PathJoin(acp, "messages"), "outbox"),
                    "", "main", false, true));
    var slots := if w.slots.Some? then w.slots.value else map[];
    var w' := w.(
      project := Some(project),
      slots := Some(slots[ExampleSlotFile := Document(SlotDocument(Some(ExampleSlot)))]),
      agents := if w.agents.Some? then w.agents else Some(map[]),
      tasks := if w.tasks.Some? then w.tasks else Some(map[]));
    (w', project)
  }

  /** After `initProject`, the example slot loads as an unapproved, available
      slot of capacity one with no claims, whatever else the directory holds,
      as long as no slot file is broken. */
  lemma ExampleSlotLoads(w: Workspace, projectPath: string, listing: seq<string>)
    requires var files := InitProject(w, projectPath).0.slots.value;
             Enumerates(files, listing)
             && forall i :: 0 <= i < |listing| ==> !Broken(files, IsSlotFileName, listing[i])
    ensures var s := Normalize(ExampleSlot);
            && s in LoadSlots(InitProject(w, projectPath).0.slots, listing)
            && s.status == Available && s.currentClaims == [] && s.claimHistory == []
            && !s.approved && s.maxConcurrent == Num(1)
            && StatusAgreesWithClaims(s) && WithinCapacity(s)
  {
    var files := InitProject(w, projectPath).0.slots.value;
    var s := Normalize(ExampleSlot);
    assert ExampleSlotFile in listing;
    var i :| 0 <= i < |listing| && listing[i] == ExampleSlotFile;
    assert IsSlotFileName(ExampleSlotFile) by {
      assert ExampleSlotFile[|ExampleSlotFile| - 5..] == ".yaml";
    }
    ScanWithoutBroken(listing, files, IsSlotFileName, SlotOfDocument);
    ScanAllMembers(listing, files, IsSlotFileName, SlotOfDocument, s);
  }
}
