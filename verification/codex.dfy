/**
 * The Codex provider (src/providers/codex.ts): its settings and their
 * defaults, the arguments it hands the `codex` command line, the prompt it
 * builds for a task, and the way it reads a code review back out of the
 * tool's free-text answer. Spawning the process and calling the REST
 * endpoint are not modelled.
 */
module Codex {
  import opened Wrappers
  import opened Strings
  import opened Seqs
  import opened Types

  // ---------------------------------------------------------------------------
  // Settings and the command line
  // ---------------------------------------------------------------------------

  /** The constructor's options; None when an option is not given. */
  datatype CodexConfig = CodexConfig(
    model: Option<string>,
    workingDir: Option<string>,
    acceptAll: Option<bool>)

  /** The settings the provider keeps after applying the defaults. */
  datatype CodexSettings = CodexSettings(model: string, workingDir: string, acceptAll: bool)

  const DefaultModel: string := "gpt-4o"

  /** The constructor: an empty model or directory falls back to its default
      (`||`), while `acceptAll` falls back only when absent (`??`), so an
      explicit `false` stays false. The current directory is a parameter. */
  function NewProvider(config: CodexConfig, cwd: string): (s: CodexSettings)
    ensures s.model != ""
    ensures Given(config.model) ==> s.model == config.model.value
    ensures !Given(config.model) ==> s.model == DefaultModel
    ensures Given(config.workingDir) ==> s.workingDir == config.workingDir.value
    ensures !Given(config.workingDir) ==> s.workingDir == cwd
    ensures s.acceptAll <==> config.acceptAll == Some(true)
  {
    CodexSettings(OrElse(config.model, DefaultModel),
                  OrElse(config.workingDir, cwd),
                  config.acceptAll.GetOr(false))
  }

  /** The arguments of `codex`: the prompt, then `--accept-all` when asked
      for, then `--model <model>` when a model is set. */
  function CodexArgs(s: CodexSettings, prompt: string): (args: seq<string>)
    ensures |args| == 1 + (if s.acceptAll then 1 else 0) + (if s.model != "" then 2 else 0)
    ensures args[0] == prompt
    ensures s.acceptAll <==> |args| > 1 && args[1] == "--accept-all"
    ensures s.model != "" ==> args[|args| - 2..] == ["--model", s.model]
    ensures s.model == "" ==> "--model" !in args[1..]
  {
    [prompt]
    + (if s.acceptAll then ["--accept-all"] else [])
    + (if s.model != "" then ["--model", s.model] else [])
  }

  /** A provider built by the constructor always names its model on the
      command line: the configured one, or `gpt-4o`. */
  lemma ConstructedArgsNameModel(config: CodexConfig, cwd: string, prompt: string)
    ensures var args := CodexArgs(NewProvider(config, cwd), prompt);
      && (|args| == 3 || |args| == 4)
      && args[|args| - 2] == "--model"
      && args[|args| - 1] == (if Given(config.model) then config.model.value else DefaultModel)
      && (|args| == 4 <==> config.acceptAll == Some(true))
  {
  }

  // ---------------------------------------------------------------------------
  // buildPrompt
  // ---------------------------------------------------------------------------

  function BulletLine(item: string): string {
    "- " + item
  }

  /** The description block after the task title: a blank line and the
      description when it is a non-empty string, an empty line otherwise. */
  function DescriptionLines(description: Option<string>): seq<string> {
    if Given(description) then ["", "Description: " + description.value] else [""]
  }

  /** One bullet per responsibility; an empty list still leaves its (empty)
      line behind. */
  function ResponsibilityLines(responsibilities: seq<string>): seq<string> {
    if |responsibilities| == 0 then [""] else Map(responsibilities, BulletLine)
  }

  function ContextLines(team: ManifestTeam): seq<string> {
    ["",
     "Project context:",
     "- Project: " + team.project,
     "- Sprint: " + team.sprint,
     "- Reports to: " + team.reportsTo]
  }

  const ClosingLines: seq<string> :=
    ["",
     "Complete this task by:",
     "1. Understanding the requirements",
     "2. Implementing the solution",
     "3. Writing tests if needed",
     "4. Following project conventions",
     "",
     "Start working on the task."]

  /** Every line of the prompt, in order. */
  function PromptLines(task: Task, m: RoleManifest): seq<string> {
    ["You are " + m.agent.id + ", a " + m.role.title + ".", "", "TASK: " + task.title]
    + DescriptionLines(task.description)
    + ["", "Your responsibilities:"]
    + ResponsibilityLines(m.role.responsibilities)
    + ContextLines(m.team)
    + ClosingLines
  }

  /** `buildPrompt`: the template, as the newline-joined lines it spells. */
  function BuildPrompt(task: Task, m: RoleManifest): (prompt: string) {
    Join(PromptLines(task, m), '\n')
  }

  /** The text the prompt interpolates is single-line. */
  predicate SingleLinePrompt(task: Task, m: RoleManifest) {
    && NoNewline(m.agent.id)
    && NoNewline(m.role.title)
    && NoNewline(task.title)
    && NoNewline(OrElse(task.description, ""))
    && NoNewline(m.team.project)
    && NoNewline(m.team.sprint)
    && NoNewline(m.team.reportsTo)
    && forall i :: 0 <= i < |m.role.responsibilities| ==> NoNewline(m.role.responsibilities[i])
  }

  /** Reading the prompt back line by line recovers who the agent is, the
      task title, the description when there is one, and each
      responsibility in order on its own bullet line. */
  lemma PromptReadsBack(task: Task, m: RoleManifest)
    requires SingleLinePrompt(task, m)
    ensures var lines := Split(BuildPrompt(task, m), '\n');
      var d := if Given(task.description) then 1 else 0;
      var rs := m.role.responsibilities;
      && |lines| == 6 + d + (if |rs| == 0 then 1 else |rs|) + 13
      && lines[0] == "You are " + m.agent.id + ", a " + m.role.title + "."
      && lines[2] == "TASK: " + task.title
      && (Given(task.description) ==> lines[4] == "Description: " + task.description.value)
      && forall i :: 0 <= i < |rs| ==> lines[6 + d + i] == "- " + rs[i]
  {
    PromptSplits(task, m);
    PromptLinesShape(task, m);
  }

  lemma PromptSplits(task: Task, m: RoleManifest)
    requires SingleLinePrompt(task, m)
    ensures Split(BuildPrompt(task, m), '\n') == PromptLines(task, m)
  {
    PromptLinesSingle(task, m);
    SplitJoin(PromptLines(task, m), '\n');
  }

  lemma PromptLinesShape(task: Task, m: RoleManifest)
    ensures var lines := PromptLines(task, m);
      var d := if Given(task.description) then 1 else 0;
      var rs := m.role.responsibilities;
      && |lines| == 6 + d + (if |rs| == 0 then 1 else |rs|) + 13
      && lines[0] == "You are " + m.agent.id + ", a " + m.role.title + "."
      && lines[2] == "TASK: " + task.title
      && (Given(task.description) ==> lines[4] == "Description: " + task.description.value)
      && forall i :: 0 <= i < |rs| ==> lines[6 + d + i] == "- " + rs[i]
  {
    var lines := PromptLines(task, m);
    var head := ["You are " + m.agent.id + ", a " + m.role.title + ".", "", "TASK: " + task.title]
                + DescriptionLines(task.description) + ["", "Your responsibilities:"];
    var r := ResponsibilityLines(m.role.responsibilities);
    assert lines == head + r + (ContextLines(m.team) + ClosingLines);
    assert lines[..|head|] == head;
    forall i | 0 <= i < |m.role.responsibilities|
      ensures lines[|head| + i] == "- " + m.role.responsibilities[i]
    {
      assert lines[|head| + i] == r[i];
    }
  }

  lemma PromptLinesSingle(task: Task, m: RoleManifest)
    requires SingleLinePrompt(task, m)
    ensures SingleLines(PromptLines(task, m))
  {
    var head := ["You are " + m.agent.id + ", a " + m.role.title + ".", "", "TASK: " + task.title]
                + DescriptionLines(task.description) + ["", "Your responsibilities:"];
    var r := ResponsibilityLines(m.role.responsibilities);
    HeadSingle(task, m);
    ResponsibilitiesSingle(m.role.responsibilities);
    ContextSingle(m.team);
    ClosingSingle();
    SingleLinesConcat(head, r);
    SingleLinesConcat(head + r, ContextLines(m.team));
    SingleLinesConcat(head + r + ContextLines(m.team), ClosingLines);
  }

  lemma HeadSingle(task: Task, m: RoleManifest)
    requires SingleLinePrompt(task, m)
    ensures SingleLines(["You are " + m.agent.id + ", a " + m.role.title + ".", "", "TASK: " + task.title]
                        + DescriptionLines(task.description) + ["", "Your responsibilities:"])
  {
    PrefixedSingle("You are ", m.agent.id);
    PrefixedSingle("You are " + m.agent.id, ", a ");
    PrefixedSingle("You are " + m.agent.id + ", a ", m.role.title);
    PrefixedSingle("You are " + m.agent.id + ", a " + m.role.title, ".");
    PrefixedSingle("TASK: ", task.title);
    if Given(task.description) {
      PrefixedSingle("Description: ", task.description.value);
    }
  }

  lemma ResponsibilitiesSingle(rs: seq<string>)
    requires forall i :: 0 <= i < |rs| ==> NoNewline(rs[i])
    ensures SingleLines(ResponsibilityLines(rs))
  {
    forall i | 0 <= i < |rs| ensures '\n' !in BulletLine(rs[i]) {
      PrefixedSingle("- ", rs[i]);
    }
  }

  lemma ContextSingle(team: ManifestTeam)
    requires NoNewline(team.project) && NoNewline(team.sprint) && NoNewline(team.reportsTo)
    ensures SingleLines(ContextLines(team))
  {
    PrefixedSingle("- Project: ", team.project);
    PrefixedSingle("- Sprint: ", team.sprint);
    PrefixedSingle("- Reports to: ", team.reportsTo);
  }

  lemma ClosingSingle()
    ensures SingleLines(ClosingLines)
  {
    LineSingle("Complete this task by:");
    LineSingle("1. Understanding the requirements");
    LineSingle("2. Implementing the solution");
    LineSingle("3. Writing tests if needed");
    LineSingle("4. Following project conventions");
    LineSingle("Start working on the task.");
  }

  /** A line with no newline character, checked character by character. */
  lemma LineSingle(line: string)
    requires forall i :: 0 <= i < |line| ==> line[i] != '\n'
    ensures '\n' !in line
  {
  }

  predicate DescriptionLine(line: string) {
    StartsWith(line, "Description: ")
  }

  /** The prompt carries a description line exactly when the task has a
      non-empty description. */
  lemma PromptHasDescriptionIff(task: Task, m: RoleManifest)
    requires SingleLinePrompt(task, m)
    ensures var lines := Split(BuildPrompt(task, m), '\n');
      (exists i :: 0 <= i < |lines| && DescriptionLine(lines[i])) <==> Given(task.description)
  {
    PromptSplits(task, m);
    var lines := PromptLines(task, m);
    if Given(task.description) {
      DescriptionShown(task, m);
      assert DescriptionLine(lines[4]);
    } else {
      DescriptionAbsent(task, m);
    }
  }

  lemma DescriptionShown(task: Task, m: RoleManifest)
    requires Given(task.description)
    ensures |PromptLines(task, m)| > 4 && DescriptionLine(PromptLines(task, m)[4])
  {
    var lines := PromptLines(task, m);
    assert lines[4] == "Description: " + task.description.value;
  }

  lemma DescriptionAbsent(task: Task, m: RoleManifest)
    requires !Given(task.description)
    ensures forall i :: 0 <= i < |PromptLines(task, m)| ==> !DescriptionLine(PromptLines(task, m)[i])
  {
    var lines := PromptLines(task, m);
    var head := ["You are " + m.agent.id + ", a " + m.role.title + ".", "", "TASK: " + task.title];
    var mid := ["", "", "Your responsibilities:"];
    var r := ResponsibilityLines(m.role.responsibilities);
    var tail := ContextLines(m.team) + ClosingLines;
    assert lines == head + mid + r + tail;
    NoDescriptionIn(head + mid + r + tail, head, mid, r, tail, m.team);
  }

  lemma NoDescriptionIn(lines: seq<string>, head: seq<string>, mid: seq<string>,
                        r: seq<string>, tail: seq<string>, team: ManifestTeam)
    requires lines == head + mid + r + tail
    requires |head| == 3 && StartsWith(head[0], "You are ") && head[1] == "" && StartsWith(head[2], "TASK: ")
    requires mid == ["", "", "Your responsibilities:"]
    requires forall i :: 0 <= i < |r| ==> r[i] == "" || StartsWith(r[i], "- ")
    requires tail == ContextLines(team) + ClosingLines
    ensures forall i :: 0 <= i < |lines| ==> !DescriptionLine(lines[i])
  {
    forall i | 0 <= i < |lines|
      ensures !DescriptionLine(lines[i])
    {
      var line := lines[i];
      if i < 3 {
        if i == 0 { NotDescription(line); }
        else if i == 2 { NotDescription(line); }
      } else if i < 6 {
        assert line == mid[i - 3];
        if i == 5 { NotDescription(line); }
      } else if i < 6 + |r| {
        assert line == r[i - 6];
        if line != "" { NotDescription(line); }
      } else {
        var k := i - 6 - |r|;
        assert line == tail[k];
        TailNotDescription(team, k);
      }
    }
  }

  lemma TailNotDescription(team: ManifestTeam, k: nat)
    requires k < |ContextLines(team) + ClosingLines|
    ensures !DescriptionLine((ContextLines(team) + ClosingLines)[k])
  {
    var tail := ContextLines(team) + ClosingLines;
    var line := tail[k];
    if k == 1 { NotDescription(line); }
    else if k == 2 { NotDescription(line); }
    else if k == 3 { NotDescription(line); }
    else if k == 4 { NotDescription(line); }
    else if k == 6 { NotDescription(line); }
    else if k == 7 { NotDescription(line); }
    else if k == 8 { NotDescription(line); }
    else if k == 9 { NotDescription(line); }
    else if k == 10 { NotDescription(line); }
    else if k == 12 { NotDescription(line); }
  }

  lemma NotDescription(line: string)
    requires |line| > 0 && line[0] != 'D'
    ensures !DescriptionLine(line)
  {
  }

  // ---------------------------------------------------------------------------
  // parseReviewResult
  // ---------------------------------------------------------------------------

  /** What a review answer is read as. */
  datatype ReviewResult = ReviewResult(approved: bool, comments: seq<string>, suggestions: seq<string>)

  /** The approval test looks at the whole answer, case-insensitively: it
      mentions approval and does not ask for changes. */
  predicate Approves(output: string) {
    var lower := Lower(output);
    Contains(lower, "approve") && !Contains(lower, "request changes")
  }

  datatype Section = Comments | Suggestions

  /** How one line of the answer is read: a line that mentions comments or
      issues opens the comments section, one that mentions suggestions or
      improvements opens the suggestions section, and any other line whose
      trimmed text starts with `-` or `*` is a bullet whose item drops that
      marker and the whitespace after it. */
  datatype LineKind = Header(section: Section) | Bullet(item: string) | Plain

  predicate NamesComments(lower: string) {
    Contains(lower, "comment") || Contains(lower, "issue")
  }

  predicate NamesSuggestions(lower: string) {
    Contains(lower, "suggestion") || Contains(lower, "improvement")
  }

  predicate IsMarker(c: char) {
    c == '-' || c == '*'
  }

  function Classify(line: string): (k: LineKind)
    ensures k.Header? <==> NamesComments(Lower(line)) || NamesSuggestions(Lower(line))
    ensures k == Header(Comments) <==> NamesComments(Lower(line))
    ensures k.Bullet? ==> |k.item| < |line| && (k.item == [] || !IsSpace(k.item[0]))
  {
    var lower := Lower(line);
    if NamesComments(lower) then Header(Comments)
    else if NamesSuggestions(lower) then Header(Suggestions)
    else
      var t := Trim(line);
      if |t| > 0 && IsMarker(t[0]) then Bullet(TrimStart(t[1..])) else Plain
  }

  /** How each line of an answer is read, in order. */
  function ReadLines(output: string): (kinds: seq<LineKind>)
    ensures |kinds| == |Split(output, '\n')|
  {
    Map(Split(output, '\n'), Classify)
  }

  /** The section in force when line `i` is reached: the one opened by the
      last header line before it, if any. */
  function SectionBefore(kinds: seq<LineKind>, i: nat): Option<Section>
    requires i <= |kinds|
  {
    if i == 0 then None
    else match kinds[i - 1]
      case Header(s) => Some(s)
      case _ => SectionBefore(kinds, i - 1)
  }

  /** The items recorded for section `s` from the first `n` lines: the bullets
      met while `s` was in force, in order. */
  function Items(kinds: seq<LineKind>, n: nat, s: Section): seq<string>
    requires n <= |kinds|
  {
    if n == 0 then []
    else
      Items(kinds, n - 1, s)
      + (if kinds[n - 1].Bullet? && SectionBefore(kinds, n - 1) == Some(s) then [kinds[n - 1].item] else [])
  }

  /** `parseReviewResult`: the approval verdict, then one pass over the classified lines
      that switches section at each header and files each bullet under the
      section in force, dropping bullets met before any header. */
  method ParseReviewResult(output: string) returns (r: ReviewResult)
    ensures r.approved <==> Approves(output)
    ensures r.comments == Items(ReadLines(output), |ReadLines(output)|, Comments)
    ensures r.suggestions == Items(ReadLines(output), |ReadLines(output)|, Suggestions)
  {
    var kinds := ReadLines(output);
    var comments, suggestions := FileItems(kinds);
    r := ReviewResult(Approves(output), comments, suggestions);
  }

  /** The pass over the classified lines: it switches section at each header
      and files each bullet under the section in force. */
  method FileItems(kinds: seq<LineKind>) returns (comments: seq<string>, suggestions: seq<string>)
    ensures comments == Items(kinds, |kinds|, Comments)
    ensures suggestions == Items(kinds, |kinds|, Suggestions)
  {
    var section: Option<Section> := None;
    comments, suggestions := [], [];
    var i := 0;
    while i < |kinds|
      invariant 0 <= i <= |kinds|
      invariant section == SectionBefore(kinds, i)
      invariant comments == Items(kinds, i, Comments)
      invariant suggestions == Items(kinds, i, Suggestions)
    {
      ReadStep(kinds, i, Comments);
      ReadStep(kinds, i, Suggestions);
      match kinds[i] {
        case Header(s) =>
          section := Some(s);
        case Bullet(item) =>
          if section == Some(Comments) {
            comments := comments + [item];
          } else if section == Some(Suggestions) {
            suggestions := suggestions + [item];
          }
        case Plain =>
      }
      i := i + 1;
    }
  }

  /** One more line: a header switches the section, and a bullet is filed
      under the section in force. */
  lemma ReadStep(kinds: seq<LineKind>, i: nat, s: Section)
    requires i < |kinds|
    ensures SectionBefore(kinds, i + 1)
            == if kinds[i].Header? then Some(kinds[i].section) else SectionBefore(kinds, i)
    ensures Items(kinds, i + 1, s)
            == Items(kinds, i, s)
               + (if kinds[i].Bullet? && SectionBefore(kinds, i) == Some(s) then [kinds[i].item] else [])
  {
  }

  /** The section in force is the one the last header before the line named,
      and there is none exactly when no header comes before it. */
  lemma {:induction false} SectionIsLastHeader(kinds: seq<LineKind>, i: nat, s: Section)
    requires i <= |kinds|
    ensures SectionBefore(kinds, i) == Some(s) <==>
      exists j :: 0 <= j < i && kinds[j] == Header(s)
                  && forall k :: j < k < i ==> !kinds[k].Header?
    ensures SectionBefore(kinds, i).None? <==> forall j :: 0 <= j < i ==> !kinds[j].Header?
  {
    if i > 0 {
      SectionIsLastHeader(kinds, i - 1, s);
      if kinds[i - 1].Header? {
        if kinds[i - 1] == Header(s) {
          assert 0 <= i - 1 < i && kinds[i - 1] == Header(s);
        } else {
          forall j | 0 <= j < i && kinds[j] == Header(s)
            ensures exists k :: j < k < i && kinds[k].Header?
          {
            assert j < i - 1;
          }
        }
      } else {
        if SectionBefore(kinds, i) == Some(s) {
          var j :| 0 <= j < i - 1 && kinds[j] == Header(s)
                   && forall k :: j < k < i - 1 ==> !kinds[k].Header?;
          assert forall k :: j < k < i ==> !kinds[k].Header?;
        } else {
          forall j | 0 <= j < i && kinds[j] == Header(s)
            ensures exists k :: j < k < i && kinds[k].Header?
          {
            assert j != i - 1;
          }
        }
      }
    }
  }

  /** An item is recorded for a section exactly when some bullet line carries
      it while that section is in force; header lines are never recorded. */
  lemma {:induction false} ItemsAreSectionBullets(kinds: seq<LineKind>, n: nat, s: Section, x: string)
    requires n <= |kinds|
    ensures x in Items(kinds, n, s) <==>
      exists j :: 0 <= j < n && kinds[j] == Bullet(x) && SectionBefore(kinds, j) == Some(s)
  {
    if n > 0 {
      ItemsAreSectionBullets(kinds, n - 1, s, x);
    }
  }

  /** Bullets before the first header are dropped: with no header among the
      first `n` lines, neither section records anything. */
  lemma {:induction false} BulletsBeforeHeaderDropped(kinds: seq<LineKind>, n: nat)
    requires n <= |kinds|
    requires forall j :: 0 <= j < n ==> !kinds[j].Header?
    ensures Items(kinds, n, Comments) == [] && Items(kinds, n, Suggestions) == []
  {
    if n > 0 {
      BulletsBeforeHeaderDropped(kinds, n - 1);
      SectionIsLastHeader(kinds, n - 1, Comments);
    }
  }

  /** Each line is recorded at most once, under at most one section. */
  lemma {:induction false} ItemsCount(kinds: seq<LineKind>, n: nat)
    requires n <= |kinds|
    ensures |Items(kinds, n, Comments)| + |Items(kinds, n, Suggestions)| <= n
  {
    if n > 0 {
      ItemsCount(kinds, n - 1);
    }
  }

  /** A run of bullet lines under section `s` appends its items to `s`, in
      order, and leaves the other section alone. */
  lemma {:induction false} BulletRun(kinds: seq<LineKind>, start: nat, xs: seq<string>, s: Section, other: Section)
    requires start + |xs| <= |kinds| && other != s
    requires SectionBefore(kinds, start) == Some(s)
    requires forall i :: 0 <= i < |xs| ==> kinds[start + i] == Bullet(xs[i])
    ensures SectionBefore(kinds, start + |xs|) == Some(s)
    ensures Items(kinds, start + |xs|, s) == Items(kinds, start, s) + xs
    ensures Items(kinds, start + |xs|, other) == Items(kinds, start, other)
    decreases |xs|
  {
    if |xs| > 0 {
      var ys := xs[..|xs| - 1];
      BulletRun(kinds, start, ys, s, other);
      assert kinds[start + |ys|] == Bullet(xs[|ys|]);
      assert ys + [xs[|ys|]] == xs;
    }
  }

  /** The item of a bullet line is its text: a line made of whitespace, a
      marker, whitespace and a text that neither starts nor ends with
      whitespace is read as that text, provided the line names no section. */
  lemma BulletReadsBack(line: string, pre: string, marker: char, gap: string, text: string)
    requires line == pre + [marker] + gap + text
    requires AllSpace(pre) && IsMarker(marker) && AllSpace(gap)
    requires text != [] && !IsSpace(text[0]) && !IsSpace(text[|text| - 1])
    requires !NamesComments(Lower(line)) && !NamesSuggestions(Lower(line))
    ensures Classify(line) == Bullet(text)
  {
    var body := [marker] + gap + text;
    Regroup(pre, [marker], gap, text);
    assert body[0] == marker && body[|body| - 1] == text[|text| - 1];
    TrimAfterBlanks(pre, body);
    AfterMarker(body, marker, gap, text);
    BulletClassified(line, body);
  }

  /** After the marker, `TrimStart` drops the blanks and leaves the text. */
  lemma AfterMarker(body: string, marker: char, gap: string, text: string)
    requires body == [marker] + gap + text && AllSpace(gap)
    requires text != [] && !IsSpace(text[0])
    ensures TrimStart(body[1..]) == text
  {
    assert body[1..] == gap + text;
    TrimStartPadded(gap, text);
  }

  lemma BulletClassified(line: string, t: string)
    requires !NamesComments(Lower(line)) && !NamesSuggestions(Lower(line))
    requires Trim(line) == t && |t| > 0 && IsMarker(t[0])
    ensures Classify(line) == Bullet(TrimStart(t[1..]))
  {
  }

  // A review written in the layout the prompt asks for.

  const CommentsHeading: string := "Comments:"
  const SuggestionsHeading: string := "Suggestions:"

  /** The lines of a review with a comments section and a suggestions
      section, one `- ` bullet per item. */
  function RenderReview(comments: seq<string>, suggestions: seq<string>): seq<string> {
    [CommentsHeading] + Map(comments, BulletLine) + [SuggestionsHeading] + Map(suggestions, BulletLine)
  }

  /** An item that survives the round trip: one trimmed, non-empty line whose
      bullet names no section. */
  predicate PlainItem(x: string) {
    && x != [] && !IsSpace(x[0]) && !IsSpace(x[|x| - 1])
    && NoNewline(x)
    && !NamesComments(Lower(BulletLine(x))) && !NamesSuggestions(Lower(BulletLine(x)))
  }

  /** Parsing a rendered review gives back its comments and suggestions, in
      order. */
  lemma RenderedReviewReadsBack(comments: seq<string>, suggestions: seq<string>)
    requires forall i :: 0 <= i < |comments| ==> PlainItem(comments[i])
    requires forall i :: 0 <= i < |suggestions| ==> PlainItem(suggestions[i])
    ensures var kinds := ReadLines(Join(RenderReview(comments, suggestions), '\n'));
      && Items(kinds, |kinds|, Comments) == comments
      && Items(kinds, |kinds|, Suggestions) == suggestions
  {
    var lines := RenderReview(comments, suggestions);
    RenderedSingle(comments, suggestions);
    SplitJoin(lines, '\n');
    var kinds := ReadLines(Join(lines, '\n'));
    assert kinds == Map(lines, Classify);
    RenderedKinds(comments, suggestions);
    SectionedItems(kinds, comments, suggestions);
  }

  /** The line kinds of a review laid out as a comments heading, its bullets,
      a suggestions heading and its bullets. */
  predicate ReviewShape(kinds: seq<LineKind>, comments: seq<string>, suggestions: seq<string>) {
    var nc := |comments|;
    && |kinds| == 2 + nc + |suggestions|
    && kinds[0] == Header(Comments)
    && (forall i {:trigger comments[i]} :: 0 <= i < nc ==> kinds[1 + i] == Bullet(comments[i]))
    && kinds[1 + nc] == Header(Suggestions)
    && (forall i {:trigger suggestions[i]} :: 0 <= i < |suggestions| ==>
          kinds[2 + nc + i] == Bullet(suggestions[i]))
  }

  lemma RenderedKinds(comments: seq<string>, suggestions: seq<string>)
    requires forall i :: 0 <= i < |comments| ==> PlainItem(comments[i])
    requires forall i :: 0 <= i < |suggestions| ==> PlainItem(suggestions[i])
    ensures ReviewShape(Map(RenderReview(comments, suggestions), Classify), comments, suggestions)
  {
    HeadingsRead();
    BulletsRead(comments);
    BulletsRead(suggestions);
    RenderedShape(comments, suggestions, Classify);
  }

  /** Rendering then reading line by line gives the review's layout, for any
      line reader `read` that reads the headings and the bullets back. */
  lemma RenderedShape(comments: seq<string>, suggestions: seq<string>, read: string -> LineKind)
    requires read(CommentsHeading) == Header(Comments)
    requires read(SuggestionsHeading) == Header(Suggestions)
    requires forall i :: 0 <= i < |comments| ==> read(BulletLine(comments[i])) == Bullet(comments[i])
    requires forall i :: 0 <= i < |suggestions| ==>
               read(BulletLine(suggestions[i])) == Bullet(suggestions[i])
    ensures ReviewShape(Map(RenderReview(comments, suggestions), read), comments, suggestions)
  {
    RenderedHeadings(comments, suggestions);
    RenderedBullets(comments, suggestions);
    KindsOfLines(RenderReview(comments, suggestions), comments, suggestions, read);
  }

  lemma RenderedHeadings(comments: seq<string>, suggestions: seq<string>)
    ensures var lines := RenderReview(comments, suggestions);
      var nc := |comments|;
      && |lines| == 2 + nc + |suggestions|
      && lines[0] == CommentsHeading && lines[1 + nc] == SuggestionsHeading
  {
  }

  lemma RenderedBullets(comments: seq<string>, suggestions: seq<string>)
    ensures var lines := RenderReview(comments, suggestions);
      var nc := |comments|;
      && |lines| == 2 + nc + |suggestions|
      && (forall i :: 0 <= i < nc ==> lines[1 + i] == BulletLine(comments[i]))
      && (forall i :: 0 <= i < |suggestions| ==> lines[2 + nc + i] == BulletLine(suggestions[i]))
  {
  }

  /** Each bullet line of plain items is read as the bullet it renders. */
  lemma BulletsRead(xs: seq<string>)
    requires forall i :: 0 <= i < |xs| ==> PlainItem(xs[i])
    ensures forall i :: 0 <= i < |xs| ==> Classify(BulletLine(xs[i])) == Bullet(xs[i])
  {
    forall i | 0 <= i < |xs|
      ensures Classify(BulletLine(xs[i])) == Bullet(xs[i])
    {
      BulletLineReadsBack(xs[i]);
    }
  }

  /** Lines read line by line into the kinds of a review's layout have that
      layout; `read` stands for the line reader. */
  lemma KindsOfLines(lines: seq<string>, comments: seq<string>, suggestions: seq<string>,
                     read: string -> LineKind)
    requires |lines| == 2 + |comments| + |suggestions|
    requires read(lines[0]) == Header(Comments)
    requires read(lines[1 + |comments|]) == Header(Suggestions)
    requires forall i :: 0 <= i < |comments| ==> read(lines[1 + i]) == Bullet(comments[i])
    requires forall i :: 0 <= i < |suggestions| ==>
               read(lines[2 + |comments| + i]) == Bullet(suggestions[i])
    ensures ReviewShape(Map(lines, read), comments, suggestions)
  {
  }

  lemma SectionedItems(kinds: seq<LineKind>, comments: seq<string>, suggestions: seq<string>)
    requires ReviewShape(kinds, comments, suggestions)
    ensures Items(kinds, |kinds|, Comments) == comments
    ensures Items(kinds, |kinds|, Suggestions) == suggestions
  {
    var nc := |comments|;
    SectionRun(kinds, 0, 1 + nc, comments, Comments, Suggestions);
    SectionRun(kinds, 1 + nc, |kinds|, suggestions, Suggestions, Comments);
  }

  /** A header for `s` at `head` followed by a run of bullets up to `end`
      files the run under `s` and leaves the other section as it was. */
  lemma SectionRun(kinds: seq<LineKind>, head: nat, end: nat, xs: seq<string>,
                   s: Section, other: Section)
    requires end == head + 1 + |xs| && end <= |kinds| && other != s
    requires kinds[head] == Header(s)
    requires forall i :: 0 <= i < |xs| ==> kinds[head + 1 + i] == Bullet(xs[i])
    ensures Items(kinds, end, s) == Items(kinds, head, s) + xs
    ensures Items(kinds, end, other) == Items(kinds, head, other)
  {
    ReadStep(kinds, head, s);
    ReadStep(kinds, head, other);
    BulletRun(kinds, head + 1, xs, s, other);
  }

  lemma BulletLineReadsBack(x: string)
    requires PlainItem(x)
    ensures Classify(BulletLine(x)) == Bullet(x)
  {
    assert [] + ['-'] + " " + x == BulletLine(x);
    BulletReadsBack(BulletLine(x), "", '-', " ", x);
  }

  lemma RenderedSingle(comments: seq<string>, suggestions: seq<string>)
    requires forall i :: 0 <= i < |comments| ==> PlainItem(comments[i])
    requires forall i :: 0 <= i < |suggestions| ==> PlainItem(suggestions[i])
    ensures forall i :: 0 <= i < |RenderReview(comments, suggestions)| ==>
              '\n' !in RenderReview(comments, suggestions)[i]
  {
    forall i | 0 <= i < |comments|
      ensures '\n' !in BulletLine(comments[i])
    {
      PrefixedSingle("- ", comments[i]);
    }
    forall i | 0 <= i < |suggestions|
      ensures '\n' !in BulletLine(suggestions[i])
    {
      PrefixedSingle("- ", suggestions[i]);
    }
  }

  /** The two headings open the sections they name. */
  lemma HeadingsRead()
    ensures Classify(CommentsHeading) == Header(Comments)
    ensures Classify(SuggestionsHeading) == Header(Suggestions)
  {
    CommentsHeadingNames(Lower(CommentsHeading));
    SuggestionsHeadingNames(Lower(SuggestionsHeading));
  }

  lemma CommentsHeadingNames(lower: string)
    requires lower == Lower(CommentsHeading)
    ensures NamesComments(lower)
  {
    assert lower == "comment" + "s:";
    ContainsInfix("", "comment", "s:");
    assert "" + "comment" + "s:" == lower;
  }

  lemma SuggestionsHeadingNames(lower: string)
    requires lower == Lower(SuggestionsHeading)
    ensures !NamesComments(lower) && NamesSuggestions(lower)
  {
    assert lower == "suggestions:";
    NamesSuggestionsOnly(lower);
  }

  lemma NamesSuggestionsOnly(s: string)
    requires s == "suggestions:"
    ensures !NamesComments(s) && NamesSuggestions(s)
  {
    ContainsInfix("", "suggestion", "s:");
    assert "" + "suggestion" + "s:" == s;
    NoComment(s);
    NoIssue(s);
  }

  lemma NoComment(s: string)
    requires s == "suggestions:"
    ensures !Contains(s, "comment")
  {
    forall i | 0 <= i && i + 7 <= |s|
      ensures !OccursAt(s, "comment", i)
    {
      assert s[i] != 'c';
    }
  }

  lemma NoIssue(s: string)
    requires s == "suggestions:"
    ensures !Contains(s, "issue")
  {
    forall i | 0 <= i && i + 5 <= |s|
      ensures !OccursAt(s, "issue", i)
    {
      assert s[i] != 'i' || s[i + 1] != 's';
      assert s[i..i + 5][0] == s[i] && s[i..i + 5][1] == s[i + 1];
    }
  }

  // Approval.

  /** The verdict ignores case. */
  lemma ApprovalIgnoresCase(output: string)
    ensures Approves(Upper(output)) == Approves(output)
  {
    assert Lower(Upper(output)) == Lower(output);
  }

  /** Any mention of "approve" counts, negated or not, unless the answer also
      asks for changes: "I do not approve" is an approval. */
  lemma MentionApproves(before: string, after: string)
    requires !Contains(Lower(before + "approve" + after), "request changes")
    ensures Approves(before + "approve" + after)
  {
    LowerAppend(before + "approve", after);
    LowerAppend(before, "approve");
    assert Lower("approve") == "approve";
    ContainsInfix(Lower(before), "approve", Lower(after));
  }

  /** Asking for changes always withholds approval. */
  lemma RequestChangesVetoes(before: string, after: string)
    ensures !Approves(before + "request changes" + after)
  {
    LowerAppend(before + "request changes", after);
    LowerAppend(before, "request changes");
    assert Lower("request changes") == "request changes";
    ContainsInfix(Lower(before), "request changes", Lower(after));
  }
}
