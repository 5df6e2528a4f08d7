/**
 * The pure helpers of src/core/github.ts: `parseGitHubUrl`, which reads the
 * owner and repository out of a clone or web URL with one regular
 * expression, and `createTaskIssueBody`, the Markdown body of the issue
 * opened for a task. The REST client in the same file is not modelled.
 */
module GitHub {
  import opened Wrappers
  import opened Strings
  import opened Seqs

  // ---------------------------------------------------------------------------
  // parseGitHubUrl
  // ---------------------------------------------------------------------------

  datatype RepoRef = RepoRef(owner: string, repo: string)

  const Host: string := "github.com"
  const GitSuffix: string := ".git"

  predicate SlashFree(s: string) {
    '/' !in s
  }

  /** At position `i` the pattern's fixed head matches: `github.com` followed
      by `:` or `/`, with something after it. */
  predicate Anchored(url: string, i: nat) {
    i + 11 <= |url| && url[i..i + 10] == Host && (url[i + 10] == ':' || url[i + 10] == '/')
  }

  /** The repository group `([^/]+?)` followed by `(?:\.git)?$`: the lazy
      group takes the shortest non-empty prefix after which only `.git` or
      nothing is left. */
  function StripGit(rest: string): (repo: string)
    requires rest != []
    ensures repo != [] && |repo| <= |rest| && rest[..|repo|] == repo
    ensures rest[|repo|..] == [] || rest[|repo|..] == GitSuffix
    ensures forall n :: 1 <= n < |repo| ==> rest[n..] != GitSuffix
  {
    if |rest| > 4 && EndsWith(rest, GitSuffix) then rest[..|rest| - 4] else rest
  }

  /** The groups after the anchor: the owner group `([^/]+)` cannot contain
      a slash, so it runs to the first slash; everything after that slash
      must be slash free and non-empty. */
  function MatchTail(tail: string): (r: Option<RepoRef>)
    ensures r.Some? ==>
      && r.value.owner != [] && SlashFree(r.value.owner)
      && r.value.repo != [] && SlashFree(r.value.repo)
      && (tail == r.value.owner + "/" + r.value.repo
          || tail == r.value.owner + "/" + r.value.repo + GitSuffix)
    ensures r.Some? ==>
      var n := |r.value.owner|;
      n < |tail| && tail == r.value.owner + "/" + tail[n + 1..] && SlashFree(tail[n + 1..])
  {
    var k := IndexOf(tail, '/');
    if k == 0 || k == |tail| then None
    else
      var rest := tail[k + 1..];
      if rest == [] || '/' in rest then None
      else
        var repo := StripGit(rest);
        assert tail == tail[..k] + "/" + rest;
        SlashFreePrefix(rest, repo);
        Some(RepoRef(tail[..k], repo))
  }

  lemma SlashFreePrefix(rest: string, repo: string)
    requires SlashFree(rest) && |repo| <= |rest| && rest[..|repo|] == repo
    ensures SlashFree(repo) && rest == repo + rest[|repo|..]
  {
    assert forall c :: c in repo ==> c in rest;
  }

  /** The match of the whole pattern starting exactly at position `i`. */
  function MatchAt(url: string, i: nat): (r: Option<RepoRef>)
    ensures r.Some? ==>
      && Anchored(url, i)
      && r.value.owner != [] && SlashFree(r.value.owner)
      && r.value.repo != [] && SlashFree(r.value.repo)
      && (url[i + 11..] == r.value.owner + "/" + r.value.repo
          || url[i + 11..] == r.value.owner + "/" + r.value.repo + GitSuffix)
  {
    if Anchored(url, i) then MatchTail(url[i + 11..]) else None
  }

  /** Every way of writing the URL as anchor, owner, slash and a slash-free
      rest is found, with the lazy group's repository. */
  lemma MatchAtComplete(url: string, i: nat, owner: string, rest: string)
    requires Anchored(url, i) && url[i + 11..] == owner + "/" + rest
    requires owner != [] && SlashFree(owner) && rest != [] && SlashFree(rest)
    ensures MatchAt(url, i) == Some(RepoRef(owner, StripGit(rest)))
  {
    var tail := url[i + 11..];
    assert MatchAt(url, i) == MatchTail(tail);
    assert tail[|owner|] == '/';
    assert tail[..|owner|] == owner;
    assert IndexOf(tail, '/') == |owner|;
    assert tail[|owner| + 1..] == rest;
  }

  /** The first position at or after `i` where the pattern matches, or
      |url| + 1 when there is none: the regular expression search. */
  function FirstMatch(url: string, i: nat): (k: nat)
    requires i <= |url| + 1
    ensures i <= k <= |url| + 1
    ensures forall j :: i <= j < k ==> MatchAt(url, j).None?
    ensures k <= |url| ==> MatchAt(url, k).Some?
    decreases |url| + 1 - i
  {
    if i == |url| + 1 then i
    else if MatchAt(url, i).Some? then i
    else FirstMatch(url, i + 1)
  }

  /** `parseGitHubUrl`: the leftmost match, or null. */
  function ParseGitHubUrl(url: string): (r: Option<RepoRef>)
    ensures r.Some? ==> r.value.owner != [] && SlashFree(r.value.owner)
                        && r.value.repo != [] && SlashFree(r.value.repo)
    ensures r.None? <==> forall j :: 0 <= j <= |url| ==> MatchAt(url, j).None?
    ensures r.Some? ==> exists k :: 0 <= k <= |url| && MatchAt(url, k) == r
                                    && forall j :: 0 <= j < k ==> MatchAt(url, j).None?
  {
    var k := FirstMatch(url, 0);
    if k <= |url| then MatchAt(url, k) else None
  }

  /** When the first anchor is at `k` and everything after it is owner,
      slash and a slash-free rest, that is the result. */
  lemma ParseAt(url: string, k: nat, owner: string, rest: string)
    requires forall j :: 0 <= j < k ==> !Anchored(url, j)
    requires Anchored(url, k) && url[k + 11..] == owner + "/" + rest
    requires owner != [] && SlashFree(owner) && rest != [] && SlashFree(rest)
    ensures ParseGitHubUrl(url) == Some(RepoRef(owner, StripGit(rest)))
  {
    MatchAtComplete(url, k, owner, rest);
    assert FirstMatch(url, 0) == k;
  }

  /** No anchor starts inside `prefix` when `prefix` is followed by the host. */
  predicate NoEarlyAnchor(prefix: string) {
    forall j :: 0 <= j < |prefix| ==> !HostAt(prefix + Host, j)
  }

  predicate HostAt(s: string, j: nat) {
    j + 10 <= |s| && s[j..j + 10] == Host
  }

  /** A URL made of a prefix with no early anchor, the host, a separator, an
      owner, a slash and a slash-free rest parses to that owner and the lazy
      group's repository. */
  lemma ParseAfterPrefix(prefix: string, sep: char, owner: string, rest: string)
    requires NoEarlyAnchor(prefix) && (sep == ':' || sep == '/')
    requires owner != [] && SlashFree(owner) && rest != [] && SlashFree(rest)
    ensures ParseGitHubUrl(prefix + Host + [sep] + owner + "/" + rest)
            == Some(RepoRef(owner, StripGit(rest)))
  {
    var url := prefix + Host + [sep] + owner + "/" + rest;
    var k := |prefix|;
    forall j | 0 <= j < k
      ensures !Anchored(url, j)
    {
      assert !HostAt(prefix + Host, j);
      assert url[j..j + 10] == (prefix + Host)[j..j + 10];
    }
    assert url[k..k + 10] == Host;
    assert url[k + 11..] == owner + "/" + rest;
    ParseAt(url, k, owner, rest);
  }

  lemma HttpsPrefix()
    ensures NoEarlyAnchor("https://")
  {
    forall j | 0 <= j < 8
      ensures !HostAt("https://" + Host, j)
    {
      assert ("https://" + Host)[j] != 'g';
    }
  }

  lemma SshPrefix()
    ensures NoEarlyAnchor("git@")
  {
    forall j | 0 <= j < 4
      ensures !HostAt("git@" + Host, j)
    {
      assert ("git@" + Host)[j..j + 10][3 - j] == '@';
    }
  }

  /** The lazy group gives back a repository name from behind `.git`. */
  lemma StripGitSuffix(repo: string)
    requires repo != []
    ensures StripGit(repo + GitSuffix) == repo
  {
    assert (repo + GitSuffix)[..|repo|] == repo;
  }

  /** HTTPS clone URLs round-trip. */
  lemma ParseHttpsGit(owner: string, repo: string)
    requires owner != [] && SlashFree(owner) && repo != [] && SlashFree(repo)
    ensures ParseGitHubUrl("https://github.com/" + owner + "/" + repo + GitSuffix)
            == Some(RepoRef(owner, repo))
  {
    var rest := repo + GitSuffix;
    assert "https://github.com/" + owner + "/" + repo + GitSuffix
           == "https://" + Host + ['/'] + owner + "/" + rest;
    HttpsPrefix();
    ParseAfterPrefix("https://", '/', owner, rest);
    StripGitSuffix(repo);
  }

  /** Web URLs round-trip too, unless the repository name itself ends in
      `.git`, which the pattern then drops. */
  lemma ParseHttps(owner: string, repo: string)
    requires owner != [] && SlashFree(owner) && repo != [] && SlashFree(repo)
    ensures !EndsWith(repo, GitSuffix) ==>
              ParseGitHubUrl("https://github.com/" + owner + "/" + repo) == Some(RepoRef(owner, repo))
    ensures EndsWith(repo, GitSuffix) && |repo| > 4 ==>
              ParseGitHubUrl("https://github.com/" + owner + "/" + repo)
              == Some(RepoRef(owner, repo[..|repo| - 4]))
  {
    assert "https://github.com/" + owner + "/" + repo == "https://" + Host + ['/'] + owner + "/" + repo;
    HttpsPrefix();
    ParseAfterPrefix("https://", '/', owner, repo);
  }

  /** SSH clone URLs round-trip. */
  lemma ParseSsh(owner: string, repo: string)
    requires owner != [] && SlashFree(owner) && repo != [] && SlashFree(repo)
    ensures ParseGitHubUrl("git@github.com:" + owner + "/" + repo + GitSuffix)
            == Some(RepoRef(owner, repo))
  {
    var rest := repo + GitSuffix;
    assert "git@github.com:" + owner + "/" + repo + GitSuffix
           == "git@" + Host + [':'] + owner + "/" + rest;
    SshPrefix();
    ParseAfterPrefix("git@", ':', owner, rest);
    StripGitSuffix(repo);
  }

  /** A slash-free last segment is determined by the string. */
  lemma LastSegment(a: string, b: string, c: string, d: string)
    requires a + "/" + b == c + "/" + d && SlashFree(b) && SlashFree(d)
    ensures a == c && b == d
  {
    var s := a + "/" + b;
    assert s[|a|] == '/';
    assert s[|c|] == '/';
    assert s[|a| + 1..] == b;
    assert s[|c| + 1..] == d;
    assert |a| == |c|;
    assert a == s[..|a|] == c;
  }

  /** A slash-free end that is not preceded by a slash lies inside the last
      slash-free segment. */
  lemma InsideLastSegment(head: string, o: string, front: string, r: string)
    requires head + o == front + "/" + r && SlashFree(o) && SlashFree(r)
    ensures |o| <= |r| && head == front + "/" + r[..|r| - |o|]
  {
    var s := head + o;
    assert s[|front|] == '/';
    assert s[|head|..] == o;
    assert |head| > |front|;
    assert s[|front| + 1..] == r;
  }

  /** A URL naming a path below the repository is rejected: the pattern must
      reach the end of the string with exactly two segments after the host. */
  lemma ParseRejectsDeeperPath(owner: string, repo: string, extra: string)
    requires SlashFree(owner) && SlashFree(repo) && SlashFree(extra)
    requires ':' !in repo && !EndsWith(owner, Host)
    ensures ParseGitHubUrl("https://github.com/" + owner + "/" + repo + "/" + extra).None?
  {
    var base := "https://github.com/" + owner;
    var url := base + "/" + repo + "/" + extra;
    forall j | 0 <= j <= |url|
      ensures MatchAt(url, j).None?
    {
      NoDeeperMatch(base, owner, repo, extra, j);
    }
  }

  lemma NoDeeperMatch(base: string, owner: string, repo: string, extra: string, j: nat)
    requires base == "https://github.com/" + owner
    requires SlashFree(owner) && SlashFree(repo) && SlashFree(extra)
    requires ':' !in repo && !EndsWith(owner, Host)
    ensures MatchAt(base + "/" + repo + "/" + extra, j).None?
  {
    var url := base + "/" + repo + "/" + extra;
    if MatchAt(url, j).Some? {
      var head := MatchedHead(url, j, base + "/" + repo, extra);
      if |head| == |base| + 1 {
        NotAnchoredAfterBase(url, j, base, owner);
      } else {
        InRepo(head, base, repo);
        NotAnchoredInRepo(url, j, repo);
      }
    }
  }

  /** The pattern's head cannot end right after `https://github.com/<owner>`
      unless the owner ends in the host name. */
  lemma NotAnchoredAfterBase(url: string, j: nat, base: string, owner: string)
    requires base == "https://github.com/" + owner && !EndsWith(owner, Host)
    requires j + 11 <= |url| && url[..j + 11] == base + "/"
    ensures !Anchored(url, j)
  {
    HostNotAtEnd(owner, base);
    assert j == |base| - 10;
    assert url[j..j + 10] == url[..j + 11][j..j + 10] == (base + "/")[j..j + 10];
    assert (base + "/")[j..j + 10] == base[|base| - 10..];
  }

  /** The pattern's separator cannot be a character of a repository name
      with no slash or colon. */
  lemma NotAnchoredInRepo(url: string, j: nat, repo: string)
    requires SlashFree(repo) && ':' !in repo
    requires j + 11 <= |url| && url[j + 10] in repo
    ensures !Anchored(url, j)
  {
  }

  /** What precedes the owner group of a match against `front + "/" + last`
      with a slash-free `last`: `front`, a slash, and a piece of the last
      segment of `front`. */
  lemma MatchedHead(url: string, j: nat, front: string, last: string) returns (head: string)
    requires url == front + "/" + last && SlashFree(last)
    requires MatchAt(url, j).Some?
    requires |front| >= 1
    ensures head == url[..j + 11]
    ensures exists r :: head + r == front && SlashFree(r) && r != []
  {
    var owner, rest := MatchSplit(url, j);
    head := url[..j + 11];
    LastSegment(head + owner, rest, front, last);
    assert head + owner == front && SlashFree(owner) && owner != [];
  }

  /** A match splits the URL into the text up to the anchor, the owner, a
      slash and a slash-free rest. */
  lemma MatchSplit(url: string, j: nat) returns (owner: string, rest: string)
    requires MatchAt(url, j).Some?
    ensures owner == MatchAt(url, j).value.owner && owner != [] && SlashFree(owner)
    ensures SlashFree(rest) && url == (url[..j + 11] + owner) + "/" + rest
  {
    var head := url[..j + 11];
    var tail := url[j + 11..];
    assert MatchAt(url, j) == MatchTail(tail);
    owner := MatchTail(tail).value.owner;
    rest := tail[|owner| + 1..];
    assert url == head + tail;
    assert tail == owner + "/" + rest;
    Regroup(head, owner, "/", rest);
  }

  lemma InRepo(head: string, base: string, repo: string)
    requires exists r :: head + r == base + "/" + repo && SlashFree(r) && r != []
    requires SlashFree(repo) && |head| != |base| + 1
    ensures |head| > |base| + 1 && head[|head| - 1] in repo
  {
    var r :| head + r == base + "/" + repo && SlashFree(r) && r != [];
    InsideLastSegment(head, r, base, repo);
    assert head[|head| - 1] == repo[|repo| - |r| - 1];
  }

  lemma HostNotAtEnd(owner: string, base: string)
    requires base == "https://github.com/" + owner && !EndsWith(owner, Host)
    ensures |base| >= 10 && base[|base| - 10..] != Host
  {
    if |owner| >= 10 {
      assert base[|base| - 10..] == owner[|owner| - 10..];
    } else {
      var i := 18 - (|base| - 10);
      assert base[18] == '/';
      assert base[|base| - 10..][i] == '/';
      assert '/' !in Host;
    }
  }

  // ---------------------------------------------------------------------------
  // createTaskIssueBody
  // ---------------------------------------------------------------------------

  /** The fields of the task the body is built from; an absent dependency
      list is the empty one. */
  datatype IssueTask = IssueTask(
    id: string,
    title: string,
    description: Option<string>,
    assignee: Option<string>,
    priority: Option<string>,
    dependencies: seq<string>)

  function Checkbox(item: string): string {
    "- [ ] " + item
  }

  const DependenciesHeading: string := "## Dependencies"

  /** The lines of the body down to the description. */
  function HeadLines(t: IssueTask): seq<string> {
    ["## ACP Task",
     "",
     "**Task ID:** " + t.id,
     "**Priority:** " + OrElse(t.priority, "normal"),
     "**Assigned to:** " + OrElse(t.assignee, "unassigned"),
     "",
     "### Description",
     OrElse(t.description, "No description provided.")]
  }

  /** The dependency block: a blank line, the heading and one unchecked box
      per dependency, or a single blank line when there are none. */
  function DependencyLines(deps: seq<string>): seq<string> {
    if |deps| > 0 then ["", DependenciesHeading] + Map(deps, Checkbox) else [""]
  }

  const TailLines: seq<string> :=
    ["",
     "### Progress",
     "- [ ] Started",
     "- [ ] In Progress",
     "- [ ] Review",
     "- [ ] Done",
     "",
     "---",
     Footer,
     ""]

  /** The closing line, `*This issue was created by ACP (Agent Coordination
      Protocol)*`, kept in two halves. */
  const Footer: string := FooterStart + FooterEnd
  const FooterStart: string := "*This issue was created by ACP"
  const FooterEnd: string := " (Agent Coordination Protocol)*"

  /** Every line of the body, in order. */
  function BodyLines(t: IssueTask): seq<string> {
    HeadLines(t) + DependencyLines(t.dependencies) + TailLines
  }

  /** `createTaskIssueBody`: the template, as the newline-joined lines it
      spells. */
  function CreateTaskIssueBody(t: IssueTask): (body: string)
  {
    Join(BodyLines(t), '\n')
  }

  /** The fields are single-line text. */
  predicate SingleLineFields(t: IssueTask) {
    && NoNewline(t.id)
    && NoNewline(OrElse(t.priority, "normal"))
    && NoNewline(OrElse(t.assignee, "unassigned"))
    && NoNewline(OrElse(t.description, "No description provided."))
    && forall i :: 0 <= i < |t.dependencies| ==> NoNewline(t.dependencies[i])
  }

  /** Reading the body back line by line recovers the task id, the
      defaulted priority, assignee and description, and the dependencies in
      order, each on its own checkbox line. */
  lemma IssueBodyLines(t: IssueTask)
    requires SingleLineFields(t)
    ensures var lines := Split(CreateTaskIssueBody(t), '\n');
      && |lines| == 8 + (if |t.dependencies| > 0 then 2 + |t.dependencies| else 1) + 10
      && lines[2] == "**Task ID:** " + t.id
      && lines[3] == "**Priority:** " + OrElse(t.priority, "normal")
      && lines[4] == "**Assigned to:** " + OrElse(t.assignee, "unassigned")
      && lines[7] == OrElse(t.description, "No description provided.")
      && (|t.dependencies| > 0 ==>
            lines[9] == DependenciesHeading
            && forall i :: 0 <= i < |t.dependencies| ==> lines[10 + i] == Checkbox(t.dependencies[i]))
  {
    IssueBodySplits(t);
    BodyLinesShape(t);
  }

  /** Splitting the body at newlines gives its lines back. */
  lemma IssueBodySplits(t: IssueTask)
    requires SingleLineFields(t)
    ensures Split(CreateTaskIssueBody(t), '\n') == BodyLines(t)
  {
    BodyLinesSingle(t);
    SplitJoin(BodyLines(t), '\n');
  }

  lemma BodyLinesShape(t: IssueTask)
    ensures var lines := BodyLines(t);
      && |lines| == 8 + (if |t.dependencies| > 0 then 2 + |t.dependencies| else 1) + 10
      && lines[2] == "**Task ID:** " + t.id
      && lines[3] == "**Priority:** " + OrElse(t.priority, "normal")
      && lines[4] == "**Assigned to:** " + OrElse(t.assignee, "unassigned")
      && lines[7] == OrElse(t.description, "No description provided.")
      && (|t.dependencies| > 0 ==>
            lines[9] == DependenciesHeading
            && forall i :: 0 <= i < |t.dependencies| ==> lines[10 + i] == Checkbox(t.dependencies[i]))
  {
    var h := HeadLines(t);
    var d := DependencyLines(t.dependencies);
    assert |h| == 8;
    assert BodyLines(t)[..8] == h;
    if |t.dependencies| > 0 {
      assert BodyLines(t)[8..8 + |d|] == d;
      forall i | 0 <= i < |t.dependencies|
        ensures BodyLines(t)[10 + i] == Checkbox(t.dependencies[i])
      {
        assert BodyLines(t)[10 + i] == d[2 + i];
      }
    }
  }

  lemma BodyLinesSingle(t: IssueTask)
    requires SingleLineFields(t)
    ensures SingleLines(BodyLines(t))
  {
    HeadSingle(t);
    DependenciesSingle(t.dependencies);
    TailSingle();
    SingleLinesConcat(HeadLines(t), DependencyLines(t.dependencies));
    SingleLinesConcat(HeadLines(t) + DependencyLines(t.dependencies), TailLines);
  }

  lemma HeadSingle(t: IssueTask)
    requires SingleLineFields(t)
    ensures SingleLines(HeadLines(t))
  {
    PrefixedSingle("**Task ID:** ", t.id);
    PrefixedSingle("**Priority:** ", OrElse(t.priority, "normal"));
    PrefixedSingle("**Assigned to:** ", OrElse(t.assignee, "unassigned"));
  }

  lemma DependenciesSingle(deps: seq<string>)
    requires forall i :: 0 <= i < |deps| ==> NoNewline(deps[i])
    ensures SingleLines(DependencyLines(deps))
  {
    forall i | 0 <= i < |deps| ensures '\n' !in Checkbox(deps[i]) {
      PrefixedSingle("- [ ] ", deps[i]);
    }
  }

  lemma TailSingle()
    ensures SingleLines(TailLines)
  {
    assert '\n' !in "### Progress";
    assert '\n' !in "- [ ] Started";
    assert '\n' !in "- [ ] In Progress";
    assert '\n' !in "- [ ] Review";
    assert '\n' !in "- [ ] Done";
    assert '\n' !in "---";
    FooterSingle();
  }

  lemma FooterSingle()
    ensures '\n' !in Footer
  {
    assert '\n' !in FooterStart;
    assert '\n' !in FooterEnd;
    PrefixedSingle(FooterStart, FooterEnd);
  }

  /** The dependency heading is present exactly when there are dependencies,
      as long as the description line is not that heading itself. */
  lemma IssueBodyHasDependenciesIff(t: IssueTask)
    requires SingleLineFields(t)
    requires OrElse(t.description, "No description provided.") != DependenciesHeading
    ensures DependenciesHeading in Split(CreateTaskIssueBody(t), '\n') <==> |t.dependencies| > 0
  {
    IssueBodySplits(t);
    HeadWithoutHeading(t);
    TailWithoutHeading();
    DependencyLinesHeading(t.dependencies);
    assert BodyLines(t) == HeadLines(t) + DependencyLines(t.dependencies) + TailLines;
  }

  lemma HeadWithoutHeading(t: IssueTask)
    requires OrElse(t.description, "No description provided.") != DependenciesHeading
    ensures DependenciesHeading !in HeadLines(t)
  {
    var h := HeadLines(t);
    NotHeading(h[2], "**Task ID:** ");
    NotHeading(h[3], "**Priority:** ");
    NotHeading(h[4], "**Assigned to:** ");
    assert h[0] != DependenciesHeading by {
      assert h[0][3] != DependenciesHeading[3];
    }
    assert h[6] != DependenciesHeading by {
      assert h[6][2] != DependenciesHeading[2];
    }
  }

  lemma TailWithoutHeading()
    ensures DependenciesHeading !in TailLines
  {
  }

  lemma DependencyLinesHeading(deps: seq<string>)
    ensures DependenciesHeading in DependencyLines(deps) <==> |deps| > 0
  {
    if |deps| > 0 {
      assert DependencyLines(deps)[1] == DependenciesHeading;
    } else {
      assert DependencyLines(deps) == [""];
    }
    forall i | 0 <= i < |deps|
      ensures Checkbox(deps[i]) != DependenciesHeading
    {
      NotHeading(Checkbox(deps[i]), "- [ ] ");
    }
  }

  lemma NotHeading(line: string, p: string)
    requires StartsWith(line, p) && p != [] && p[0] != '#'
    ensures line != DependenciesHeading
  {
    assert line[0] == p[0] != DependenciesHeading[0];
  }
}
