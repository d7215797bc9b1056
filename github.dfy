/** Commit ingestion: choosing the newest commits of a repository, leaving out
    those already stored for the project, summarising each diff and storing
    one record per new commit. The hosting API is an input: the commit list
    for an owner and repository, and the diff text (or the error) for a diff
    URL. */
module Github {
  import opened Common
  import opened Strings
  import opened Sorting
  import opened Together
  import opened Store

  const MaxCommits := 10
  const InvalidUrlText := "Invalid GitHub URL"
  const NoGithubUrlText := "Project does not have a GitHub URL"
  /** What V8 reports when `.replace` is read from `undefined`. */
  const MissingRepoPathText := "Cannot read properties of undefined (reading 'replace')"

  /** What `new Date(...)` reads from a null object in the sort comparator. */
  const NullAuthorText := "Cannot read properties of null (reading 'date')"

  /** The git author of a commit (`commit.commit.author`). */
  datatype GitAuthor = GitAuthor(name: Option<string>, date: Option<string>)

  /** A commit as the list-commits endpoint returns it. The git author is
      null for some commits; `time` is the author date as milliseconds since
      the epoch, the value the sort comparator compares. */
  datatype ApiCommit = ApiCommit(
    sha: string, message: Option<string>, author: Option<GitAuthor>,
    avatarUrl: Option<string>, time: int)

  /** The `Response` record of the source. */
  datatype CommitInfo = CommitInfo(
    commitHash: string, commitMessage: string, commitAuthorName: string,
    commitAuthorAvatar: string, commitDate: string)

  // ---------------------------------------------------------------------------
  // getCommitHashes

  /** `githubUrl.split("/").slice(-2)`, both parts required to be non-empty. */
  function OwnerAndRepo(url: string): (r: Result<(string, string)>)
    ensures r.Ok? ==> r.value.0 != [] && r.value.1 != []
    ensures r.Err? ==> r.message == InvalidUrlText
  {
    var parts := SplitBy(url, "/");
    if |parts| >= 2 && parts[|parts| - 2] != [] && parts[|parts| - 1] != [] then
      Ok((parts[|parts| - 2], parts[|parts| - 1]))
    else
      Err(InvalidUrlText)
  }

  /** The five segments of `https://github.com/<owner>/<repo>`. */
  lemma CanonicalSegments(owner: string, repo: string)
    requires '/' !in owner && '/' !in repo
    ensures SplitBy("https://github.com/" + owner + "/" + repo, "/") == ["https:", "", "github.com", owner, repo]
  {
    var parts := ["https:", "", "github.com", owner, repo];
    CanonicalJoin(owner, repo);
    assert forall k :: 0 <= k < |parts| ==> '/' !in parts[k];
    SplitJoin(parts, '/');
  }

  /** The canonical URL is its five segments joined with "/". */
  lemma CanonicalJoin(owner: string, repo: string)
    ensures Join(["https:", "", "github.com", owner, repo], "/") == "https://github.com/" + owner + "/" + repo
  {
    var tail := owner + "/" + repo;
    JoinFive("https:", "", "github.com", owner, repo);
    assert "https:" + "/" + ("" + "/" + ("github.com" + "/" + tail)) == ("https:" + "/" + "" + "/" + "github.com" + "/") + tail;
    assert "https:" + "/" + "" + "/" + "github.com" + "/" == "https://github.com/";
    assert "https://github.com/" + tail == "https://github.com/" + owner + "/" + repo;
  }

  lemma JoinFive(a: string, b: string, c: string, d: string, e: string)
    ensures Join([a, b, c, d, e], "/") == a + "/" + (b + "/" + (c + "/" + (d + "/" + e)))
  {
    assert Join([e], "/") == e;
    assert Join([d, e], "/") == d + "/" + e by {
      assert [d, e][1..] == [e];
    }
    assert Join([c, d, e], "/") == c + "/" + (d + "/" + e) by {
      assert [c, d, e][1..] == [d, e];
    }
    assert Join([b, c, d, e], "/") == b + "/" + (c + "/" + (d + "/" + e)) by {
      assert [b, c, d, e][1..] == [c, d, e];
    }
    assert [a, b, c, d, e][1..] == [b, c, d, e];
  }

  /** A repository URL of the usual form names its owner and repository. */
  lemma OwnerAndRepoOfCanonical(owner: string, repo: string)
    requires owner != [] && repo != [] && '/' !in owner && '/' !in repo
    ensures OwnerAndRepo("https://github.com/" + owner + "/" + repo) == Ok((owner, repo))
  {
    CanonicalSegments(owner, repo);
  }

  /** A URL ending in "/" is refused: its last segment is empty. */
  lemma TrailingSlashRejected(url: string)
    requires url != [] && url[|url| - 1] == '/'
    ensures OwnerAndRepo(url) == Err(InvalidUrlText)
  {
    var a := url[..|url| - 1];
    assert url == a + ['/'] + [];
    SplitConcatChar(a, [], '/');
    SplitWithout([], '/');
  }

  function CommitTime(c: ApiCommit): int {
    c.time
  }

  /** `data.sort(newest first).slice(0, MAX_COMMITS)`. */
  function SelectRecent(api: seq<ApiCommit>): (r: seq<ApiCommit>)
    ensures SortedDesc(r, CommitTime)
    ensures |r| == Min(MaxCommits, |api|)
    ensures multiset(r) <= multiset(api)
  {
    var sorted := SortDesc(api, CommitTime);
    var n := Min(MaxCommits, |sorted|);
    assert sorted == sorted[..n] + sorted[n..];
    sorted[..n]
  }

  /** No commit left out is newer than a commit kept. */
  lemma SelectRecentKeepsNewest(api: seq<ApiCommit>)
    ensures var r := SelectRecent(api);
      forall x, i :: x in multiset(api) - multiset(r) && 0 <= i < |r| ==> x.time <= r[i].time
  {
    var sorted := SortDesc(api, CommitTime);
    PrefixKeepsLargest(sorted, CommitTime, Min(MaxCommits, |sorted|));
  }

  /** One entry of the `map`: missing fields, and the fields of a null git
      author, default to "". */
  function ToCommitInfo(c: ApiCommit): (info: CommitInfo)
    ensures info.commitHash == c.sha
    ensures c.author.None? ==> info.commitAuthorName == "" && info.commitDate == ""
  {
    var name := if c.author.Some? then c.author.value.name.GetOr("") else "";
    var date := if c.author.Some? then c.author.value.date.GetOr("") else "";
    CommitInfo(c.sha, c.message.GetOr(""), name, c.avatarUrl.GetOr(""), date)
  }

  /** The comparator reads `commit.author.date` without a guard, so sorting
      two or more commits throws once one of them has a null git author. */
  predicate SortThrows(api: seq<ApiCommit>) {
    |api| >= 2 && exists i :: 0 <= i < |api| && api[i].author.None?
  }

  /** `getCommitHashes(githubUrl)`, the list-commits call answering for an
      owner and repository. */
  function GetCommitHashes(url: string, listCommits: (string, string) -> Result<seq<ApiCommit>>): (r: Result<seq<CommitInfo>>)
    ensures OwnerAndRepo(url).Err? ==> r == Err(InvalidUrlText)
    ensures OwnerAndRepo(url).Ok? && listCommits(OwnerAndRepo(url).value.0, OwnerAndRepo(url).value.1).Err? ==>
      r == Err(listCommits(OwnerAndRepo(url).value.0, OwnerAndRepo(url).value.1).message)
    ensures OwnerAndRepo(url).Ok? && listCommits(OwnerAndRepo(url).value.0, OwnerAndRepo(url).value.1).Ok?
            && SortThrows(listCommits(OwnerAndRepo(url).value.0, OwnerAndRepo(url).value.1).value) ==>
      r == Err(NullAuthorText)
    ensures r.Ok? ==>
      var api := listCommits(OwnerAndRepo(url).value.0, OwnerAndRepo(url).value.1).value;
      && !SortThrows(api)
      && |r.value| == Min(MaxCommits, |api|)
      && (forall i :: 0 <= i < |r.value| ==> r.value[i] == ToCommitInfo(SelectRecent(api)[i]))
  {
    match OwnerAndRepo(url)
    case Err(m) => Err(m)
    case Ok((owner, repo)) =>
      match listCommits(owner, repo)
      case Err(m) => Err(m)
      case Ok(api) =>
        if SortThrows(api) then Err(NullAuthorText)
        else
          var recent := SelectRecent(api);
          Ok(seq(|recent|, i requires 0 <= i < |recent| => ToCommitInfo(recent[i])))
  }

  // ---------------------------------------------------------------------------
  // filterUnprocessedCommits

  /** `commitHashes.filter((c) => !processedSet.has(c.commitHash))`. */
  function FilterUnprocessed(commits: seq<CommitInfo>, stored: set<string>): (r: seq<CommitInfo>)
    ensures |r| <= |commits|
    ensures forall i :: 0 <= i < |r| ==> r[i].commitHash !in stored
  {
    if commits == [] then []
    else (if commits[0].commitHash in stored then [] else [commits[0]]) + FilterUnprocessed(commits[1..], stored)
  }

  /** Exactly the commits whose hash is not stored are kept. */
  lemma {:induction false} FilterUnprocessedExact(commits: seq<CommitInfo>, stored: set<string>, c: CommitInfo)
    ensures c in FilterUnprocessed(commits, stored) <==> c in commits && c.commitHash !in stored
  {
    if commits != [] {
      FilterUnprocessedExact(commits[1..], stored, c);
      assert commits == [commits[0]] + commits[1..];
    }
  }

  /** The filter keeps the order of the list: it distributes over `+`. */
  lemma {:induction false} FilterUnprocessedConcat(a: seq<CommitInfo>, b: seq<CommitInfo>, stored: set<string>)
    ensures FilterUnprocessed(a + b, stored) == FilterUnprocessed(a, stored) + FilterUnprocessed(b, stored)
  {
    if a == [] {
      assert a + b == b;
    } else {
      var head := if a[0].commitHash in stored then [] else [a[0]];
      assert (a + b)[0] == a[0] && (a + b)[1..] == a[1..] + b;
      assert FilterUnprocessed(a + b, stored) == head + FilterUnprocessed(a[1..] + b, stored);
      FilterUnprocessedConcat(a[1..], b, stored);
      assert FilterUnprocessed(a, stored) == head + FilterUnprocessed(a[1..], stored);
      assert head + (FilterUnprocessed(a[1..], stored) + FilterUnprocessed(b, stored))
          == (head + FilterUnprocessed(a[1..], stored)) + FilterUnprocessed(b, stored);
    }
  }

  /** A list none of whose hashes is stored passes unchanged. */
  lemma {:induction false} FilterUnprocessedNoneStored(commits: seq<CommitInfo>, stored: set<string>)
    requires forall i :: 0 <= i < |commits| ==> commits[i].commitHash !in stored
    ensures FilterUnprocessed(commits, stored) == commits
  {
    if commits != [] {
      FilterUnprocessedNoneStored(commits[1..], stored);
    }
  }

  /** Filtering a filtered list changes nothing. */
  lemma FilterUnprocessedIdempotent(commits: seq<CommitInfo>, stored: set<string>)
    ensures FilterUnprocessed(FilterUnprocessed(commits, stored), stored) == FilterUnprocessed(commits, stored)
  {
    FilterUnprocessedNoneStored(FilterUnprocessed(commits, stored), stored);
  }

  /** Once every listed hash is stored, nothing is left to process. */
  lemma {:induction false} FilterUnprocessedAllStored(commits: seq<CommitInfo>, stored: set<string>)
    requires forall i :: 0 <= i < |commits| ==> commits[i].commitHash in stored
    ensures FilterUnprocessed(commits, stored) == []
  {
    if commits != [] {
      FilterUnprocessedAllStored(commits[1..], stored);
    }
  }

  // ---------------------------------------------------------------------------
  // summariseCommit

  function CommitFailureText(hash: string, message: string): string {
    "⚠️ Could not summarise commit " + hash + ". Error: " + message
  }

  /** `githubUrl.split("github.com/")[1].replace(/\/$/, "")`; nothing when
      the URL does not contain "github.com/" (the source then reads
      `.replace` from `undefined`). */
  function RepoPath(url: string): Option<string> {
    var parts := SplitBy(url, "github.com/");
    if |parts| >= 2 then Some(DropTrailingSlash(parts[1])) else None
  }

  /** The diff URL `summariseCommit` requests. */
  function DiffApiUrl(url: string, hash: string): Option<string> {
    match RepoPath(url)
    case None => None
    case Some(path) => Some("https://api.github.com/repos/" + path + "/commits/" + hash)
  }

  /** For `https://github.com/<path>` the diff URL is built from the path
      with at most one trailing slash removed. */
  lemma DiffApiUrlOfCanonical(path: string, hash: string)
    requires IndexOf(path, "github.com/").None?
    ensures DiffApiUrl("https://github.com/" + path, hash)
         == Some("https://api.github.com/repos/" + DropTrailingSlash(path) + "/commits/" + hash)
  {
    var url := "https://github.com/" + path;
    var pat := "github.com/";
    assert OccursAt(url, pat, 8) by {
      assert url[8..8 + |pat|] == pat;
    }
    forall j: nat | j < 8
      ensures !OccursAt(url, pat, j)
    {
      assert url[j] != 'g';
      if j + |pat| <= |url| {
        assert url[j..j + |pat|][0] == url[j];
      }
    }
    IndexOfIs(url, pat, 8);
    assert url[8 + |pat|..] == path;
    assert SplitBy(path, pat) == [path];
    assert SplitBy(url, pat) == [url[..8]] + [path];
  }

  /** The text `summariseCommit(githubUrl, hash)` resolves to, given the diff
      endpoint's answer for each URL and DeepSeek's reply. */
  function CommitSummary(url: string, hash: string, fetchDiff: string -> Result<string>, reply: DeepseekReply): (text: string)
    ensures text != []
  {
    match DiffApiUrl(url, hash)
    case None => CommitFailureText(hash, MissingRepoPathText)
    case Some(apiUrl) =>
      match fetchDiff(apiUrl)
      case Err(m) => CommitFailureText(hash, m)
      case Ok(diff) => CommitSummaryText(diff, reply)
  }

  /** Whether `summariseCommit` reaches the DeepSeek limiter. */
  predicate ReachesProvider(url: string, hash: string, fetchDiff: string -> Result<string>) {
    DiffApiUrl(url, hash).Some? && fetchDiff(DiffApiUrl(url, hash).value).Ok?
    && !AllSpace(fetchDiff(DiffApiUrl(url, hash).value).value)
  }

  /** `summariseCommit(githubUrl, hash)`: never throws; every failure before
      the provider call becomes the fallback text carrying the error. */
  method SummariseCommit(
    url: string, hash: string, fetchDiff: string -> Result<string>, reply: DeepseekReply,
    state: ProviderState, clock: Clock)
    returns (summary: string)
    requires state.Valid() && state.InPast(clock.now)
    modifies state, clock
    ensures state.Valid() && state.InPast(clock.now)
    ensures summary == CommitSummary(url, hash, fetchDiff, reply)
    ensures DiffApiUrl(url, hash).None? ==> summary == CommitFailureText(hash, MissingRepoPathText)
    ensures DiffApiUrl(url, hash).Some? && fetchDiff(DiffApiUrl(url, hash).value).Err? ==>
      summary == CommitFailureText(hash, fetchDiff(DiffApiUrl(url, hash).value).message)
    ensures DiffApiUrl(url, hash).Some? && fetchDiff(DiffApiUrl(url, hash).value).Ok? ==>
      summary == CommitSummaryText(fetchDiff(DiffApiUrl(url, hash).value).value, reply)
    ensures !ReachesProvider(url, hash, fetchDiff) ==> unchanged(state) && clock.now == old(clock.now)
    ensures ReachesProvider(url, hash, fetchDiff) ==>
      (state.deepseekTimestamps, clock.now) == DeepseekCall(old(state.deepseekTimestamps), old(clock.now))
    ensures state.Groq() == old(state.Groq()) && state.Gemini() == old(state.Gemini())
    ensures state.summaryCache == old(state.summaryCache)
  {
    var path := RepoPath(url);
    if path.None? {
      return CommitFailureText(hash, MissingRepoPathText);
    }
    var apiUrl := "https://api.github.com/repos/" + path.value + "/commits/" + hash;
    assert DiffApiUrl(url, hash) == Some(apiUrl);
    var data := fetchDiff(apiUrl);
    if data.Err? {
      return CommitFailureText(hash, data.message);
    }
    summary := state.AiSummariseCommit(data.value, reply, clock);
  }

  // ---------------------------------------------------------------------------
  // fetchProjectGithubUrl and pullCommits

  /** `fetchProjectGithubUrl(projectId)`. */
  function ProjectGithubUrl(projects: map<Id, Project>, projectId: Id): (r: Result<string>)
    ensures r.Ok? <==> projectId in projects && projects[projectId].githubUrl != []
    ensures r.Ok? ==> r.value == projects[projectId].githubUrl
    ensures r.Err? ==> r.message == NoGithubUrlText
  {
    if projectId in projects && projects[projectId].githubUrl != [] then Ok(projects[projectId].githubUrl)
    else Err(NoGithubUrlText)
  }

  function CommitFallbackText(hash: string): string {
    "⚠️ Could not summarise commit " + hash
  }

  /** The settled summary promises, a rejected one replaced by the fallback
      naming its commit. */
  function SettledSummaries(outcomes: seq<Result<string>>, commits: seq<CommitInfo>): (s: seq<string>)
    requires |outcomes| == |commits|
    ensures |s| == |commits|
    ensures forall i :: 0 <= i < |s| && outcomes[i].Ok? ==> s[i] == outcomes[i].value
    ensures forall i :: 0 <= i < |s| && outcomes[i].Err? ==> s[i] == CommitFallbackText(commits[i].commitHash)
  {
    seq(|commits|, i requires 0 <= i < |commits| =>
      match outcomes[i]
      case Ok(summary) => summary
      case Err(_) => CommitFallbackText(commits[i].commitHash))
  }

  /** The settled outcome of each commit's summary promise, in listing order:
      every one fulfilled, since `summariseCommit` never throws. */
  function CommitSummaries(
    url: string, pending: seq<CommitInfo>,
    fetchDiff: string -> Result<string>, replies: string -> DeepseekReply)
    : (outcomes: seq<Result<string>>)
    ensures |outcomes| == |pending|
    ensures forall i :: 0 <= i < |pending| ==> outcomes[i].Ok?
  {
    seq(|pending|, i requires 0 <= i < |pending| =>
      Ok(CommitSummary(url, pending[i].commitHash, fetchDiff, replies(pending[i].commitHash))))
  }

  /** Summarising one more commit extends the outcomes by its summary. */
  lemma CommitSummariesSnoc(
    url: string, pending: seq<CommitInfo>, i: nat,
    fetchDiff: string -> Result<string>, replies: string -> DeepseekReply)
    requires i < |pending|
    ensures CommitSummaries(url, pending[..i + 1], fetchDiff, replies)
         == CommitSummaries(url, pending[..i], fetchDiff, replies)
            + [Ok(CommitSummary(url, pending[i].commitHash, fetchDiff, replies(pending[i].commitHash)))]
  {
  }

  /** The DeepSeek timestamps and the clock after the commits `pending` are
      summarised one after the other from the timestamps `ts` at `now`: each
      commit whose diff reaches the provider makes one `limitDeepseekRate()`
      call, and no other commit touches either. */
  function PullWindow(
    ts: seq<int>, now: int, url: string, pending: seq<CommitInfo>, fetchDiff: string -> Result<string>)
    : (after: (seq<int>, int))
    ensures after.1 >= now
    decreases |pending|
  {
    if pending == [] then (ts, now)
    else
      var before := PullWindow(ts, now, url, pending[..|pending| - 1], fetchDiff);
      if ReachesProvider(url, pending[|pending| - 1].commitHash, fetchDiff) then DeepseekCall(before.0, before.1)
      else before
  }

  /** One more pending commit extends the fold by that commit's call. */
  lemma PullWindowSnoc(
    ts: seq<int>, now: int, url: string, pending: seq<CommitInfo>, i: nat, fetchDiff: string -> Result<string>)
    requires i < |pending|
    ensures var before := PullWindow(ts, now, url, pending[..i], fetchDiff);
      PullWindow(ts, now, url, pending[..i + 1], fetchDiff)
      == if ReachesProvider(url, pending[i].commitHash, fetchDiff) then DeepseekCall(before.0, before.1) else before
  {
    assert pending[..i + 1][..i] == pending[..i];
  }

  /** The rows of `db.commit.createMany`. */
  function BulkRecords(projectId: Id, commits: seq<CommitInfo>, summaries: seq<string>): (rows: seq<CommitRow>)
    requires |summaries| == |commits|
    ensures |rows| == |commits|
    ensures forall i :: 0 <= i < |rows| ==>
      && rows[i].projectId == projectId && rows[i].summary == summaries[i]
      && rows[i].commitHash == commits[i].commitHash
      && rows[i].commitMessage == commits[i].commitMessage
      && rows[i].commitAuthorName == commits[i].commitAuthorName
      && rows[i].commitAuthorAvatar == commits[i].commitAuthorAvatar
      && rows[i].commitDate == commits[i].commitDate
  {
    seq(|commits|, i requires 0 <= i < |commits| =>
      var c := commits[i];
      CommitRow(projectId, c.commitHash, c.commitMessage, c.commitAuthorName, c.commitAuthorAvatar, c.commitDate, summaries[i]))
  }

  /** The commits `pullCommits` processes: the selected ones not yet stored. */
  function PendingCommits(
    projects: map<Id, Project>, rows: seq<CommitRow>, projectId: Id,
    listCommits: (string, string) -> Result<seq<ApiCommit>>)
    : (r: Result<seq<CommitInfo>>)
    ensures r.Ok? ==> projectId in projects
  {
    match ProjectGithubUrl(projects, projectId)
    case Err(m) => Err(m)
    case Ok(url) =>
      match GetCommitHashes(url, listCommits)
      case Err(m) => Err(m)
      case Ok(listed) => Ok(FilterUnprocessed(listed, StoredHashes(rows, projectId)))
  }

  /** The rows `pullCommits(projectId)` appends, or the error it throws. */
  function PulledRecords(
    projects: map<Id, Project>, rows: seq<CommitRow>, projectId: Id,
    listCommits: (string, string) -> Result<seq<ApiCommit>>,
    fetchDiff: string -> Result<string>, replies: string -> DeepseekReply)
    : (r: Result<seq<CommitRow>>)
    ensures PendingCommits(projects, rows, projectId, listCommits).Err? ==>
      r == Err(PendingCommits(projects, rows, projectId, listCommits).message)
    ensures r.Ok? ==>
      && PendingCommits(projects, rows, projectId, listCommits).Ok?
      && |r.value| == |PendingCommits(projects, rows, projectId, listCommits).value|
  {
    match PendingCommits(projects, rows, projectId, listCommits)
    case Err(m) => Err(m)
    case Ok(pending) =>
      var url := projects[projectId].githubUrl;
      var outcomes := CommitSummaries(url, pending, fetchDiff, replies);
      Ok(BulkRecords(projectId, pending, SettledSummaries(outcomes, pending)))
  }

  /** Every appended row belongs to the project, carries a hash not stored
      before, and at most `MAX_COMMITS` rows are appended. */
  lemma PulledRecordsAreNew(
    projects: map<Id, Project>, rows: seq<CommitRow>, projectId: Id,
    listCommits: (string, string) -> Result<seq<ApiCommit>>,
    fetchDiff: string -> Result<string>, replies: string -> DeepseekReply)
    requires PulledRecords(projects, rows, projectId, listCommits, fetchDiff, replies).Ok?
    ensures var added := PulledRecords(projects, rows, projectId, listCommits, fetchDiff, replies).value;
      && |added| <= MaxCommits
      && forall i :: 0 <= i < |added| ==>
           added[i].projectId == projectId && added[i].commitHash !in StoredHashes(rows, projectId)
  {
  }

  /** Pulling a second time with the same hosting answers adds nothing. */
  lemma PullTwiceAddsNothing(
    projects: map<Id, Project>, rows: seq<CommitRow>, projectId: Id,
    listCommits: (string, string) -> Result<seq<ApiCommit>>,
    fetchDiff: string -> Result<string>, replies: string -> DeepseekReply)
    requires PulledRecords(projects, rows, projectId, listCommits, fetchDiff, replies).Ok?
    ensures var added := PulledRecords(projects, rows, projectId, listCommits, fetchDiff, replies).value;
      PulledRecords(projects, rows + added, projectId, listCommits, fetchDiff, replies) == Ok([])
  {
    var added := PulledRecords(projects, rows, projectId, listCommits, fetchDiff, replies).value;
    var url := ProjectGithubUrl(projects, projectId).value;
    var listed := GetCommitHashes(url, listCommits).value;
    var before := StoredHashes(rows, projectId);
    var pending := FilterUnprocessed(listed, before);
    var after := StoredHashes(rows + added, projectId);
    forall i | 0 <= i < |listed|
      ensures listed[i].commitHash in after
    {
      if listed[i].commitHash in before {
        var k :| 0 <= k < |rows| && rows[k].projectId == projectId && rows[k].commitHash == listed[i].commitHash;
        assert (rows + added)[k] == rows[k];
      } else {
        FilterUnprocessedExact(listed, before, listed[i]);
        var j :| 0 <= j < |pending| && pending[j] == listed[i];
        assert (rows + added)[|rows| + j] == added[j];
      }
    }
    FilterUnprocessedAllStored(listed, after);
  }

  /** `pullCommits(projectId)`: the commits are summarised one after the
      other, and the store gains exactly the rows `PulledRecords` describes,
      or nothing when a step before the summaries throws. */
  method PullCommits(
    db: Database, projectId: Id,
    listCommits: (string, string) -> Result<seq<ApiCommit>>,
    fetchDiff: string -> Result<string>, replies: string -> DeepseekReply,
    state: ProviderState, clock: Clock)
    returns (r: Result<()>)
    requires state.Valid() && state.InPast(clock.now)
    modifies db, state, clock
    ensures state.Valid() && state.InPast(clock.now)
    ensures var pulled := PulledRecords(old(db.projects), old(db.commits), projectId, listCommits, fetchDiff, replies);
      && (pulled.Ok? ==> r.Ok? && db.commits == old(db.commits) + pulled.value)
      && (pulled.Err? ==> r == Err(pulled.message) && db.commits == old(db.commits))
    ensures var pending := PendingCommits(old(db.projects), old(db.commits), projectId, listCommits);
      && (pending.Ok? ==>
            (state.deepseekTimestamps, clock.now)
            == PullWindow(old(state.deepseekTimestamps), old(clock.now), old(db.projects)[projectId].githubUrl,
                          pending.value, fetchDiff))
      && (pending.Err? ==> state.deepseekTimestamps == old(state.deepseekTimestamps) && clock.now == old(clock.now))
    ensures db.users == old(db.users) && db.projects == old(db.projects)
    ensures db.memberships == old(db.memberships) && db.embeddings == old(db.embeddings)
    ensures db.questions == old(db.questions) && db.nextId == old(db.nextId)
    ensures state.Groq() == old(state.Groq()) && state.Gemini() == old(state.Gemini())
    ensures state.summaryCache == old(state.summaryCache)
  {
    var found := ProjectGithubUrl(db.projects, projectId);
    if found.Err? {
      return Err(found.message);
    }
    var url := found.value;
    var listed := GetCommitHashes(url, listCommits);
    if listed.Err? {
      return Err(listed.message);
    }
    var pending := FilterUnprocessed(listed.value, StoredHashes(db.commits, projectId));
    assert PendingCommits(db.projects, db.commits, projectId, listCommits) == Ok(pending);

    StorePending(db, projectId, url, pending, fetchDiff, replies, state, clock);
    r := Ok(());
  }

  /** The last steps of `pullCommits`: every pending commit summarised, then
      one `createMany` of their rows. */
  method StorePending(
    db: Database, projectId: Id, url: string, pending: seq<CommitInfo>,
    fetchDiff: string -> Result<string>, replies: string -> DeepseekReply,
    state: ProviderState, clock: Clock)
    requires state.Valid() && state.InPast(clock.now)
    modifies db, state, clock
    ensures state.Valid() && state.InPast(clock.now)
    ensures db.commits
         == old(db.commits) + BulkRecords(projectId, pending,
                                          SettledSummaries(CommitSummaries(url, pending, fetchDiff, replies), pending))
    ensures (state.deepseekTimestamps, clock.now)
         == PullWindow(old(state.deepseekTimestamps), old(clock.now), url, pending, fetchDiff)
    ensures db.users == old(db.users) && db.projects == old(db.projects)
    ensures db.memberships == old(db.memberships) && db.embeddings == old(db.embeddings)
    ensures db.questions == old(db.questions) && db.nextId == old(db.nextId)
    ensures state.Groq() == old(state.Groq()) && state.Gemini() == old(state.Gemini())
    ensures state.summaryCache == old(state.summaryCache)
  {
    var outcomes := SummarisePending(url, pending, fetchDiff, replies, state, clock);
    var summaries := SettledSummaries(outcomes, pending);
    db.commits := db.commits + BulkRecords(projectId, pending, summaries);
  }

  /** The summaries of the pending commits, one call per commit in listing
      order; every call settles with a summary, since `summariseCommit`
      catches its own failures. */
  method SummarisePending(
    url: string, pending: seq<CommitInfo>,
    fetchDiff: string -> Result<string>, replies: string -> DeepseekReply,
    state: ProviderState, clock: Clock)
    returns (outcomes: seq<Result<string>>)
    requires state.Valid() && state.InPast(clock.now)
    modifies state, clock
    ensures state.Valid() && state.InPast(clock.now)
    ensures outcomes == CommitSummaries(url, pending, fetchDiff, replies)
    ensures (state.deepseekTimestamps, clock.now)
         == PullWindow(old(state.deepseekTimestamps), old(clock.now), url, pending, fetchDiff)
    ensures state.Groq() == old(state.Groq()) && state.Gemini() == old(state.Gemini())
    ensures state.summaryCache == old(state.summaryCache)
  {
    outcomes := [];
    var i := 0;
    while i < |pending|
      invariant 0 <= i <= |pending|
      invariant outcomes == CommitSummaries(url, pending[..i], fetchDiff, replies)
      invariant (state.deepseekTimestamps, clock.now)
             == PullWindow(old(state.deepseekTimestamps), old(clock.now), url, pending[..i], fetchDiff)
      invariant state.Valid() && state.InPast(clock.now)
      invariant state.Groq() == old(state.Groq()) && state.Gemini() == old(state.Gemini())
      invariant state.summaryCache == old(state.summaryCache)
    {
      var hash := pending[i].commitHash;
      ghost var before := (state.deepseekTimestamps, clock.now);
      var summary := SummariseCommit(url, hash, fetchDiff, replies(hash), state, clock);
      CommitSummariesSnoc(url, pending, i, fetchDiff, replies);
      PullWindowSnoc(old(state.deepseekTimestamps), old(clock.now), url, pending, i, fetchDiff);
      outcomes := outcomes + [Ok(summary)];
      i := i + 1;
    }
    assert pending[..|pending|] == pending;
  }
}
