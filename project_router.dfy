/** The project procedures: creating a project behind the credit gate,
    listing a user's live projects, archiving and deleting a project,
    listing its saved questions newest first, and quoting the price of a
    repository. Each procedure acts on the database for the signed-in user. */
module ProjectRouter {
  import opened Common
  import opened Sorting
  import opened Together
  import opened Store
  import opened Github
  import opened GithubLoader

  const UserNotFoundText := "User not found"
  const NotEnoughCreditsText := "Not enough credits to create this project"
  /** The errors the database raises for a missing row. */
  const RecordToUpdateMissingText := "Record to update not found."
  const RecordToDeleteMissingText := "Record to delete does not exist."

  /** Everything outside the database that creating a project consults: the
      contents endpoint, the document loader, the provider answers for each
      document, how saving each item goes, the commit list, the diff endpoint
      and DeepSeek's reply for each commit hash. */
  datatype Hosting = Hosting(
    root: (string, string) -> Content,
    loaded: Result<seq<Document>>,
    calls: nat -> DocCalls,
    fault: nat -> SaveFault,
    listCommits: (string, string) -> Result<seq<ApiCommit>>,
    fetchDiff: string -> Result<string>,
    replies: string -> DeepseekReply)

  /** `credits || 0`. */
  function Balance(credits: Option<int>): int {
    credits.GetOr(0)
  }

  /** `{ decrement: n }` on a nullable column: a null balance stays null. */
  function Decremented(credits: Option<int>, n: int): (r: Option<int>)
    ensures r.Some? <==> credits.Some?
    ensures r.Some? ==> r.value + n == credits.value
  {
    match credits
    case None => None
    case Some(c) => Some(c - n)
  }

  // ---------------------------------------------------------------------------
  // createProject

  /** The credit gate of `createProject`: the user exists, the repository's
      price is known and the balance (a null balance counting as 0) covers
      it. */
  predicate GatePasses(users: map<Id, User>, userId: Id, url: string, root: (string, string) -> Content) {
    && userId in users
    && CreditsNeeded(url, root).Ok?
    && CreditsNeeded(url, root).value <= Balance(users[userId].credits)
  }

  /** The embedding rows `indexGithubRepo` appends for project `id`, the
      first one numbered `firstId`; none when the loader fails. */
  function IndexedRows(id: Id, h: Hosting, firstId: Id): seq<EmbeddingRow> {
    if h.loaded.Err? then []
    else
      var items := GenerateEmbeddings(h.loaded.value, h.calls);
      SavedRows(id, items, h.fault, firstId, |items|)
  }

  /** The commit rows `pullCommits` would append, read from the tables as
      they stood before the pipeline. */
  function PulledRows(projects: map<Id, Project>, commits: seq<CommitRow>, id: Id, h: Hosting)
    : Result<seq<CommitRow>>
  {
    PulledRecords(projects, commits, id, h.listCommits, h.fetchDiff, h.replies)
  }

  /** The DeepSeek timestamps and the clock once the pipeline has run: only
      the commit summaries call the provider, and they run only when the
      loader succeeded and the pending commits could be listed. */
  function PipelineWindow(
    projects: map<Id, Project>, commits: seq<CommitRow>, id: Id, h: Hosting, ts: seq<int>, now: int)
    : (after: (seq<int>, int))
    ensures after.1 >= now
  {
    if h.loaded.Err? then (ts, now)
    else
      match PendingCommits(projects, commits, id, h.listCommits)
      case Err(_) => (ts, now)
      case Ok(pending) => PullWindow(ts, now, projects[id].githubUrl, pending, h.fetchDiff)
  }

  /** `createProject({ name, githubUrl })` for the user `userId`. The gate
      runs before anything is written: an unknown user, a failing count or a
      price above the balance (a null balance counting as 0) leaves the
      database, the provider state and the clock as they were. Past the gate
      the project and its membership are created and stay, whatever happens
      next; the repository is indexed and its commits pulled; the balance is
      reduced by exactly the price, and only when every step succeeded. */
  method CreateProject(
    db: Database, userId: Id, name: string, url: string, h: Hosting,
    state: ProviderState, clock: Clock)
    returns (r: Result<Id>)
    requires db.Valid() && state.Valid() && state.InPast(clock.now)
    modifies db, state, clock
    ensures db.Valid() && state.Valid() && state.InPast(clock.now)
    ensures userId !in old(db.users) ==> r == Err(UserNotFoundText)
    ensures userId in old(db.users) && CreditsNeeded(url, h.root).Err? ==>
      r == Err(CreditsNeeded(url, h.root).message)
    ensures userId in old(db.users) && CreditsNeeded(url, h.root).Ok?
            && CreditsNeeded(url, h.root).value > Balance(old(db.users[userId].credits)) ==>
      r == Err(NotEnoughCreditsText)
    ensures !GatePasses(old(db.users), userId, url, h.root) ==>
      r.Err? && unchanged(db) && unchanged(state) && clock.now == old(clock.now)
    ensures GatePasses(old(db.users), userId, url, h.root) ==>
      var id := old(db.nextId);
      var projects := old(db.projects)[id := Project(name, url, None)];
      var pulled := PulledRows(projects, old(db.commits), id, h);
      && id !in old(db.projects)
      && db.projects == projects
      && db.memberships == old(db.memberships) + [Membership(userId, id)]
      && db.embeddings == old(db.embeddings) + IndexedRows(id, h, id + 1)
      && db.nextId == id + 1 + |IndexedRows(id, h, id + 1)|
      && db.questions == old(db.questions)
      && (h.loaded.Err? ==> r == Err(h.loaded.message) && db.commits == old(db.commits))
      && (h.loaded.Ok? && pulled.Err? ==> r == Err(pulled.message) && db.commits == old(db.commits))
      && (h.loaded.Ok? && pulled.Ok? ==> r == Ok(id) && db.commits == old(db.commits) + pulled.value)
      && (state.deepseekTimestamps, clock.now)
         == PipelineWindow(projects, old(db.commits), id, h, old(state.deepseekTimestamps), old(clock.now))
    ensures r.Err? ==> db.users == old(db.users)
    ensures r.Ok? ==>
      && GatePasses(old(db.users), userId, url, h.root)
      && db.users == old(db.users)[userId := User(Decremented(old(db.users[userId].credits), CreditsNeeded(url, h.root).value))]
    ensures state.Groq() == old(state.Groq()) && state.Gemini() == old(state.Gemini())
    ensures state.summaryCache == old(state.summaryCache)
  {
    if userId !in db.users {
      return Err(UserNotFoundText);
    }
    var currentCredits := Balance(db.users[userId].credits);
    // checkCredits (project.ts:32); `CheckCredits` computes exactly this value
    var counted := CreditsNeeded(url, h.root);
    if counted.Err? {
      assert !GatePasses(db.users, userId, url, h.root);
      return Err(counted.message);
    }
    var fileCount := counted.value;
    if fileCount > currentCredits {
      assert !GatePasses(db.users, userId, url, h.root);
      return Err(NotEnoughCreditsText);
    }

    ghost var rows := IndexedRows(db.nextId, h, db.nextId + 1);
    r := BuildProject(db, userId, name, url, h, fileCount, state, clock);
    assert db.embeddings == old(db.embeddings) + rows;
  }

  /** The part of `createProject` past the gate: the project and its
      membership are written first and stay; the pipeline runs; the balance
      drops by `price` only when the pipeline succeeded. */
  method BuildProject(
    db: Database, userId: Id, name: string, url: string, h: Hosting, price: int,
    state: ProviderState, clock: Clock)
    returns (r: Result<Id>)
    requires db.Valid() && state.Valid() && state.InPast(clock.now)
    requires userId in db.users && 0 <= price <= Balance(db.users[userId].credits)
    modifies db, state, clock
    ensures db.Valid() && state.Valid() && state.InPast(clock.now)
    ensures
      var id := old(db.nextId);
      var projects := old(db.projects)[id := Project(name, url, None)];
      var pulled := PulledRows(projects, old(db.commits), id, h);
      && id !in old(db.projects)
      && db.projects == projects
      && db.memberships == old(db.memberships) + [Membership(userId, id)]
      && db.embeddings == old(db.embeddings) + IndexedRows(id, h, id + 1)
      && db.nextId == id + 1 + |IndexedRows(id, h, id + 1)|
      && db.questions == old(db.questions)
      && (h.loaded.Err? ==> r == Err(h.loaded.message) && db.commits == old(db.commits))
      && (h.loaded.Ok? && pulled.Err? ==> r == Err(pulled.message) && db.commits == old(db.commits))
      && (h.loaded.Ok? && pulled.Ok? ==> r == Ok(id) && db.commits == old(db.commits) + pulled.value)
      && (state.deepseekTimestamps, clock.now)
         == PipelineWindow(projects, old(db.commits), id, h, old(state.deepseekTimestamps), old(clock.now))
    ensures r.Err? ==> db.users == old(db.users)
    ensures r.Ok? ==> db.users == old(db.users)[userId := User(Decremented(old(db.users[userId].credits), price))]
    ensures state.Groq() == old(state.Groq()) && state.Gemini() == old(state.Gemini())
    ensures state.summaryCache == old(state.summaryCache)
  {
    var id := Register(db, userId, name, url);
    ghost var rows := IndexedRows(id, h, db.nextId);
    assert rows == IndexedRows(old(db.nextId), h, old(db.nextId) + 1);
    var filled := IndexAndPull(db, id, h, state, clock);
    ghost var embeddings := db.embeddings;
    assert embeddings == old(db.embeddings) + rows;
    if filled.Err? {
      return Err(filled.message);
    }
    Charge(db, userId, price);
    assert db.embeddings == embeddings;
    r := Ok(id);
  }

  /** `db.project.create` with the creator's membership nested in it. */
  method Register(db: Database, userId: Id, name: string, url: string) returns (id: Id)
    requires db.Valid()
    modifies db
    ensures db.Valid()
    ensures id == old(db.nextId) && id !in old(db.projects) && db.nextId == id + 1
    ensures db.projects == old(db.projects)[id := Project(name, url, None)]
    ensures db.memberships == old(db.memberships) + [Membership(userId, id)]
    ensures db.users == old(db.users) && db.embeddings == old(db.embeddings)
    ensures db.questions == old(db.questions) && db.commits == old(db.commits)
  {
    id := db.FreshId();
    db.projects := db.projects[id := Project(name, url, None)];
    db.memberships := db.memberships + [Membership(userId, id)];
  }

  /** `db.user.update({ credits: { decrement: price } })`, for a price the
      balance covers: the balance stays non-negative. */
  method Charge(db: Database, userId: Id, price: int)
    requires db.Valid() && userId in db.users && 0 <= price <= Balance(db.users[userId].credits)
    modifies db
    ensures db.Valid()
    ensures db.users == old(db.users)[userId := User(Decremented(old(db.users[userId].credits), price))]
    ensures db.projects == old(db.projects) && db.memberships == old(db.memberships)
    ensures db.embeddings == old(db.embeddings) && db.questions == old(db.questions)
    ensures db.commits == old(db.commits) && db.nextId == old(db.nextId)
  {
    var credits := db.users[userId].credits;
    db.users := db.users[userId := User(Decremented(credits, price))];
    assert db.CreditsNonNegative();
  }

  /** The two pipeline steps of `createProject`: the repository's files are
      indexed, then its commits pulled. Neither touches users, projects or
      memberships; the commits are pulled only when indexing succeeded. */
  method IndexAndPull(db: Database, id: Id, h: Hosting, state: ProviderState, clock: Clock)
    returns (r: Result<()>)
    requires db.Valid() && state.Valid() && state.InPast(clock.now)
    modifies db, state, clock
    ensures db.Valid() && state.Valid() && state.InPast(clock.now)
    ensures db.users == old(db.users) && db.projects == old(db.projects)
    ensures db.memberships == old(db.memberships) && db.questions == old(db.questions)
    ensures db.embeddings == old(db.embeddings) + IndexedRows(id, h, old(db.nextId))
    ensures db.nextId == old(db.nextId) + |IndexedRows(id, h, old(db.nextId))|
    ensures h.loaded.Err? ==> r == Err(h.loaded.message) && db.commits == old(db.commits)
    ensures h.loaded.Ok? ==>
      var pulled := PulledRows(old(db.projects), old(db.commits), id, h);
      && (pulled.Ok? ==> r.Ok? && db.commits == old(db.commits) + pulled.value)
      && (pulled.Err? ==> r == Err(pulled.message) && db.commits == old(db.commits))
    ensures (state.deepseekTimestamps, clock.now)
         == PipelineWindow(old(db.projects), old(db.commits), id, h, old(state.deepseekTimestamps), old(clock.now))
    ensures state.Groq() == old(state.Groq()) && state.Gemini() == old(state.Gemini())
    ensures state.summaryCache == old(state.summaryCache)
  {
    var indexed := IndexGithubRepo(db, id, h.loaded, h.calls, h.fault);
    if indexed.Err? {
      return Err(indexed.message);
    }
    r := PullCommits(db, id, h.listCommits, h.fetchDiff, h.replies, state, clock);
  }

  // ---------------------------------------------------------------------------
  // getProjects and archiveProject

  /** `getProjects`: the projects the user is a member of that are not
      archived. */
  function VisibleProjects(projects: map<Id, Project>, memberships: seq<Membership>, userId: Id): (visible: set<Id>)
    ensures forall p :: p in visible ==> p in projects && projects[p].deletedAt.None?
  {
    set p | p in projects && projects[p].deletedAt.None? && Membership(userId, p) in memberships
  }

  /** Archiving hides exactly the archived project from every member. */
  lemma ArchiveHidesProject(projects: map<Id, Project>, memberships: seq<Membership>, userId: Id, p: Id, now: int)
    requires p in projects
    ensures VisibleProjects(projects[p := projects[p].(deletedAt := Some(now))], memberships, userId)
         == VisibleProjects(projects, memberships, userId) - {p}
  {
  }

  /** A project just created is listed for its creator. */
  lemma CreatedProjectIsVisible(projects: map<Id, Project>, memberships: seq<Membership>, userId: Id, p: Id, name: string, url: string)
    ensures p in VisibleProjects(projects[p := Project(name, url, None)], memberships + [Membership(userId, p)], userId)
  {
    assert (memberships + [Membership(userId, p)])[|memberships|] == Membership(userId, p);
  }

  /** `archiveProject(projectId)`: stamps `deletedAt`; an unknown project is
      an error. */
  method ArchiveProject(db: Database, projectId: Id, now: int) returns (r: Result<Project>)
    requires db.Valid()
    modifies db
    ensures db.Valid()
    ensures projectId !in old(db.projects) ==> r == Err(RecordToUpdateMissingText) && unchanged(db)
    ensures projectId in old(db.projects) ==>
      && r == Ok(old(db.projects[projectId]).(deletedAt := Some(now)))
      && db.projects == old(db.projects)[projectId := r.value]
    ensures forall u: Id :: projectId !in VisibleProjects(db.projects, db.memberships, u)
    ensures db.users == old(db.users) && db.memberships == old(db.memberships)
    ensures db.embeddings == old(db.embeddings) && db.questions == old(db.questions)
    ensures db.commits == old(db.commits) && db.nextId == old(db.nextId)
  {
    if projectId !in db.projects {
      return Err(RecordToUpdateMissingText);
    }
    var archived := db.projects[projectId].(deletedAt := Some(now));
    db.projects := db.projects[projectId := archived];
    r := Ok(archived);
  }

  // ---------------------------------------------------------------------------
  // deleteProject

  function MembershipsWithout(rows: seq<Membership>, projectId: Id): seq<Membership> {
    Filter(rows, (m: Membership) => m.projectId != projectId)
  }

  function EmbeddingsWithout(rows: seq<EmbeddingRow>, projectId: Id): seq<EmbeddingRow> {
    Filter(rows, (e: EmbeddingRow) => e.projectId != projectId)
  }

  function QuestionsWithout(rows: seq<QuestionRow>, projectId: Id): seq<QuestionRow> {
    Filter(rows, (q: QuestionRow) => q.projectId != projectId)
  }

  function CommitsWithout(rows: seq<CommitRow>, projectId: Id): seq<CommitRow> {
    Filter(rows, (c: CommitRow) => c.projectId != projectId)
  }

  /** The child tables after the four `deleteMany` calls hold no row of the
      project and every row of every other project. */
  lemma DeleteLeavesNoTrace(
    ms: seq<Membership>, es: seq<EmbeddingRow>, qs: seq<QuestionRow>, cs: seq<CommitRow>, p: Id)
    ensures forall m :: m in MembershipsWithout(ms, p) <==> m in ms && m.projectId != p
    ensures forall e :: e in EmbeddingsWithout(es, p) <==> e in es && e.projectId != p
    ensures forall q :: q in QuestionsWithout(qs, p) <==> q in qs && q.projectId != p
    ensures forall c :: c in CommitsWithout(cs, p) <==> c in cs && c.projectId != p
  {
    forall m { FilterExact(ms, (m: Membership) => m.projectId != p, m); }
    forall e { FilterExact(es, (e: EmbeddingRow) => e.projectId != p, e); }
    forall q { FilterExact(qs, (q: QuestionRow) => q.projectId != p, q); }
    forall c { FilterExact(cs, (c: CommitRow) => c.projectId != p, c); }
  }

  /** `deleteProject(projectId)`: the memberships, embeddings, questions and
      commits of the project are deleted first, then the project itself; an
      unknown project makes the last step fail after the child rows are
      gone. */
  method DeleteProject(db: Database, projectId: Id) returns (r: Result<bool>)
    requires db.Valid()
    modifies db
    ensures db.Valid()
    ensures db.memberships == MembershipsWithout(old(db.memberships), projectId)
    ensures db.embeddings == EmbeddingsWithout(old(db.embeddings), projectId)
    ensures db.questions == QuestionsWithout(old(db.questions), projectId)
    ensures db.commits == CommitsWithout(old(db.commits), projectId)
    ensures projectId in old(db.projects) ==> r == Ok(true) && db.projects == old(db.projects) - {projectId}
    ensures projectId !in old(db.projects) ==> r == Err(RecordToDeleteMissingText) && db.projects == old(db.projects)
    ensures db.users == old(db.users) && db.nextId == old(db.nextId)
  {
    DeleteLeavesNoTrace(db.memberships, db.embeddings, db.questions, db.commits, projectId);
    db.memberships := MembershipsWithout(db.memberships, projectId);
    db.embeddings := EmbeddingsWithout(db.embeddings, projectId);
    assert forall k :: 0 <= k < |db.embeddings| ==> db.embeddings[k] in old(db.embeddings);
    db.questions := QuestionsWithout(db.questions, projectId);
    db.commits := CommitsWithout(db.commits, projectId);
    if projectId !in db.projects {
      return Err(RecordToDeleteMissingText);
    }
    db.projects := db.projects - {projectId};
    r := Ok(true);
  }

  // ---------------------------------------------------------------------------
  // getQuestions

  function CreatedAt(q: QuestionRow): int {
    q.createdAt
  }

  function QuestionsOf(rows: seq<QuestionRow>, projectId: Id): seq<QuestionRow> {
    Filter(rows, (q: QuestionRow) => q.projectId == projectId)
  }

  /** `getQuestions(projectId)`: the project's questions, newest first. */
  function GetQuestions(rows: seq<QuestionRow>, projectId: Id): (r: seq<QuestionRow>)
    ensures SortedDesc(r, CreatedAt)
    ensures multiset(r) == multiset(QuestionsOf(rows, projectId))
  {
    SortDesc(QuestionsOf(rows, projectId), CreatedAt)
  }

  /** Every question of the project appears as often as it is stored, and
      no question of another project appears. */
  lemma GetQuestionsExact(rows: seq<QuestionRow>, projectId: Id, q: QuestionRow)
    ensures q.projectId == projectId ==> multiset(GetQuestions(rows, projectId))[q] == multiset(rows)[q]
    ensures q.projectId != projectId ==> q !in GetQuestions(rows, projectId)
  {
    var keep := (q: QuestionRow) => q.projectId == projectId;
    if q.projectId == projectId {
      FilterMultiset(rows, keep, q);
    } else {
      FilterExact(rows, keep, q);
      assert q !in multiset(QuestionsOf(rows, projectId));
    }
  }

  // ---------------------------------------------------------------------------
  // saveAnswer, getCommits and getTeamMembers

  /** `saveAnswer`: one question row is appended for the signed-in user,
      stamped with the current time; nothing else changes. */
  method SaveAnswer(db: Database, userId: Id, projectId: Id, question: string, answer: string, now: int)
    returns (row: QuestionRow)
    requires db.Valid()
    modifies db
    ensures db.Valid()
    ensures row == QuestionRow(projectId, userId, question, answer, now)
    ensures db.questions == old(db.questions) + [row]
    ensures row in GetQuestions(db.questions, projectId)
    ensures db.users == old(db.users) && db.projects == old(db.projects)
    ensures db.memberships == old(db.memberships) && db.embeddings == old(db.embeddings)
    ensures db.commits == old(db.commits) && db.nextId == old(db.nextId)
  {
    row := QuestionRow(projectId, userId, question, answer, now);
    db.questions := db.questions + [row];
    assert db.questions[|db.questions| - 1] == row;
    GetQuestionsExact(db.questions, projectId, row);
  }

  function CommitsOf(rows: seq<CommitRow>, projectId: Id): seq<CommitRow> {
    Filter(rows, (c: CommitRow) => c.projectId == projectId)
  }

  function MembersOf(rows: seq<Membership>, projectId: Id): seq<Membership> {
    Filter(rows, (m: Membership) => m.projectId == projectId)
  }

  /** `getCommits` returns exactly the stored commits of the project, and
      `getTeamMembers` exactly its memberships. */
  lemma ProjectRowsExact(cs: seq<CommitRow>, ms: seq<Membership>, p: Id)
    ensures forall c :: c in CommitsOf(cs, p) <==> c in cs && c.projectId == p
    ensures forall m :: m in MembersOf(ms, p) <==> m in ms && m.projectId == p
  {
    forall c { FilterExact(cs, (c: CommitRow) => c.projectId == p, c); }
    forall m { FilterExact(ms, (m: Membership) => m.projectId == p, m); }
  }

  /** The creator of a project is among its team members. */
  lemma CreatorIsTeamMember(ms: seq<Membership>, userId: Id, p: Id)
    ensures Membership(userId, p) in MembersOf(ms + [Membership(userId, p)], p)
  {
    ProjectRowsExact([], ms + [Membership(userId, p)], p);
    assert (ms + [Membership(userId, p)])[|ms|] == Membership(userId, p);
  }

  // ---------------------------------------------------------------------------
  // checkCredits

  /** The `checkCredits` procedure: the price of the repository and the
      user's balance, 0 for a missing user or a null balance. */
  method CheckCreditsProcedure(db: Database, userId: Id, url: string, root: (string, string) -> Content)
    returns (r: Result<(int, int)>)
    ensures CreditsNeeded(url, root).Err? ==> r == Err(CreditsNeeded(url, root).message)
    ensures CreditsNeeded(url, root).Ok? ==>
      && r.Ok? && r.value.0 == CreditsNeeded(url, root).value && r.value.0 >= 0
      && r.value.1 == (if userId in db.users then Balance(db.users[userId].credits) else 0)
  {
    var fileCount := CheckCredits(url, root);
    if fileCount.Err? {
      return Err(fileCount.message);
    }
    var credits := if userId in db.users then Balance(db.users[userId].credits) else 0;
    r := Ok((fileCount.value, credits));
  }
}
