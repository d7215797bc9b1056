/** The application database as the pipeline and the project router see it:
    users with a nullable credit balance, projects that may be archived, and
    the records that hang off a project (memberships, source-file embeddings,
    saved questions, commit summaries). Record ids are drawn from a counter. */
module Store {
  import opened Common

  type Id = nat

  datatype User = User(credits: Option<int>)

  datatype Project = Project(name: string, githubUrl: string, deletedAt: Option<int>)

  /** A `UserToProject` row. */
  datatype Membership = Membership(userId: Id, projectId: Id)

  /** A `SourceCodeEmbedding` row; the vector is written by a separate update
      after the row is created. */
  datatype EmbeddingRow = EmbeddingRow(
    id: Id, projectId: Id, fileName: string, sourceCode: string, summary: string,
    vector: Option<seq<real>>)

  datatype QuestionRow = QuestionRow(
    projectId: Id, userId: Id, question: string, answer: string, createdAt: int)

  datatype CommitRow = CommitRow(
    projectId: Id, commitHash: string, commitMessage: string, commitAuthorName: string,
    commitAuthorAvatar: string, commitDate: string, summary: string)

  class Database {
    var users: map<Id, User>
    var projects: map<Id, Project>
    var memberships: seq<Membership>
    var embeddings: seq<EmbeddingRow>
    var questions: seq<QuestionRow>
    var commits: seq<CommitRow>
    /** The next id handed to a created row. */
    var nextId: Id

    constructor ()
      ensures users == map[] && projects == map[]
      ensures memberships == [] && embeddings == [] && questions == [] && commits == []
      ensures nextId == 0
      ensures Valid()
    {
      users, projects := map[], map[];
      memberships, embeddings, questions, commits := [], [], [], [];
      nextId := 0;
    }

    /** No stored balance is negative. */
    ghost predicate CreditsNonNegative()
      reads this
    {
      forall u :: u in users && users[u].credits.Some? ==> users[u].credits.value >= 0
    }

    /** What every operation keeps: no negative balance, and every project
        and embedding row id lies below the next fresh id. */
    ghost predicate Valid()
      reads this
    {
      && CreditsNonNegative()
      && (forall p :: p in projects ==> p < nextId)
      && IdsBelow(embeddings, nextId)
    }

    /** Hands out a fresh id. */
    method FreshId() returns (id: Id)
      modifies this
      ensures id == old(nextId) && nextId == old(nextId) + 1
      ensures users == old(users) && projects == old(projects)
      ensures memberships == old(memberships) && embeddings == old(embeddings)
      ensures questions == old(questions) && commits == old(commits)
    {
      id := nextId;
      nextId := nextId + 1;
    }
  }

  /** Every embedding row id lies below `bound`. */
  predicate IdsBelow(rows: seq<EmbeddingRow>, bound: Id) {
    forall k :: 0 <= k < |rows| ==> rows[k].id < bound
  }

  /** The hashes of the commits stored for a project. */
  function StoredHashes(rows: seq<CommitRow>, projectId: Id): (hashes: set<string>)
    ensures forall i :: 0 <= i < |rows| && rows[i].projectId == projectId ==> rows[i].commitHash in hashes
    ensures forall h :: h in hashes ==> exists i :: 0 <= i < |rows| && rows[i].projectId == projectId && rows[i].commitHash == h
  {
    set i | 0 <= i < |rows| && rows[i].projectId == projectId :: rows[i].commitHash
  }
}
