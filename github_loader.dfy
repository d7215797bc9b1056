/** Repository ingestion: counting the files of a repository through the
    contents endpoint (the credit price of a project), retrying a failing
    call after a pause, turning loaded documents into summarised and embedded
    items, and saving each item as a row whose vector is written after the
    row is created. The contents endpoint, the document loader and the
    providers are inputs. */
module GithubLoader {
  import opened Common
  import opened Strings
  import opened Together
  import opened Store
  import Github

  const MaxRetries := 1
  const RetryDelayMs := 1500
  /** The files the document loader is configured to skip. */
  const LoaderIgnoredFiles := ["package-lock.json", "yarn.lock", "pnpm-lock.yaml", "bun.lockb"]

  // ---------------------------------------------------------------------------
  // getFileCount

  datatype EntryKind = FileEntry | DirEntry | SymlinkEntry | SubmoduleEntry

  /** What the contents endpoint answers for a path: a single file, a
      directory listing, another single object (a symlink or a submodule),
      or an error. */
  datatype Content = FileObject | Listing(items: seq<Entry>) | OtherObject | Unavailable(message: string)

  /** A listing entry; `below` is what the endpoint answers for its path. */
  datatype Entry = Entry(path: string, kind: EntryKind, below: Content)

  /** The number of entries among `items[..n]` that are not directories. */
  function NonDirCount(items: seq<Entry>, n: nat): (count: nat)
    requires n <= |items|
    ensures count <= n
  {
    if n == 0 then 0 else NonDirCount(items, n - 1) + (if items[n - 1].kind == DirEntry then 0 else 1)
  }

  /** The positions of the directories among `items[..n]`, in order. */
  function DirIndices(items: seq<Entry>, n: nat): (ds: seq<nat>)
    requires n <= |items|
    ensures forall k :: 0 <= k < |ds| ==> ds[k] < n && items[ds[k]].kind == DirEntry
  {
    if n == 0 then []
    else DirIndices(items, n - 1) + (if items[n - 1].kind == DirEntry then [n - 1] else [])
  }

  /** `getFileCount(path, acc)` for the content at `path`. */
  function Count(c: Content, acc: int): (r: Result<int>)
    ensures r.Ok? ==> r.value >= acc
    decreases c, 1
  {
    match c
    case FileObject => Ok(acc + 1)
    case Listing(items) =>
      var ds := DirIndices(items, |items|);
      (match SumDirs(c, ds)
       case Err(m) => Err(m)
       case Ok(t) => Ok(acc + NonDirCount(items, |items|) + t))
    case OtherObject => Ok(acc)
    case Unavailable(m) => Err(m)
  }

  /** The total of the subdirectories at positions `ds` of a listing, each
      counted from 0, or the first error in listing order. */
  function SumDirs(c: Content, ds: seq<nat>): (r: Result<int>)
    requires c.Listing? && forall k :: 0 <= k < |ds| ==> ds[k] < |c.items|
    ensures r.Ok? ==> r.value >= 0
    decreases c, 0, |ds|
  {
    if ds == [] then Ok(0)
    else
      match SumDirs(c, ds[..|ds| - 1])
      case Err(m) => Err(m)
      case Ok(t) =>
        match Count(c.items[ds[|ds| - 1]].below, 0)
        case Err(m) => Err(m)
        case Ok(n) => Ok(t + n)
  }

  /** Once a prefix of the subdirectories fails, the whole total fails with
      that error. */
  lemma {:induction false} SumDirsErrPersists(c: Content, ds: seq<nat>, t: nat)
    requires c.Listing? && forall k :: 0 <= k < |ds| ==> ds[k] < |c.items|
    requires t <= |ds| && SumDirs(c, ds[..t]).Err?
    ensures SumDirs(c, ds) == SumDirs(c, ds[..t])
    decreases |ds| - t
  {
    if t < |ds| {
      assert ds[..t + 1][..t] == ds[..t];
      SumDirsErrPersists(c, ds, t + 1);
    } else {
      assert ds[..t] == ds;
    }
  }

  /** `getFileCount`: a file adds one; a listing adds its non-directory
      entries and the counts of its subdirectories; any other object adds
      nothing; an error of the endpoint propagates. */
  method GetFileCount(c: Content, acc: int) returns (r: Result<int>)
    ensures r == Count(c, acc)
    decreases c, 1
  {
    if c.FileObject? {
      return Ok(acc + 1);
    }
    if c.Unavailable? {
      return Err(c.message);
    }
    if c.Listing? {
      var fileCount, directories := ScanListing(c.items);
      if |directories| > 0 {
        var sub := CountDirectories(c, directories);
        if sub.Err? {
          return Err(sub.message);
        }
        fileCount := fileCount + sub.value;
      }
      return Ok(acc + fileCount);
    }
    return Ok(acc);
  }

  /** The pass over a listing that counts the non-directory entries and
      collects the positions of the directories. */
  method ScanListing(items: seq<Entry>) returns (fileCount: nat, directories: seq<nat>)
    ensures fileCount == NonDirCount(items, |items|)
    ensures directories == DirIndices(items, |items|)
  {
    fileCount, directories := 0, [];
    for i := 0 to |items|
      invariant fileCount == NonDirCount(items, i)
      invariant directories == DirIndices(items, i)
    {
      if items[i].kind == DirEntry {
        directories := directories + [i];
      } else {
        fileCount := fileCount + 1;
      }
    }
  }

  /** The recursive counts of the subdirectories of a listing, added up in
      listing order; the first failing one ends the count. */
  method CountDirectories(c: Content, directories: seq<nat>) returns (r: Result<int>)
    requires c.Listing? && forall k :: 0 <= k < |directories| ==> directories[k] < |c.items|
    ensures r == SumDirs(c, directories)
    decreases c, 0
  {
    var total := 0;
    for t := 0 to |directories|
      invariant SumDirs(c, directories[..t]) == Ok(total)
    {
      assert directories[..t + 1][..t] == directories[..t];
      var sub := GetFileCount(c.items[directories[t]].below, 0);
      if sub.Err? {
        SumDirsErrPersists(c, directories, t + 1);
        return Err(sub.message);
      }
      total := total + sub.value;
    }
    assert directories[..|directories|] == directories;
    r := Ok(total);
  }

  /** Every directory the count descends into is answered without error. */
  predicate Available(c: Content)
    decreases c
  {
    match c
    case Unavailable(_) => false
    case Listing(items) => forall k :: 0 <= k < |items| && items[k].kind == DirEntry ==> Available(items[k].below)
    case _ => true
  }

  /** The path of every non-directory entry reachable from the content at
      `path`, in listing order; a single file is its own path. */
  function AllFiles(c: Content, path: string): seq<string>
    decreases c, 1
  {
    match c
    case FileObject => [path]
    case Listing(items) => FilesOf(c, |items|)
    case _ => []
  }

  /** The files under `items[..n]` of a listing. */
  function FilesOf(c: Content, n: nat): seq<string>
    requires c.Listing? && n <= |c.items|
    decreases c, 0, n
  {
    if n == 0 then []
    else
      var e := c.items[n - 1];
      FilesOf(c, n - 1) + (if e.kind == DirEntry then AllFiles(e.below, e.path) else [e.path])
  }

  /** For a repository the endpoint answers in full, the count is the
      accumulator plus the number of files reachable from the root. */
  lemma {:induction false} CountIsAllFiles(c: Content, path: string, acc: int)
    requires Available(c)
    ensures Count(c, acc) == Ok(acc + |AllFiles(c, path)|)
    decreases c, 1
  {
    match c
    case FileObject =>
    case OtherObject =>
    case Listing(items) =>
      FilesOfSum(c, |items|);
    case Unavailable(_) =>
  }

  lemma {:induction false} FilesOfSum(c: Content, n: nat)
    requires c.Listing? && n <= |c.items| && Available(c)
    ensures SumDirs(c, DirIndices(c.items, n)) == Ok(|FilesOf(c, n)| - NonDirCount(c.items, n))
    decreases c, 0, n
  {
    if n > 0 {
      FilesOfSum(c, n - 1);
      var e := c.items[n - 1];
      if e.kind == DirEntry {
        assert Available(e.below);
        CountIsAllFiles(e.below, e.path, 0);
        FilesOfDirStep(c, n);
      } else {
        FilesOfFileStep(c, n);
      }
    }
  }

  lemma FilesOfDirStep(c: Content, n: nat)
    requires c.Listing? && 0 < n <= |c.items| && c.items[n - 1].kind == DirEntry
    requires SumDirs(c, DirIndices(c.items, n - 1)) == Ok(|FilesOf(c, n - 1)| - NonDirCount(c.items, n - 1))
    requires Count(c.items[n - 1].below, 0) == Ok(|AllFiles(c.items[n - 1].below, c.items[n - 1].path)|)
    ensures SumDirs(c, DirIndices(c.items, n)) == Ok(|FilesOf(c, n)| - NonDirCount(c.items, n))
  {
    var ds := DirIndices(c.items, n - 1);
    var ds1 := DirIndices(c.items, n);
    assert ds1 == ds + [n - 1];
    assert ds1[..|ds1| - 1] == ds;
  }

  lemma FilesOfFileStep(c: Content, n: nat)
    requires c.Listing? && 0 < n <= |c.items| && c.items[n - 1].kind != DirEntry
    requires SumDirs(c, DirIndices(c.items, n - 1)) == Ok(|FilesOf(c, n - 1)| - NonDirCount(c.items, n - 1))
    ensures SumDirs(c, DirIndices(c.items, n)) == Ok(|FilesOf(c, n)| - NonDirCount(c.items, n))
  {
    assert DirIndices(c.items, n) == DirIndices(c.items, n - 1);
  }

  /** The last "/"-segment of a path. */
  function BaseName(path: string): string {
    var parts := SplitBy(path, "/");
    parts[|parts| - 1]
  }

  predicate IgnoredByLoader(path: string) {
    BaseName(path) in LoaderIgnoredFiles
  }

  /** The count applies no ignore list: it is the number of files the loader
      keeps plus the number of lockfiles the loader skips. */
  lemma CountIncludesIgnoredFiles(c: Content)
    requires Available(c)
    ensures Count(c, 0) == Ok(|Filter(AllFiles(c, ""), (p: string) => !IgnoredByLoader(p))|
                              + |Filter(AllFiles(c, ""), IgnoredByLoader)|)
  {
    var files := AllFiles(c, "");
    FilterSplitsLength(files);
    assert |Filter(files, (p: string) => !IgnoredByLoader(p))| + |Filter(files, IgnoredByLoader)| == |files|;
    CountIsAllFiles(c, "", 0);
  }

  lemma {:induction false} FilterSplitsLength(s: seq<string>)
    ensures |Filter(s, (p: string) => !IgnoredByLoader(p))| + |Filter(s, IgnoredByLoader)| == |s|
  {
    if s != [] {
      FilterSplitsLength(s[1..]);
    }
  }

  // ---------------------------------------------------------------------------
  // checkCredits

  /** `githubUrl.split("/")[3]` and `[4]`, both required to be non-empty. */
  function CreditsRepo(url: string): (r: Option<(string, string)>)
    ensures r.Some? ==> r.value.0 != [] && r.value.1 != []
  {
    var parts := SplitBy(url, "/");
    if |parts| > 4 && parts[3] != [] && parts[4] != [] then Some((parts[3], parts[4])) else None
  }

  /** The usual repository URL names its owner and repository; unlike the
      commit listing, the URL with a trailing slash is accepted as well. */
  lemma CreditsRepoOfCanonical(owner: string, repo: string)
    requires owner != [] && repo != [] && '/' !in owner && '/' !in repo
    ensures CreditsRepo("https://github.com/" + owner + "/" + repo) == Some((owner, repo))
    ensures CreditsRepo("https://github.com/" + owner + "/" + repo + "/") == Some((owner, repo))
    ensures Github.OwnerAndRepo("https://github.com/" + owner + "/" + repo + "/") == Err(Github.InvalidUrlText)
  {
    var url := "https://github.com/" + owner + "/" + repo;
    Github.CanonicalSegments(owner, repo);
    assert url + "/" == url + ['/'] + [];
    SplitConcatChar(url, [], '/');
    SplitWithout([], '/');
    Github.TrailingSlashRejected(url + "/");
  }

  /** The price `checkCredits(githubUrl)` computes, the contents endpoint
      answering for an owner and repository at the root path. */
  function CreditsNeeded(url: string, root: (string, string) -> Content): (r: Result<int>)
    ensures r.Ok? ==> r.value >= 0
  {
    match CreditsRepo(url)
    case None => Ok(0)
    case Some((owner, repo)) => Count(root(owner, repo), 0)
  }

  /** `checkCredits(githubUrl)`: 0 without counting when the URL lacks an
      owner or repository, otherwise the count from the root. */
  method CheckCredits(url: string, root: (string, string) -> Content) returns (r: Result<int>)
    ensures r == CreditsNeeded(url, root)
    ensures CreditsRepo(url).None? ==> r == Ok(0)
    ensures r.Ok? ==> r.value >= 0
  {
    var parts := SplitBy(url, "/");
    var owner := if |parts| > 3 then parts[3] else "";
    var repo := if |parts| > 4 then parts[4] else "";
    if owner == [] || repo == [] {
      return Ok(0);
    }
    r := GetFileCount(root(owner, repo), 0);
  }

  // ---------------------------------------------------------------------------
  // retryWithDelay

  /** The outcome of `retryWithDelay(fn, retries)` from attempt `i` on, the
      i-th call of `fn` answering `call(i)`. */
  function Retried<T>(call: nat -> Result<T>, retries: nat, i: nat): Result<T>
    requires i <= retries
    decreases retries - i
  {
    if call(i).Ok? || i == retries then call(i) else Retried(call, retries, i + 1)
  }

  /** How many calls from attempt `i` on fail; each is followed by a pause. */
  function Failures<T>(call: nat -> Result<T>, retries: nat, i: nat): nat
    requires i <= retries
    decreases retries - i
  {
    if call(i).Ok? then 0 else if i == retries then 1 else 1 + Failures(call, retries, i + 1)
  }

  /** At most `retries + 1` calls are made; the first success is returned;
      otherwise every call failed and the last error is rethrown. */
  lemma {:induction false} RetriedMeaning<T>(call: nat -> Result<T>, retries: nat, i: nat)
    requires i <= retries
    ensures Failures(call, retries, i) <= retries + 1 - i
    ensures Retried(call, retries, i).Ok? ==>
      var k := i + Failures(call, retries, i);
      && k <= retries && Retried(call, retries, i) == call(k)
      && forall j :: i <= j < k ==> call(j).Err?
    ensures Retried(call, retries, i).Err? ==>
      && Retried(call, retries, i) == call(retries)
      && Failures(call, retries, i) == retries + 1 - i
      && forall j :: i <= j <= retries ==> call(j).Err?
    decreases retries - i
  {
    if !call(i).Ok? && i < retries {
      RetriedMeaning(call, retries, i + 1);
    }
  }

  /** `retryWithDelay(fn, retries)`: a pause of 1500 ms follows every failed
      call, the last one included. */
  method RetryWithDelay<T>(call: nat -> Result<T>, retries: nat, clock: Clock) returns (r: Result<T>)
    modifies clock
    ensures r == Retried(call, retries, 0)
    ensures clock.now == old(clock.now) + RetryDelayMs * Failures(call, retries, 0)
  {
    var lastError: Option<string> := None;
    var i := 0;
    while i <= retries
      invariant 0 <= i <= retries + 1
      invariant i > 0 ==> call(i - 1).Err? && lastError == Some(call(i - 1).message)
      invariant i <= retries ==> Retried(call, retries, 0) == Retried(call, retries, i)
      invariant i <= retries ==>
        Failures(call, retries, 0) == i + Failures(call, retries, i)
      invariant i == retries + 1 ==>
        Retried(call, retries, 0) == call(retries) && Failures(call, retries, 0) == i
      invariant clock.now == old(clock.now) + RetryDelayMs * i
    {
      var outcome := call(i);
      if outcome.Ok? {
        return outcome;
      }
      lastError := Some(outcome.message);
      clock.Delay(RetryDelayMs);
      i := i + 1;
    }
    r := Err(lastError.value);
  }

  // ---------------------------------------------------------------------------
  // generateEmbeddings

  /** The answers of the two retried calls made for one document: the
      summary call and the embedding call, by attempt number. */
  datatype DocCalls = DocCalls(summarise: nat -> Result<string>, embed: nat -> Result<seq<real>>)

  datatype EmbeddingItem = EmbeddingItem(summary: string, embedding: seq<real>, sourceCode: string, fileName: string)

  /** `doc.metadata?.source || "#<index>"`. */
  function FileNameOf(doc: Document, index: nat): (name: string)
    ensures name != []
    ensures doc.source.Some? && doc.source.value != [] ==> name == doc.source.value
    ensures doc.source.None? || doc.source.value == [] ==> name == "#" + NatToString(index)
  {
    if doc.source.Some? && doc.source.value != [] then doc.source.value else "#" + NatToString(index)
  }

  function HexDigit(n: nat): (d: char)
    requires n < 16
    ensures d as int >= 0x20 && d != '"' && d != '\\'
  {
    "0123456789abcdef"[n]
  }

  /** The JSON escape of one character, as `JSON.stringify` writes it. */
  function EscapeChar(c: char): (e: string)
    ensures e == [c] <==> (c as int >= 0x20 && c != '"' && c != '\\')
    ensures e != [c] ==> |e| >= 2 && e[0] == '\\'
    ensures forall k :: 0 <= k < |e| ==> e[k] as int >= 0x20
  {
    if c == '"' then "\\\""
    else if c == '\\' then "\\\\"
    else if c as int == 0x08 then "\\b"
    else if c as int == 0x0C then "\\f"
    else if c == '\n' then "\\n"
    else if c == '\r' then "\\r"
    else if c == '\t' then "\\t"
    else if (c as int) < 0x20 then "\\u00" + [HexDigit(c as int / 16), HexDigit(c as int % 16)]
    else [c]
  }

  /** The escaped text holds no raw control character, and is the text
      itself when nothing in it needs escaping. */
  function Escape(s: string): (e: string)
    ensures forall k :: 0 <= k < |e| ==> e[k] as int >= 0x20
    ensures (forall k :: 0 <= k < |s| ==> s[k] as int >= 0x20 && s[k] != '"' && s[k] != '\\') ==> e == s
  {
    if s == [] then [] else EscapeChar(s[0]) + Escape(s[1..])
  }

  /** `JSON.stringify(text)`. */
  function JsonString(s: string): string {
    "\"" + Escape(s) + "\""
  }

  /** The item `generateEmbeddings` produces for the document at `index`, or
      nothing when either retried call finally fails. */
  function EmbedDoc(doc: Document, index: nat, calls: DocCalls): (item: Option<EmbeddingItem>)
    ensures item.Some? <==> Retried(calls.summarise, MaxRetries, 0).Ok? && Retried(calls.embed, MaxRetries, 0).Ok?
    ensures item.Some? ==>
      && item.value.summary == Retried(calls.summarise, MaxRetries, 0).value
      && item.value.embedding == Retried(calls.embed, MaxRetries, 0).value
      && item.value.fileName == FileNameOf(doc, index)
      && item.value.sourceCode == JsonString(doc.pageContent)
  {
    match Retried(calls.summarise, MaxRetries, 0)
    case Err(_) => None
    case Ok(summary) =>
      match Retried(calls.embed, MaxRetries, 0)
      case Err(_) => None
      case Ok(embedding) => Some(EmbeddingItem(summary, embedding, JsonString(doc.pageContent), FileNameOf(doc, index)))
  }

  /** `results.filter(Boolean)`. */
  function KeepPresent<T>(s: seq<Option<T>>): (r: seq<T>)
    ensures |r| <= |s|
  {
    if s == [] then [] else (if s[0].Some? then [s[0].value] else []) + KeepPresent(s[1..])
  }

  lemma {:induction false} KeepPresentExact<T>(s: seq<Option<T>>, x: T)
    ensures x in KeepPresent(s) <==> Some(x) in s
  {
    if s != [] {
      KeepPresentExact(s[1..], x);
      assert s == [s[0]] + s[1..];
    }
  }

  lemma {:induction false} KeepPresentAll<T>(s: seq<Option<T>>)
    requires forall i :: 0 <= i < |s| ==> s[i].Some?
    ensures |KeepPresent(s)| == |s|
    ensures forall i :: 0 <= i < |s| ==> KeepPresent(s)[i] == s[i].value
  {
    if s != [] {
      KeepPresentAll(s[1..]);
    }
  }

  function EmbedAll(docs: seq<Document>, calls: nat -> DocCalls): seq<Option<EmbeddingItem>> {
    seq(|docs|, i requires 0 <= i < |docs| => EmbedDoc(docs[i], i, calls(i)))
  }

  /** `generateEmbeddings(docs)`, the calls made for the document at index
      `i` answering as `calls(i)`. */
  function GenerateEmbeddings(docs: seq<Document>, calls: nat -> DocCalls): (items: seq<EmbeddingItem>)
    ensures |items| <= |docs|
  {
    KeepPresent(EmbedAll(docs, calls))
  }

  /** Every item comes from a document whose calls succeeded, and is named
      after that document's source or position; a document whose calls
      finally fail yields no item. */
  lemma GenerateEmbeddingsItems(docs: seq<Document>, calls: nat -> DocCalls, item: EmbeddingItem)
    ensures item in GenerateEmbeddings(docs, calls) <==>
      exists i :: 0 <= i < |docs| && EmbedDoc(docs[i], i, calls(i)) == Some(item)
  {
    var all := EmbedAll(docs, calls);
    KeepPresentExact(all, item);
    if Some(item) in all {
      var i :| 0 <= i < |all| && all[i] == Some(item);
      assert EmbedDoc(docs[i], i, calls(i)) == Some(item);
    }
    if exists i :: 0 <= i < |docs| && EmbedDoc(docs[i], i, calls(i)) == Some(item) {
      var i :| 0 <= i < |docs| && EmbedDoc(docs[i], i, calls(i)) == Some(item);
      assert all[i] == Some(item);
    }
  }

  /** When the first summary and embedding calls of every document succeed,
      no document is dropped, and item `i` belongs to document `i`. */
  lemma GenerateEmbeddingsKeepsAll(docs: seq<Document>, calls: nat -> DocCalls)
    requires forall i :: 0 <= i < |docs| ==> calls(i).summarise(0).Ok? && calls(i).embed(0).Ok?
    ensures |GenerateEmbeddings(docs, calls)| == |docs|
    ensures forall i :: 0 <= i < |docs| ==>
      && GenerateEmbeddings(docs, calls)[i].fileName == FileNameOf(docs[i], i)
      && GenerateEmbeddings(docs, calls)[i].summary == calls(i).summarise(0).value
  {
    KeepPresentAll(EmbedAll(docs, calls));
  }

  // ---------------------------------------------------------------------------
  // indexGithubRepo

  /** How saving one item goes: the create and the vector update both
      succeed, the create fails, or the update fails. */
  datatype SaveFault = NoFault | CreateFails | UpdateFails

  /** The rows saved for `items[..n]`, created rows numbered from `firstId`. */
  function SavedRows(projectId: Id, items: seq<EmbeddingItem>, fault: nat -> SaveFault, firstId: Id, n: nat): (rows: seq<EmbeddingRow>)
    requires n <= |items|
    ensures |rows| <= n
  {
    if n == 0 then []
    else
      var rows := SavedRows(projectId, items, fault, firstId, n - 1);
      rows + ItemRows(projectId, items[n - 1], fault(n - 1), firstId + |rows|)
  }

  /** The row saving one item leaves, created with id `id`. */
  function ItemRows(projectId: Id, item: EmbeddingItem, fault: SaveFault, id: Id): (rows: seq<EmbeddingRow>)
    ensures |rows| == (if fault == CreateFails then 0 else 1)
    ensures forall k :: 0 <= k < |rows| ==> rows[k].id == id && rows[k].projectId == projectId
  {
    match fault
    case CreateFails => []
    case UpdateFails => [EmbeddingRow(id, projectId, item.fileName, item.sourceCode, item.summary, None)]
    case NoFault => [EmbeddingRow(id, projectId, item.fileName, item.sourceCode, item.summary, Some(item.embedding))]
  }

  /** Every saved row belongs to the project and carries a fresh id, the
      ids counting up from `firstId` in saving order. */
  lemma {:induction false} SavedRowsFresh(projectId: Id, items: seq<EmbeddingItem>, fault: nat -> SaveFault, firstId: Id, n: nat)
    requires n <= |items|
    ensures forall k :: 0 <= k < |SavedRows(projectId, items, fault, firstId, n)| ==>
      && SavedRows(projectId, items, fault, firstId, n)[k].id == firstId + k
      && SavedRows(projectId, items, fault, firstId, n)[k].projectId == projectId
  {
    if n > 0 {
      var before: seq<EmbeddingRow> := SavedRows(projectId, items, fault, firstId, n - 1);
      var added: seq<EmbeddingRow> := ItemRows(projectId, items[n - 1], fault(n - 1), firstId + |before|);
      assert SavedRows(projectId, items, fault, firstId, n) == before + added;
      SavedRowsFresh(projectId, items, fault, firstId, n - 1);
      forall k: nat | k < |before + added|
        ensures (before + added)[k].id == firstId + k && (before + added)[k].projectId == projectId
      {
        if k < |before| {
          assert (before + added)[k] == before[k];
        } else {
          assert (before + added)[k] == added[k - |before|];
        }
      }
    }
  }

  /** How many of the first `n` items get a row. */
  function NumCreated(fault: nat -> SaveFault, n: nat): nat {
    if n == 0 then 0 else NumCreated(fault, n - 1) + (if fault(n - 1) == CreateFails then 0 else 1)
  }

  lemma {:induction false} SavedRowsCount(projectId: Id, items: seq<EmbeddingItem>, fault: nat -> SaveFault, firstId: Id, n: nat)
    requires n <= |items|
    ensures |SavedRows(projectId, items, fault, firstId, n)| == NumCreated(fault, n)
  {
    if n > 0 {
      SavedRowsCount(projectId, items, fault, firstId, n - 1);
    }
  }

  /** A failure saving one item costs that item alone: the item at `k` whose
      create succeeded has its row, at the position counting the creates
      before it, carrying its file and its vector unless the update failed. */
  lemma {:induction false} SavedRowsIsolated(projectId: Id, items: seq<EmbeddingItem>, fault: nat -> SaveFault, firstId: Id, k: nat, n: nat)
    requires k < n <= |items| && fault(k) != CreateFails
    ensures NumCreated(fault, k) < |SavedRows(projectId, items, fault, firstId, n)|
    ensures var row := SavedRows(projectId, items, fault, firstId, n)[NumCreated(fault, k)];
      && row.fileName == items[k].fileName && row.summary == items[k].summary
      && row.sourceCode == items[k].sourceCode
      && row.vector == (if fault(k) == NoFault then Some(items[k].embedding) else None)
  {
    var before := SavedRows(projectId, items, fault, firstId, n - 1);
    var added := ItemRows(projectId, items[n - 1], fault(n - 1), firstId + |before|);
    assert SavedRows(projectId, items, fault, firstId, n) == before + added;
    SavedRowsCount(projectId, items, fault, firstId, n - 1);
    var j := NumCreated(fault, k);
    if k < n - 1 {
      SavedRowsIsolated(projectId, items, fault, firstId, k, n - 1);
      assert j < |before|;
      assert (before + added)[j] == before[j];
    } else {
      assert j == |before| && |added| == 1;
      assert (before + added)[j] == added[0];
    }
  }

  /** `UPDATE ... SET "summaryEmbedding" = v WHERE "id" = id`. */
  function SetVector(rows: seq<EmbeddingRow>, id: Id, v: seq<real>): (r: seq<EmbeddingRow>)
    ensures |r| == |rows|
    ensures forall i :: 0 <= i < |rows| && rows[i].id != id ==> r[i] == rows[i]
    ensures forall i :: 0 <= i < |rows| && rows[i].id == id ==>
      r[i].vector == Some(v) && r[i].(vector := rows[i].vector) == rows[i]
  {
    seq(|rows|, i requires 0 <= i < |rows| => if rows[i].id == id then rows[i].(vector := Some(v)) else rows[i])
  }

  /** One iteration of the saving loop: the create, then the vector update
      keyed by the created row's id; a failure of either is caught. */
  method SaveItem(db: Database, projectId: Id, item: EmbeddingItem, fault: SaveFault)
    requires IdsBelow(db.embeddings, db.nextId)
    modifies db
    ensures IdsBelow(db.embeddings, db.nextId)
    ensures db.embeddings == old(db.embeddings) + ItemRows(projectId, item, fault, old(db.nextId))
    ensures db.nextId == old(db.nextId) + |ItemRows(projectId, item, fault, old(db.nextId))|
    ensures db.users == old(db.users) && db.projects == old(db.projects)
    ensures db.memberships == old(db.memberships) && db.questions == old(db.questions)
    ensures db.commits == old(db.commits)
  {
    if fault == CreateFails {
      return;
    }
    var id := db.FreshId();
    db.embeddings := db.embeddings + [EmbeddingRow(id, projectId, item.fileName, item.sourceCode, item.summary, None)];
    if fault == NoFault {
      ghost var before := db.embeddings;
      db.embeddings := SetVector(db.embeddings, id, item.embedding);
      assert db.embeddings == before[..|before| - 1] + [before[|before| - 1].(vector := Some(item.embedding))];
    }
  }

  /** `indexGithubRepo(projectId, githubUrl)`: the loader's documents are
      summarised and embedded, then each item is created and its vector
      written; a failing item is skipped and the rest are still saved. Only
      a failing loader makes it throw. */
  method IndexGithubRepo(
    db: Database, projectId: Id, loaded: Result<seq<Document>>,
    calls: nat -> DocCalls, fault: nat -> SaveFault)
    returns (r: Result<()>)
    requires db.Valid()
    modifies db
    ensures db.Valid()
    ensures loaded.Err? ==> r == Err(loaded.message) && db.embeddings == old(db.embeddings) && db.nextId == old(db.nextId)
    ensures loaded.Ok? ==>
      var items := GenerateEmbeddings(loaded.value, calls);
      var added := SavedRows(projectId, items, fault, old(db.nextId), |items|);
      && r.Ok?
      && db.embeddings == old(db.embeddings) + added
      && db.nextId == old(db.nextId) + |added|
    ensures db.users == old(db.users) && db.projects == old(db.projects)
    ensures db.memberships == old(db.memberships) && db.questions == old(db.questions)
    ensures db.commits == old(db.commits)
  {
    if loaded.Err? {
      return Err(loaded.message);
    }
    var items := GenerateEmbeddings(loaded.value, calls);
    SaveItems(db, projectId, items, fault);
    ghost var added := SavedRows(projectId, items, fault, old(db.nextId), |items|);
    SavedRowsFresh(projectId, items, fault, old(db.nextId), |items|);
    forall k | 0 <= k < |db.embeddings|
      ensures db.embeddings[k].id < db.nextId
    {
      if k >= |old(db.embeddings)| {
        assert db.embeddings[k] == added[k - |old(db.embeddings)|];
      } else {
        assert db.embeddings[k] == old(db.embeddings)[k];
      }
    }
    r := Ok(());
  }

  /** The saving loop of `indexGithubRepo`: every item in order, each one's
      failure caught on its own. */
  method SaveItems(db: Database, projectId: Id, items: seq<EmbeddingItem>, fault: nat -> SaveFault)
    requires IdsBelow(db.embeddings, db.nextId)
    modifies db
    ensures db.embeddings == old(db.embeddings) + SavedRows(projectId, items, fault, old(db.nextId), |items|)
    ensures db.nextId == old(db.nextId) + |SavedRows(projectId, items, fault, old(db.nextId), |items|)|
    ensures db.users == old(db.users) && db.projects == old(db.projects)
    ensures db.memberships == old(db.memberships) && db.questions == old(db.questions)
    ensures db.commits == old(db.commits)
  {
    var k := 0;
    ghost var saved: seq<EmbeddingRow> := [];
    while k < |items|
      invariant 0 <= k <= |items|
      invariant saved == SavedRows(projectId, items, fault, old(db.nextId), k)
      invariant db.embeddings == old(db.embeddings) + saved
      invariant db.nextId == old(db.nextId) + |saved|
      invariant IdsBelow(db.embeddings, db.nextId)
      invariant db.users == old(db.users) && db.projects == old(db.projects)
      invariant db.memberships == old(db.memberships) && db.questions == old(db.questions)
      invariant db.commits == old(db.commits)
    {
      ghost var added := ItemRows(projectId, items[k], fault(k), db.nextId);
      SaveItem(db, projectId, items[k], fault(k));
      AppendAssoc(old(db.embeddings), saved, added);
      saved := saved + added;
      k := k + 1;
    }
  }
}
