/** The merge service: submitting a merge job, and the job's execution, which marks it
    PROCESSING, downloads its inputs, merges them, uploads the result and marks the job
    COMPLETED, or FAILED with the message of the first error. */
module MergeService {
  import opened Common
  import opened JobModel
  import opened JobTable
  import opened JobRepository
  import opened Documents
  import opened StorageClient

  /** The job's parameters, as JSON text. */
  function MergeParameters(preserveBookmarks: bool): string
  {
    "{\"preserveBookmarks\":" + BoolText(preserveBookmarks) + "}"
  }

  function MergedFileName(jobId: JobId): string
  {
    "merged_" + jobId + ".pdf"
  }

  /** `mergePdfsAsync`: stores one new pending merge job (under the random id `jobId`)
      and returns its id. The execution it starts is `ProcessMergeJob`, whose outcome the
      submitter never sees. */
  method MergePdfsAsync(repo: PdfJobRepository, fileIds: seq<FileId>, preserveBookmarks: bool, userId: string,
                        jobId: JobId, now: Time) returns (id: JobId)
    requires repo.Valid()
    modifies repo
    ensures repo.Valid()
    ensures id == jobId
    ensures repo.rows == old(repo.rows)[jobId := CreateNew(jobId, userId, MERGE, fileIds, MergeParameters(preserveBookmarks), now)]
  {
    var job := CreateNew(jobId, userId, MERGE, fileIds, MergeParameters(preserveBookmarks), now);
    var saved := repo.Save(job);
    id := saved.id;
  }

  /** The pages of the merge of `contents`: each source loaded in list order, its pages
      appended; the first source that fails to load is the error. */
  function MergedPages(contents: seq<Blob>): Result<seq<Page>>
  {
    if contents == [] then Ok([])
    else
      match MergedPages(contents[..|contents| - 1])
      case Err(e) => Err(e)
      case Ok(pages) =>
        match Load(contents[|contents| - 1], "")
        case Err(e) => Err(e)
        case Ok(d) => Ok(pages + d.pages)
  }

  /** Two merge outcomes one after the other: the first error, or the pages of both. */
  function Then(x: Result<seq<Page>>, y: Result<seq<Page>>): Result<seq<Page>>
  {
    match x
    case Err(e) => Err(e)
    case Ok(p) =>
      match y
      case Err(e) => Err(e)
      case Ok(q) => Ok(p + q)
  }

  /** Merging one source yields its pages. */
  lemma MergeOne(b: Blob)
    ensures MergedPages([b]) == (match Load(b, "") case Err(e) => Err(e) case Ok(d) => Ok(d.pages))
  {
    assert [b][..0] == [];
    match Load(b, "")
    case Err(e) =>
    case Ok(d) => assert [] + d.pages == d.pages;
  }

  /** Merging `a + b` is merging `a`, then `b`: sources keep their list order. */
  lemma {:induction false} MergeAppend(a: seq<Blob>, b: seq<Blob>)
    ensures MergedPages(a + b) == Then(MergedPages(a), MergedPages(b))
    decreases |b|
  {
    if b == [] {
      assert a + b == a;
      match MergedPages(a)
      case Err(e) =>
      case Ok(p) => assert p + [] == p;
    } else {
      var b' := b[..|b| - 1];
      var x := b[|b| - 1];
      assert (a + b)[..|a + b| - 1] == a + b';
      assert (a + b)[|a + b| - 1] == x;
      MergeAppend(a, b');
      match MergedPages(a)
      case Err(e) =>
      case Ok(p) =>
        match MergedPages(b')
        case Err(e) =>
        case Ok(q) =>
          match Load(x, "")
          case Err(e) =>
          case Ok(d) => assert p + q + d.pages == p + (q + d.pages);
    }
  }

  /** Once a prefix of the sources fails, the whole merge fails with the same error. */
  lemma {:induction false} PrefixErrorPersists(contents: seq<Blob>, n: nat)
    requires n <= |contents| && MergedPages(contents[..n]).Err?
    ensures MergedPages(contents) == MergedPages(contents[..n])
    decreases |contents| - n
  {
    if n == |contents| {
      assert contents[..n] == contents;
    } else {
      assert contents[..n + 1][..n] == contents[..n];
      assert MergedPages(contents[..n + 1]) == MergedPages(contents[..n]);
      PrefixErrorPersists(contents, n + 1);
    }
  }

  function MergeError(cause: Error): Error
  {
    Error(PdfProcessing, Some("Failed to merge PDFs: " + Text(cause.message)))
  }

  /** What `performMerge` returns: a new document holding the merged pages, or a
      processing error wrapping the library's. */
  function MergeResult(contents: seq<Blob>): Result<Blob>
  {
    match MergedPages(contents)
    case Err(e) => Err(MergeError(e))
    case Ok(pages) => Ok(Save(Document(pages, EmptyInfo, None)))
  }

  /** `performMerge`: adds the sources in list order and merges them. */
  method PerformMerge(contents: seq<Blob>, preserveBookmarks: bool) returns (r: Result<Blob>)
    ensures r == MergeResult(contents)
  {
    var pages: seq<Page> := [];
    var i := 0;
    while i < |contents|
      invariant 0 <= i <= |contents|
      invariant MergedPages(contents[..i]) == Ok(pages)
    {
      assert contents[..i + 1][..i] == contents[..i];
      var loaded := Load(contents[i], "");
      if loaded.Err? {
        PrefixErrorPersists(contents, i + 1);
        return Err(MergeError(loaded.error));
      }
      pages := pages + loaded.value.pages;
      i := i + 1;
    }
    assert contents[..i] == contents;
    r := Ok(Save(Document(pages, EmptyInfo, None)));
  }

  /** `downloadAndMerge` up to the upload: the inputs downloaded in list order (an
      assumption: `flatMap` does not promise that order) and merged. */
  function MergedOutput(files: map<FileId, StoredFile>, job: PdfJob): Result<Blob>
  {
    match DownloadAll(files, job.inputFileIds)
    case Err(e) => Err(e)
    case Ok(contents) => MergeResult(contents)
  }

  /** The outcome of the chain before its error handler: the id of the uploaded output
      once the job is marked completed, or the first error (`uploadedId` is the id the
      storage service assigns, `None` when the upload fails; `completeFault` a failure of
      the completion UPDATE). */
  function MergeChain(files: map<FileId, StoredFile>, job: PdfJob, uploadedId: Option<FileId>,
                      completeFault: Option<Error>): Result<FileId>
  {
    match MergedOutput(files, job)
    case Err(e) => Err(e)
    case Ok(_) =>
      match uploadedId
      case None => Fail(Storage, "Failed to upload file: " + MergedFileName(job.id))
      case Some(out) =>
        match completeFault
        case Some(e) => Err(e)
        case None => Ok(out)
  }

  /** `processMergeJob`: PROCESSING without looking at the current status, then either
      COMPLETED with the uploaded output or FAILED with the error's message; the error is
      passed on to the (logging) subscriber. */
  method ProcessMergeJob(repo: PdfJobRepository, store: ContentStore, job: PdfJob, preserveBookmarks: bool,
                         startedAt: Time, finishedAt: Time, uploadedId: Option<FileId>, completeFault: Option<Error>)
    returns (r: Result<()>)
    requires repo.Valid()
    modifies repo, store
    ensures repo.Valid()
    ensures var started := SetStatus(old(repo.rows), job.id, PROCESSING, startedAt);
      match MergeChain(old(store.files), job, uploadedId, completeFault)
      case Ok(out) => r.Ok? && repo.rows == CompleteRow(started, job.id, out, finishedAt)
      case Err(e) => r == Err(e) && repo.rows == FailRow(started, job.id, e.message, finishedAt)
    ensures MergedOutput(old(store.files), job).Ok? && uploadedId.Some? ==>
      store.files == old(store.files)[uploadedId.value :=
        StoredFile(MergedFileName(job.id), "application/pdf", MergedOutput(old(store.files), job).value)]
    ensures MergedOutput(old(store.files), job).Err? || uploadedId.None? ==> store.files == old(store.files)
  {
    var _ := repo.UpdateStatus(job.id, PROCESSING, startedAt);
    var outcome: Result<FileId>;
    var downloaded := DownloadAll(store.files, job.inputFileIds);
    if downloaded.Err? {
      outcome := Err(downloaded.error);
    } else {
      var merged := PerformMerge(downloaded.value, preserveBookmarks);
      if merged.Err? {
        outcome := Err(merged.error);
      } else {
        var uploaded := store.Upload(merged.value, MergedFileName(job.id), "application/pdf", uploadedId);
        if uploaded.Err? {
          outcome := Err(uploaded.error);
        } else if completeFault.Some? {
          outcome := Err(completeFault.value);
        } else {
          var _ := repo.MarkCompleted(job.id, uploaded.value, finishedAt);
          outcome := Ok(uploaded.value);
        }
      }
    }
    if outcome.Err? {
      var _ := repo.MarkFailed(job.id, outcome.error.message, finishedAt);
      r := Err(outcome.error);
    } else {
      r := Ok(());
    }
  }

  /** No update looks at the current status: a job cancelled before its execution starts
      is made PROCESSING again and then COMPLETED, or FAILED. */
  lemma CancelledJobIsRevived(t: Table, id: JobId, out: FileId, msg: Option<string>, t1: Time, t2: Time)
    requires id in t && t[id].status == CANCELLED
    ensures SetStatus(t, id, PROCESSING, t1)[id].status == PROCESSING
    ensures CompleteRow(SetStatus(t, id, PROCESSING, t1), id, out, t2)[id].status == COMPLETED
    ensures FailRow(SetStatus(t, id, PROCESSING, t1), id, msg, t2)[id].status == FAILED
  {
  }

  /** When only the completion UPDATE fails, the job is marked FAILED although its output
      was uploaded. */
  lemma FailedCompletionKeepsUpload(files: map<FileId, StoredFile>, job: PdfJob, out: FileId, fault: Error)
    requires MergedOutput(files, job).Ok?
    ensures MergeChain(files, job, Some(out), Some(fault)) == Err(fault)
  {
  }
}
