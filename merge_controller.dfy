/** The merge endpoints: submitting a merge, looking at a merge job and its result, and
    cancelling a merge job that has not started. */
module MergeController {
  import opened Common
  import opened JobModel
  import opened JobTable
  import opened JobRepository
  import opened Documents
  import opened StorageClient
  import opened MergeService
  import opened JobController

  /** The request body; absent JSON fields are `None`. */
  datatype MergeRequest = MergeRequest(fileIds: seq<FileId>, outputFileName: Option<string>, preserveBookmarks: Option<bool>)

  datatype JobCreatedResponse = JobCreatedResponse(
    jobId: JobId,
    jobType: JobType,
    status: JobStatus,
    message: string,
    createdAt: Time,
    trackingUrl: string)

  datatype MergeResultResponse = MergeResultResponse(
    jobId: JobId,
    outputFileId: Option<FileId>,
    downloadUrl: string,
    inputFileCount: int)

  /** A missing flag counts as false. */
  function PreserveBookmarks(request: MergeRequest): (b: bool)
    ensures b <==> request.preserveBookmarks == Some(true)
  {
    request.preserveBookmarks.Some? && request.preserveBookmarks.value
  }

  function TrackingUrl(jobId: JobId): string
  {
    "/api/v1/pdf/jobs/" + jobId
  }

  /** `mergePdfs`: bean validation refuses an empty id list (one id is accepted, whatever
      the message says); otherwise a merge job is submitted and reported as pending with
      its tracking link. */
  method MergePdfs(repo: PdfJobRepository, request: MergeRequest, userId: string, jobId: JobId, now: Time)
    returns (r: Result<JobCreatedResponse>)
    requires repo.Valid()
    modifies repo
    ensures repo.Valid()
    ensures request.fileIds == [] ==>
      r == Fail(Validation, "At least two file IDs are required for merging") && repo.rows == old(repo.rows)
    ensures request.fileIds != [] ==>
      && r == Ok(JobCreatedResponse(jobId, MERGE, PENDING, "Merge job created successfully", now, TrackingUrl(jobId)))
      && repo.rows == old(repo.rows)[jobId := CreateNew(jobId, userId, MERGE, request.fileIds,
                                                        MergeParameters(PreserveBookmarks(request)), now)]
  {
    if request.fileIds == [] {
      return Fail(Validation, "At least two file IDs are required for merging");
    }
    var id := MergePdfsAsync(repo, request.fileIds, PreserveBookmarks(request), userId, jobId, now);
    r := Ok(JobCreatedResponse(id, MERGE, PENDING, "Merge job created successfully", now, TrackingUrl(id)));
  }

  /** `getMergeResult`: a result only for a completed job. The link is built from the
      output id as text, so a completed job without an output would get a link naming
      "null". */
  function GetMergeResult(repo: PdfJobRepository, jobId: JobId): (r: Option<MergeResultResponse>)
    requires repo.Valid()
    reads repo
    ensures r.Some? <==> jobId in repo.rows && repo.rows[jobId].status == COMPLETED
    ensures r.Some? ==> && r.value.jobId == jobId
                        && r.value.outputFileId == repo.rows[jobId].outputFileId
                        && r.value.inputFileCount == |repo.rows[jobId].inputFileIds|
                        && r.value.downloadUrl == "/api/v1/files/" + Text(repo.rows[jobId].outputFileId) + "/download"
  {
    match repo.FindById(jobId)
    case None => None
    case Some(job) =>
      if job.status == COMPLETED then
        Some(MergeResultResponse(job.id, job.outputFileId, "/api/v1/files/" + Text(job.outputFileId) + "/download",
                                 |job.inputFileIds|))
      else None
  }

  /** A job completed through the repository has an output, so its result link is the
      same link the status response carries. */
  lemma ResultLinkOfCompletedJob(t: Table, id: JobId, out: FileId, at: Time)
    requires id in t
    ensures var job := CompleteRow(t, id, out, at)[id];
      "/api/v1/files/" + Text(job.outputFileId) + "/download" == MapToJobStatusResponse(job).downloadUrl.value
  {
  }

  /** `cancelJob` of the merge endpoints: only a PENDING job, whoever owns it. */
  method CancelJob(repo: PdfJobRepository, jobId: JobId, now: Time) returns (r: Reply<()>)
    requires repo.Valid()
    modifies repo
    ensures repo.Valid()
    ensures jobId in old(repo.rows) && old(repo.rows)[jobId].status == PENDING ==>
      repo.rows == SetStatus(old(repo.rows), jobId, CANCELLED, now) && r == Success(None, Some("Job cancelled"))
    ensures !(jobId in old(repo.rows) && old(repo.rows)[jobId].status == PENDING) ==>
      repo.rows == old(repo.rows) && r == Refused("Job cannot be cancelled")
  {
    var found := repo.FindById(jobId);
    if found.Some? && found.value.status == PENDING {
      var _ := repo.UpdateStatus(jobId, CANCELLED, now);
      r := Success(None, Some("Job cancelled"));
    } else {
      r := Refused("Job cannot be cancelled");
    }
  }

  /** Two stored copies of a loadable document merge without error. */
  lemma TwoCopiesMerge(files: map<FileId, StoredFile>, job: PdfJob, source: Blob)
    requires Load(source, "").Ok?
    requires job.inputFileIds == ["a", "b"]
    requires "a" in files && files["a"].content == source && "b" in files && files["b"].content == source
    ensures MergedOutput(files, job).Ok?
  {
    var downloaded := DownloadAll(files, job.inputFileIds);
    assert downloaded.value == [source, source];
    MergeOne(source);
    MergeAppend([source], [source]);
    assert [source] + [source] == [source, source];
  }

  /** A concrete run: a merge job is submitted, its owner cancels it while it is pending,
      and then its execution runs; the job ends COMPLETED, not CANCELLED. */
  method CancelThenCompleteTrace() returns (afterSubmit: JobStatus, afterCancel: JobStatus, afterRun: JobStatus)
    ensures afterSubmit == PENDING && afterCancel == CANCELLED && afterRun == COMPLETED
  {
    var repo := new PdfJobRepository();
    var store := new ContentStore();
    var source := Pdf(Document([Page(0, [Drawn("p")])], EmptyInfo, None));
    var _ := store.Upload(source, "a.pdf", "application/pdf", Some("a"));
    var _ := store.Upload(source, "b.pdf", "application/pdf", Some("b"));
    var submitted := MergePdfs(repo, MergeRequest(["a", "b"], None, None), "alice", "job-1", 1);
    afterSubmit := repo.rows["job-1"].status;
    var cancelled := JobController.CancelJob(repo, "job-1", "alice", 2);
    afterCancel := repo.rows["job-1"].status;
    var job := repo.rows["job-1"];
    TwoCopiesMerge(store.files, job, source);
    var _ := ProcessMergeJob(repo, store, job, false, 3, 4, Some("merged"), None);
    afterRun := repo.rows["job-1"].status;
  }
}
