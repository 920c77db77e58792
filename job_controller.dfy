/** The job endpoints: listing and looking up a user's jobs, and the guarded cancel,
    delete and retry actions, each a short sequence of repository calls. */
module JobController {
  import opened Common
  import opened JobModel
  import opened JobTable
  import opened JobRepository
  import opened Pagination

  /** The job as the API shows it. */
  datatype JobStatusResponse = JobStatusResponse(
    jobId: JobId,
    jobType: JobType,
    status: JobStatus,
    progress: int,
    inputFileIds: seq<FileId>,
    outputFileId: Option<FileId>,
    downloadUrl: Option<string>,
    errorMessage: Option<string>,
    createdAt: Time,
    updatedAt: Time,
    completedAt: Option<Time>)

  /** The body of an HTTP reply: a success with its data and message, a refusal (400)
      with its message, or 404. */
  datatype Reply<T> = Success(data: Option<T>, message: Option<string>) | Refused(error: string) | NotFound

  /** The storage service's download endpoint for a file. */
  function FileDownloadUrl(fileId: FileId): string
  {
    "/api/v1/files/" + fileId + "/download"
  }

  /** `mapToJobStatusResponse`: the job's fields, plus a download link exactly when the
      job is completed and has an output. */
  function MapToJobStatusResponse(job: PdfJob): (r: JobStatusResponse)
    ensures r.downloadUrl.Some? <==> job.status == COMPLETED && job.outputFileId.Some?
    ensures r.downloadUrl.Some? ==> r.downloadUrl.value == FileDownloadUrl(job.outputFileId.value)
    ensures r.jobId == job.id && r.jobType == job.jobType && r.status == job.status
    ensures r.progress == job.progress && r.inputFileIds == job.inputFileIds
    ensures r.outputFileId == job.outputFileId && r.errorMessage == job.errorMessage
    ensures r.createdAt == job.createdAt && r.updatedAt == job.updatedAt && r.completedAt == job.completedAt
  {
    var url := if job.status == COMPLETED && job.outputFileId.Some? then Some(FileDownloadUrl(job.outputFileId.value)) else None;
    JobStatusResponse(job.id, job.jobType, job.status, job.progress, job.inputFileIds, job.outputFileId,
                      url, job.errorMessage, job.createdAt, job.updatedAt, job.completedAt)
  }

  function MapAll(jobs: seq<PdfJob>): (r: seq<JobStatusResponse>)
    ensures |r| == |jobs| && forall i :: 0 <= i < |jobs| ==> r[i] == MapToJobStatusResponse(jobs[i])
  {
    seq(|jobs|, i requires 0 <= i < |jobs| => MapToJobStatusResponse(jobs[i]))
  }

  /** A well-formed job has a download link exactly when it is completed. */
  lemma DownloadLinkOfWellFormedJob(job: PdfJob)
    requires WellFormed(job)
    ensures MapToJobStatusResponse(job).downloadUrl.Some? <==> job.status == COMPLETED
  {
  }

  /** `getJobs`: `PageRequest.of` refuses a negative page or a size below one; otherwise
      the reply is one page of the user's jobs, newest first, with the page arithmetic
      over the user's total count. */
  method GetJobs(repo: PdfJobRepository, userId: string, page: int, size: int)
    returns (r: Result<PageResponse<JobStatusResponse>>)
    requires repo.Valid()
    ensures page < 0 || size < 1 <==> r.Err?
    ensures r.Err? ==> r.error.kind == IllegalArgument
    ensures r.Ok? ==> exists all ::
      && IsListing(repo.rows, OwnedBy(userId), NewestFirst, all)
      && r.value == Of(MapAll(Window(all, page * size, size)), page, size, repo.CountByUserId(userId))
  {
    if page < 0 {
      return Fail(IllegalArgument, "Page index must not be less than zero");
    }
    if size < 1 {
      return Fail(IllegalArgument, "Page size must not be less than one");
    }
    var jobs := repo.FindByUserIdOrderByCreatedAtDesc(userId, page * size, size);
    var total := repo.CountByUserId(userId);
    r := Ok(Of(MapAll(jobs), page, size, total));
  }

  /** Every page of `getJobs` before the last one is full, and a page's jobs are the
      user's own. */
  lemma PagesBeforeLastAreFull(t: Table, userId: string, all: seq<PdfJob>, page: nat, size: int)
    requires Keyed(t) && IsListing(t, OwnedBy(userId), NewestFirst, all) && size >= 1
    ensures var r := Of(MapAll(Window(all, page * size, size)), page, size, CountWhere(t, OwnedBy(userId)));
      !r.last ==> |r.content| == size
    ensures forall j :: j in Window(all, page * size, size) ==> j.userId == userId
  {
    ListingLength(t, OwnedBy(userId), NewestFirst, all);
    WindowOfListing(t, OwnedBy(userId), NewestFirst, all, page * size, size);
    var r := Of(MapAll(Window(all, page * size, size)), page, size, |all|);
    if !r.last {
      BeforeLastPage(page, size, |all|, r.totalPages);
    }
  }

  lemma BeforeLastPage(page: int, size: int, total: int, totalPages: int)
    requires size >= 1 && (totalPages - 1) * size < total && page < totalPages - 1
    ensures page * size + size < total
  {
    MulMono(page + 1, totalPages - 1, size);
  }

  lemma MulMono(a: int, b: int, c: int)
    requires a <= b && c >= 0
    ensures a * c <= b * c
  {
  }

  /** `getJob`: the job, or 404. */
  function GetJob(repo: PdfJobRepository, jobId: JobId): (r: Reply<JobStatusResponse>)
    requires repo.Valid()
    reads repo
    ensures r.NotFound? <==> jobId !in repo.rows
    ensures r.Success? ==> r.data == Some(MapToJobStatusResponse(repo.rows[jobId])) && r.data.value.jobId == jobId
    ensures !r.Refused?
  {
    match repo.FindById(jobId)
    case Some(job) => Success(Some(MapToJobStatusResponse(job)), None)
    case None => NotFound
  }

  /** `getJobsByStatus`: all the user's jobs in that status, newest first. */
  method GetJobsByStatus(repo: PdfJobRepository, userId: string, status: JobStatus)
    returns (r: seq<JobStatusResponse>)
    requires repo.Valid()
    ensures exists jobs :: IsListing(repo.rows, OwnedWithStatus(userId, status), NewestFirst, jobs) && r == MapAll(jobs)
    ensures forall x :: x in r ==> x.status == status
  {
    var jobs := repo.FindByUserIdAndStatus(userId, status);
    r := MapAll(jobs);
  }

  /** `getJobsByType`: all the user's jobs of that type, newest first. */
  method GetJobsByType(repo: PdfJobRepository, userId: string, jobType: JobType)
    returns (r: seq<JobStatusResponse>)
    requires repo.Valid()
    ensures exists jobs :: IsListing(repo.rows, OwnedWithType(userId, jobType), NewestFirst, jobs) && r == MapAll(jobs)
    ensures forall x :: x in r ==> x.jobType == jobType
  {
    var jobs := repo.FindByUserIdAndJobType(userId, jobType);
    r := MapAll(jobs);
  }

  /** The caller owns the job and it has not started or is running. */
  predicate MayCancel(t: Table, jobId: JobId, userId: string)
  {
    jobId in t && t[jobId].userId == userId && (t[jobId].status == PENDING || t[jobId].status == PROCESSING)
  }

  /** `cancelJob`: cancels the caller's pending or running job; anything else is refused
      and leaves the table as it was. */
  method CancelJob(repo: PdfJobRepository, jobId: JobId, userId: string, now: Time)
    returns (r: Reply<()>)
    requires repo.Valid()
    modifies repo
    ensures repo.Valid()
    ensures MayCancel(old(repo.rows), jobId, userId) ==>
      repo.rows == SetStatus(old(repo.rows), jobId, CANCELLED, now) && r == Success(None, Some("Job cancelled successfully"))
    ensures !MayCancel(old(repo.rows), jobId, userId) ==>
      repo.rows == old(repo.rows) && r == Refused("Job cannot be cancelled")
  {
    var found := repo.FindById(jobId);
    if found.Some? && found.value.userId == userId && (found.value.status == PENDING || found.value.status == PROCESSING) {
      var _ := repo.UpdateStatus(jobId, CANCELLED, now);
      r := Success(None, Some("Job cancelled successfully"));
    } else {
      r := Refused("Job cannot be cancelled");
    }
  }

  /** The caller owns the job and it has finished, one way or another. */
  predicate MayDelete(t: Table, jobId: JobId, userId: string)
  {
    jobId in t && t[jobId].userId == userId && IsTerminal(t[jobId].status)
  }

  /** The reply `deleteJob` sends as written: `.then(...)` emits its value once the
      upstream completes, whether or not a job was deleted, so the refusal behind
      `defaultIfEmpty` is never sent. */
  function DeleteReplyAsWritten(t: Table, jobId: JobId, userId: string): (r: Reply<()>)
    ensures r == Success(None, Some("Job deleted successfully"))
  {
    Success(None, Some("Job deleted successfully"))
  }

  /** The reply the endpoint evidently means to send: success exactly when the job was
      deleted. */
  function DeleteReply(t: Table, jobId: JobId, userId: string): (r: Reply<()>)
    ensures r.Success? <==> MayDelete(t, jobId, userId)
    ensures r.Refused? ==> r.error == "Job cannot be deleted"
  {
    if MayDelete(t, jobId, userId) then Success(None, Some("Job deleted successfully"))
    else Refused("Job cannot be deleted")
  }

  /** A request for someone else's job, or an unfinished or unknown one, deletes nothing
      yet is answered with success. */
  lemma DeleteRefusalNeverSent(t: Table, jobId: JobId, userId: string)
    requires !MayDelete(t, jobId, userId)
    ensures DeleteReplyAsWritten(t, jobId, userId).Success?
    ensures DeleteReply(t, jobId, userId) == Refused("Job cannot be deleted")
  {
  }

  /** `deleteJob` as written: removes the caller's finished job, leaves every other job,
      and always reports success. */
  method DeleteJobAsWritten(repo: PdfJobRepository, jobId: JobId, userId: string)
    returns (r: Reply<()>)
    requires repo.Valid()
    modifies repo
    ensures repo.Valid()
    ensures MayDelete(old(repo.rows), jobId, userId) ==> repo.rows == old(repo.rows) - {jobId}
    ensures !MayDelete(old(repo.rows), jobId, userId) ==> repo.rows == old(repo.rows)
    ensures r == DeleteReplyAsWritten(old(repo.rows), jobId, userId)
  {
    var found := repo.FindById(jobId);
    if found.Some? && found.value.userId == userId && IsTerminal(found.value.status) {
      repo.Delete(found.value);
    }
    r := Success(None, Some("Job deleted successfully"));
  }

  /** `deleteJob` with the refusal reachable: the same deletion, and success reported
      only when the job was deleted. */
  method DeleteJob(repo: PdfJobRepository, jobId: JobId, userId: string)
    returns (r: Reply<()>)
    requires repo.Valid()
    modifies repo
    ensures repo.Valid()
    ensures MayDelete(old(repo.rows), jobId, userId) ==> repo.rows == old(repo.rows) - {jobId}
    ensures !MayDelete(old(repo.rows), jobId, userId) ==> repo.rows == old(repo.rows)
    ensures r == DeleteReply(old(repo.rows), jobId, userId)
  {
    var found := repo.FindById(jobId);
    if found.Some? && found.value.userId == userId && IsTerminal(found.value.status) {
      repo.Delete(found.value);
      r := Success(None, Some("Job deleted successfully"));
    } else {
      r := Refused("Job cannot be deleted");
    }
  }

  /** The caller owns the job and it failed. */
  predicate MayRetry(t: Table, jobId: JobId, userId: string)
  {
    jobId in t && t[jobId].userId == userId && t[jobId].status == FAILED
  }

  /** The job put back in the queue: PENDING, no progress, no error, no completion time,
      updated now; everything else, the output included, as it was. */
  function Retried(job: PdfJob, now: Time): (r: PdfJob)
    ensures SameIdentity(job, r)
    ensures r.status == PENDING && r.progress == 0 && r.errorMessage == None && r.completedAt == None
    ensures r.updatedAt == now && r.outputFileId == job.outputFileId
  {
    job.(status := PENDING, progress := 0, errorMessage := None, updatedAt := now, completedAt := None)
  }

  /** A well-formed failed job is well-formed again once retried. */
  lemma RetriedIsWellFormed(job: PdfJob, now: Time)
    requires WellFormed(job) && job.status == FAILED
    ensures WellFormed(Retried(job, now))
  {
  }

  /** `retryJob`: re-queues the caller's failed job by saving it back as pending. Nothing
      starts processing it again. */
  method RetryJob(repo: PdfJobRepository, jobId: JobId, userId: string, now: Time)
    returns (r: Reply<JobStatusResponse>)
    requires repo.Valid()
    modifies repo
    ensures repo.Valid()
    ensures MayRetry(old(repo.rows), jobId, userId) ==>
      && repo.rows == old(repo.rows)[jobId := Retried(old(repo.rows)[jobId], now)]
      && r == Success(Some(MapToJobStatusResponse(Retried(old(repo.rows)[jobId], now))), Some("Job queued for retry"))
    ensures !MayRetry(old(repo.rows), jobId, userId) ==>
      repo.rows == old(repo.rows) && r == Refused("Job cannot be retried")
  {
    var found := repo.FindById(jobId);
    if found.Some? && found.value.userId == userId && found.value.status == FAILED {
      var saved := repo.Save(Retried(found.value, now));
      r := Success(Some(MapToJobStatusResponse(saved)), Some("Job queued for retry"));
    } else {
      r := Refused("Job cannot be retried");
    }
  }
}
