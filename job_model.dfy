/** The PDF job record and its `with`-style transitions. Every transition returns a new
    record; none looks at the current status, so any transition applies from any state. */
module JobModel {
  import opened Common

  datatype JobStatus = PENDING | PROCESSING | COMPLETED | FAILED | CANCELLED

  datatype JobType = MERGE | SPLIT | COMPRESS | EDIT | CONVERT | ROTATE | PROTECT | UNLOCK | OCR | WATERMARK

  type JobId = string
  type FileId = string

  /** One row of the `pdf_jobs` table. */
  datatype PdfJob = PdfJob(
    id: JobId,
    userId: string,
    jobType: JobType,
    status: JobStatus,
    inputFileIds: seq<FileId>,
    outputFileId: Option<FileId>,
    parameters: string,
    errorMessage: Option<string>,
    progress: int,
    createdAt: Time,
    updatedAt: Time,
    completedAt: Option<Time>)

  predicate IsTerminal(s: JobStatus)
  {
    s == COMPLETED || s == FAILED || s == CANCELLED
  }

  /** The fields fixed when a job is created: no transition changes them. */
  predicate SameIdentity(a: PdfJob, b: PdfJob)
  {
    && a.id == b.id
    && a.userId == b.userId
    && a.jobType == b.jobType
    && a.inputFileIds == b.inputFileIds
    && a.parameters == b.parameters
    && a.createdAt == b.createdAt
  }

  /** The presence rules a job should keep: an output exactly when completed, an error
      message exactly when failed, progress 100 exactly when completed. */
  predicate WellFormed(j: PdfJob)
  {
    && (j.outputFileId.Some? <==> j.status == COMPLETED)
    && (j.errorMessage.Some? <==> j.status == FAILED)
    && (j.progress == 100 <==> j.status == COMPLETED)
    && (j.completedAt.Some? ==> IsTerminal(j.status))
  }

  /** A new job: pending, no progress, created and updated at the same instant, and no
      output, error or completion time yet. */
  function CreateNew(id: JobId, userId: string, jobType: JobType, inputFileIds: seq<FileId>,
                     parameters: string, now: Time): (j: PdfJob)
    ensures j.id == id && j.userId == userId && j.jobType == jobType
    ensures j.inputFileIds == inputFileIds && j.parameters == parameters
    ensures j.status == PENDING && j.progress == 0
    ensures j.createdAt == now && j.updatedAt == now
    ensures j.outputFileId == None && j.errorMessage == None && j.completedAt == None
    ensures WellFormed(j)
  {
    PdfJob(id, userId, jobType, PENDING, inputFileIds, None, parameters, None, 0, now, now, None)
  }

  /** Only the status (to PROCESSING) and the update time change. */
  function MarkProcessing(j: PdfJob, now: Time): (r: PdfJob)
    ensures SameIdentity(j, r)
    ensures r.status == PROCESSING && r.updatedAt == now
    ensures r.outputFileId == j.outputFileId && r.errorMessage == j.errorMessage
    ensures r.progress == j.progress && r.completedAt == j.completedAt
  {
    j.(status := PROCESSING, updatedAt := now)
  }

  /** COMPLETED with the given output, progress 100, and one instant for both the update
      and the completion time; the error message is left as it was. */
  function MarkCompleted(j: PdfJob, outputFileId: FileId, now: Time): (r: PdfJob)
    ensures SameIdentity(j, r)
    ensures r.status == COMPLETED && r.outputFileId == Some(outputFileId) && r.progress == 100
    ensures r.updatedAt == now && r.completedAt == Some(now)
    ensures r.errorMessage == j.errorMessage
  {
    j.(status := COMPLETED, outputFileId := Some(outputFileId), progress := 100,
       updatedAt := now, completedAt := Some(now))
  }

  /** FAILED with the given message and one instant for the update and completion time;
      progress and output are left as they were. */
  function MarkFailed(j: PdfJob, errorMessage: Option<string>, now: Time): (r: PdfJob)
    ensures SameIdentity(j, r)
    ensures r.status == FAILED && r.errorMessage == errorMessage
    ensures r.updatedAt == now && r.completedAt == Some(now)
    ensures r.progress == j.progress && r.outputFileId == j.outputFileId
  {
    j.(status := FAILED, errorMessage := errorMessage, updatedAt := now, completedAt := Some(now))
  }

  /** Only progress and the update time change; the value is not clamped to 0..100. */
  function UpdateProgress(j: PdfJob, progress: int, now: Time): (r: PdfJob)
    ensures SameIdentity(j, r)
    ensures r.progress == progress && r.updatedAt == now
    ensures r.status == j.status && r.outputFileId == j.outputFileId
    ensures r.errorMessage == j.errorMessage && r.completedAt == j.completedAt
  {
    j.(progress := progress, updatedAt := now)
  }

  /** No guard on the current status: a cancelled job that is processed and then
      completed ends COMPLETED, with an output and a completion time. */
  lemma CancelledJobStillCompletes(j: PdfJob, out: FileId, t1: Time, t2: Time)
    requires j.status == CANCELLED
    ensures MarkCompleted(MarkProcessing(j, t1), out, t2).status == COMPLETED
    ensures MarkCompleted(MarkProcessing(j, t1), out, t2).outputFileId == Some(out)
  {
  }

  /** Failing a job with a null message (an exception whose `getMessage()` is null)
      breaks the rule that a failed job carries an error message. */
  lemma FailedWithoutMessage(j: PdfJob, now: Time)
    ensures !WellFormed(MarkFailed(j, None, now))
  {
  }

  /** The normal life of a job keeps the presence rules: created, processed, and then
      either completed or failed with a message. */
  lemma NormalLifeIsWellFormed(j: PdfJob, out: FileId, msg: string, t1: Time, t2: Time)
    requires j.status == PENDING && WellFormed(j)
    ensures WellFormed(MarkProcessing(j, t1))
    ensures WellFormed(MarkCompleted(MarkProcessing(j, t1), out, t2))
    ensures WellFormed(MarkFailed(MarkProcessing(j, t1), Some(msg), t2))
  {
  }
}
