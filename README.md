# PDF utility backend — a verified model

This project models, in Dafny, the core of a reactive PDF utility backend made of four
services:

- **PDF core service.**
  - The asynchronous job lifecycle (`PdfJob` and its transitions).
  - The `pdf_jobs` table and the SQL statements of its repository.
  - The job and merge endpoints.
  - The merge and compression pipelines that download inputs, transform them, upload the
    output and record the outcome.
  - The synchronous edit transforms: add text, watermark, rotate, extract, info, protect
    and unlock.
- **Storage service.** File metadata (`FileMetadata`) and the storage service: upload,
  download, delete, expiry clean-up and usage accounting.
- **Auth service.** The `users` and `refresh_tokens` tables with their UPDATE statements,
  and the authentication service: register, login with lock-out after five failures,
  refresh-token rotation, logout, password change and the current user.
- **Gateway.** The JWT filter that lets public paths through, rejects bad bearer tokens and
  forwards the verified identity as headers, and the rate limiter's key resolvers.

Each table is a class holding a `map` from primary key to row. Every SQL statement is
also a pure function over that map. The repository methods reassign the map through
those functions, so lemmas can relate several statements. Records and DTOs are
datatypes, and the record methods (`markCompleted`, `recordLoginFailure`, ...) are
functions.

The model's conventions:

- **Time.** Every `LocalDateTime.now()` is a `Time` parameter, counted in milliseconds.
- **Random values.** Every random UUID is a parameter.
- **Collaborators.** The storage client's answers, the password encoder, the JWT service
  and the SHA-256 digests are parameters: either function-typed parameters or the
  outcome they produce.
- **Errors.** A thrown exception is `Err(Error(kind, message))`, and Java `null` is
  `None`.
- **Integer arithmetic.** Java's truncating `/` and `%` are written out as `JavaDiv` and
  `JavaRem`.

The synchronous `mergePdfs` and `compressPdf` entry points run `PerformMerge` and
`PerformCompression` on a worker thread, so those members model them too.

## Model

| member | source | states |
|---|---|---|
| JobModel.CreateNew | backend/pdf-core-service/src/main/java/com/pdfutility/pdfcore/model/PdfJob.java:56-69 | a new job is PENDING at progress 0, created and updated at one instant, with no output, error or completion time, and satisfies the presence rules |
| JobModel.MarkProcessing | backend/pdf-core-service/src/main/java/com/pdfutility/pdfcore/model/PdfJob.java:71-74 | only the status (PROCESSING) and update time change; identity, progress, output and error are kept |
| JobModel.MarkCompleted | backend/pdf-core-service/src/main/java/com/pdfutility/pdfcore/model/PdfJob.java:76-83 | COMPLETED with the output and progress 100, updated and completed at the same instant; identity kept |
| JobModel.MarkFailed | backend/pdf-core-service/src/main/java/com/pdfutility/pdfcore/model/PdfJob.java:85-91 | FAILED with the message, updated and completed at the same instant; progress and output kept |
| JobModel.UpdateProgress | backend/pdf-core-service/src/main/java/com/pdfutility/pdfcore/model/PdfJob.java:93-96 | only progress and update time change, and the value is not clamped |
| JobModel.CancelledJobStillCompletes | backend/pdf-core-service/src/main/java/com/pdfutility/pdfcore/model/PdfJob.java:71-83 | the transitions do not check the current status, so a CANCELLED job that is processed ends up COMPLETED with an output |
| JobModel.FailedWithoutMessage | backend/pdf-core-service/src/main/java/com/pdfutility/pdfcore/model/PdfJob.java:85-91 | failing with a null message leaves a FAILED job without an error, which breaks the presence rules |
| JobModel.NormalLifeIsWellFormed | backend/pdf-core-service/src/main/java/com/pdfutility/pdfcore/model/PdfJob.java:56-91 | pending, then processing, then completed or failed with a message: every state keeps the presence rules |
| JobTable.SetStatus | backend/pdf-core-service/src/main/java/com/pdfutility/pdfcore/repository/PdfJobRepository.java:50-52 | the UPDATE changes only the row with that id, overwrites its status whatever it was, keeps the key invariant and agrees with markProcessing |
| JobTable.SetProgress | backend/pdf-core-service/src/main/java/com/pdfutility/pdfcore/repository/PdfJobRepository.java:57-59 | the UPDATE changes only that row, exactly as updateProgress on the record would |
| JobTable.CompleteRow | backend/pdf-core-service/src/main/java/com/pdfutility/pdfcore/repository/PdfJobRepository.java:64-74 | the completion UPDATE changes only that row, exactly as markCompleted on the record would |
| JobTable.FailRow | backend/pdf-core-service/src/main/java/com/pdfutility/pdfcore/repository/PdfJobRepository.java:79-88 | the failure UPDATE changes only that row, exactly as markFailed on the record would |
| JobTable.DeleteWhere | backend/pdf-core-service/src/main/java/com/pdfutility/pdfcore/repository/PdfJobRepository.java:105-107 | DELETE removes exactly the matching rows and leaves every other row as it was |
| JobTable.Window | backend/pdf-core-service/src/main/java/com/pdfutility/pdfcore/repository/PdfJobRepository.java:26-27 | LIMIT/OFFSET returns at most `limit` rows: the slice from the offset of length `limit` when it fits, the rest of the listing when it runs past the end, and nothing for an offset past the end |
| JobTable.ListingLength | backend/pdf-core-service/src/main/java/com/pdfutility/pdfcore/repository/PdfJobRepository.java:44-45 | a listing of a query has as many rows as SELECT COUNT(*) with the same WHERE clause |
| JobTable.ListingsHoldSameRows | backend/pdf-core-service/src/main/java/com/pdfutility/pdfcore/repository/PdfJobRepository.java:26-39 | two listings of the same query hold the same rows |
| JobTable.WindowOfListing | backend/pdf-core-service/src/main/java/com/pdfutility/pdfcore/repository/PdfJobRepository.java:26-27 | a page cut from a listing holds stored, matching rows, in the listing's order, without duplicates |
| JobTable.SweepKeepsUnfinished | backend/pdf-core-service/src/main/java/com/pdfutility/pdfcore/repository/PdfJobRepository.java:105-107 | the retention sweep never deletes a row that is not COMPLETED |
| JobRepository.PdfJobRepository.constructor | backend/pdf-core-service/src/main/java/com/pdfutility/pdfcore/repository/PdfJobRepository.java:21 | an empty table |
| JobRepository.PdfJobRepository.Save | backend/pdf-core-service/src/main/java/com/pdfutility/pdfcore/repository/PdfJobRepository.java:21 | the intended save: inserts the job or replaces the row with its id (the corrected half of the save finding) |
| JobTable.SaveByUpdate | backend/pdf-core-service/src/main/java/com/pdfutility/pdfcore/repository/PdfJobRepository.java:21 | save as written for an entity whose id is already set: an UPDATE that succeeds exactly when the id is in the table, replacing only that row, and otherwise fails with a data-access error |
| JobTable.NewJobSaveFails | backend/pdf-core-service/src/main/java/com/pdfutility/pdfcore/service/impl/PdfMergeServiceImpl.java:48-52 | a job built by createNew under an id not yet in the table, as mergePdfsAsync and compressPdfAsync build it, is refused by the save as written |
| JobRepository.PdfJobRepository.FindById | backend/pdf-core-service/src/main/java/com/pdfutility/pdfcore/repository/PdfJobRepository.java:21 | the row stored under the id, or nothing exactly when there is none |
| JobRepository.PdfJobRepository.Delete | backend/pdf-core-service/src/main/java/com/pdfutility/pdfcore/repository/PdfJobRepository.java:21 | removes the row with the job's id and no other |
| JobRepository.PdfJobRepository.UpdateStatus | backend/pdf-core-service/src/main/java/com/pdfutility/pdfcore/repository/PdfJobRepository.java:50-52 | the table after the status UPDATE and its affected-row count |
| JobRepository.PdfJobRepository.UpdateProgress | backend/pdf-core-service/src/main/java/com/pdfutility/pdfcore/repository/PdfJobRepository.java:57-59 | the table after the progress UPDATE and its affected-row count |
| JobRepository.PdfJobRepository.MarkCompleted | backend/pdf-core-service/src/main/java/com/pdfutility/pdfcore/repository/PdfJobRepository.java:64-74 | the table after the completion UPDATE and its affected-row count |
| JobRepository.PdfJobRepository.MarkFailed | backend/pdf-core-service/src/main/java/com/pdfutility/pdfcore/repository/PdfJobRepository.java:79-88 | the table after the failure UPDATE and its affected-row count |
| JobRepository.PdfJobRepository.DeleteOldCompletedJobs | backend/pdf-core-service/src/main/java/com/pdfutility/pdfcore/repository/PdfJobRepository.java:105-107 | exactly the COMPLETED rows finished before the threshold are deleted, and the count is their number |
| JobRepository.PdfJobRepository.Select | backend/pdf-core-service/src/main/java/com/pdfutility/pdfcore/repository/PdfJobRepository.java:26-39 | a scan returns every matching row once, as stored, in the requested order |
| JobRepository.PdfJobRepository.FindByUserIdOrderByCreatedAtDesc | backend/pdf-core-service/src/main/java/com/pdfutility/pdfcore/repository/PdfJobRepository.java:26-27 | one page of the user's jobs, newest first, cut from the complete listing |
| JobRepository.PdfJobRepository.FindByUserIdAndStatus | backend/pdf-core-service/src/main/java/com/pdfutility/pdfcore/repository/PdfJobRepository.java:32-33 | all the user's jobs in that status, each once, newest first |
| JobRepository.PdfJobRepository.FindByUserIdAndJobType | backend/pdf-core-service/src/main/java/com/pdfutility/pdfcore/repository/PdfJobRepository.java:38-39 | all the user's jobs of that type, each once, newest first |
| JobRepository.PdfJobRepository.FindPendingJobs | backend/pdf-core-service/src/main/java/com/pdfutility/pdfcore/repository/PdfJobRepository.java:93-94 | at most `limit` PENDING jobs, oldest first, from the start of the listing |
| JobRepository.PdfJobRepository.FindStaleProcessingJobs | backend/pdf-core-service/src/main/java/com/pdfutility/pdfcore/repository/PdfJobRepository.java:99-100 | exactly the PROCESSING jobs last updated before the threshold |
| Pagination.CeilDiv | backend/common/src/main/java/com/pdfutility/common/dto/PageResponse.java:23 | the ceiling of a / b |
| Pagination.Of | backend/common/src/main/java/com/pdfutility/common/dto/PageResponse.java:22-33 | totalPages is the ceiling of totalElements / size (0 when size is not positive); first iff page 0; last iff page >= totalPages - 1 |
| Pagination.TotalPagesIsLeast | backend/common/src/main/java/com/pdfutility/common/dto/PageResponse.java:23 | totalPages is the least number of pages that hold every element |
| Pagination.EmptyResultIsLast | backend/common/src/main/java/com/pdfutility/common/dto/PageResponse.java:22-33 | an empty result has no pages and every page from -1 on is the last |
| JobController.MapToJobStatusResponse | backend/pdf-core-service/src/main/java/com/pdfutility/pdfcore/controller/PdfJobController.java:165-183 | the job's fields, plus a download link exactly when the job is COMPLETED with an output |
| JobController.MapAll | backend/pdf-core-service/src/main/java/com/pdfutility/pdfcore/controller/PdfJobController.java:45-46 | each job mapped, in order |
| JobController.DownloadLinkOfWellFormedJob | backend/pdf-core-service/src/main/java/com/pdfutility/pdfcore/controller/PdfJobController.java:165-168 | a job that keeps the presence rules has a download link exactly when it is COMPLETED |
| JobController.GetJobs | backend/pdf-core-service/src/main/java/com/pdfutility/pdfcore/controller/PdfJobController.java:40-52 | a negative page or a size below one is an IllegalArgument error; otherwise one page of the user's listing wrapped with the user's job count |
| JobController.PagesBeforeLastAreFull | backend/pdf-core-service/src/main/java/com/pdfutility/pdfcore/controller/PdfJobController.java:40-52 | every page before the last is full, and every job on a page belongs to the caller |
| JobController.GetJob | backend/pdf-core-service/src/main/java/com/pdfutility/pdfcore/controller/PdfJobController.java:59-67 | the job's response, or 404 exactly when the id is unknown |
| JobController.GetJobsByStatus | backend/pdf-core-service/src/main/java/com/pdfutility/pdfcore/controller/PdfJobController.java:74-83 | the caller's jobs in that status, newest first, mapped |
| JobController.GetJobsByType | backend/pdf-core-service/src/main/java/com/pdfutility/pdfcore/controller/PdfJobController.java:90-99 | the caller's jobs of that type, newest first, mapped |
| JobController.CancelJob | backend/pdf-core-service/src/main/java/com/pdfutility/pdfcore/controller/PdfJobController.java:106-117 | the caller's PENDING or PROCESSING job becomes CANCELLED; any other request is refused and nothing changes |
| JobController.DeleteReplyAsWritten | backend/pdf-core-service/src/main/java/com/pdfutility/pdfcore/controller/PdfJobController.java:133-136 | the reply as written is always the success message |
| JobController.DeleteReply | backend/pdf-core-service/src/main/java/com/pdfutility/pdfcore/controller/PdfJobController.java:124-137 | success exactly when the caller's job is finished; otherwise "Job cannot be deleted" |
| JobController.DeleteRefusalNeverSent | backend/pdf-core-service/src/main/java/com/pdfutility/pdfcore/controller/PdfJobController.java:133-136 | for a job that may not be deleted, the written reply is still success while the intended one is the refusal |
| JobController.DeleteJobAsWritten | backend/pdf-core-service/src/main/java/com/pdfutility/pdfcore/controller/PdfJobController.java:124-137 | removes exactly the caller's finished job and answers with the written reply |
| JobController.DeleteJob | backend/pdf-core-service/src/main/java/com/pdfutility/pdfcore/controller/PdfJobController.java:124-137 | removes exactly the caller's finished job and answers with the intended reply |
| JobController.Retried | backend/pdf-core-service/src/main/java/com/pdfutility/pdfcore/controller/PdfJobController.java:152-158 | PENDING, progress 0, no error, no completion time; identity and output kept |
| JobController.RetriedIsWellFormed | backend/pdf-core-service/src/main/java/com/pdfutility/pdfcore/controller/PdfJobController.java:152-158 | a retried failed job keeps the presence rules |
| JobController.RetryJob | backend/pdf-core-service/src/main/java/com/pdfutility/pdfcore/controller/PdfJobController.java:144-163 | the caller's FAILED job is saved back as retried; anything else is refused and nothing changes |
| MergeService.MergePdfsAsync | backend/pdf-core-service/src/main/java/com/pdfutility/pdfcore/service/impl/PdfMergeServiceImpl.java:47-64 | stores exactly one new PENDING merge job with the files and the bookmarks parameter, and returns its id |
| MergeService.MergeOne | backend/pdf-core-service/src/main/java/com/pdfutility/pdfcore/service/impl/PdfMergeServiceImpl.java:102-127 | merging one source yields its pages or its load error |
| MergeService.MergeAppend | backend/pdf-core-service/src/main/java/com/pdfutility/pdfcore/service/impl/PdfMergeServiceImpl.java:107-112 | merging a + b is merging a and then b: sources keep their list order |
| MergeService.PrefixErrorPersists | backend/pdf-core-service/src/main/java/com/pdfutility/pdfcore/service/impl/PdfMergeServiceImpl.java:107-112 | once a prefix of the sources fails to load, the whole merge fails with that error |
| MergeService.PerformMerge | backend/pdf-core-service/src/main/java/com/pdfutility/pdfcore/service/impl/PdfMergeServiceImpl.java:102-127 | the merged document, or the merge error for the first source that fails to load |
| MergeService.ProcessMergeJob | backend/pdf-core-service/src/main/java/com/pdfutility/pdfcore/service/impl/PdfMergeServiceImpl.java:69-96 | PROCESSING whatever the status, then COMPLETED with the uploaded output, or FAILED with the error message; the upload happens only when the merge succeeds |
| MergeService.CancelledJobIsRevived | backend/pdf-core-service/src/main/java/com/pdfutility/pdfcore/service/impl/PdfMergeServiceImpl.java:69-96 | none of the updates checks the status, so a CANCELLED job is processed and finished anyway |
| MergeService.FailedCompletionKeepsUpload | backend/pdf-core-service/src/main/java/com/pdfutility/pdfcore/service/impl/PdfMergeServiceImpl.java:86-93 | when only the completion UPDATE fails, the chain fails although the output was uploaded |
| MergeController.PreserveBookmarks | backend/pdf-core-service/src/main/java/com/pdfutility/pdfcore/controller/PdfMergeController.java:48 | a missing flag counts as false |
| MergeController.MergePdfs | backend/pdf-core-service/src/main/java/com/pdfutility/pdfcore/controller/PdfMergeController.java:44-64 | an empty id list is refused with nothing stored; otherwise one new merge job is submitted |
| MergeController.GetMergeResult | backend/pdf-core-service/src/main/java/com/pdfutility/pdfcore/controller/PdfMergeController.java:86-99 | a result exactly for a COMPLETED job, with its output's link |
| MergeController.ResultLinkOfCompletedJob | backend/pdf-core-service/src/main/java/com/pdfutility/pdfcore/controller/PdfMergeController.java:86-99 | a job completed through the repository has an output, so its result link is that output's download link |
| MergeController.CancelJob | backend/pdf-core-service/src/main/java/com/pdfutility/pdfcore/controller/PdfMergeController.java:106-115 | only a PENDING job is cancelled, whoever owns it; anything else is refused and nothing changes |
| MergeController.CancelThenCompleteTrace | backend/pdf-core-service/src/main/java/com/pdfutility/pdfcore/controller/PdfMergeController.java:44-115 | a merge submitted, cancelled while pending and then processed ends COMPLETED |
| StorageClient.ContentStore.constructor | backend/pdf-core-service/src/main/java/com/pdfutility/pdfcore/service/impl/StorageClientImpl.java:41-77 | an empty store |
| StorageClient.ContentStore.Download | backend/pdf-core-service/src/main/java/com/pdfutility/pdfcore/service/impl/StorageClientImpl.java:41-56 | the file's content, or a storage error naming the id exactly when it is missing |
| StorageClient.ContentStore.Upload | backend/pdf-core-service/src/main/java/com/pdfutility/pdfcore/service/impl/StorageClientImpl.java:60-77 | the content stored under the id the storage service assigns, or an error and no change |
| StorageClient.DownloadAll | backend/pdf-core-service/src/main/java/com/pdfutility/pdfcore/service/impl/PdfMergeServiceImpl.java:81-96 | every content in list order, or the error for the first missing id |
| Documents.Load | backend/pdf-core-service/src/main/java/com/pdfutility/pdfcore/service/impl/PdfEditServiceImpl.java:106 | a stored PDF loads as itself exactly when it is unprotected or the password is its user password or the owner password it was encrypted with; otherwise an IO error with the library's message |
| Documents.OwnerKey | backend/pdf-core-service/src/main/java/com/pdfutility/pdfcore/service/impl/PdfEditServiceImpl.java:263-269 | the owner password the output is encrypted with: the policy's owner password, or the user password when that is null or empty |
| Documents.LoadSaved | backend/pdf-core-service/src/main/java/com/pdfutility/pdfcore/service/impl/PdfEditServiceImpl.java:295-299 | a saved document without a user password loads back as itself |
| Documents.ShowText | backend/pdf-core-service/src/main/java/com/pdfutility/pdfcore/service/impl/PdfEditServiceImpl.java:117-120 | showText succeeds exactly when every character is in the WinAnsi encoding; otherwise the error names a character it lacks |
| Documents.SaveLoaded | backend/pdf-core-service/src/main/java/com/pdfutility/pdfcore/service/impl/PdfEditServiceImpl.java:295-299 | saving a loaded document in place succeeds exactly when it is not encrypted, and the output loads back as the document; otherwise the writer's IllegalStateException |
| CompressService.CompressPdfAsync | backend/pdf-core-service/src/main/java/com/pdfutility/pdfcore/service/impl/PdfCompressServiceImpl.java:53-72 | stores exactly one new PENDING compression job for the one file, with its parameters |
| CompressService.ImageQuality | backend/pdf-core-service/src/main/java/com/pdfutility/pdfcore/service/impl/PdfCompressServiceImpl.java:155-160 | the quality picked for each level lies strictly between 0 and 100 percent |
| CompressService.QualityFallsWithLevel | backend/pdf-core-service/src/main/java/com/pdfutility/pdfcore/service/impl/PdfCompressServiceImpl.java:155-160 | a higher level means a lower quality |
| CompressService.StripMetadata | backend/pdf-core-service/src/main/java/com/pdfutility/pdfcore/service/impl/PdfCompressServiceImpl.java:120-127 | the six text entries are cleared and the dates kept |
| CompressService.StripMetadataIdempotent | backend/pdf-core-service/src/main/java/com/pdfutility/pdfcore/service/impl/PdfCompressServiceImpl.java:120-127 | stripping twice is stripping once |
| CompressService.PerformCompression | backend/pdf-core-service/src/main/java/com/pdfutility/pdfcore/service/impl/PdfCompressServiceImpl.java:112-150 | a load failure is wrapped; an encrypted input is refused by the writer, unwrapped; otherwise the same pages without encryption, metadata stripped exactly on request |
| CompressService.CompressAndUpload | backend/pdf-core-service/src/main/java/com/pdfutility/pdfcore/service/impl/PdfCompressServiceImpl.java:92-104 | the first input downloaded, compressed and uploaded: the outcome is the chain's first error or the uploaded id, and the store gains the output only when compression and upload succeed |
| CompressService.ProcessCompressJob | backend/pdf-core-service/src/main/java/com/pdfutility/pdfcore/service/impl/PdfCompressServiceImpl.java:90-107 | an empty input list throws before any write; otherwise PROCESSING, then COMPLETED with the upload or FAILED with the message |
| CompressService.EncryptedInputFailsJob | backend/pdf-core-service/src/main/java/com/pdfutility/pdfcore/service/impl/PdfCompressServiceImpl.java:90-150 | an input that opens without a password but is encrypted fails compression with the writer's refusal, so the job chain fails |
| CompressService.SubmittedJobHasInput | backend/pdf-core-service/src/main/java/com/pdfutility/pdfcore/service/impl/PdfCompressServiceImpl.java:53-107 | a job submitted by compressPdfAsync always has its one input, so processCompressJob never takes the empty-list error path; the chain succeeds exactly when that file downloads and compresses, the upload yields an id and the completion update succeeds |
| CompressService.GetCompressionResult | backend/pdf-core-service/src/main/java/com/pdfutility/pdfcore/service/impl/PdfCompressServiceImpl.java:75-85 | a result exactly for a COMPLETED job; sizes and ratio are zero |
| EditService.HexDigit | backend/pdf-core-service/src/main/java/com/pdfutility/pdfcore/service/impl/PdfEditServiceImpl.java:301-310 | a digit's value is below 16 |
| EditService.RgbOf | backend/pdf-core-service/src/main/java/com/pdfutility/pdfcore/service/impl/PdfEditServiceImpl.java:301-310 | each component is a byte, and for a 24-bit value they recompose it |
| EditService.ParseColor | backend/pdf-core-service/src/main/java/com/pdfutility/pdfcore/service/impl/PdfEditServiceImpl.java:301-310 | black for null, empty or undecodable text; otherwise the colour of the hex value |
| EditService.HexChar | backend/pdf-core-service/src/main/java/com/pdfutility/pdfcore/service/impl/PdfEditServiceImpl.java:301-310 | the hex digit whose value is d |
| EditService.HexByte | backend/pdf-core-service/src/main/java/com/pdfutility/pdfcore/service/impl/PdfEditServiceImpl.java:301-310 | two hex digits |
| EditService.ColorHex | backend/pdf-core-service/src/main/java/com/pdfutility/pdfcore/service/impl/PdfEditServiceImpl.java:301-310 | six hex digits |
| EditService.ColorHexValue | backend/pdf-core-service/src/main/java/com/pdfutility/pdfcore/service/impl/PdfEditServiceImpl.java:301-310 | the six digits denote the colour's 24-bit value |
| EditService.ParseColorRoundTrip | backend/pdf-core-service/src/main/java/com/pdfutility/pdfcore/service/impl/PdfEditServiceImpl.java:301-310 | a colour written as six hex digits, with or without '#', parses back to itself |
| EditService.Overlay | backend/pdf-core-service/src/main/java/com/pdfutility/pdfcore/service/impl/PdfEditServiceImpl.java:117-118 | the page keeps its rotation and content and draws one more item on top |
| EditService.PerformAddText | backend/pdf-core-service/src/main/java/com/pdfutility/pdfcore/service/impl/PdfEditServiceImpl.java:102-128 | a load failure is wrapped; a page number out of range is refused; then text the WinAnsi encoding cannot show, and then an encrypted input, fail unwrapped; otherwise only that page gains the text |
| EditService.PerformAddWatermark | backend/pdf-core-service/src/main/java/com/pdfutility/pdfcore/service/impl/PdfEditServiceImpl.java:130-170 | a load failure is wrapped; text the WinAnsi encoding cannot show fails at the first page, unwrapped, and an encrypted input is refused by the writer; otherwise every page gains the watermark over its content |
| EditService.PerformAddImageWatermark | backend/pdf-core-service/src/main/java/com/pdfutility/pdfcore/service/impl/PdfEditServiceImpl.java:172-177 | always an UnsupportedOperation error |
| EditService.RotatePage | backend/pdf-core-service/src/main/java/com/pdfutility/pdfcore/service/impl/PdfEditServiceImpl.java:185-192 | content kept; the new rotation is the Java remainder, strictly between -360 and 360 |
| EditService.PerformRotatePages | backend/pdf-core-service/src/main/java/com/pdfutility/pdfcore/service/impl/PdfEditServiceImpl.java:179-198 | a load failure is wrapped; an encrypted input is refused by the writer, unwrapped; otherwise exactly the targeted pages are rotated and the others kept |
| EditService.RotateTwice | backend/pdf-core-service/src/main/java/com/pdfutility/pdfcore/service/impl/PdfEditServiceImpl.java:185-192 | with non-negative angles, two rotations are one rotation by the sum |
| EditService.FullTurnIsIdentity | backend/pdf-core-service/src/main/java/com/pdfutility/pdfcore/service/impl/PdfEditServiceImpl.java:185-192 | a full turn leaves a normalised page as it was |
| EditService.PerformExtractPages | backend/pdf-core-service/src/main/java/com/pdfutility/pdfcore/service/impl/PdfEditServiceImpl.java:200-221 | a load failure is wrapped; an invalid range is refused; otherwise the pages of the range, in order |
| EditService.ExtractPdfInfo | backend/pdf-core-service/src/main/java/com/pdfutility/pdfcore/service/impl/PdfEditServiceImpl.java:223-250 | a load failure is wrapped; a document without pages fails on the first page; otherwise its information and page count |
| EditService.ProtectionPolicy | backend/pdf-core-service/src/main/java/com/pdfutility/pdfcore/service/impl/PdfEditServiceImpl.java:257-267 | owner password falls back to the user one; print and copy as asked; no modifications; 256-bit key |
| EditService.PerformProtect | backend/pdf-core-service/src/main/java/com/pdfutility/pdfcore/service/impl/PdfEditServiceImpl.java:252-274 | a load failure is wrapped; otherwise the same pages and information under the new policy |
| EditService.PerformUnlock | backend/pdf-core-service/src/main/java/com/pdfutility/pdfcore/service/impl/PdfEditServiceImpl.java:276-285 | opens with the given password and saves without security, or wraps the load failure |
| EditService.ProtectThenUnlock | backend/pdf-core-service/src/main/java/com/pdfutility/pdfcore/service/impl/PdfEditServiceImpl.java:252-285 | protecting and then unlocking with the user password, or with the owner password the output was encrypted with, gives the document back without security; a blank owner password leaves only the user password |
| EditService.ProtectedOutputNeedsPassword | backend/pdf-core-service/src/main/java/com/pdfutility/pdfcore/service/impl/PdfEditServiceImpl.java:252-274 | output protected with a non-empty user password no longer opens without a password, whatever owner password was given, so the password-less transforms fail on it |
| FileMetadataModel.SanitizeFileName | backend/storage-service/src/main/java/com/pdfutility/storage/model/FileMetadata.java:82-84 | same length; each safe character kept and every other one replaced by '_' |
| FileMetadataModel.SanitizeIdempotent | backend/storage-service/src/main/java/com/pdfutility/storage/model/FileMetadata.java:82-84 | sanitising twice is sanitising once |
| FileMetadataModel.SanitizedIsSafe | backend/storage-service/src/main/java/com/pdfutility/storage/model/FileMetadata.java:82-84 | the output holds only safe characters and '_', and a safe name is kept as is |
| FileMetadataModel.Create | backend/storage-service/src/main/java/com/pdfutility/storage/model/FileMetadata.java:58-80 | the given fields, and a stored name made of the id, '_' and the sanitised original name |
| FileMetadataModel.StoredNamesOfDistinctIdsDiffer | backend/storage-service/src/main/java/com/pdfutility/storage/model/FileMetadata.java:63 | two files whose ids differ (same length) never share a stored name |
| FileMetadataModel.ExpiryIsMonotone | backend/storage-service/src/main/java/com/pdfutility/storage/model/FileMetadata.java:90-92 | a permanent file or one without expiry never expires; an expired file stays expired |
| FileStorage.GetExtension | backend/storage-service/src/main/java/com/pdfutility/storage/service/FileStorageService.java:208-211 | the extension contains no '.' |
| FileStorage.ExtensionOf | backend/storage-service/src/main/java/com/pdfutility/storage/service/FileStorageService.java:208-211 | a name with a non-empty stem has the extension it was given; a leading dot gives none |
| FileStorage.FlattenAppend | backend/storage-service/src/main/java/com/pdfutility/storage/service/FileStorageService.java:56-65 | concatenating two runs of parts is concatenating their contents |
| FileStorage.Concatenate | backend/storage-service/src/main/java/com/pdfutility/storage/service/FileStorageService.java:56-65 | the upload's reduce concatenates the parts in order |
| FileStorage.SanitizedNamesCanCollide | backend/storage-service/src/main/java/com/pdfutility/storage/service/FileStorageService.java:193-197 | two names that sanitise alike, uploaded in the same millisecond, get the same storage path |
| FileStorage.JobLinkIsStorageLink | backend/storage-service/src/main/java/com/pdfutility/storage/model/FileMetadata.java:86-88 | the job API's download link for a file is the storage service's download URL for it |
| FileStorage.FileStorageService.constructor | backend/storage-service/src/main/java/com/pdfutility/storage/service/FileStorageService.java:36-40 | no files, with the configured extensions, expiration and provider |
| FileStorage.FileStorageService.UploadContent | backend/storage-service/src/main/java/com/pdfutility/storage/service/FileStorageService.java:72-94 | the blob stored under a fresh path and a row describing it; a non-expired upload downloads back as its content |
| FileStorage.FileStorageService.UploadFile | backend/storage-service/src/main/java/com/pdfutility/storage/service/FileStorageService.java:45-67 | a disallowed extension is refused with nothing stored; otherwise the concatenated parts are uploaded |
| FileStorage.FileStorageService.DownloadFile | backend/storage-service/src/main/java/com/pdfutility/storage/service/FileStorageService.java:99-108 | not found for an unknown id, refused when expired, otherwise the stored content |
| FileStorage.FileStorageService.DeleteFile | backend/storage-service/src/main/java/com/pdfutility/storage/service/FileStorageService.java:122-132 | only the owner deletes; the blob and the row go, nothing else changes |
| FileStorage.FileStorageService.CleanupExpiredFiles | backend/storage-service/src/main/java/com/pdfutility/storage/service/FileStorageService.java:182-189 | exactly the expired temporary files lose their rows and blobs, each reported once |
| FileStorage.FileStorageService.GetStorageUsage | backend/storage-service/src/main/java/com/pdfutility/storage/service/FileStorageService.java:160-177 | used bytes is the SUM of the user's sizes (0 for none), the count is their number, available is the quota minus used |
| UserModel.CreateNew | backend/auth-service/src/main/java/com/pdfutility/auth/model/User.java:55-69 | email lower-cased, unverified, unlocked, no failures, no login yet |
| UserModel.FullName | backend/auth-service/src/main/java/com/pdfutility/auth/model/User.java:71-76 | the present names joined by a space, or the email when both are missing |
| UserModel.RecordLoginSuccess | backend/auth-service/src/main/java/com/pdfutility/auth/model/User.java:78-82 | counter back to 0 and the login instant recorded; nothing else changes |
| UserModel.RecordLoginFailure | backend/auth-service/src/main/java/com/pdfutility/auth/model/User.java:84-94 | one more failure (null counts as 0); locked once the count reaches 5, never unlocked here |
| UserModel.FailuresLockOnTheFifth | backend/auth-service/src/main/java/com/pdfutility/auth/model/User.java:84-94 | after n failures from a fresh account the count is n and it is locked iff n >= 5 |
| UserModel.LockOutlivesSuccess | backend/auth-service/src/main/java/com/pdfutility/auth/model/User.java:78-94 | neither a success nor a failure lifts a lock |
| UserStore.VerifiedRow | backend/auth-service/src/main/java/com/pdfutility/auth/repository/UserRepository.java:22-24 | email verified and update time set; nothing else changes |
| UserStore.PasswordRow | backend/auth-service/src/main/java/com/pdfutility/auth/repository/UserRepository.java:26-28 | new hash and update time; nothing else changes |
| UserStore.UnlockedRow | backend/auth-service/src/main/java/com/pdfutility/auth/repository/UserRepository.java:30-32 | unlocked, counter 0, update time; nothing else changes |
| UserStore.FailedLoginRow | backend/auth-service/src/main/java/com/pdfutility/auth/repository/UserRepository.java:38-46 | counter +1 (NULL stays NULL); locked iff already locked or the old count was >= 4 |
| UserStore.FailedLoginRowAgrees | backend/auth-service/src/main/java/com/pdfutility/auth/repository/UserRepository.java:38-46 | with a counter present the SQL update equals the record's recordLoginFailure |
| UserStore.NullCounterNeverLocks | backend/auth-service/src/main/java/com/pdfutility/auth/repository/UserRepository.java:38-46 | an account with a NULL counter is never locked by failed logins |
| UserStore.UserRepository.constructor | backend/auth-service/src/main/java/com/pdfutility/auth/repository/UserRepository.java:16 | an empty table |
| UserStore.UserRepository.Save | backend/auth-service/src/main/java/com/pdfutility/auth/repository/UserRepository.java:16 | save inserts the account or replaces the row with its id |
| UserStore.UserRepository.FindById | backend/auth-service/src/main/java/com/pdfutility/auth/repository/UserRepository.java:16 | the stored row, or nothing exactly when there is none |
| UserStore.UserRepository.FindByEmail | backend/auth-service/src/main/java/com/pdfutility/auth/repository/UserRepository.java:18 | nothing exactly when no row has the email; otherwise a stored row with it |
| UserStore.UserRepository.VerifyEmail | backend/auth-service/src/main/java/com/pdfutility/auth/repository/UserRepository.java:22-24 | that row verified, count 1; an unknown id changes nothing, count 0 |
| UserStore.UserRepository.UpdatePassword | backend/auth-service/src/main/java/com/pdfutility/auth/repository/UserRepository.java:26-28 | that row's password replaced, count 1; an unknown id changes nothing, count 0 |
| UserStore.UserRepository.UnlockAccount | backend/auth-service/src/main/java/com/pdfutility/auth/repository/UserRepository.java:30-32 | that row unlocked, count 1; an unknown id changes nothing, count 0 |
| UserStore.UserRepository.RecordSuccessfulLogin | backend/auth-service/src/main/java/com/pdfutility/auth/repository/UserRepository.java:34-36 | that row as recordLoginSuccess leaves it, count 1; an unknown id changes nothing, count 0 |
| UserStore.UserRepository.RecordFailedLogin | backend/auth-service/src/main/java/com/pdfutility/auth/repository/UserRepository.java:38-46 | that row after the failure UPDATE, count 1; an unknown id changes nothing, count 0 |
| UserStore.UpdatesKeepEmails | backend/auth-service/src/main/java/com/pdfutility/auth/repository/UserRepository.java:22-46 | no update changes an email |
| UserStore.SameEmailKeepsUnique | backend/auth-service/src/main/java/com/pdfutility/auth/repository/UserRepository.java:22-46 | replacing a row by one with the same email keeps emails unique |
| UserStore.NewEmailKeepsUnique | backend/auth-service/src/main/java/com/pdfutility/auth/repository/UserRepository.java:18-20 | adding a row whose email no row has keeps emails unique |
| RefreshTokenModel.Create | backend/auth-service/src/main/java/com/pdfutility/auth/model/RefreshToken.java:35-44 | unrevoked; expiresAt is now plus the lifetime truncated to whole seconds |
| RefreshTokenModel.FreshTokenValidity | backend/auth-service/src/main/java/com/pdfutility/auth/model/RefreshToken.java:35-48 | a token is valid when created exactly when its lifetime is at least one second |
| RefreshTokenModel.ValidityOnlyEnds | backend/auth-service/src/main/java/com/pdfutility/auth/model/RefreshToken.java:46-48 | a revoked token is never valid; validity only ends, and it ends at expiry |
| TokenStore.UserTokenIds | backend/auth-service/src/main/java/com/pdfutility/auth/repository/RefreshTokenRepository.java:28-30 | the ids of exactly the user's rows |
| TokenStore.Revoke | backend/auth-service/src/main/java/com/pdfutility/auth/repository/RefreshTokenRepository.java:24-26 | that row revoked, every other row kept |
| TokenStore.RevokeAll | backend/auth-service/src/main/java/com/pdfutility/auth/repository/RefreshTokenRepository.java:28-30 | every row of the user revoked, the others kept |
| TokenStore.DeadIds | backend/auth-service/src/main/java/com/pdfutility/auth/repository/RefreshTokenRepository.java:32-34 | exactly the rows expired before the threshold or revoked |
| TokenStore.RevokeAllEndsSessions | backend/auth-service/src/main/java/com/pdfutility/auth/repository/RefreshTokenRepository.java:28-30 | after revoking all of a user's tokens none of them is valid, and a hash only that user held finds no valid row |
| TokenStore.RevokedTokenIsSpent | backend/auth-service/src/main/java/com/pdfutility/auth/repository/RefreshTokenRepository.java:19-26 | once a token's row is revoked and a new token stored, the old token finds no valid row |
| TokenStore.PurgeKeepsLiveTokens | backend/auth-service/src/main/java/com/pdfutility/auth/repository/RefreshTokenRepository.java:32-34 | the purge keeps every token still valid at an instant no earlier than the threshold |
| TokenStore.RefreshTokenRepository.constructor | backend/auth-service/src/main/java/com/pdfutility/auth/repository/RefreshTokenRepository.java:17 | an empty table |
| TokenStore.RefreshTokenRepository.Save | backend/auth-service/src/main/java/com/pdfutility/auth/repository/RefreshTokenRepository.java:17 | save inserts the token or replaces the row with its id |
| TokenStore.RefreshTokenRepository.FindValidToken | backend/auth-service/src/main/java/com/pdfutility/auth/repository/RefreshTokenRepository.java:19-20 | nothing exactly when no row with the hash is valid; otherwise such a stored row |
| TokenStore.RefreshTokenRepository.FindByUserIdAndRevokedFalse | backend/auth-service/src/main/java/com/pdfutility/auth/repository/RefreshTokenRepository.java:22 | exactly the user's unrevoked rows, each once |
| TokenStore.RefreshTokenRepository.RevokeToken | backend/auth-service/src/main/java/com/pdfutility/auth/repository/RefreshTokenRepository.java:24-26 | that row revoked; count 1, or 0 for an unknown id |
| TokenStore.RefreshTokenRepository.RevokeAllUserTokens | backend/auth-service/src/main/java/com/pdfutility/auth/repository/RefreshTokenRepository.java:28-30 | every row of the user revoked; the count is their number, revoked or not |
| TokenStore.RefreshTokenRepository.DeleteExpiredTokens | backend/auth-service/src/main/java/com/pdfutility/auth/repository/RefreshTokenRepository.java:32-34 | exactly the dead rows deleted, the rest kept, count their number |
| AuthServiceModel.MapToUserResponse | backend/auth-service/src/main/java/com/pdfutility/auth/service/AuthService.java:169-180 | the account's public fields, its full name and the role USER |
| AuthServiceModel.GenerateAuthResponse | backend/auth-service/src/main/java/com/pdfutility/auth/service/AuthService.java:151-167 | one refresh-token row stored, holding the hash of the token returned, for the user; a Bearer reply for the user |
| AuthServiceModel.Register | backend/auth-service/src/main/java/com/pdfutility/auth/service/AuthService.java:38-57 | refused with nothing written when the lower-cased email is taken; otherwise the account and a token stored, and email uniqueness kept |
| AuthServiceModel.Decide | backend/auth-service/src/main/java/com/pdfutility/auth/service/AuthService.java:62-80 | accepted exactly for an unlocked account whose hash matches; unknown exactly when no account |
| AuthServiceModel.Login | backend/auth-service/src/main/java/com/pdfutility/auth/service/AuthService.java:62-80 | unknown email and locked account change nothing; a wrong password records a failure; a match records the login and issues tokens |
| AuthServiceModel.RegisteredAccountLogsIn | backend/auth-service/src/main/java/com/pdfutility/auth/service/AuthService.java:38-80 | an account just registered is found by its email and accepted with a matching password |
| AuthServiceModel.FailedLoginsAreFailures | backend/auth-service/src/main/java/com/pdfutility/auth/service/AuthService.java:62-80 | with a counter present, repeated failed-login updates equal repeated recordLoginFailure |
| AuthServiceModel.FiveWrongPasswordsLockOut | backend/auth-service/src/main/java/com/pdfutility/auth/service/AuthService.java:62-80 | after five wrong passwords every login is refused as locked, before that the account is not locked |
| AuthServiceModel.Refresh | backend/auth-service/src/main/java/com/pdfutility/auth/service/AuthService.java:85-110 | an invalid token is refused with nothing written; otherwise the old row is revoked and a new token issued and stored |
| AuthServiceModel.Logout | backend/auth-service/src/main/java/com/pdfutility/auth/service/AuthService.java:115-119 | every refresh token of the user revoked |
| AuthServiceModel.ChangePassword | backend/auth-service/src/main/java/com/pdfutility/auth/service/AuthService.java:124-138 | unknown account or wrong password refused with nothing written; otherwise the new hash stored and every session revoked |
| AuthServiceModel.GetCurrentUser | backend/auth-service/src/main/java/com/pdfutility/auth/service/AuthService.java:143-146 | the account's public view, or nothing exactly for an unknown id |
| GatewayFilter.PublicPathsExtend | backend/gateway-service/src/main/java/com/pdfutility/gateway/security/JwtAuthenticationFilter.java:103-114 | anything appended to a public path is public too |
| GatewayFilter.PublicPathExamples | backend/gateway-service/src/main/java/com/pdfutility/gateway/security/JwtAuthenticationFilter.java:103-114 | "/api/v1/auth/loginX" and "/pdf/api-docs" are public; "/api/v1/jobs" is not |
| GatewayFilter.BearerToken | backend/gateway-service/src/main/java/com/pdfutility/gateway/security/JwtAuthenticationFilter.java:57 | the header is "Bearer " followed by the token |
| GatewayFilter.BearerRoundTrip | backend/gateway-service/src/main/java/com/pdfutility/gateway/security/JwtAuthenticationFilter.java:53-57 | taking the token off a header built from it gives the token |
| GatewayFilter.JoinedRolesSplitBack | backend/gateway-service/src/main/java/com/pdfutility/gateway/security/JwtAuthenticationFilter.java:76-79 | the roles header splits back into the roles when no role holds a comma |
| GatewayFilter.Authorities | backend/gateway-service/src/main/java/com/pdfutility/gateway/security/JwtAuthenticationFilter.java:66-70 | one "ROLE_"-prefixed authority per role, in order |
| GatewayFilter.Filter | backend/gateway-service/src/main/java/com/pdfutility/gateway/security/JwtAuthenticationFilter.java:43-93 | public or bearer-less requests pass unchanged; a blank bearer token fails the exchange with the parser's IllegalArgumentException; an unverifiable one is 401; a verified one sets X-User-Id and X-User-Roles and installs the principal |
| GatewayFilter.EmptyBearerFails | backend/gateway-service/src/main/java/com/pdfutility/gateway/security/JwtAuthenticationFilter.java:57-99 | "Bearer " with no token on a protected path fails the exchange, whatever the verifier says, instead of answering 401 |
| GatewayFilter.ForwardedIdentityIsVerified | backend/gateway-service/src/main/java/com/pdfutility/gateway/security/JwtAuthenticationFilter.java:76-79 | a request forwarded with a principal carries the principal's id in X-User-Id, whatever the client sent |
| RateLimiter.UserKey | backend/gateway-service/src/main/java/com/pdfutility/gateway/config/RateLimiterConfig.java:19-32 | X-User-Id, else the remote host, else "unknown" |
| RateLimiter.ApiKey | backend/gateway-service/src/main/java/com/pdfutility/gateway/config/RateLimiterConfig.java:38-46 | "api:" plus X-API-Key, else "anonymous" |
| RateLimiter.ApiKeysAreSeparate | backend/gateway-service/src/main/java/com/pdfutility/gateway/config/RateLimiterConfig.java:38-46 | anonymous exactly without a key; two requests share a bucket exactly when their keys are equal |
| RateLimiter.KeyBehindFilter | backend/gateway-service/src/main/java/com/pdfutility/gateway/config/RateLimiterConfig.java:19-32 | behind the filter, a verified request is limited under its token's subject |

## Left out

- **PDF content:**
  - Documents are modelled as a page list and an information dictionary, not as PDFBox's
    bytes.
  - Merging is page concatenation. The merged document's information, bookmarks and
    outlines are not modelled, because `preserveBookmarks` is only stored as a
    parameter.
  - Which characters the standard 14 fonts can show is modelled by the WinAnsi code chart.
    The library decides through the glyph names of the Adobe glyph list, which this model
    does not hold.
  - `Documents.ShowText`: the message leaves out the glyph name that the library prints
    after the code point.
- **Floating point:**
  - The watermark's opacity, the text positions, the compression quality (kept in whole
    percent) and the compression ratio (always 0.0) are not computed in floating point.
  - `optimizeImagesInDocument` does not re-encode images. Only the quality it would pick
    is modelled.
- **Reactor scheduling:**
  - The subscribe that starts the job processing without waiting for it is modelled as a
    later, separate call (`ProcessMergeJob`, `ProcessCompressJob`), not as concurrent
    execution.
  - `flatMap` may complete the downloads out of order. The model assumes list order.
  - Timeouts are not modelled.
- **I/O and collaborators:**
  - The network, the storage provider's file system, the HTTP wiring and the controllers'
    `ResponseEntity` envelopes are reduced to return values.
  - BCrypt, the JWT signer and parser, and SHA-256 are parameters.
  - `calculateChecksum` is a parameter.
  - `formatBytes`, `getFileInfo`, `listFiles` and the storage client's `deleteFile` and
    `getFileMetadata` are not modelled. None of them changes state.
- **Database behaviour:**
  - `save` is modelled as the insert the code intends (`Save` in each repository, and
    `UploadContent` for file metadata). Every entity's id is set before `save`, and no
    entity has a version field or its own `isNew`, so R2DBC would issue an UPDATE that
    matches no row and fails. `JobTable.SaveByUpdate` models that behaviour for jobs (see
    Findings). The users, refresh-token and file-metadata tables are affected the same way
    (User.java:58, RefreshToken.java:37, FileMetadata.java:62) but are modelled only with
    the intended insert.
  - Database faults are not modelled, except the failure of the completion UPDATE
    (`completeFault`). A failing `markFailed` is not modelled.
  - `findByEmail` and `findValidToken` return one matching row, chosen nondeterministically.
    With duplicate rows the library raises an incorrect-result-size error instead.
  - The `users` table does not enforce unique emails. `UniqueEmails` is a proved
    invariant of `Register`, not a constraint.
  - The race between `register`'s check and its insert is not modelled.
- **Strings and text:**
  - Lower-casing and hexadecimal parsing are modelled for ASCII only.
  - `sanitizeFileName` is applied per character of `seq<char>`. A Dafny `char` is a Unicode
    scalar value and Java's regex matches character classes by code point, so the two agree
    on every well-formed string. Lone surrogates cannot be represented here and are outside
    the model.
  - HTTP header names are compared case-sensitively, and only the first value of a header
    is seen.
- **Numbers:**
  - `int` overflow of the Java values is not modelled: unbounded integers are used.
  - `extractPdfInfo` is not modelled in full: the file size, the PDF version and the page
    dimensions are left out, and the library's own message for a document without pages
    is reduced to an `IndexOutOfBounds` error.
- **Duplicated edit-service code.** `PdfEditServiceImpl.java` closes its class at
  line 316 and then repeats fragments, from the end of `extractPdfInfo` to
  `toLocalDateTime`, three more times. The model follows the class body, lines 40-316.
- `EditService.RotatePage`: `getRotation` values outside 0..359 and angles that are not
  multiples of 90 are taken as integers, without PDFBox's normalisation.
- `JobRepository.PdfJobRepository.CountByUserId` has no contract of its own. Its count is
  `CountWhere`, which `JobTable.ListingLength` relates to the listings.
- **Gateway:**
  - The gateway's `SecurityConfig` is not part of this model. It rejects unauthenticated
    requests to non-public paths after `GatewayFilter.Filter` forwards them.
  - `RateLimiter.KeyBehindFilter` assumes that the key resolver runs on the request the
    filter forwards.

## Findings

| source | as written | input that shows it | evidently intended | confidence | as-written member | corrected member |
|---|---|---|---|---|---|---|
| backend/pdf-core-service/src/main/java/com/pdfutility/pdfcore/controller/PdfJobController.java:133-136 | `.then(Mono.just(ok))` emits the success reply even when the filters left the stream empty, so `defaultIfEmpty` never fires | a DELETE for a PENDING job, or for another user's job: nothing is deleted, yet the reply is "Job deleted successfully" | reply "Job cannot be deleted" (400) when no job was deleted | high (not executed) | JobController.DeleteJobAsWritten, JobController.DeleteRefusalNeverSent | JobController.DeleteJob |
| backend/pdf-core-service/src/main/java/com/pdfutility/pdfcore/service/impl/PdfMergeServiceImpl.java:48-52 | the job's id is set by `createNew` before `jobRepository.save`; `PdfJob` has no version field and no `isNew`, so R2DBC treats it as existing and issues an UPDATE | any merge (or compress) submission: the UUID is not in `pdf_jobs`, the UPDATE matches no row and the save fails with "Row with Id [...] does not exist" | insert the new row (e.g. implement `Persistable.isNew` or insert through the template) | high (not executed) | JobTable.SaveByUpdate, JobTable.NewJobSaveFails | JobRepository.PdfJobRepository.Save |
