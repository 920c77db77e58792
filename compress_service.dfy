/** The compression service: submitting a compression job, its execution (PROCESSING,
    download the one input, compress, upload, COMPLETED or FAILED), what compression does
    to a document, and the result report. */
module CompressService {
  import opened Common
  import opened JobModel
  import opened JobTable
  import opened JobRepository
  import opened Documents
  import opened StorageClient

  datatype CompressionLevel = LOW | MEDIUM | HIGH

  function LevelName(level: CompressionLevel): string
  {
    match level
    case LOW => "LOW"
    case MEDIUM => "MEDIUM"
    case HIGH => "HIGH"
  }

  /** The job's parameters, as JSON text. */
  function CompressParameters(level: CompressionLevel, removeMetadata: bool, optimizeImages: bool): string
  {
    "{\"compressionLevel\":\"" + LevelName(level) + "\",\"removeMetadata\":" + BoolText(removeMetadata)
      + ",\"optimizeImages\":" + BoolText(optimizeImages) + "}"
  }

  function CompressedFileName(jobId: JobId): string
  {
    "compressed_" + jobId + ".pdf"
  }

  /** `compressPdfAsync`: stores one new pending compression job for the one file and
      returns its id. The execution it starts is `ProcessCompressJob`. */
  method CompressPdfAsync(repo: PdfJobRepository, fileId: FileId, level: CompressionLevel, removeMetadata: bool,
                          optimizeImages: bool, userId: string, jobId: JobId, now: Time) returns (id: JobId)
    requires repo.Valid()
    modifies repo
    ensures repo.Valid()
    ensures id == jobId
    ensures repo.rows == old(repo.rows)[jobId := CreateNew(jobId, userId, COMPRESS, [fileId],
                                                           CompressParameters(level, removeMetadata, optimizeImages), now)]
  {
    var job := CreateNew(jobId, userId, COMPRESS, [fileId], CompressParameters(level, removeMetadata, optimizeImages), now);
    var saved := repo.Save(job);
    id := saved.id;
  }

  /** The JPEG quality `optimizeImagesInDocument` picks, in percent. The value is never
      applied: the loop over the page images only logs them. */
  function ImageQuality(level: CompressionLevel): (q: int)
    ensures 0 < q < 100
  {
    match level
    case LOW => 90
    case MEDIUM => 70
    case HIGH => 50
  }

  /** A higher level means a lower quality. */
  lemma QualityFallsWithLevel()
    ensures ImageQuality(LOW) > ImageQuality(MEDIUM) > ImageQuality(HIGH)
  {
  }

  /** The six text entries of the information dictionary cleared; the dates stay. */
  function StripMetadata(info: DocInfo): (r: DocInfo)
    ensures r.author == None && r.title == None && r.subject == None
    ensures r.keywords == None && r.creator == None && r.producer == None
    ensures r.creationDate == info.creationDate && r.modificationDate == info.modificationDate
  {
    info.(author := None, title := None, subject := None, keywords := None, creator := None, producer := None)
  }

  /** Stripping is idempotent. */
  lemma StripMetadataIdempotent(info: DocInfo)
    ensures StripMetadata(StripMetadata(info)) == StripMetadata(info)
  {
  }

  /** `performCompression`: the document saved again, its metadata stripped on request;
      pages are untouched, whatever the level and the image flag. An encrypted input is
      refused by the writer, and that error is not wrapped. */
  function PerformCompression(content: Blob, level: CompressionLevel, removeMetadata: bool, optimizeImages: bool)
    : (r: Result<Blob>)
    ensures Load(content, "").Err? ==>
      r == Err(Error(PdfProcessing, Some("Failed to compress PDF: " + Text(Load(content, "").error.message))))
    ensures Load(content, "").Ok? && content.doc.protection.Some? ==> r == Err(EncryptedSaveError)
    ensures r.Ok? <==> Load(content, "").Ok? && content.doc.protection.None?
    ensures r.Ok? ==> r.value.Pdf? && r.value.doc.pages == content.doc.pages && r.value.doc.protection == None
    ensures r.Ok? && removeMetadata ==> r.value.doc.info == StripMetadata(content.doc.info)
    ensures r.Ok? && !removeMetadata ==> r.value.doc.info == content.doc.info
  {
    match Load(content, "")
    case Err(e) => Err(Error(PdfProcessing, Some("Failed to compress PDF: " + Text(e.message))))
    case Ok(d) =>
      var info := if removeMetadata then StripMetadata(d.info) else d.info;
      SaveLoaded(d.(info := info))
  }

  /** The compressed output before the upload: the first input downloaded and
      compressed. */
  function CompressedOutput(files: map<FileId, StoredFile>, fileId: FileId, level: CompressionLevel,
                            removeMetadata: bool, optimizeImages: bool): Result<Blob>
  {
    if fileId !in files then Err(DownloadError(fileId))
    else PerformCompression(files[fileId].content, level, removeMetadata, optimizeImages)
  }

  /** The outcome of the chain before its error handler, for a job with at least one
      input. */
  function CompressChain(files: map<FileId, StoredFile>, job: PdfJob, level: CompressionLevel, removeMetadata: bool,
                         optimizeImages: bool, uploadedId: Option<FileId>, completeFault: Option<Error>): Result<FileId>
    requires job.inputFileIds != []
  {
    match CompressedOutput(files, job.inputFileIds[0], level, removeMetadata, optimizeImages)
    case Err(e) => Err(e)
    case Ok(_) =>
      match uploadedId
      case None => Fail(Storage, "Failed to upload file: " + CompressedFileName(job.id))
      case Some(out) =>
        match completeFault
        case Some(e) => Err(e)
        case None => Ok(out)
  }

  /** An input that opens without a password but is encrypted (an owner password and an
      empty user password) fails the chain with the writer's refusal, so
      `processCompressJob` marks the job FAILED and uploads nothing. */
  lemma EncryptedInputFailsJob(files: map<FileId, StoredFile>, job: PdfJob, level: CompressionLevel,
                               removeMetadata: bool, optimizeImages: bool, uploadedId: Option<FileId>,
                               completeFault: Option<Error>)
    requires job.inputFileIds != [] && job.inputFileIds[0] in files
    requires Load(files[job.inputFileIds[0]].content, "").Ok?
    requires files[job.inputFileIds[0]].content.doc.protection.Some?
    ensures CompressedOutput(files, job.inputFileIds[0], level, removeMetadata, optimizeImages) == Err(EncryptedSaveError)
    ensures CompressChain(files, job, level, removeMetadata, optimizeImages, uploadedId, completeFault) == Err(EncryptedSaveError)
  {
  }

  /** The part of the chain that touches the store: download the first input, compress
      it and upload the output; the outcome is the chain's. */
  method CompressAndUpload(store: ContentStore, job: PdfJob, level: CompressionLevel, removeMetadata: bool,
                           optimizeImages: bool, uploadedId: Option<FileId>, completeFault: Option<Error>)
    returns (outcome: Result<FileId>)
    requires job.inputFileIds != []
    modifies store
    ensures outcome == CompressChain(old(store.files), job, level, removeMetadata, optimizeImages, uploadedId, completeFault)
    ensures var output := CompressedOutput(old(store.files), job.inputFileIds[0], level, removeMetadata, optimizeImages);
      if output.Ok? && uploadedId.Some? then
        store.files == old(store.files)[uploadedId.value := StoredFile(CompressedFileName(job.id), "application/pdf", output.value)]
      else store.files == old(store.files)
  {
    var downloaded := store.Download(job.inputFileIds[0]);
    if downloaded.Err? {
      return Err(downloaded.error);
    }
    var compressed := PerformCompression(downloaded.value, level, removeMetadata, optimizeImages);
    if compressed.Err? {
      return Err(compressed.error);
    }
    var uploaded := store.Upload(compressed.value, CompressedFileName(job.id), "application/pdf", uploadedId);
    if uploaded.Err? {
      outcome := Err(uploaded.error);
    } else if completeFault.Some? {
      outcome := Err(completeFault.value);
    } else {
      outcome := Ok(uploaded.value);
    }
  }

  /** `processCompressJob`: reads the first input id before anything else (an empty list
      throws there and nothing is written), then PROCESSING without looking at the
      current status, and COMPLETED with the uploaded output or FAILED with the error's
      message. Inputs after the first are ignored. */
  method ProcessCompressJob(repo: PdfJobRepository, store: ContentStore, job: PdfJob, level: CompressionLevel,
                            removeMetadata: bool, optimizeImages: bool, startedAt: Time, finishedAt: Time,
                            uploadedId: Option<FileId>, completeFault: Option<Error>)
    returns (r: Result<()>)
    requires repo.Valid()
    modifies repo, store
    ensures repo.Valid()
    ensures job.inputFileIds == [] ==>
      r == Fail(IndexOutOfBounds, "Index 0 out of bounds for length 0")
      && repo.rows == old(repo.rows) && store.files == old(store.files)
    ensures job.inputFileIds != [] ==>
      var started := SetStatus(old(repo.rows), job.id, PROCESSING, startedAt);
      match CompressChain(old(store.files), job, level, removeMetadata, optimizeImages, uploadedId, completeFault)
      case Ok(out) => r.Ok? && repo.rows == CompleteRow(started, job.id, out, finishedAt)
      case Err(e) => r == Err(e) && repo.rows == FailRow(started, job.id, e.message, finishedAt)
    ensures job.inputFileIds != [] ==>
      var output := CompressedOutput(old(store.files), job.inputFileIds[0], level, removeMetadata, optimizeImages);
      if output.Ok? && uploadedId.Some? then
        store.files == old(store.files)[uploadedId.value := StoredFile(CompressedFileName(job.id), "application/pdf", output.value)]
      else store.files == old(store.files)
  {
    if job.inputFileIds == [] {
      return Fail(IndexOutOfBounds, "Index 0 out of bounds for length 0");
    }
    var _ := repo.UpdateStatus(job.id, PROCESSING, startedAt);
    var outcome := CompressAndUpload(store, job, level, removeMetadata, optimizeImages, uploadedId, completeFault);
    if outcome.Err? {
      var _ := repo.MarkFailed(job.id, outcome.error.message, finishedAt);
      r := Err(outcome.error);
    } else {
      var _ := repo.MarkCompleted(job.id, outcome.value, finishedAt);
      r := Ok(());
    }
  }

  /** A job submitted by `compressPdfAsync` always has its one input, so `processCompressJob`
      never takes its empty-list path for it: the chain runs on `fileId` and succeeds exactly
      when that file downloads and compresses, the upload yields an id and the completion
      update succeeds. */
  lemma SubmittedJobHasInput(jobId: JobId, userId: string, fileId: FileId, level: CompressionLevel,
                             removeMetadata: bool, optimizeImages: bool, now: Time,
                             files: map<FileId, StoredFile>, uploadedId: Option<FileId>, completeFault: Option<Error>)
    ensures var job := CreateNew(jobId, userId, COMPRESS, [fileId],
                                 CompressParameters(level, removeMetadata, optimizeImages), now);
      job.inputFileIds != []
      && job.inputFileIds[0] == fileId
      && (CompressChain(files, job, level, removeMetadata, optimizeImages, uploadedId, completeFault).Ok?
          <==> CompressedOutput(files, fileId, level, removeMetadata, optimizeImages).Ok?
               && uploadedId.Some? && completeFault.None?)
  {
  }

  datatype CompressionResult = CompressionResult(
    jobId: JobId,
    outputFileId: Option<FileId>,
    originalSize: int,
    compressedSize: int,
    compressionRatio: real)

  /** `getCompressionResult`: a value only for a completed job, with the sizes and ratio
      left at zero (they are never recorded). */
  function GetCompressionResult(repo: PdfJobRepository, jobId: JobId): (r: Option<CompressionResult>)
    requires repo.Valid()
    reads repo
    ensures r.Some? <==> jobId in repo.rows && repo.rows[jobId].status == COMPLETED
    ensures r.Some? ==> r.value.jobId == jobId && r.value.outputFileId == repo.rows[jobId].outputFileId
    ensures r.Some? ==> r.value.originalSize == 0 && r.value.compressedSize == 0 && r.value.compressionRatio == 0.0
  {
    match repo.FindById(jobId)
    case None => None
    case Some(job) =>
      if job.status == COMPLETED then Some(CompressionResult(job.id, job.outputFileId, 0, 0, 0.0)) else None
  }
}
