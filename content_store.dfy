/** The storage service as the PDF core service's client sees it: files by id, downloaded
    whole and uploaded under an id the service assigns. */
module StorageClient {
  import opened Common
  import opened JobModel
  import opened Documents

  datatype StoredFile = StoredFile(fileName: string, contentType: string, content: Blob)

  function DownloadError(fileId: FileId): Error
  {
    Error(Storage, Some("Failed to download file: " + fileId))
  }

  class ContentStore {
    var files: map<FileId, StoredFile>

    constructor()
      ensures files == map[]
    {
      files := map[];
    }

    /** `downloadFile`: the file's content, or a storage error naming the id. */
    function Download(fileId: FileId): (r: Result<Blob>)
      reads this
      ensures r.Ok? <==> fileId in files
      ensures r.Ok? ==> r.value == files[fileId].content
      ensures r.Err? ==> r.error == DownloadError(fileId)
    {
      if fileId in files then Ok(files[fileId].content) else Err(DownloadError(fileId))
    }

    /** `uploadFile`: stores the content under the id the storage service assigns
        (`None` when the service call fails, which is reported with the file name). */
    method Upload(content: Blob, fileName: string, contentType: string, assignedId: Option<FileId>)
      returns (r: Result<FileId>)
      modifies this
      ensures assignedId.None? ==>
        r == Fail(Storage, "Failed to upload file: " + fileName) && files == old(files)
      ensures assignedId.Some? ==>
        r == Ok(assignedId.value) && files == old(files)[assignedId.value := StoredFile(fileName, contentType, content)]
    {
      if assignedId.None? {
        return Fail(Storage, "Failed to upload file: " + fileName);
      }
      files := files[assignedId.value := StoredFile(fileName, contentType, content)];
      r := Ok(assignedId.value);
    }
  }

  /** `ids[i]` is the first id of the list with no file. */
  predicate FirstMissing(files: map<FileId, StoredFile>, ids: seq<FileId>, i: int)
  {
    0 <= i < |ids| && ids[i] !in files && forall k :: 0 <= k < i ==> ids[k] in files
  }

  /** Downloading a list of files, in list order: every content, or the error of the
      first id that is missing. */
  function DownloadAll(files: map<FileId, StoredFile>, ids: seq<FileId>): (r: Result<seq<Blob>>)
    ensures r.Ok? <==> forall i :: 0 <= i < |ids| ==> ids[i] in files
    ensures r.Ok? ==> |r.value| == |ids| && forall i :: 0 <= i < |ids| ==> r.value[i] == files[ids[i]].content
    ensures r.Err? ==> exists i :: FirstMissing(files, ids, i) && r.error == DownloadError(ids[i])
  {
    if ids == [] then Ok([])
    else if ids[0] !in files then Err(DownloadError(ids[0]))
    else
      var rest := DownloadAll(files, ids[1..]);
      assert forall i :: 1 <= i < |ids| ==> ids[i] == ids[1..][i - 1];
      match rest
      case Ok(blobs) => Ok([files[ids[0]].content] + blobs)
      case Err(e) =>
        var j :| FirstMissing(files, ids[1..], j) && e == DownloadError(ids[1..][j]);
        assert FirstMissing(files, ids, j + 1);
        Err(e)
  }
}
