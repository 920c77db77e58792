/** The storage service: uploads checked by extension and stored under a generated path,
    downloads refused once a temporary file has expired, owner-only deletion, the sweep of
    expired temporary files and the per-user usage report. The `files` table and the
    storage provider's blobs (by path) are the two pieces of state. */
module FileStorage {
  import opened Common
  import opened FileMetadataModel
  import JobController

  const DefaultAllowedExtensions: seq<string> := ["pdf", "png", "jpg", "jpeg"]
  /** 24 hours, in milliseconds. */
  const DefaultTempFileExpiration: int := 24 * 60 * 60 * 1000
  /** The fixed quota the usage report measures against: 10 GiB. */
  const TotalBytes: int := 10 * 1024 * 1024 * 1024

  /** `lastIndexOf`: the last position holding `c`, or -1. */
  function LastIndexOf(s: string, c: char): (i: int)
    ensures -1 <= i < |s|
    ensures i >= 0 ==> s[i] == c
    ensures forall j :: i < j < |s| ==> s[j] != c
  {
    if s == [] then -1
    else if s[|s| - 1] == c then |s| - 1
    else LastIndexOf(s[..|s| - 1], c)
  }

  /** `getExtension`: what follows the last '.', or "" when there is no dot or the only
      candidate is a leading one. */
  function GetExtension(fileName: string): (e: string)
    ensures forall i :: 0 <= i < |e| ==> e[i] != '.'
  {
    var lastDot := LastIndexOf(fileName, '.');
    if lastDot > 0 then fileName[lastDot + 1..] else ""
  }

  /** A name with a non-empty stem has the extension it was given; a leading dot does not
      start an extension. */
  lemma ExtensionOf(stem: string, ext: string)
    requires stem != [] && forall i :: 0 <= i < |ext| ==> ext[i] != '.'
    ensures GetExtension(stem + "." + ext) == ext
    ensures GetExtension("." + ext) == ""
  {
    var name := stem + "." + ext;
    var d := LastIndexOf(name, '.');
    assert name[|stem|] == '.';
    assert forall j :: |stem| < j < |name| ==> name[j] == ext[j - |stem| - 1];
    assert d == |stem|;
    assert name[d + 1..] == ext;
    var dotted := "." + ext;
    var d' := LastIndexOf(dotted, '.');
    assert dotted[0] == '.';
    assert forall j :: 0 < j < |dotted| ==> dotted[j] == ext[j - 1];
    assert d' == 0;
  }

  /** The in-order concatenation of the parts of an upload. */
  function Flatten(parts: seq<Bytes>): (content: Bytes)
  {
    if parts == [] then [] else Flatten(parts[..|parts| - 1]) + parts[|parts| - 1]
  }

  /** Concatenating two runs of parts is concatenating their contents. */
  lemma {:induction false} FlattenAppend(a: seq<Bytes>, b: seq<Bytes>)
    ensures Flatten(a + b) == Flatten(a) + Flatten(b)
    decreases |b|
  {
    if b == [] {
      assert a + b == a;
    } else {
      var b' := b[..|b| - 1];
      assert (a + b)[..|a + b| - 1] == a + b';
      FlattenAppend(a, b');
    }
  }

  /** The upload's `reduce`: each part appended to a fresh buffer holding the parts so
      far. */
  method Concatenate(parts: seq<Bytes>) returns (content: Bytes)
    ensures content == Flatten(parts)
  {
    content := [];
    for i := 0 to |parts|
      invariant content == Flatten(parts[..i])
    {
      assert parts[..i + 1][..i] == parts[..i];
      content := content + parts[i];
    }
    assert parts[..|parts|] == parts;
  }

  /** `generateStoragePath`: owner, upload date, upload instant and sanitised name. */
  function StoragePath(userId: string, date: string, millis: int, fileName: string): string
  {
    userId + "/" + date + "/" + IntToString(millis) + "_" + SanitizeFileName(fileName)
  }

  /** Two different names the sanitiser maps to the same text, uploaded by one user in
      the same millisecond, are stored under one path: the second upload overwrites the
      first one's blob. */
  lemma SanitizedNamesCanCollide(userId: string, date: string, millis: int)
    ensures StoragePath(userId, date, millis, "a b.pdf") == StoragePath(userId, date, millis, "a_b.pdf")
  {
    assert SanitizeFileName("a b.pdf") == "a_b.pdf";
    assert SanitizeFileName("a_b.pdf") == "a_b.pdf";
  }

  /** The link the job API gives for an output file is the storage service's download
      link for it. */
  lemma JobLinkIsStorageLink(m: FileMetadata)
    ensures JobController.FileDownloadUrl(m.id) == DownloadUrl(m)
  {
  }

  datatype FileUploadResponse = FileUploadResponse(
    fileId: string,
    fileName: string,
    contentType: string,
    sizeBytes: int,
    downloadUrl: string,
    createdAt: Time,
    expiresAt: Option<Time>)

  datatype StorageUsageResponse = StorageUsageResponse(totalBytes: int, usedBytes: int, availableBytes: int, fileCount: int)

  /** What a row adds to its owner's usage. */
  function UsedBy(m: FileMetadata, userId: string): int
  {
    if m.userId == userId then m.sizeBytes else 0
  }

  /** `SUM(size_bytes)` over the rows `ids` of `userId` (0 for none, as `COALESCE`). */
  ghost function SumUsed(files: map<string, FileMetadata>, userId: string, ids: set<string>): int
    requires ids <= files.Keys
    decreases ids
  {
    if ids == {} then 0
    else
      var k :| k in ids;
      UsedBy(files[k], userId) + SumUsed(files, userId, ids - {k})
  }

  /** The sum does not depend on the order rows are visited in. */
  lemma {:induction false} SumUsedRemove(files: map<string, FileMetadata>, userId: string, ids: set<string>, k: string)
    requires ids <= files.Keys && k in ids
    ensures SumUsed(files, userId, ids) == UsedBy(files[k], userId) + SumUsed(files, userId, ids - {k})
    decreases ids
  {
    var j :| j in ids && SumUsed(files, userId, ids) == UsedBy(files[j], userId) + SumUsed(files, userId, ids - {j});
    if j != k {
      SumUsedRemove(files, userId, ids - {j}, k);
      SumUsedRemove(files, userId, ids - {k}, j);
      assert ids - {j} - {k} == ids - {k} - {j};
    }
  }

  function OwnedIds(files: map<string, FileMetadata>, userId: string): set<string>
  {
    set id | id in files && files[id].userId == userId
  }

  lemma OwnedCountStep(files: map<string, FileMetadata>, userId: string, visited: set<string>, id: string)
    requires id in files && id !in visited
    ensures |OwnedIds(files, userId) * (visited + {id})|
            == |OwnedIds(files, userId) * visited| + (if files[id].userId == userId then 1 else 0)
  {
    var owned := OwnedIds(files, userId);
    if files[id].userId == userId {
      assert owned * (visited + {id}) == owned * visited + {id};
    } else {
      assert owned * (visited + {id}) == owned * visited;
    }
  }

  lemma OwnedWithinKeys(files: map<string, FileMetadata>, userId: string)
    ensures OwnedIds(files, userId) * files.Keys == OwnedIds(files, userId)
  {
  }

  /** Visiting one more row adds its size to the sum and, when it is the user's, one to
      the count. */
  lemma VisitOne(files: map<string, FileMetadata>, userId: string, visited: set<string>, id: string)
    requires visited <= files.Keys && id in files && id !in visited
    ensures SumUsed(files, userId, visited + {id}) == SumUsed(files, userId, visited) + UsedBy(files[id], userId)
    ensures |OwnedIds(files, userId) * (visited + {id})|
            == |OwnedIds(files, userId) * visited| + (if files[id].userId == userId then 1 else 0)
  {
    SumUsedRemove(files, userId, visited + {id}, id);
    assert visited + {id} - {id} == visited;
    OwnedCountStep(files, userId, visited, id);
  }

  function ExpiredIds(files: map<string, FileMetadata>, now: Time): set<string>
  {
    set id | id in files && IsExpired(files[id], now)
  }

  function PathsOf(files: map<string, FileMetadata>, ids: set<string>): set<string>
    requires ids <= files.Keys
  {
    set id | id in ids :: files[id].storagePath
  }

  lemma PathsOfAdd(files: map<string, FileMetadata>, ids: set<string>, id: string)
    requires ids <= files.Keys && id in files
    ensures PathsOf(files, ids + {id}) == PathsOf(files, ids) + {files[id].storagePath}
  {
  }

  class FileStorageService {
    /** The `files` table, by id. */
    var files: map<string, FileMetadata>
    /** The storage provider's content, by storage path. */
    var blobs: map<string, Bytes>
    const allowedExtensions: seq<string>
    const tempFileExpiration: int
    const providerName: string

    /** Every row is stored under its own id. */
    predicate Valid()
      reads this
    {
      forall id :: id in files ==> files[id].id == id
    }

    constructor(allowedExtensions: seq<string>, tempFileExpiration: int, providerName: string)
      ensures Valid()
      ensures files == map[] && blobs == map[]
      ensures this.allowedExtensions == allowedExtensions && this.tempFileExpiration == tempFileExpiration
      ensures this.providerName == providerName
    {
      files := map[];
      blobs := map[];
      this.allowedExtensions := allowedExtensions;
      this.tempFileExpiration := tempFileExpiration;
      this.providerName := providerName;
    }

    /** `isAllowedExtension`: the lower-cased extension is one of the configured ones. */
    predicate IsAllowedExtension(fileName: string)
    {
      LowerCase(GetExtension(fileName)) in allowedExtensions
    }

    /** `uploadContent`: the blob stored under a fresh path and a new row describing it
        (`id` is the random UUID, `checksumOf` the SHA-256 digest, `date` and `millis`
        the clock at the upload). */
    method UploadContent(content: Bytes, fileName: string, contentType: string, userId: string, isTemporary: bool,
                         now: Time, date: string, millis: int, id: string, checksumOf: Bytes -> string)
      returns (r: FileUploadResponse)
      requires Valid()
      modifies this
      ensures Valid()
      ensures var path := StoragePath(userId, date, millis, fileName);
        var expiresAt := if isTemporary then Some(now + tempFileExpiration) else None;
        && blobs == old(blobs)[path := content]
        && files == old(files)[id := Create(id, userId, fileName, contentType, |content|, checksumOf(content),
                                            providerName, path, isTemporary, expiresAt, now)]
        && r == FileUploadResponse(id, fileName, contentType, |content|, DownloadUrl(files[id]), now, expiresAt)
      ensures tempFileExpiration >= 0 ==> DownloadFile(id, now) == Ok(content)
    {
      var sizeBytes := |content|;
      var expiresAt := if isTemporary then Some(now + tempFileExpiration) else None;
      var path := StoragePath(userId, date, millis, fileName);
      blobs := blobs[path := content];
      var metadata := Create(id, userId, fileName, contentType, sizeBytes, checksumOf(content), providerName, path,
                             isTemporary, expiresAt, now);
      files := files[id := metadata];
      r := FileUploadResponse(metadata.id, metadata.originalName, metadata.contentType, metadata.sizeBytes,
                              DownloadUrl(metadata), metadata.createdAt, metadata.expiresAt);
    }

    /** `uploadFile`: a name with an extension that is not allowed is refused before any
        part is read; otherwise the parts are joined in order and uploaded. A missing
        content type is stored as "application/octet-stream". */
    method UploadFile(parts: seq<Bytes>, originalName: string, contentType: Option<string>, userId: string,
                      isTemporary: bool, now: Time, date: string, millis: int, id: string, checksumOf: Bytes -> string)
      returns (r: Result<FileUploadResponse>)
      requires Valid()
      modifies this
      ensures Valid()
      ensures !IsAllowedExtension(originalName) ==>
        && r == Fail(Storage, "File type not allowed: " + GetExtension(originalName))
        && files == old(files) && blobs == old(blobs)
      ensures IsAllowedExtension(originalName) ==>
        var path := StoragePath(userId, date, millis, originalName);
        var stored := if contentType.Some? then contentType.value else "application/octet-stream";
        && r.Ok? && r.value.fileId == id && r.value.sizeBytes == |Flatten(parts)|
        && blobs == old(blobs)[path := Flatten(parts)]
        && files == old(files)[id := Create(id, userId, originalName, stored, |Flatten(parts)|, checksumOf(Flatten(parts)),
                                            providerName, path, isTemporary,
                                            if isTemporary then Some(now + tempFileExpiration) else None, now)]
    {
      var stored := if contentType.Some? then contentType.value else "application/octet-stream";
      if !IsAllowedExtension(originalName) {
        return Fail(Storage, "File type not allowed: " + GetExtension(originalName));
      }
      var content := Concatenate(parts);
      var response := UploadContent(content, originalName, stored, userId, isTemporary, now, date, millis, id, checksumOf);
      r := Ok(response);
    }

    /** `downloadFile`: an unknown id is not found, an expired file is refused, and a
        row whose blob is gone fails in the provider. */
    function DownloadFile(fileId: string, now: Time): (r: Result<Bytes>)
      reads this
      ensures fileId !in files ==> r == Fail(ResourceNotFound, "File not found with id: " + fileId)
      ensures fileId in files && IsExpired(files[fileId], now) ==> r == Fail(Storage, "File has expired")
      ensures fileId in files && !IsExpired(files[fileId], now) && files[fileId].storagePath !in blobs ==>
        r == Fail(Storage, "File not found: " + files[fileId].storagePath)
      ensures r.Ok? <==> fileId in files && !IsExpired(files[fileId], now) && files[fileId].storagePath in blobs
      ensures r.Ok? ==> r.value == blobs[files[fileId].storagePath]
    {
      if fileId !in files then Fail(ResourceNotFound, "File not found with id: " + fileId)
      else
        var metadata := files[fileId];
        if IsExpired(metadata, now) then Fail(Storage, "File has expired")
        else if metadata.storagePath !in blobs then Fail(Storage, "File not found: " + metadata.storagePath)
        else Ok(blobs[metadata.storagePath])
    }

    /** `deleteFile`: only the owner may delete; the blob goes first, then the row. */
    method DeleteFile(fileId: string, userId: string) returns (r: Result<()>)
      requires Valid()
      modifies this
      ensures Valid()
      ensures fileId !in old(files) ==>
        r == Fail(ResourceNotFound, "File not found with id: " + fileId) && files == old(files) && blobs == old(blobs)
      ensures fileId in old(files) && old(files)[fileId].userId != userId ==>
        r == Fail(Storage, "Access denied") && files == old(files) && blobs == old(blobs)
      ensures fileId in old(files) && old(files)[fileId].userId == userId ==>
        && r == Ok(())
        && blobs == old(blobs) - {old(files)[fileId].storagePath}
        && files == old(files) - {fileId}
    {
      if fileId !in files {
        return Fail(ResourceNotFound, "File not found with id: " + fileId);
      }
      var metadata := files[fileId];
      if metadata.userId != userId {
        return Fail(Storage, "Access denied");
      }
      blobs := blobs - {metadata.storagePath};
      files := files - {fileId};
      r := Ok(());
    }

    /** `cleanupExpiredFiles`: every expired temporary file loses its blob and its row,
        each id reported once; nothing else is removed but blobs that share a path with an
        expired file. */
    method CleanupExpiredFiles(now: Time) returns (cleaned: seq<string>)
      requires Valid()
      modifies this
      ensures Valid()
      ensures forall i, j :: 0 <= i < j < |cleaned| ==> cleaned[i] != cleaned[j]
      ensures forall id :: id in cleaned <==> id in ExpiredIds(old(files), now)
      ensures files.Keys == old(files).Keys - ExpiredIds(old(files), now)
      ensures forall id :: id in files ==> files[id] == old(files)[id]
      ensures blobs.Keys == old(blobs).Keys - PathsOf(old(files), ExpiredIds(old(files), now))
      ensures forall p :: p in blobs ==> blobs[p] == old(blobs)[p]
    {
      var expired := ExpiredIds(files, now);
      var remaining := expired;
      ghost var done: set<string> := {};
      cleaned := [];
      while remaining != {}
        invariant expired == ExpiredIds(old(files), now)
        invariant done !! remaining && done + remaining == expired
        invariant files.Keys == old(files).Keys - done
        invariant forall id :: id in files ==> files[id] == old(files)[id]
        invariant blobs.Keys == old(blobs).Keys - PathsOf(old(files), done)
        invariant forall p :: p in blobs ==> blobs[p] == old(blobs)[p]
        invariant forall i, j :: 0 <= i < j < |cleaned| ==> cleaned[i] != cleaned[j]
        invariant forall id :: id in cleaned <==> id in done
        decreases remaining
      {
        var id :| id in remaining;
        var path := files[id].storagePath;
        PathsOfAdd(old(files), done, id);
        blobs := blobs - {path};
        files := files - {id};
        cleaned := cleaned + [id];
        done := done + {id};
        remaining := remaining - {id};
      }
    }

    /** `getStorageUsage`: the owner's total size and file count against the fixed
        quota; the space left is not capped at zero. */
    method GetStorageUsage(userId: string) returns (r: StorageUsageResponse)
      ensures r.totalBytes == TotalBytes
      ensures r.usedBytes == SumUsed(files, userId, files.Keys)
      ensures r.availableBytes == TotalBytes - r.usedBytes
      ensures r.fileCount == |OwnedIds(files, userId)|
    {
      var rows := files;
      var remaining := rows.Keys;
      var used := 0;
      var count := 0;
      ghost var visited: set<string> := {};
      while remaining != {}
        invariant visited <= rows.Keys && remaining == rows.Keys - visited
        invariant used == SumUsed(rows, userId, visited)
        invariant count == |OwnedIds(rows, userId) * visited|
        decreases remaining
      {
        var id :| id in remaining;
        VisitOne(rows, userId, visited, id);
        used := used + UsedBy(rows[id], userId);
        if rows[id].userId == userId {
          count := count + 1;
        }
        visited := visited + {id};
        remaining := remaining - {id};
      }
      assert visited == rows.Keys;
      OwnedWithinKeys(rows, userId);
      r := StorageUsageResponse(TotalBytes, used, TotalBytes - used, count);
    }
  }
}
