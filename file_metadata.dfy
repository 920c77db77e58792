/** A row of the storage service's `files` table: who owns a stored file, under which
    names and path it is kept, and whether and when it expires. */
module FileMetadataModel {
  import opened Common

  datatype FileMetadata = FileMetadata(
    id: string,
    userId: string,
    originalName: string,
    storedName: string,
    contentType: string,
    sizeBytes: int,
    checksum: string,
    storageProvider: string,
    storagePath: string,
    isTemporary: bool,
    expiresAt: Option<Time>,
    createdAt: Time,
    updatedAt: Time)

  /** The characters a file name keeps: ASCII letters and digits, '.' and '-'. */
  predicate SafeChar(c: char)
  {
    ('a' <= c <= 'z') || ('A' <= c <= 'Z') || ('0' <= c <= '9') || c == '.' || c == '-'
  }

  /** `sanitizeFileName`: every other character (code point) becomes '_'. */
  function SanitizeFileName(name: string): (r: string)
    ensures |r| == |name|
    ensures forall i :: 0 <= i < |name| ==> r[i] == if SafeChar(name[i]) then name[i] else '_'
  {
    if name == [] then []
    else [if SafeChar(name[0]) then name[0] else '_'] + SanitizeFileName(name[1..])
  }

  /** Sanitising a sanitised name changes nothing. */
  lemma SanitizeIdempotent(name: string)
    ensures SanitizeFileName(SanitizeFileName(name)) == SanitizeFileName(name)
  {
  }

  /** A sanitised name holds only safe characters and '_', and a name of safe characters
      is kept as it is. */
  lemma SanitizedIsSafe(name: string)
    ensures forall i :: 0 <= i < |name| ==> SafeChar(SanitizeFileName(name)[i]) || SanitizeFileName(name)[i] == '_'
    ensures (forall i :: 0 <= i < |name| ==> SafeChar(name[i])) ==> SanitizeFileName(name) == name
  {
  }

  /** `FileMetadata.create`: the given fields, the stored name made of the new id and the
      sanitised original name, and both timestamps at `now` (`id` is the random UUID). */
  function Create(id: string, userId: string, originalName: string, contentType: string, sizeBytes: int,
                  checksum: string, storageProvider: string, storagePath: string, isTemporary: bool,
                  expiresAt: Option<Time>, now: Time): (m: FileMetadata)
    ensures m.id == id && m.userId == userId && m.originalName == originalName && m.contentType == contentType
    ensures m.sizeBytes == sizeBytes && m.checksum == checksum && m.storageProvider == storageProvider
    ensures m.storagePath == storagePath && m.isTemporary == isTemporary && m.expiresAt == expiresAt
    ensures m.storedName == id + "_" + SanitizeFileName(originalName)
    ensures m.createdAt == now && m.updatedAt == now
  {
    FileMetadata(id, userId, originalName, id + "_" + SanitizeFileName(originalName), contentType, sizeBytes,
                 checksum, storageProvider, storagePath, isTemporary, expiresAt, now, now)
  }

  /** The stored name starts with the id, so two files with different ids never share a
      stored name. */
  lemma StoredNamesOfDistinctIdsDiffer(a: FileMetadata, b: FileMetadata)
    requires |a.id| == |b.id| && a.id != b.id
    requires a.storedName == a.id + "_" + SanitizeFileName(a.originalName)
    requires b.storedName == b.id + "_" + SanitizeFileName(b.originalName)
    ensures a.storedName != b.storedName
  {
    assert a.storedName[..|a.id|] == a.id;
    assert b.storedName[..|b.id|] == b.id;
  }

  function DownloadUrl(m: FileMetadata): string
  {
    "/api/v1/files/" + m.id + "/download"
  }

  /** `isExpired`: a temporary file whose expiry instant is set and already past. */
  predicate IsExpired(m: FileMetadata, now: Time)
  {
    m.isTemporary && m.expiresAt.Some? && m.expiresAt.value < now
  }

  /** A file that is not temporary, or has no expiry, never expires; an expired file
      stays expired as time goes on. */
  lemma ExpiryIsMonotone(m: FileMetadata, now: Time, later: Time)
    ensures !m.isTemporary || m.expiresAt.None? ==> !IsExpired(m, now)
    ensures IsExpired(m, now) && now <= later ==> IsExpired(m, later)
  {
  }
}
