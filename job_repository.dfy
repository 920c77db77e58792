/** The reactive repository over the `pdf_jobs` table. The table is the `rows` map; every
    UPDATE and DELETE statement changes it in place as the matching `JobTable` function
    says, and every SELECT returns a listing in the sense of `JobTable.IsListing`. */
module JobRepository {
  import opened Common
  import opened JobModel
  import opened JobTable

  class PdfJobRepository {
    var rows: Table

    /** The primary-key invariant of the table. */
    predicate Valid()
      reads this
    {
      Keyed(rows)
    }

    constructor()
      ensures Valid() && rows == map[]
    {
      rows := map[];
    }

    /** `save`: inserts the job or replaces the row with its id. */
    method Save(job: PdfJob) returns (saved: PdfJob)
      requires Valid()
      modifies this
      ensures Valid()
      ensures rows == old(rows)[job.id := job] && saved == job
    {
      rows := rows[job.id := job];
      saved := job;
    }

    /** `findById`: the row stored under `id`, if any. */
    function FindById(id: JobId): (r: Option<PdfJob>)
      requires Valid()
      reads this
      ensures r.Some? <==> id in rows
      ensures r.Some? ==> r.value.id == id && rows[id] == r.value
    {
      if id in rows then Some(rows[id]) else None
    }

    /** `delete`: removes the row with the job's id; every other row stays. */
    method Delete(job: PdfJob)
      requires Valid()
      modifies this
      ensures Valid()
      ensures rows == old(rows) - {job.id}
    {
      rows := rows - {job.id};
    }

    /** `updateStatus`: a blind overwrite of the status by id. */
    method UpdateStatus(id: JobId, status: JobStatus, updatedAt: Time) returns (count: nat)
      requires Valid()
      modifies this
      ensures Valid()
      ensures rows == SetStatus(old(rows), id, status, updatedAt)
      ensures count == RowsMatched(old(rows), id)
    {
      count := RowsMatched(rows, id);
      rows := SetStatus(rows, id, status, updatedAt);
    }

    /** `updateProgress` */
    method UpdateProgress(id: JobId, progress: int, updatedAt: Time) returns (count: nat)
      requires Valid()
      modifies this
      ensures Valid()
      ensures rows == SetProgress(old(rows), id, progress, updatedAt)
      ensures count == RowsMatched(old(rows), id)
    {
      count := RowsMatched(rows, id);
      rows := SetProgress(rows, id, progress, updatedAt);
    }

    /** `markCompleted`: no condition on the current status. */
    method MarkCompleted(id: JobId, outputFileId: FileId, completedAt: Time) returns (count: nat)
      requires Valid()
      modifies this
      ensures Valid()
      ensures rows == CompleteRow(old(rows), id, outputFileId, completedAt)
      ensures count == RowsMatched(old(rows), id)
    {
      count := RowsMatched(rows, id);
      rows := CompleteRow(rows, id, outputFileId, completedAt);
    }

    /** `markFailed`: no condition on the current status. */
    method MarkFailed(id: JobId, errorMessage: Option<string>, failedAt: Time) returns (count: nat)
      requires Valid()
      modifies this
      ensures Valid()
      ensures rows == FailRow(old(rows), id, errorMessage, failedAt)
      ensures count == RowsMatched(old(rows), id)
    {
      count := RowsMatched(rows, id);
      rows := FailRow(rows, id, errorMessage, failedAt);
    }

    /** `deleteOldCompletedJobs`: removes the COMPLETED rows finished before the
        threshold and reports how many went. */
    method DeleteOldCompletedJobs(threshold: Time) returns (count: nat)
      requires Valid()
      modifies this
      ensures Valid()
      ensures rows == DeleteWhere(old(rows), CompletedBefore(threshold))
      ensures count == CountWhere(old(rows), CompletedBefore(threshold))
    {
      count := CountWhere(rows, CompletedBefore(threshold));
      rows := DeleteWhere(rows, CompletedBefore(threshold));
    }

    /** A scan of the table: every matching row, once, in order `o`. */
    method Select(f: Filter, o: Order) returns (s: seq<PdfJob>)
      requires Valid()
      ensures IsListing(rows, f, o, s)
    {
      s := [];
      var remaining := rows.Keys;
      while remaining != {}
        invariant remaining <= rows.Keys
        invariant forall j :: j in s ==> j.id in rows && rows[j.id] == j && Matches(f, j) && j.id !in remaining
        invariant forall id :: id in rows && id !in remaining && Matches(f, rows[id]) ==> rows[id] in s
        invariant DistinctIds(s) && Ordered(o, s)
        decreases remaining
      {
        var k :| k in remaining;
        var x := rows[k];
        if Matches(f, x) {
          var p := InsertionPoint(o, x, s);
          InsertKeepsOrder(o, x, s);
          InsertKeepsDistinct(x, s, p);
          InsertAtElements(x, s, p);
          s := InsertAt(x, s, p);
        }
        remaining := remaining - {k};
      }
    }

    /** `findByUserIdOrderByCreatedAtDesc`: one page (LIMIT pageSize OFFSET offset) of the
        user's jobs, newest first. */
    method FindByUserIdOrderByCreatedAtDesc(userId: string, offset: nat, pageSize: nat)
      returns (page: seq<PdfJob>)
      requires Valid()
      ensures exists all :: IsListing(rows, OwnedBy(userId), NewestFirst, all) && page == Window(all, offset, pageSize)
      ensures |page| <= pageSize
      ensures forall j :: j in page ==> j.userId == userId && j.id in rows && rows[j.id] == j
      ensures Ordered(NewestFirst, page)
    {
      var all := Select(OwnedBy(userId), NewestFirst);
      page := Window(all, offset, pageSize);
      WindowOfListing(rows, OwnedBy(userId), NewestFirst, all, offset, pageSize);
    }

    /** `findByUserIdAndStatus`: all the user's jobs in that status, newest first. */
    method FindByUserIdAndStatus(userId: string, status: JobStatus) returns (jobs: seq<PdfJob>)
      requires Valid()
      ensures IsListing(rows, OwnedWithStatus(userId, status), NewestFirst, jobs)
    {
      jobs := Select(OwnedWithStatus(userId, status), NewestFirst);
    }

    /** `findByUserIdAndJobType`: all the user's jobs of that type, newest first. */
    method FindByUserIdAndJobType(userId: string, jobType: JobType) returns (jobs: seq<PdfJob>)
      requires Valid()
      ensures IsListing(rows, OwnedWithType(userId, jobType), NewestFirst, jobs)
    {
      jobs := Select(OwnedWithType(userId, jobType), NewestFirst);
    }

    /** `countByUserId` */
    function CountByUserId(userId: string): (n: nat)
      reads this
    {
      CountWhere(rows, OwnedBy(userId))
    }

    /** `findPendingJobs`: at most `limit` PENDING jobs, oldest first. */
    method FindPendingJobs(limit: nat) returns (jobs: seq<PdfJob>)
      requires Valid()
      ensures exists all :: IsListing(rows, Pending, OldestFirst, all) && jobs == Window(all, 0, limit)
      ensures |jobs| <= limit
      ensures forall j :: j in jobs ==> j.status == PENDING && j.id in rows && rows[j.id] == j
      ensures Ordered(OldestFirst, jobs)
    {
      var all := Select(Pending, OldestFirst);
      jobs := Window(all, 0, limit);
      WindowOfListing(rows, Pending, OldestFirst, all, 0, limit);
    }

    /** `findStaleProcessingJobs`: exactly the PROCESSING jobs last updated before the
        threshold, in no particular order. */
    method FindStaleProcessingJobs(threshold: Time) returns (jobs: seq<PdfJob>)
      requires Valid()
      ensures IsListing(rows, StaleProcessing(threshold), AnyOrder, jobs)
    {
      jobs := Select(StaleProcessing(threshold), AnyOrder);
    }
  }
}
