/** The `pdf_jobs` table as a map from job id to row, with one function per SQL statement
    of the job repository and the meaning of its SELECT queries (which rows, in which
    order, which page of them). */
module JobTable {
  import opened Common
  import opened JobModel

  type Table = map<JobId, PdfJob>

  /** The primary key: every row is stored under its own id. */
  predicate Keyed(t: Table)
  {
    forall id :: id in t ==> t[id].id == id
  }

  /** `r` differs from `t` at most in the row `id`, and has the same rows. */
  predicate OnlyRowChanged(t: Table, r: Table, id: JobId)
  {
    r.Keys == t.Keys && forall k :: k in t && k != id ==> r[k] == t[k]
  }

  /** `save` as the R2DBC repository performs it for an entity with no version field and no
      `isNew` of its own: an id that is set marks the entity as not new, so the row is written
      by an UPDATE, which fails when no row has that id and then leaves the table as it was. */
  function SaveByUpdate(t: Table, job: PdfJob): (r: Result<Table>)
    ensures r.Ok? <==> job.id in t
    ensures r.Ok? ==> r.value == t[job.id := job] && OnlyRowChanged(t, r.value, job.id)
    ensures r.Err? ==> r.error.kind == DataAccess
  {
    if job.id in t then Ok(t[job.id := job])
    else Fail(DataAccess, "Failed to update table [pdf_jobs]; Row with Id [" + job.id + "] does not exist")
  }

  /** Every job `createNew` builds under an id the table does not hold yet, which is what a
      random UUID gives, is refused by `SaveByUpdate`: as written, submitting a merge or a
      compress job fails and stores nothing. */
  lemma NewJobSaveFails(t: Table, jobId: JobId, userId: string, jobType: JobType, inputFileIds: seq<FileId>,
                        parameters: string, now: Time)
    requires jobId !in t
    ensures SaveByUpdate(t, CreateNew(jobId, userId, jobType, inputFileIds, parameters, now)).Err?
  {
  }

  /** The affected-row count of an UPDATE ... WHERE id = :id. */
  function RowsMatched(t: Table, id: JobId): nat
  {
    if id in t then 1 else 0
  }

  /** UPDATE pdf_jobs SET status, updated_at WHERE id: the status is overwritten whatever
      it was; setting PROCESSING is exactly the record's `markProcessing`. */
  function SetStatus(t: Table, id: JobId, status: JobStatus, at: Time): (r: Table)
    ensures OnlyRowChanged(t, r, id)
    ensures Keyed(t) ==> Keyed(r)
    ensures id in t ==> SameIdentity(t[id], r[id]) && r[id].status == status && r[id].updatedAt == at
    ensures id in t ==> r[id].progress == t[id].progress && r[id].outputFileId == t[id].outputFileId
    ensures id in t ==> r[id].errorMessage == t[id].errorMessage && r[id].completedAt == t[id].completedAt
    ensures id in t && status == PROCESSING ==> r[id] == MarkProcessing(t[id], at)
  {
    if id in t then t[id := t[id].(status := status, updatedAt := at)] else t
  }

  /** UPDATE pdf_jobs SET progress, updated_at WHERE id; agrees with `updateProgress`. */
  function SetProgress(t: Table, id: JobId, progress: int, at: Time): (r: Table)
    ensures OnlyRowChanged(t, r, id)
    ensures Keyed(t) ==> Keyed(r)
    ensures id in t ==> r[id] == UpdateProgress(t[id], progress, at)
  {
    if id in t then t[id := t[id].(progress := progress, updatedAt := at)] else t
  }

  /** The completion UPDATE: COMPLETED, the output, progress 100, and updated_at =
      completed_at = the given instant, whatever the row's status was; agrees with the
      record's `markCompleted`. */
  function CompleteRow(t: Table, id: JobId, outputFileId: FileId, at: Time): (r: Table)
    ensures OnlyRowChanged(t, r, id)
    ensures Keyed(t) ==> Keyed(r)
    ensures id in t ==> r[id] == MarkCompleted(t[id], outputFileId, at)
  {
    if id in t then
      t[id := t[id].(status := COMPLETED, outputFileId := Some(outputFileId), progress := 100,
                     updatedAt := at, completedAt := Some(at))]
    else t
  }

  /** The failure UPDATE: FAILED, the message, and updated_at = completed_at; progress
      and output stay; agrees with the record's `markFailed`. */
  function FailRow(t: Table, id: JobId, errorMessage: Option<string>, at: Time): (r: Table)
    ensures OnlyRowChanged(t, r, id)
    ensures Keyed(t) ==> Keyed(r)
    ensures id in t ==> r[id] == MarkFailed(t[id], errorMessage, at)
  {
    if id in t then
      t[id := t[id].(status := FAILED, errorMessage := errorMessage, updatedAt := at, completedAt := Some(at))]
    else t
  }

  /** The WHERE clauses of the repository's queries. */
  datatype Filter =
    | OwnedBy(userId: string)
    | OwnedWithStatus(userId: string, status: JobStatus)
    | OwnedWithType(userId: string, jobType: JobType)
    | Pending
    | StaleProcessing(threshold: Time)
    | CompletedBefore(threshold: Time)

  predicate Matches(f: Filter, j: PdfJob)
  {
    match f
    case OwnedBy(u) => j.userId == u
    case OwnedWithStatus(u, s) => j.userId == u && j.status == s
    case OwnedWithType(u, ty) => j.userId == u && j.jobType == ty
    case Pending => j.status == PENDING
    case StaleProcessing(th) => j.status == PROCESSING && j.updatedAt < th
    // completed_at < :threshold is unknown, hence false, when completed_at is NULL
    case CompletedBefore(th) => j.status == COMPLETED && j.completedAt.Some? && j.completedAt.value < th
  }

  function MatchingIds(t: Table, f: Filter): set<JobId>
  {
    set id | id in t && Matches(f, t[id])
  }

  /** SELECT COUNT(*) ... WHERE f */
  function CountWhere(t: Table, f: Filter): nat
  {
    |MatchingIds(t, f)|
  }

  /** DELETE FROM pdf_jobs WHERE f: exactly the matching rows go, the others stay as
      they were. */
  function DeleteWhere(t: Table, f: Filter): (r: Table)
    ensures r.Keys == t.Keys - MatchingIds(t, f)
    ensures forall id :: id in r ==> r[id] == t[id]
    ensures Keyed(t) ==> Keyed(r)
  {
    map id | id in t && !Matches(f, t[id]) :: t[id]
  }

  /** ORDER BY created_at DESC / ASC, or no ORDER BY at all. */
  datatype Order = NewestFirst | OldestFirst | AnyOrder

  predicate Precedes(o: Order, a: PdfJob, b: PdfJob)
  {
    match o
    case NewestFirst => a.createdAt >= b.createdAt
    case OldestFirst => a.createdAt <= b.createdAt
    case AnyOrder => true
  }

  predicate Ordered(o: Order, s: seq<PdfJob>)
  {
    forall i, k :: 0 <= i < k < |s| ==> Precedes(o, s[i], s[k])
  }

  predicate DistinctIds(s: seq<PdfJob>)
  {
    forall i, k :: 0 <= i < k < |s| ==> s[i].id != s[k].id
  }

  /** `s` lists every row of `t` that matches `f`, each once and as stored, in order `o`:
      the rows a SELECT ... WHERE f ORDER BY o returns (ties in any order). */
  predicate IsListing(t: Table, f: Filter, o: Order, s: seq<PdfJob>)
  {
    && (forall j :: j in s ==> j.id in t && t[j.id] == j && Matches(f, j))
    && (forall id :: id in t && Matches(f, t[id]) ==> t[id] in s)
    && DistinctIds(s)
    && Ordered(o, s)
  }

  function Min(a: int, b: int): int
  {
    if a <= b then a else b
  }

  /** LIMIT :limit OFFSET :offset */
  function Window(s: seq<PdfJob>, offset: nat, limit: nat): (w: seq<PdfJob>)
    ensures |w| <= limit
    ensures offset + limit <= |s| ==> w == s[offset..offset + limit]
    ensures offset <= |s| < offset + limit ==> w == s[offset..]
    ensures |s| <= offset ==> w == []
  {
    s[Min(offset, |s|)..Min(offset + limit, |s|)]
  }

  /** Where a row goes in an ordered listing: after every row that comes before it, and
      before the rest. */
  function InsertionPoint(o: Order, x: PdfJob, s: seq<PdfJob>): (p: nat)
    ensures p <= |s|
    ensures forall i :: 0 <= i < p ==> Precedes(o, s[i], x)
    ensures Ordered(o, s) ==> forall i :: p <= i < |s| ==> Precedes(o, x, s[i])
  {
    if s == [] || Precedes(o, x, s[0]) then 0
    else
      var p := 1 + InsertionPoint(o, x, s[1..]);
      assert forall i :: 1 <= i < |s| ==> s[i] == s[1..][i - 1];
      p
  }

  function InsertAt(x: PdfJob, s: seq<PdfJob>, p: nat): seq<PdfJob>
    requires p <= |s|
  {
    s[..p] + [x] + s[p..]
  }

  lemma InsertAtElements(x: PdfJob, s: seq<PdfJob>, p: nat)
    requires p <= |s|
    ensures forall y :: y in InsertAt(x, s, p) <==> y in s || y == x
  {
    assert s == s[..p] + s[p..];
  }

  /** Inserting a row at its insertion point keeps a listing ordered. */
  lemma InsertKeepsOrder(o: Order, x: PdfJob, s: seq<PdfJob>)
    requires Ordered(o, s)
    ensures Ordered(o, InsertAt(x, s, InsertionPoint(o, x, s)))
  {
    var p := InsertionPoint(o, x, s);
    var r := InsertAt(x, s, p);
    forall i, k | 0 <= i < k < |r| ensures Precedes(o, r[i], r[k]) {
      if k < p {
        assert r[i] == s[i] && r[k] == s[k];
      } else if k == p {
        assert r[i] == s[i] && r[k] == x;
      } else if i == p {
        assert r[k] == s[k - 1] && r[i] == x;
      } else if i < p {
        assert r[i] == s[i] && r[k] == s[k - 1];
      } else {
        assert r[i] == s[i - 1] && r[k] == s[k - 1];
      }
    }
  }

  /** Inserting a row whose id is new keeps the ids distinct. */
  lemma InsertKeepsDistinct(x: PdfJob, s: seq<PdfJob>, p: nat)
    requires p <= |s| && DistinctIds(s)
    requires forall i :: 0 <= i < |s| ==> s[i].id != x.id
    ensures DistinctIds(InsertAt(x, s, p))
  {
    var r := InsertAt(x, s, p);
    forall i, k | 0 <= i < k < |r| ensures r[i].id != r[k].id {
      if k < p {
        assert r[i] == s[i] && r[k] == s[k];
      } else if k == p {
        assert r[i] == s[i] && r[k] == x;
      } else if i == p {
        assert r[k] == s[k - 1] && r[i] == x;
      } else if i < p {
        assert r[i] == s[i] && r[k] == s[k - 1];
      } else {
        assert r[i] == s[i - 1] && r[k] == s[k - 1];
      }
    }
  }

  function IdsOf(s: seq<PdfJob>): set<JobId>
  {
    set i | 0 <= i < |s| :: s[i].id
  }

  lemma {:induction false} DistinctIdsCount(s: seq<PdfJob>)
    requires DistinctIds(s)
    ensures |IdsOf(s)| == |s|
  {
    if s != [] {
      var tail := s[1..];
      assert DistinctIds(tail) by {
        forall i, k | 0 <= i < k < |tail| ensures tail[i].id != tail[k].id {
          assert tail[i] == s[i + 1] && tail[k] == s[k + 1];
        }
      }
      DistinctIdsCount(tail);
      assert IdsOf(s) == {s[0].id} + IdsOf(tail) by {
        forall id | id in IdsOf(s) ensures id in {s[0].id} + IdsOf(tail) {
          var i :| 0 <= i < |s| && s[i].id == id;
          if i > 0 { assert tail[i - 1] == s[i]; }
        }
        forall id | id in IdsOf(tail) ensures id in IdsOf(s) {
          var i :| 0 <= i < |tail| && tail[i].id == id;
          assert s[i + 1] == tail[i];
        }
      }
      assert s[0].id !in IdsOf(tail) by {
        forall i | 0 <= i < |tail| ensures tail[i].id != s[0].id {
          assert tail[i] == s[i + 1];
        }
      }
    }
  }

  /** A listing has exactly as many rows as SELECT COUNT(*) with the same WHERE clause
      reports. */
  lemma ListingLength(t: Table, f: Filter, o: Order, s: seq<PdfJob>)
    requires Keyed(t) && IsListing(t, f, o, s)
    ensures |s| == CountWhere(t, f)
  {
    assert IdsOf(s) == MatchingIds(t, f) by {
      forall id | id in MatchingIds(t, f) ensures id in IdsOf(s) {
        var i :| 0 <= i < |s| && s[i] == t[id];
      }
    }
    DistinctIdsCount(s);
  }

  /** Any two listings of the same query hold the same rows. */
  lemma ListingsHoldSameRows(t: Table, f: Filter, o: Order, s1: seq<PdfJob>, s2: seq<PdfJob>)
    requires IsListing(t, f, o, s1) && IsListing(t, f, o, s2)
    ensures forall j :: j in s1 <==> j in s2
  {
    forall j | j in s1 ensures j in s2 {
      var i :| 0 <= i < |s1| && s1[i] == j;
    }
    forall j | j in s2 ensures j in s1 {
      var i :| 0 <= i < |s2| && s2[i] == j;
    }
  }

  /** A page cut from a listing holds rows of the listing, still in its order. */
  lemma WindowOfListing(t: Table, f: Filter, o: Order, all: seq<PdfJob>, offset: nat, limit: nat)
    requires IsListing(t, f, o, all)
    ensures forall j :: j in Window(all, offset, limit) ==> j in all && Matches(f, j) && j.id in t && t[j.id] == j
    ensures Ordered(o, Window(all, offset, limit))
    ensures DistinctIds(Window(all, offset, limit))
  {
    var lo := Min(offset, |all|);
    var w := Window(all, offset, limit);
    assert forall i :: 0 <= i < |w| ==> w[i] == all[lo + i];
  }

  /** The retention sweep never removes a row that is not COMPLETED, whatever its age. */
  lemma SweepKeepsUnfinished(t: Table, threshold: Time)
    ensures forall id :: id in t && t[id].status != COMPLETED ==> id in DeleteWhere(t, CompletedBefore(threshold))
  {
  }
}
