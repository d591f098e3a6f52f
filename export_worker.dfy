/** The export worker of src/workers/dsr.worker.ts: the claim step of
    `processPendingExports` and the outcome update of `handleExport`.

    Time is a whole number of seconds and is passed in as `now`, the value
    of `NOW()` in the statement that reads it. The external accounting call
    is modelled by the outcomes of its successive calls. */
module ExportWorker {
  import opened Base
  import opened DsrData
  import Retry

  /** Rows one claim may select (`LIMIT $1` with `MAX_CONCURRENT`). */
  const MAX_CONCURRENT: nat := 5
  /** A `processing` row older than this is taken to belong to a crashed
      worker (`INTERVAL '2 minutes'`). */
  const STALE_AFTER_SECONDS: int := 120
  /** Failed attempts after which a job is given up (`MAX_RETRIES`). */
  const MAX_RETRIES: nat := 3
  /** The unit of the backoff between attempts (`INTERVAL '10 seconds'`). */
  const BACKOFF_SECONDS: int := 10

  // ------------------------------------------------------------------
  // Claim

  /** The WHERE clause of the claim query. A comparison with NULL is not
      true, so a `processing` row without a start time never qualifies. */
  predicate Eligible(row: ExportRow, now: int)
  {
    || (row.status == Pending && (row.nextAttemptAt.None? || row.nextAttemptAt.value <= now))
    || (row.status == Processing && row.processingStartedAt.Some?
        && row.processingStartedAt.value < now - STALE_AFTER_SECONDS)
  }

  /** The rows the claim query can return: eligible export rows that join
      their report (the inner JOIN on store and date). */
  function Claimable(exports: map<ReportKey, ExportRow>, reports: map<ReportKey, DsrReport>, now: int): set<ReportKey>
  {
    set k | k in exports && k in reports && Eligible(exports[k], now)
  }

  /** A row as the claim leaves it. */
  function Claimed(row: ExportRow, now: int): ExportRow
  {
    row.(status := Processing, processingStartedAt := Some(now))
  }

  /** `UPDATE dsr_exports SET status = 'processing', processing_started_at = now()
      WHERE id = ANY(batch)`. */
  function AfterClaim(exports: map<ReportKey, ExportRow>, batch: set<ReportKey>, now: int): map<ReportKey, ExportRow>
  {
    map k | k in exports :: if k in batch then Claimed(exports[k], now) else exports[k]
  }

  lemma SubsetCardinality<T>(a: set<T>, b: set<T>)
    requires a <= b
    ensures |a| <= |b|
    ensures |a| == |b| ==> a == b
  {
    assert b == a + (b - a);
    if |a| == |b| {
      assert |b - a| == 0;
    }
  }

  /** `SELECT ... FOR UPDATE SKIP LOCKED LIMIT 5`: up to five claimable rows,
      skipping the rows in `locked`, which a concurrent claim holds. Without
      an ORDER BY the query may return any of them. */
  method SelectBatch(exports: map<ReportKey, ExportRow>, reports: map<ReportKey, DsrReport>, now: int,
                     locked: set<ReportKey>)
    returns (batch: set<ReportKey>)
    ensures batch <= Claimable(exports, reports, now) - locked
    ensures forall k :: k in batch ==> k in exports && k in reports && Eligible(exports[k], now) && k !in locked
    ensures |batch| == if |Claimable(exports, reports, now) - locked| < MAX_CONCURRENT
                       then |Claimable(exports, reports, now) - locked| else MAX_CONCURRENT
  {
    var candidates := Claimable(exports, reports, now) - locked;
    batch := {};
    while |batch| < MAX_CONCURRENT && batch != candidates
      invariant batch <= candidates
      invariant |batch| <= MAX_CONCURRENT
      decreases MAX_CONCURRENT - |batch|
    {
      assert exists k :: k in candidates - batch by {
        if forall k :: k !in candidates - batch {
          forall k | k in candidates
            ensures k in batch
          {
            assert k !in candidates - batch;
          }
        }
      }
      var k :| k in candidates - batch;
      batch := batch + {k};
    }
    SubsetCardinality(batch, candidates);
  }

  /** A row selected by the claim query and handed to `handleExport`. */
  datatype ClaimedJob = ClaimedJob(key: ReportKey, totalSales: string, tax: string)

  /** The claim transaction of `processPendingExports`: select a batch and
      mark every selected row `processing`, started now. The rows the claim
      query returns are keyed by their (store, date) key and carry their
      report's figures. */
  method ClaimBatch(db: DsrDb, now: int, locked: set<ReportKey>) returns (jobs: map<ReportKey, ClaimedJob>)
    modifies db
    ensures db.accounts == old(db.accounts) && db.reports == old(db.reports)
    ensures jobs.Keys <= Claimable(old(db.exports), old(db.reports), now) - locked
    ensures |jobs.Keys| == if |Claimable(old(db.exports), old(db.reports), now) - locked| < MAX_CONCURRENT
                           then |Claimable(old(db.exports), old(db.reports), now) - locked| else MAX_CONCURRENT
    ensures forall k :: k in jobs ==>
              k in old(db.reports)
              && jobs[k] == ClaimedJob(k, old(db.reports)[k].totalSales, old(db.reports)[k].tax)
    ensures db.exports == AfterClaim(old(db.exports), jobs.Keys, now)
    ensures jobs == map[] ==> db.exports == old(db.exports)
  {
    // BEGIN; SELECT ... FOR UPDATE SKIP LOCKED LIMIT 5
    var batch := SelectBatch(db.exports, db.reports, now, locked);
    jobs := map k | k in batch :: ClaimedJob(k, db.reports[k].totalSales, db.reports[k].tax);
    assert jobs.Keys == batch;
    if batch == {} {
      assert db.exports == AfterClaim(db.exports, {}, now);
      return;  // COMMIT: nothing to claim
    }
    // UPDATE dsr_exports SET status = 'processing', processing_started_at = now() WHERE id = ANY(...)
    db.exports := AfterClaim(db.exports, batch, now);
    // COMMIT
  }

  /** A claimed row is not claimable again before the staleness threshold
      has passed, and is claimable again once it has (the reclaim of a job
      whose worker crashed). */
  lemma ClaimedRowReclaim(row: ExportRow, now: int, t: int)
    ensures Eligible(Claimed(row, now), t) <==> t > now + STALE_AFTER_SECONDS
  {
  }

  /** After a claim at `now`, no later claim up to the staleness threshold
      selects any row of the batch, and every other row is as it was. */
  lemma ClaimIsExclusive(exports: map<ReportKey, ExportRow>, reports: map<ReportKey, DsrReport>,
                         batch: set<ReportKey>, now: int, t: int)
    requires t <= now + STALE_AFTER_SECONDS
    ensures Claimable(AfterClaim(exports, batch, now), reports, t) * batch == {}
    ensures forall k :: k in exports && k !in batch ==> AfterClaim(exports, batch, now)[k] == exports[k]
  {
    var after := AfterClaim(exports, batch, now);
    forall k | k in Claimable(after, reports, t)
      ensures k !in batch
    {
      if k in batch {
        ClaimedRowReclaim(exports[k], now, t);
      }
    }
  }

  /** Rows that are `completed` or `failed`, and `processing` rows without a
      start time, are never selected. */
  lemma NeverEligible(row: ExportRow, now: int)
    requires row.status == Completed || row.status == Failed
             || (row.status == Processing && row.processingStartedAt.None?)
    ensures !Eligible(row, now)
  {
  }

  // ------------------------------------------------------------------
  // Attempt

  /** What `handleExport` sends to the accounting client. */
  datatype QbPayload = QbPayload(storeId: string, reportDate: string, totalSales: string, tax: string,
                                 idempotencyKey: string)

  /** The idempotency key as the source builds it: it reads `storeId`, a
      field the claimed row does not have (the query selects `store_id`),
      so the store part renders as "undefined". The rendering of the date
      is taken to be the date itself. */
  function IdempotencyKey(job: ClaimedJob): string
  {
    "undefined" + "-" + job.key.reportDate
  }

  function Payload(job: ClaimedJob): QbPayload
  {
    QbPayload(job.key.storeId, job.key.reportDate, job.totalSales, job.tax, IdempotencyKey(job))
  }

  /** Two jobs for the same date have the same idempotency key, whatever
      their stores. */
  lemma KeyIgnoresStore(a: ClaimedJob, b: ClaimedJob)
    requires a.key.reportDate == b.key.reportDate
    ensures Payload(a).idempotencyKey == Payload(b).idempotencyKey
  {
  }

  /** The success update: `status = 'completed'`, the transaction id, and
      `exported_at = now()`. */
  function Completion(row: ExportRow, qbTransactionId: string, now: int): ExportRow
  {
    row.(status := Completed, qbTransactionId := Some(qbTransactionId), exportedAt := Some(now))
  }

  /** The failure update. Every SET expression reads the row as it was
      before the statement, so the backoff and the CASE both use the old
      `retry_count`. */
  function Failure(row: ExportRow, message: Option<string>, now: int): ExportRow
  {
    row.(retryCount := row.retryCount + 1,
         lastError := Some(message.GetOr("Unkown error")),
         nextAttemptAt := Some(now + BACKOFF_SECONDS * Pow2(row.retryCount)),
         status := if row.retryCount + 1 >= MAX_RETRIES then Failed else Pending)
  }

  /** The row after one attempt whose external call ended in `outcome`. */
  function AfterAttempt(row: ExportRow, outcome: Result<string, Option<string>>, now: int): ExportRow
  {
    match outcome
    case Ok(qbTransactionId) => Completion(row, qbTransactionId, now)
    case Err(message) => Failure(row, message, now)
  }

  /** `handleExport(job)`: call the accounting client under
      `retryWithBackoff` with its defaults, then write the one outcome
      update to the job's row and to no other. `qbCalls[i]` is what call i
      of the client returns: a transaction id or the message of the error
      it throws. */
  method HandleExport(db: DsrDb, job: ClaimedJob, qbCalls: seq<Result<string, Option<string>>>, now: int)
    returns (payload: QbPayload, outcome: Result<string, Option<string>>)
    requires |qbCalls| >= Retry.DEFAULT_MAX_ATTEMPTS
    modifies db
    ensures payload == Payload(job)
    ensures outcome == qbCalls[Retry.Calls(qbCalls, Retry.DEFAULT_MAX_ATTEMPTS) - 1]
    ensures db.accounts == old(db.accounts) && db.reports == old(db.reports)
    ensures db.exports == if job.key in old(db.exports)
                          then old(db.exports)[job.key := AfterAttempt(old(db.exports)[job.key], outcome, now)]
                          else old(db.exports)
  {
    payload := Payload(job);
    var calls, delays;
    outcome, calls, delays := Retry.RetryWithBackoff(qbCalls, Retry.DEFAULT_MAX_ATTEMPTS, Retry.DEFAULT_BASE_DELAY_MS);
    if job.key in db.exports {
      // UPDATE dsr_exports SET ... WHERE id = job's row
      db.exports := db.exports[job.key := AfterAttempt(db.exports[job.key], outcome, now)];
    }
  }

  // ------------------------------------------------------------------
  // Properties of the outcome updates

  /** Success completes the job, records the transaction id and the time,
      and leaves the retry count alone; a completed job is never claimed
      again. */
  lemma CompletionIsFinal(row: ExportRow, qbTransactionId: string, now: int, t: int)
    ensures Completion(row, qbTransactionId, now).status == Completed
    ensures Completion(row, qbTransactionId, now).qbTransactionId == Some(qbTransactionId)
    ensures Completion(row, qbTransactionId, now).exportedAt == Some(now)
    ensures Completion(row, qbTransactionId, now).retryCount == row.retryCount
    ensures !Eligible(Completion(row, qbTransactionId, now), t)
  {
  }

  /** A failure counts the attempt, records the error (or 'Unkown error'
      when it carries no message), gives the job up once the new count
      reaches MAX_RETRIES, and otherwise makes it claimable again exactly
      from `now + 10 s * 2^old count` on. */
  lemma FailureSchedule(row: ExportRow, message: Option<string>, now: int, t: int)
    ensures Failure(row, message, now).retryCount == row.retryCount + 1
    ensures Failure(row, message, now).lastError == Some(if message.Some? then message.value else "Unkown error")
    ensures Failure(row, message, now).nextAttemptAt == Some(now + BACKOFF_SECONDS * Pow2(row.retryCount))
    ensures Failure(row, message, now).status == Failed <==> row.retryCount + 1 >= MAX_RETRIES
    ensures Eligible(Failure(row, message, now), t)
            <==> row.retryCount + 1 < MAX_RETRIES && t >= now + BACKOFF_SECONDS * Pow2(row.retryCount)
  {
  }

  /** A job that starts with no failed attempt and fails three attempts in a
      row waits 10 s and then 20 s before its retries, and after the third
      failure is `failed` with a retry count of 3 and is never claimed
      again. */
  lemma ThreeFailuresGiveUp(row: ExportRow, m1: Option<string>, m2: Option<string>, m3: Option<string>,
                            t1: int, t2: int, t3: int, t: int)
    requires row.retryCount == 0
    ensures Failure(row, m1, t1).status == Pending
    ensures Failure(row, m1, t1).nextAttemptAt == Some(t1 + 10)
    ensures Failure(Failure(row, m1, t1), m2, t2).status == Pending
    ensures Failure(Failure(row, m1, t1), m2, t2).nextAttemptAt == Some(t2 + 20)
    ensures Failure(Failure(Failure(row, m1, t1), m2, t2), m3, t3).status == Failed
    ensures Failure(Failure(Failure(row, m1, t1), m2, t2), m3, t3).retryCount == 3
    ensures !Eligible(Failure(Failure(Failure(row, m1, t1), m2, t2), m3, t3), t)
  {
    assert Pow2(1) == 2;
  }
}
