/** The DSR services of src/services/dsr.services.ts: lookups of validation
    accounts, export rows and reports, the compare-and-set toggle of an
    account's active flag, and the initiation of an export. */
module DsrService {
  import opened Base
  import opened DsrData
  import ExportWorker

  /** The errors the services throw, with the `status` some of them carry. */
  datatype ServiceError =
    | NoMatchingAccount         // 'No accounts match that accountId'
    | InvalidTransition         // 'Invalid state transition or account not found'
    | NoExportRecord            // 'No export record found for that store/date'
    | MissingStoreOrDate        // 'Missing store ID or report date'
    | NoDsrFound                // 'No DSR found for that store/date'
    | DsrNotFound               // 'DSR not found'
    | InvalidOrInactiveAccount  // 'Invalid or inactive account'
  {
    /** The `err.status` the service sets, if any. */
    function Status(): Option<int>
    {
      match this
      case InvalidTransition => Some(400)
      case NoExportRecord => Some(404)
      case DsrNotFound => Some(404)
      case InvalidOrInactiveAccount => Some(400)
      case _ => None
    }
  }

  // ------------------------------------------------------------------
  // Validation accounts

  datatype AccountStatus = AccountStatus(accountId: string, clientName: string, isActive: bool)

  /** `getValidationAccountStatus(accountId)`. */
  function ValidationAccountStatus(accounts: map<string, ValidationAccount>, accountId: string)
    : (r: Result<AccountStatus, ServiceError>)
    ensures r.Ok? <==> accountId in accounts
    ensures r.Err? ==> r.error == NoMatchingAccount
    ensures r.Ok? ==> r.value.accountId == accountId
                      && r.value.clientName == accounts[accountId].clientName
                      && r.value.isActive == accounts[accountId].isActive
  {
    if accountId !in accounts then Err(NoMatchingAccount)
    else
      var row := accounts[accountId];
      Ok(AccountStatus(accountId, row.clientName, row.isActive))
  }

  /** The row `RETURNING id, is_active`. */
  datatype StatusChange = StatusChange(id: int, isActive: bool)

  /** The accounts with `accountNum`'s active flag set to `isActive`. */
  function WithActive(accounts: map<string, ValidationAccount>, accountNum: string, isActive: bool)
    : map<string, ValidationAccount>
    requires accountNum in accounts
  {
    accounts[accountNum := accounts[accountNum].(isActive := isActive)]
  }

  /** `changeAccountStatus(newStatus, accountNum)`: `UPDATE ... SET is_active
      = newStatus WHERE account_number = accountNum AND is_active = !newStatus`.
      It succeeds exactly when the account exists and holds the opposite
      value; otherwise it fails with status 400 and changes nothing. */
  method ChangeAccountStatus(db: DsrDb, newStatus: bool, accountNum: string)
    returns (r: Result<StatusChange, ServiceError>)
    modifies db
    ensures r.Ok? <==> accountNum in old(db.accounts) && old(db.accounts)[accountNum].isActive == !newStatus
    ensures r.Ok? ==> r.value == StatusChange(old(db.accounts)[accountNum].id, newStatus)
                      && db.accounts == WithActive(old(db.accounts), accountNum, newStatus)
    ensures r.Err? ==> r.error == InvalidTransition && r.error.Status() == Some(400)
                       && db.accounts == old(db.accounts)
    ensures db.reports == old(db.reports) && db.exports == old(db.exports)
  {
    var requiredCurrentState := !newStatus;
    if accountNum in db.accounts && db.accounts[accountNum].isActive == requiredCurrentState {
      var row := db.accounts[accountNum];
      db.accounts := WithActive(db.accounts, accountNum, newStatus);
      return Ok(StatusChange(row.id, newStatus));
    }
    return Err(InvalidTransition);
  }

  /** A successful toggle followed by the opposite toggle restores the
      accounts; a second identical toggle is refused. */
  lemma ToggleRoundTrip(accounts: map<string, ValidationAccount>, accountNum: string, newStatus: bool)
    requires accountNum in accounts && accounts[accountNum].isActive == !newStatus
    ensures WithActive(WithActive(accounts, accountNum, newStatus), accountNum, !newStatus) == accounts
    ensures WithActive(accounts, accountNum, newStatus)[accountNum].isActive != !newStatus
  {
    var once := WithActive(accounts, accountNum, newStatus);
    assert once[accountNum].(isActive := !newStatus) == accounts[accountNum];
  }

  // ------------------------------------------------------------------
  // Export rows

  /** The projection `getDSRExportStatus` returns; absent columns are null. */
  datatype ExportView = ExportView(
    storeId: string,
    reportDate: string,
    status: ExportStatus,
    qbTransactionId: Option<string>,
    exportedAt: Option<int>,
    retryCount: nat,
    lastError: Option<string>)

  /** `getDSRExportStatus(storeId, reportDate)`. */
  function GetExportStatus(exports: map<ReportKey, ExportRow>, storeId: string, reportDate: string)
    : (r: Result<ExportView, ServiceError>)
    ensures r.Ok? <==> ReportKey(storeId, reportDate) in exports
    ensures r.Err? ==> r.error == NoExportRecord && r.error.Status() == Some(404)
    ensures r.Ok? ==>
              var row := exports[ReportKey(storeId, reportDate)];
              && r.value.storeId == storeId && r.value.reportDate == reportDate
              && r.value.status == row.status && r.value.retryCount == row.retryCount
              && r.value.qbTransactionId == row.qbTransactionId
              && r.value.exportedAt == row.exportedAt
              && r.value.lastError == row.lastError
  {
    var key := ReportKey(storeId, reportDate);
    if key !in exports then Err(NoExportRecord)
    else
      var row := exports[key];
      Ok(ExportView(storeId, reportDate, row.status, row.qbTransactionId, row.exportedAt, row.retryCount, row.lastError))
  }

  // ------------------------------------------------------------------
  // Reports

  /** The projection `getDSRPreview` returns. */
  datatype Preview = Preview(storeId: string, reportDate: string, accountNum: string,
                             totalSales: string, tax: string, cash: string, card: string)

  /** `getDSRPreview(storeId, reportDate)`: an empty store id or date is
      refused before the lookup. */
  function DsrPreview(reports: map<ReportKey, DsrReport>, storeId: string, reportDate: string)
    : (r: Result<Preview, ServiceError>)
    ensures storeId == "" || reportDate == "" ==> r == Err(MissingStoreOrDate)
    ensures storeId != "" && reportDate != "" ==>
              && (r.Ok? <==> ReportKey(storeId, reportDate) in reports)
              && (r.Err? ==> r.error == NoDsrFound)
    ensures r.Ok? ==>
              var dsr := reports[ReportKey(storeId, reportDate)];
              r.value == Preview(storeId, reportDate, dsr.accountNumber, dsr.totalSales, dsr.tax, dsr.cash, dsr.card)
  {
    if storeId == "" || reportDate == "" then Err(MissingStoreOrDate)
    else
      var key := ReportKey(storeId, reportDate);
      if key !in reports then Err(NoDsrFound)
      else
        var dsr := reports[key];
        Ok(Preview(storeId, reportDate, dsr.accountNumber, dsr.totalSales, dsr.tax, dsr.cash, dsr.card))
  }

  // ------------------------------------------------------------------
  // Export initiation

  /** `{ success: true, status: 'pending' }`, with `idempotent: true` on a
      duplicate. */
  datatype ExportReply = ExportReply(idempotent: bool, status: string)

  /** The row `exportDSRReport` inserts: status 'processing', retry count 0,
      every other column null. */
  function NewExportRow(): ExportRow
  {
    ExportRow(Processing, 0, None, None, None, None, None)
  }

  /** Whether the report for `key` exists and its account is an active
      validation account. */
  predicate Exportable(reports: map<ReportKey, DsrReport>, accounts: map<string, ValidationAccount>, key: ReportKey)
  {
    key in reports
    && reports[key].accountNumber in accounts
    && accounts[reports[key].accountNumber].isActive
  }

  /** `exportDSRReport(storeId, reportDate)`. */
  method ExportDsrReport(db: DsrDb, storeId: string, reportDate: string) returns (r: Result<ExportReply, ServiceError>)
    modifies db
    ensures db.accounts == old(db.accounts) && db.reports == old(db.reports)
    ensures ReportKey(storeId, reportDate) !in old(db.reports) ==>
              r == Err(DsrNotFound) && r.error.Status() == Some(404)
    ensures ReportKey(storeId, reportDate) in old(db.reports) && !Exportable(old(db.reports), old(db.accounts), ReportKey(storeId, reportDate)) ==>
              r == Err(InvalidOrInactiveAccount) && r.error.Status() == Some(400)
    ensures r.Ok? <==> Exportable(old(db.reports), old(db.accounts), ReportKey(storeId, reportDate))
    ensures r.Ok? ==> r.value.status == "pending"
                      && (r.value.idempotent <==> ReportKey(storeId, reportDate) in old(db.exports))
    ensures r.Ok? && !r.value.idempotent ==> db.exports == old(db.exports)[ReportKey(storeId, reportDate) := NewExportRow()]
    ensures !(r.Ok? && !r.value.idempotent) ==> db.exports == old(db.exports)
  {
    var key := ReportKey(storeId, reportDate);
    // BEGIN; SELECT * FROM dsr_reports WHERE store_id = storeId AND report_date = reportDate
    if key !in db.reports {
      return Err(DsrNotFound);  // ROLLBACK
    }
    var dsr := db.reports[key];
    // SELECT 1 FROM validation_accounts WHERE account_number = dsr's AND is_active = true
    if !(dsr.accountNumber in db.accounts && db.accounts[dsr.accountNumber].isActive) {
      return Err(InvalidOrInactiveAccount);  // ROLLBACK
    }
    // INSERT INTO dsr_exports ...: a second row for the key violates its
    // uniqueness (23505), ROLLBACK, and the call reports an idempotent success
    if key in db.exports {
      return Ok(ExportReply(true, "pending"));
    }
    db.exports := db.exports[key := NewExportRow()];
    // COMMIT
    return Ok(ExportReply(false, "pending"));
  }

  /** The row an export inserts says 'processing' while the reply says
      'pending', and it has no start time: no claim ever selects it, at any
      time, so the worker never exports it. */
  lemma InitiatedExportNeverClaimed(exports: map<ReportKey, ExportRow>, reports: map<ReportKey, DsrReport>,
                                    key: ReportKey, now: int)
    ensures NewExportRow().status == Processing
    ensures key !in ExportWorker.Claimable(exports[key := NewExportRow()], reports, now)
  {
    ExportWorker.NeverEligible(NewExportRow(), now);
  }

  /** An active account and its report; exporting twice inserts one row and
      replays the second call as idempotent; no claim selects the row. */
  method ExportScenario(now: int) returns (first: Result<ExportReply, ServiceError>,
                                           second: Result<ExportReply, ServiceError>,
                                           claimed: map<ReportKey, ExportWorker.ClaimedJob>)
    ensures first == Ok(ExportReply(false, "pending"))
    ensures second == Ok(ExportReply(true, "pending"))
    ensures claimed == map[]
  {
    var key := ReportKey("s1", "2024-01-02");
    var db := new DsrDb(map["A1" := ValidationAccount(1, "Client", true)],
                        map[key := DsrReport("A1", "100.00", "8.00", "60.00", "40.00")],
                        map[]);
    first := ExportDsrReport(db, "s1", "2024-01-02");
    second := ExportDsrReport(db, "s1", "2024-01-02");
    assert db.exports == map[key := NewExportRow()];
    assert ExportWorker.Claimable(db.exports, db.reports, now) == {} by {
      InitiatedExportNeverClaimed(map[], db.reports, key, now);
    }
    claimed := ExportWorker.ClaimBatch(db, now, {});
  }
}
