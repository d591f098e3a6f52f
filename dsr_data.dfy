/** The tables that src/services/dsr.services.ts and src/workers/dsr.worker.ts
    share: `validation_accounts`, `dsr_reports` and `dsr_exports`. */
module DsrData {
  import opened Base

  /** The composite key (store_id, report_date) of `dsr_reports` and of
      `dsr_exports`, which holds at most one row per pair. */
  datatype ReportKey = ReportKey(storeId: string, reportDate: string)

  /** A row of `validation_accounts`, keyed by its unique `account_number`. */
  datatype ValidationAccount = ValidationAccount(id: int, clientName: string, isActive: bool)

  /** A row of `dsr_reports`. The figures are NUMERIC columns, which the
      database driver hands over as text. */
  datatype DsrReport = DsrReport(accountNumber: string, totalSales: string, tax: string, cash: string, card: string)

  /** `status` of a row of `dsr_exports`. */
  datatype ExportStatus = Pending | Processing | Completed | Failed

  /** A row of `dsr_exports` without its key. Timestamps are in seconds. */
  datatype ExportRow = ExportRow(
    status: ExportStatus,
    retryCount: nat,
    nextAttemptAt: Option<int>,
    processingStartedAt: Option<int>,
    qbTransactionId: Option<string>,
    exportedAt: Option<int>,
    lastError: Option<string>)

  class DsrDb {
    var accounts: map<string, ValidationAccount>
    var reports: map<ReportKey, DsrReport>
    var exports: map<ReportKey, ExportRow>

    constructor (accounts: map<string, ValidationAccount>, reports: map<ReportKey, DsrReport>,
                 exports: map<ReportKey, ExportRow>)
      ensures this.accounts == accounts && this.reports == reports && this.exports == exports
    {
      this.accounts := accounts;
      this.reports := reports;
      this.exports := exports;
    }
  }
}
