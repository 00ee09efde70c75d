/**
 * src/controllers/reportController.js: users file reports against a product, a user or a
 * message; administrators list them and move them between review statuses. The caller's id
 * comes from the reports router's gates, which only pass truthy ids.
 */
module Reports {
  import opened Wrappers
  import opened Rows
  import opened Store

  const MissingFields := "신고 유형, 대상 ID, 신고 사유를 입력해주세요."
  const BadType := "올바른 신고 유형을 선택해주세요."
  const AlreadyReported := "이미 신고한 항목입니다."
  const BadStatus := "올바른 상태를 선택해주세요."
  const ReportNotFound := "신고를 찾을 수 없습니다."

  const ReportTypes := ["PRODUCT", "USER", "MESSAGE"]
  const Statuses := ["PENDING", "REVIEWED", "RESOLVED", "REJECTED"]
  const Pending := "PENDING"

  /** A body text field is truthy: present and not empty. */
  predicate Given(f: Option<string>) { f.Some? && f.value != [] }

  /** An open report by `reporterId` against the same target. */
  predicate PendingDuplicate(r: Report, reporterId: int, reportType: string, targetId: int) {
    r.reporterId == reporterId && r.reportType == reportType && r.targetId == targetId && r.status == Pending
  }

  predicate HasPending(reports: seq<Report>, reporterId: int, reportType: string, targetId: int) {
    exists i :: 0 <= i < |reports| && PendingDuplicate(reports[i], reporterId, reportType, targetId)
  }

  /**
   * createReport: type, target and reason must be truthy, the type one of the three kinds, and
   * the reporter must not already have an open report on the same target; a closed one does not
   * count. One PENDING row is inserted, with no description when none (or an empty one) is given.
   */
  method CreateReport(db: Database, reporterId: int, reportType: Option<string>, targetId: Option<int>,
                      reason: Option<string>, description: Option<string>, now: int)
    returns (r: Answer<int>)
    modifies db`reports, db`nextReportId
    ensures !Given(reportType) || !TruthyId(targetId) || !Given(reason) ==> r == Fail(400, MissingFields)
    ensures Given(reportType) && TruthyId(targetId) && Given(reason) ==>
              && (reportType.value !in ReportTypes ==> r == Fail(400, BadType))
              && (reportType.value in ReportTypes ==>
                    && (HasPending(old(db.reports), reporterId, reportType.value, targetId.value) ==> r == Fail(400, AlreadyReported))
                    && (!HasPending(old(db.reports), reporterId, reportType.value, targetId.value) ==> r.Done?))
    ensures r.Fail? ==> unchanged(db)
    ensures r.Done? ==>
              && r.value == old(db.nextReportId)
              && db.reports == old(db.reports) + [Report(r.value, reporterId, reportType.value, targetId.value, reason.value,
                                                         if Given(description) then description else None,
                                                         Pending, None, None, now)]
              && db.nextReportId == old(db.nextReportId) + 1
  {
    if !Given(reportType) || !TruthyId(targetId) || !Given(reason) {
      return Fail(400, MissingFields);
    }
    if reportType.value !in ReportTypes {
      return Fail(400, BadType);
    }
    if HasPending(db.reports, reporterId, reportType.value, targetId.value) {
      return Fail(400, AlreadyReported);
    }
    var row := Report(db.nextReportId, reporterId, reportType.value, targetId.value, reason.value,
                      if Given(description) then description else None, Pending, None, None, now);
    db.reports := db.reports + [row];
    db.nextReportId := db.nextReportId + 1;
    r := Done(row.id);
  }

  /** Once a report is filed, the same report from the same reporter is refused until it is reviewed. */
  lemma FiledReportBlocksRepeat(reports: seq<Report>, row: Report)
    requires row.status == Pending
    ensures HasPending(reports + [row], row.reporterId, row.reportType, row.targetId)
  {
    assert (reports + [row])[|reports|] == row;
  }

  /** A report that was reviewed no longer blocks a new one. */
  lemma ReviewedReportDoesNotBlock(row: Report)
    requires row.status != Pending
    ensures !HasPending([row], row.reporterId, row.reportType, row.targetId)
  {
  }

  /** The row after a status change: reopening clears the review, any other status records the reviewer and the time. */
  function Reviewed(r: Report, status: string, adminId: int, now: int): (q: Report)
    ensures q.id == r.id && q.reporterId == r.reporterId && q.reportType == r.reportType && q.targetId == r.targetId
    ensures q.reason == r.reason && q.description == r.description && q.createdAt == r.createdAt
    ensures q.status == status
    ensures status == Pending ==> q.reviewedBy.None? && q.reviewedAt.None?
    ensures status != Pending ==> q.reviewedBy == Some(adminId) && q.reviewedAt == Some(now)
  {
    if status == Pending then r.(status := status, reviewedBy := None, reviewedAt := None)
    else r.(status := status, reviewedBy := Some(adminId), reviewedAt := Some(now))
  }

  /** `UPDATE reports SET … WHERE id = ?`: only the rows with that id change. */
  function ReviewRows(reports: seq<Report>, id: int, status: string, adminId: int, now: int): (r: seq<Report>)
    ensures |r| == |reports|
    ensures forall i :: 0 <= i < |r| ==> r[i] == (if reports[i].id == id then Reviewed(reports[i], status, adminId, now) else reports[i])
  {
    seq(|reports|, i requires 0 <= i < |reports| => if reports[i].id == id then Reviewed(reports[i], status, adminId, now) else reports[i])
  }

  predicate HasReport(reports: seq<Report>, id: int) {
    exists i :: 0 <= i < |reports| && reports[i].id == id
  }

  /**
   * updateReportStatus: the status is checked before the report is looked up, so an invalid
   * status on an unknown id is a 400; then 404 for an unknown id; then the target row moves.
   */
  method UpdateReportStatus(db: Database, id: int, status: Option<string>, adminId: int, now: int) returns (r: Answer<()>)
    modifies db`reports
    ensures status.None? || status.value !in Statuses ==> r == Fail(400, BadStatus)
    ensures status.Some? && status.value in Statuses && !HasReport(old(db.reports), id) ==> r == Fail(404, ReportNotFound)
    ensures status.Some? && status.value in Statuses && HasReport(old(db.reports), id) ==>
              r.Done? && db.reports == ReviewRows(old(db.reports), id, status.value, adminId, now)
    ensures r.Fail? ==> unchanged(db)
  {
    if status.None? || status.value !in Statuses {
      return Fail(400, BadStatus);
    }
    if !HasReport(db.reports, id) {
      return Fail(404, ReportNotFound);
    }
    db.reports := ReviewRows(db.reports, id, status.value, adminId, now);
    r := Done(());
  }

  /** Reopening a reviewed report makes it count as a duplicate again for its reporter. */
  lemma ReopenedReportBlocks(reports: seq<Report>, i: int, adminId: int, now: int)
    requires 0 <= i < |reports|
    ensures var row := reports[i];
            HasPending(ReviewRows(reports, row.id, Pending, adminId, now), row.reporterId, row.reportType, row.targetId)
  {
    var after := ReviewRows(reports, reports[i].id, Pending, adminId, now);
    assert PendingDuplicate(after[i], reports[i].reporterId, reports[i].reportType, reports[i].targetId);
  }

  /** The listing filters: a truthy status and a truthy type each must match. */
  predicate ListedReport(r: Report, status: Option<string>, reportType: Option<string>) {
    (Given(status) ==> r.status == status.value) && (Given(reportType) ==> r.reportType == reportType.value)
  }

  function NegCreated(r: Report): int { -r.createdAt }

  /** getAllReports: the reports passing both filters, newest first; every such report is listed. */
  function AllReports(reports: seq<Report>, status: Option<string>, reportType: Option<string>): (r: seq<Report>)
    ensures forall i :: 0 <= i < |r| ==> r[i] in reports && ListedReport(r[i], status, reportType)
    ensures forall i :: 0 <= i < |reports| && ListedReport(reports[i], status, reportType) ==> reports[i] in r
    ensures forall i, j :: 0 <= i < j < |r| ==> r[i].createdAt >= r[j].createdAt
    ensures multiset(r) == multiset(Filter(reports, x => ListedReport(x, status, reportType)))
  {
    var matching := Filter(reports, x => ListedReport(x, status, reportType));
    var r := SortBy(matching, NegCreated);
    forall i | 0 <= i < |r| ensures r[i] in reports && ListedReport(r[i], status, reportType) {
      assert r[i] in multiset(matching);
    }
    forall i | 0 <= i < |reports| && ListedReport(reports[i], status, reportType) ensures reports[i] in r {
      assert reports[i] in multiset(matching);
    }
    forall i, j | 0 <= i < j < |r| ensures r[i].createdAt >= r[j].createdAt {
      assert NegCreated(r[i]) <= NegCreated(r[j]);
    }
    r
  }
}
