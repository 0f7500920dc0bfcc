/** The schemas of the parent endpoints, as predicates on the request; `None` is an
    absent key. */
module ParentValidators {
  import opened Common
  import opened Text
  import opened SchemaRules

  datatype GenerateQrBody = GenerateQrBody(studentId: Option<real>, reasonId: Option<real>, customReason: Option<string>)

  /** `generateQrSchema`: a student, a reason, and a custom reason of at most 500
      characters that may be empty. */
  predicate GenerateQrValid(b: GenerateQrBody) {
    && RequiredId(b.studentId)
    && RequiredId(b.reasonId)
    && OptionalStringMax(b.customReason, 500, true)
  }

  datatype HistoryQuery = HistoryQuery(
    studentId: Option<real>,
    status: Option<string>,
    withdrawalMethod: Option<string>,
    startDate: Option<int>,
    endDate: Option<int>,
    includePending: Option<bool>,
    limit: Option<real>,
    offset: Option<real>)

  /** `getHistorySchema` of the parent: the QR statuses ACTIVE and EXPIRED are allowed too. */
  predicate HistoryQueryValid(q: HistoryQuery) {
    && OptionalId(q.studentId)
    && OptionalOneOf(q.status, ["APPROVED", "DENIED", "ACTIVE", "EXPIRED"])
    && OptionalOneOf(q.withdrawalMethod, ["QR", "MANUAL"])
    && DateOrder(q.startDate, q.endDate)
    && (q.limit.None? || IntegerBetween(q.limit.value, 1, 100))
    && (q.offset.None? || IntegerBetween(q.offset.value, 0, MaxSafeInteger))
  }

  /** What the handler receives, defaults applied: `limit` 20, `offset` 0, `includePending` true. */
  datatype HistoryRequest = HistoryRequest(limit: int, offset: int, includePending: bool)

  function HistoryDefaults(q: HistoryQuery): (r: HistoryRequest)
    requires HistoryQueryValid(q)
    ensures 1 <= r.limit <= 100 && 0 <= r.offset
    ensures q.limit.None? ==> r.limit == 20
    ensures q.offset.None? ==> r.offset == 0
    ensures r.includePending <==> q.includePending != Some(false)
  {
    PageKeyBounds(q.limit, 1, 100, 20);
    PageKeyBounds(q.offset, 0, MaxSafeInteger, 0);
    HistoryRequest(OrDefault(q.limit, 20), OrDefault(q.offset, 0),
      if q.includePending.Some? then q.includePending.value else true)
  }

  datatype StudentHistoryRequest = StudentHistoryRequest(studentId: Option<real>, limit: Option<real>, offset: Option<real>)

  /** `getStudentHistorySchema`: a student, `limit` 1 to 50 and `offset` at least 0. */
  predicate StudentHistoryValid(q: StudentHistoryRequest) {
    && RequiredId(q.studentId)
    && (q.limit.None? || IntegerBetween(q.limit.value, 1, 50))
    && (q.offset.None? || IntegerBetween(q.offset.value, 0, MaxSafeInteger))
  }

  /** The page of a student's history, defaults applied: `limit` 10 and `offset` 0. */
  function StudentHistoryPage(q: StudentHistoryRequest): (r: (int, int))
    requires StudentHistoryValid(q)
    ensures 1 <= r.0 <= 50 && 0 <= r.1
    ensures q.limit.None? ==> r.0 == 10
    ensures q.offset.None? ==> r.1 == 0
  {
    PageKeyBounds(q.limit, 1, 50, 10);
    PageKeyBounds(q.offset, 0, MaxSafeInteger, 0);
    (OrDefault(q.limit, 10), OrDefault(q.offset, 0))
  }

  /** `cancelQrSchema`: the identifier is exactly six digits. */
  predicate CancelQrValid(identifier: Option<string>) {
    identifier.Some? && IsSixDigits(identifier.value)
  }

  datatype ResolvePendingApprovalRequest = ResolvePendingApprovalRequest(
    withdrawalId: Option<real>,
    action: Option<string>,
    comment: Option<string>)

  /** `resolvePendingApprovalSchema`: a withdrawal, APPROVE or DENY, and a comment of at
      most 500 characters that may be empty. */
  predicate ResolvePendingApprovalValid(q: ResolvePendingApprovalRequest) {
    && RequiredId(q.withdrawalId)
    && (q.action == Some("APPROVE") || q.action == Some("DENY"))
    && OptionalStringMax(q.comment, 500, true)
  }
}
