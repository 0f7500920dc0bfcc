/** The schemas of the inspector endpoints, as predicates on the request. Each body has
    one field per key its schema names; `None` is an absent key. */
module InspectorValidators {
  import opened Common
  import opened Text
  import opened SchemaRules

  /** `qrCodeValidator`: a required string of exactly six ASCII digits. */
  predicate QrCodeValid(qrCode: Option<string>) {
    qrCode.Some? && IsSixDigits(qrCode.value)
  }

  /** The action of `processQrSchema`. */
  predicate IsQrAction(action: Option<string>) {
    action == Some("APPROVE") || action == Some("DENY")
  }

  datatype ProcessQrBody = ProcessQrBody(qrCode: Option<string>, action: Option<string>, notes: Option<string>)

  /** `processQrSchema`: a valid code, APPROVE or DENY, and notes of at most 500 characters. */
  predicate ProcessQrValid(b: ProcessQrBody) {
    && QrCodeValid(b.qrCode)
    && IsQrAction(b.action)
    && OptionalStringMax(b.notes, 500, true)
  }

  datatype ManualDelegateBody = ManualDelegateBody(
    name: Option<string>,
    rut: Option<string>,
    phone: Option<string>,
    relationshipToStudent: Option<string>)

  /** The `manualDelegate` object: a name of 1 to 150 characters after trimming, a RUT, a
      phone of 8 to 15 digits, and a relationship of 1 to 100 characters after trimming. */
  predicate ManualDelegateValid(m: ManualDelegateBody) {
    && m.name.Some? && TrimmedLength(m.name.value, 1, 150)
    && m.rut.Some? && IsRut(m.rut.value)
    && m.phone.Some? && IsPhone(m.phone.value)
    && m.relationshipToStudent.Some? && TrimmedLength(m.relationshipToStudent.value, 1, 100)
  }

  datatype ManualAuthorizationBody = ManualAuthorizationBody(
    studentId: Option<real>,
    reasonId: Option<real>,
    customReason: Option<string>,
    delegateId: Option<real>,
    manualDelegate: Option<ManualDelegateBody>,
    unregisteredDelegateReason: Option<string>)

  /** `unregisteredDelegateReason`, by the `when` on `manualDelegate`: required and not
      empty when an extraordinary delegate is given, optional and possibly empty otherwise;
      at most 500 characters either way. */
  predicate UnregisteredReasonValid(b: ManualAuthorizationBody) {
    if b.manualDelegate.Some? then
      b.unregisteredDelegateReason.Some? && StringMax(b.unregisteredDelegateReason.value, 500, false)
    else OptionalStringMax(b.unregisteredDelegateReason, 500, true)
  }

  /** `manualAuthorizationSchema`. */
  predicate ManualAuthorizationValid(b: ManualAuthorizationBody) {
    && RequiredId(b.studentId)
    && RequiredId(b.reasonId)
    && OptionalStringMax(b.customReason, 500, true)
    && OptionalId(b.delegateId)
    && (b.manualDelegate.Some? ==> ManualDelegateValid(b.manualDelegate.value))
    && UnregisteredReasonValid(b)
    // xor('delegateId', 'manualDelegate')
    && (b.delegateId.Some? <==> b.manualDelegate.None?)
    // with('manualDelegate', 'unregisteredDelegateReason')
    && (b.manualDelegate.Some? ==> b.unregisteredDelegateReason.Some?)
  }

  /** The xor and the conditional reason, as they constrain a valid request: exactly one
      kind of delegate, and an extraordinary one always comes with a non-empty reason. */
  lemma ManualAuthorizationShape(b: ManualAuthorizationBody)
    requires ManualAuthorizationValid(b)
    ensures b.delegateId.Some? ==> b.manualDelegate.None? && IntOf(b.delegateId.value) > 0
    ensures b.manualDelegate.Some? ==>
      && b.delegateId.None?
      && b.unregisteredDelegateReason.Some? && b.unregisteredDelegateReason.value != ""
      && JsLength(b.unregisteredDelegateReason.value) <= 500
  {
  }

  datatype ManualWithdrawalBody = ManualWithdrawalBody(
    studentRut: Option<string>,
    parentRut: Option<string>,
    reasonId: Option<real>,
    customReason: Option<string>,
    notes: Option<string>)

  /** `manualWithdrawalSchema`: two RUTs, a reason, a custom reason of at most 500 and notes
      of at most 1000 characters. */
  predicate ManualWithdrawalValid(b: ManualWithdrawalBody) {
    && b.studentRut.Some? && IsRut(b.studentRut.value)
    && b.parentRut.Some? && IsRut(b.parentRut.value)
    && RequiredId(b.reasonId)
    && OptionalStringMax(b.customReason, 500, true)
    && OptionalStringMax(b.notes, 1000, true)
  }

  datatype HistoryQuery = HistoryQuery(
    studentId: Option<real>,
    studentRut: Option<string>,
    status: Option<string>,
    withdrawalMethod: Option<string>,
    approverId: Option<real>,
    startDate: Option<int>,
    endDate: Option<int>,
    limit: Option<real>,
    offset: Option<real>)

  /** `getHistorySchema` of the inspector. */
  predicate HistoryQueryValid(q: HistoryQuery) {
    && OptionalId(q.studentId)
    && (q.studentRut.None? || IsRut(q.studentRut.value))
    && OptionalOneOf(q.status, ["APPROVED", "DENIED"])
    && OptionalOneOf(q.withdrawalMethod, ["QR", "MANUAL"])
    && OptionalId(q.approverId)
    && DateOrder(q.startDate, q.endDate)
    && (q.limit.None? || IntegerBetween(q.limit.value, 1, 200))
    && (q.offset.None? || IntegerBetween(q.offset.value, 0, MaxSafeInteger))
  }

  /** The page the handler receives, defaults applied: `limit` 50 and `offset` 0. */
  function HistoryPage(q: HistoryQuery): (r: (int, int))
    requires HistoryQueryValid(q)
    ensures 1 <= r.0 <= 200 && 0 <= r.1
    ensures q.limit.None? ==> r.0 == 50
    ensures q.offset.None? ==> r.1 == 0
  {
    PageKeyBounds(q.limit, 1, 200, 50);
    PageKeyBounds(q.offset, 0, MaxSafeInteger, 0);
    (OrDefault(q.limit, 50), OrDefault(q.offset, 0))
  }
}
