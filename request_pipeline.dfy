/** How a request that passed its schema reaches the services: the handler's conversion
    of a validated body into the service's arguments, and what a validated request can
    and cannot provoke there. */
module RequestPipeline {
  import opened Common
  import opened Text
  import opened Models
  import opened SchemaRules
  import opened QrAuthorizationService
  import opened WithdrawalService
  import InspectorValidators
  import ParentValidators

  /** A valid body of `processQrSchema`, as `validateAndProcessQr` receives it. */
  function ProcessQrRequest(b: InspectorValidators.ProcessQrBody): ValidateQrRequest
    requires InspectorValidators.ProcessQrValid(b)
  {
    ValidateQrRequest(b.qrCode.value, b.action.value, b.notes)
  }

  /** A code that passed `qrCodeValidator` is never refused for its format: the service
      goes on to look it up. */
  lemma ValidatedCodeIsLookedUp(qrCode: Option<string>, qrs: seq<QrAuthorization>, now: int)
    requires InspectorValidators.QrCodeValid(qrCode)
    ensures GetQrValidationInfo(qrs, qrCode.value, now) != Err(InvalidQrFormat)
    ensures GetQrValidationInfo(qrs, qrCode.value, now).Err? ==>
      GetQrValidationInfo(qrs, qrCode.value, now) == Err(QrNotFoundOrUsed) && UnusedIndexByCode(qrs, qrCode.value).None?
  {
  }

  /** For a validated scan, the record the service writes is APPROVED for APPROVE and
      DENIED for DENY: the status follows the inspector's action exactly. */
  lemma ValidatedScanStatus(b: InspectorValidators.ProcessQrBody, id: int, info: QrValidationInfo, qrAuthId: int,
                            inspectorUserId: int, now: int)
    requires InspectorValidators.ProcessQrValid(b)
    ensures
      var w := RecordRow(id, QrWithdrawalData(info, qrAuthId, ProcessQrRequest(b), inspectorUserId), now);
      && (w.status == Approved <==> b.action == Some(ApproveAction))
      && (w.status == Denied <==> b.action == Some(DenyAction))
  {
    QrRecordFacts(id, info, qrAuthId, ProcessQrRequest(b), inspectorUserId, now);
  }

  /** The keys `authorizeWithoutQr` reads that `manualAuthorizationSchema` does not name. */
  datatype ManualOverrides = ManualOverrides(
    discardedDelegateIds: Option<seq<int>>,
    allowManualDelegateOverride: Option<bool>,
    manualDelegateOverrideReason: Option<string>)

  /** A valid `manualDelegate` object as the service receives it: Joi's `trim()` hands on
      the trimmed name and relationship. */
  function ManualDelegateOf(m: InspectorValidators.ManualDelegateBody): (r: ManualDelegateInput)
    requires InspectorValidators.ManualDelegateValid(m)
    ensures r.name != "" && r.relationshipToStudent != ""
    ensures IsRut(r.rut) && IsPhone(r.phone)
  {
    ManualDelegateInput(Trim(m.name.value), m.rut.value, m.phone.value, Trim(m.relationshipToStudent.value))
  }

  /** The name and relationship the service receives have no surrounding whitespace left
      to trim. */
  lemma ManualDelegateTrimmed(m: InspectorValidators.ManualDelegateBody)
    requires InspectorValidators.ManualDelegateValid(m)
    ensures
      var r := ManualDelegateOf(m);
      r.name == Trim(r.name) && r.relationshipToStudent == Trim(r.relationshipToStudent)
  {
    TrimIdempotent(m.name.value);
    TrimIdempotent(m.relationshipToStudent.value);
  }

  /** A valid body of `manualAuthorizationSchema`, with the inspector and the extra keys,
      as `authorizeWithoutQr` receives it. */
  function ManualPayload(b: InspectorValidators.ManualAuthorizationBody, inspectorUserId: int, extra: ManualOverrides)
    : ManualAuthorizationPayload
    requires InspectorValidators.ManualAuthorizationValid(b)
  {
    ManualAuthorizationPayload(
      IntOf(b.studentId.value), inspectorUserId, IntOf(b.reasonId.value), b.customReason,
      if b.delegateId.Some? then Some(IntOf(b.delegateId.value)) else None,
      if b.manualDelegate.Some? then Some(ManualDelegateOf(b.manualDelegate.value)) else None,
      extra.discardedDelegateIds, b.unregisteredDelegateReason,
      extra.allowManualDelegateOverride, extra.manualDelegateOverrideReason)
  }

  /** The schema's xor, as the service's payload carries it: a truthy selected delegate
      exactly when there is no extraordinary one. */
  lemma PayloadDelegateXor(b: InspectorValidators.ManualAuthorizationBody, inspectorUserId: int, extra: ManualOverrides)
    requires InspectorValidators.ManualAuthorizationValid(b)
    ensures
      var p := ManualPayload(b, inspectorUserId, extra);
      TruthyId(p.delegateId) <==> p.manualDelegate.None?
  {
    InspectorValidators.ManualAuthorizationShape(b);
  }

  /** A payload with exactly one kind of delegate is never refused for giving both, and
      never gets the answers for a request with no delegate. */
  lemma OneDelegateKindDecision(p: ManualAuthorizationPayload, roster: Roster)
    requires TruthyId(p.delegateId) <==> p.manualDelegate.None?
    ensures
      var d := DecideManual(p, roster);
      && d != Refuse(BothDelegateKinds)
      && !d.AskForDelegate? && !d.AllowExtraordinary?
      && (d.Register? || d.Refuse?)
  {
    assert !(TruthyId(p.delegateId) && p.manualDelegate.Some?);
    assert !(!TruthyId(p.delegateId) && p.manualDelegate.None?);
  }

  /** The schema's xor decides the delegate branch before the service does: a validated
      request never gives both kinds of delegate, and never gets the answers for a request
      with no delegate (select one, or an extraordinary one is allowed). Whatever else
      the service answers, a pickup is registered or refused. */
  lemma ValidatedManualNeverAsks(b: InspectorValidators.ManualAuthorizationBody, inspectorUserId: int,
                                 extra: ManualOverrides, roster: Roster)
    requires InspectorValidators.ManualAuthorizationValid(b)
    ensures
      var d := DecideManual(ManualPayload(b, inspectorUserId, extra), roster);
      && d != Refuse(BothDelegateKinds)
      && !d.AskForDelegate? && !d.AllowExtraordinary?
      && (d.Register? || d.Refuse?)
  {
    PayloadDelegateXor(b, inspectorUserId, extra);
    OneDelegateKindDecision(ManualPayload(b, inspectorUserId, extra), roster);
  }

  /** An extraordinary delegate with a truthy reason puts the reason's line among the notes. */
  lemma UnregisteredLineNoted(p: ManualAuthorizationPayload, roster: Roster)
    requires p.manualDelegate.Some? && Truthy(p.unregisteredDelegateReason)
    ensures UnregisteredLine(p.unregisteredDelegateReason.value) in ManualNoteParts(p, roster)
  {
    var line := UnregisteredLine(p.unregisteredDelegateReason.value);
    assert UnregisteredNote(p) == [line];
    var parts := ManualNoteParts(p, roster);
    assert parts[|DiscardedNote(p, roster)|] == line;
  }

  /** A validated extraordinary delegate always leaves its justification in the notes:
      the schema makes `unregisteredDelegateReason` required and non-empty, so the service
      always pushes its line. */
  lemma ValidatedReasonIsNoted(b: InspectorValidators.ManualAuthorizationBody, inspectorUserId: int,
                               extra: ManualOverrides, roster: Roster)
    requires InspectorValidators.ManualAuthorizationValid(b)
    requires b.manualDelegate.Some?
    ensures
      var p := ManualPayload(b, inspectorUserId, extra);
      UnregisteredLine(b.unregisteredDelegateReason.value) in ManualNoteParts(p, roster)
  {
    InspectorValidators.ManualAuthorizationShape(b);
    var p := ManualPayload(b, inspectorUserId, extra);
    assert p.manualDelegate.Some? && p.unregisteredDelegateReason == b.unregisteredDelegateReason;
    UnregisteredLineNoted(p, roster);
  }

  /** A validated body of `manualWithdrawalSchema`, as `processManualWithdrawal` receives it. */
  function ManualWithdrawalRequestOf(b: InspectorValidators.ManualWithdrawalBody): (r: ManualWithdrawalRequest)
    requires InspectorValidators.ManualWithdrawalValid(b)
    ensures IsRut(r.studentRut) && IsRut(r.parentRut) && r.reasonId > 0
  {
    ManualWithdrawalRequest(b.studentRut.value, b.parentRut.value, IntOf(b.reasonId.value), b.customReason, b.notes)
  }

  /** `toUpperCase` leaves a text without lower-case ASCII letters as it is. */
  lemma {:induction false} UpperKeepsUpper(s: string)
    requires forall i :: 0 <= i < |s| ==> !('a' <= s[i] <= 'z')
    ensures AsciiUpper(s) == s
  {
    assert forall i :: 0 <= i < |s| ==> AsciiUpper(s)[i] == s[i];
  }

  /** An action that passed `resolvePendingApprovalSchema` is its own upper-case form and
      one of the two the service accepts, so the guardian's resolution is never refused
      as an invalid action: APPROVE approves and DENY denies. */
  lemma ValidatedActionIsAccepted(q: ParentValidators.ResolvePendingApprovalRequest)
    requires ParentValidators.ResolvePendingApprovalValid(q)
    ensures AsciiUpper(q.action.value) == q.action.value
    ensures AsciiUpper(q.action.value) == ApproveAction || AsciiUpper(q.action.value) == DenyAction
  {
    var a := q.action.value;
    assert a == "APPROVE" || a == "DENY";
    UpperKeepsUpper(a);
  }

  /** With the schema's defaults and bounds, `hasMore` on a parent's history means the
      next page holds at least one row. */
  lemma ParentHistoryNextPage<T>(q: ParentValidators.HistoryQuery, rows: seq<T>)
    requires ParentValidators.HistoryQueryValid(q)
    ensures
      var h := ParentValidators.HistoryDefaults(q);
      HasMore(Some(h.limit), Some(h.offset), |rows|) <==> |Page(rows, h.offset + h.limit, h.limit)| > 0
  {
    var h := ParentValidators.HistoryDefaults(q);
    if HasMore(Some(h.limit), Some(h.offset), |rows|) {
      assert |Page(rows, h.offset + h.limit, h.limit)| >= 1;
    }
  }

  /** A valid body of `generateQrSchema`, as `generateQrCode` receives it: both ids are
      positive, so neither is mistaken for an absent one. */
  function GenerateQrRequestOf(b: ParentValidators.GenerateQrBody): (r: GenerateQrRequest)
    requires ParentValidators.GenerateQrValid(b)
    ensures r.studentId > 0 && r.reasonId > 0
    ensures r.studentId as real == b.studentId.value && r.reasonId as real == b.reasonId.value
    ensures r.customReason == b.customReason
  {
    GenerateQrRequest(IntOf(b.studentId.value), IntOf(b.reasonId.value), b.customReason)
  }
}
