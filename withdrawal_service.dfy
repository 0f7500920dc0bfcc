/** WithdrawalService: the withdrawal records. They are created on three paths (a
    scanned QR code, an inspector's manual entry by RUT, and the manual authorization
    of QrAuthorizationService). A PENDING record, whose retriever is an extraordinary
    delegate, is then resolved by the student's parent and finalized by the inspector.

    Every operation runs in one transaction: on an error nothing it wrote remains. */
module WithdrawalService {
  import opened Common
  import opened Text
  import opened Models
  import opened QrAuthorizationService

  /** MANUAL_APPROVAL_ACTION and QR_ACTION. */
  const ApproveAction: string := "APPROVE"
  const DenyAction: string := "DENY"

  // ----- createWithdrawalRecord -----

  /** What a caller hands to `createWithdrawalRecord`; `None` is an absent field. */
  datatype ProcessWithdrawalData = ProcessWithdrawalData(
    studentId: int,
    inspectorUserId: int,
    reasonId: int,
    withdrawalMethod: WithdrawalMethod,
    status: WithdrawalStatus,
    qrAuthorizationId: Option<int>,
    retrieverUserId: Option<int>,
    retrieverDelegateId: Option<int>,
    retrieverNameIfOther: Option<string>,
    retrieverRutIfOther: Option<string>,
    retrieverRelationshipIfOther: Option<string>,
    customReason: Option<string>,
    notes: Option<string>,
    unregisteredDelegateReason: Option<string>,
    contactVerified: Option<bool>)

  /** The note lines of a new record: the caller's notes, then the reason the delegate
      is not registered, each only when given and not empty. */
  function RecordNoteParts(data: ProcessWithdrawalData): seq<string> {
    (if Truthy(data.notes) then [data.notes.value] else []) +
    (if Truthy(data.unregisteredDelegateReason) then [UnregisteredLine(data.unregisteredDelegateReason.value)] else [])
  }

  /** The row `createWithdrawalRecord` inserts: empty ids and strings become null and
      `contactVerified` defaults to true. */
  function RecordRow(id: int, data: ProcessWithdrawalData, now: int): Withdrawal {
    Withdrawal(id, IdOrNull(data.qrAuthorizationId), data.studentId, data.inspectorUserId, data.reasonId,
      data.withdrawalMethod, data.status,
      if data.contactVerified.Some? then data.contactVerified.value else true,
      IdOrNull(data.retrieverUserId), IdOrNull(data.retrieverDelegateId), None,
      StringOrNull(data.retrieverNameIfOther), StringOrNull(data.retrieverRutIfOther),
      StringOrNull(data.retrieverRelationshipIfOther), StringOrNull(data.customReason),
      NotesOf(RecordNoteParts(data)), now, None, None)
  }

  /** A new record's notes are null exactly when neither text was given; otherwise they
      are the given texts, newline-joined, in that order. */
  lemma RecordNotesText(data: ProcessWithdrawalData)
    ensures NotesOf(RecordNoteParts(data)).None? <==> !Truthy(data.notes) && !Truthy(data.unregisteredDelegateReason)
    ensures Truthy(data.notes) && !Truthy(data.unregisteredDelegateReason) ==>
      NotesOf(RecordNoteParts(data)) == data.notes
    ensures !Truthy(data.notes) && Truthy(data.unregisteredDelegateReason) ==>
      NotesOf(RecordNoteParts(data)) == Some(UnregisteredLine(data.unregisteredDelegateReason.value))
    ensures Truthy(data.notes) && Truthy(data.unregisteredDelegateReason) ==>
      NotesOf(RecordNoteParts(data)) ==
        Some(data.notes.value + "\n" + UnregisteredLine(data.unregisteredDelegateReason.value))
  {
    if Truthy(data.notes) && Truthy(data.unregisteredDelegateReason) {
      JoinSnoc([data.notes.value], UnregisteredLine(data.unregisteredDelegateReason.value), "\n");
    }
  }

  /** Inserts the record the data describes, with the next id. */
  method CreateWithdrawalRecord(db: Database, data: ProcessWithdrawalData, now: int) returns (w: Withdrawal)
    requires db.Valid()
    requires data.status == Pending ==> IdOrNull(data.retrieverDelegateId).None?
    modifies db`withdrawals, db`nextWithdrawalId, db`contacts, db`nextContactId
    ensures db.Valid()
    ensures w == RecordRow(old(db.nextWithdrawalId), data, now)
    ensures db.withdrawals == old(db.withdrawals) + [w] && db.nextWithdrawalId == old(db.nextWithdrawalId) + 1
    ensures db.contacts == old(db.contacts) && db.nextContactId == old(db.nextContactId)
  {
    var composedNotesParts: seq<string> := [];
    if Truthy(data.notes) {
      composedNotesParts := composedNotesParts + [data.notes.value];
    }
    if Truthy(data.unregisteredDelegateReason) {
      composedNotesParts := composedNotesParts + [UnregisteredLine(data.unregisteredDelegateReason.value)];
    }
    var composedNotes := if |composedNotesParts| > 0 then Some(Join(composedNotesParts, "\n")) else None;
    w := Withdrawal(db.nextWithdrawalId, IdOrNull(data.qrAuthorizationId), data.studentId, data.inspectorUserId,
      data.reasonId, data.withdrawalMethod, data.status,
      if data.contactVerified.Some? then data.contactVerified.value else true,
      IdOrNull(data.retrieverUserId), IdOrNull(data.retrieverDelegateId), None,
      StringOrNull(data.retrieverNameIfOther), StringOrNull(data.retrieverRutIfOther),
      StringOrNull(data.retrieverRelationshipIfOther), StringOrNull(data.customReason),
      composedNotes, now, None, None);
    db.InsertWithdrawal(w, None);
  }

  /** What the two record-creating endpoints answer. */
  datatype WithdrawalResult = WithdrawalResult(
    id: int,
    status: WithdrawalStatus,
    withdrawalMethod: WithdrawalMethod,
    withdrawalTime: int,
    studentId: int,
    reasonId: int,
    customReason: Option<string>,
    notes: Option<string>)

  function ResultOf(w: Withdrawal, customReason: Option<string>): WithdrawalResult {
    WithdrawalResult(w.id, w.status, w.withdrawalMethod, w.withdrawalTime, w.studentId, w.reasonId,
      customReason, StringOrNull(w.notes))
  }

  // ----- generateQrCode -----

  datatype GenerateQrRequest = GenerateQrRequest(studentId: int, reasonId: int, customReason: Option<string>)

  datatype GeneratedQr = GeneratedQr(qrCode: string, expiresAt: int, studentId: int, reasonId: int,
                                     customReason: Option<string>)

  /** `Student.findOne({ where: { id, parentId } })`. */
  function OwnedStudent(students: seq<Student>, studentId: int, parentUserId: int): (r: Option<Student>)
    ensures r.Some? ==> r.value in students && r.value.id == studentId && r.value.parentId == Some(parentUserId)
    ensures r.None? <==> forall s :: s in students ==> !(s.id == studentId && s.parentId == Some(parentUserId))
  {
    match FirstIndex(students, (s: Student) => s.id == studentId && s.parentId == Some(parentUserId))
    case Some(i) => Some(students[i])
    case None => None
  }

  /** A parent asks for a QR code for one of their students. The student must be the
      parent's, the reason must exist, and the issuing rules of `createQrAuthorization`
      apply; `code` and `expiresAt` are what the QR generator produced. */
  method GenerateQrCode(db: Database, data: GenerateQrRequest, parentUserId: int, now: int, code: string, expiresAt: int)
    returns (r: Outcome<GeneratedQr>)
    requires db.Valid()
    requires IsSixDigits(code)
    requires forall i :: 0 <= i < |db.qrs| && !db.qrs[i].isUsed ==> db.qrs[i].code != code
    modifies db`qrs, db`nextQrId
    ensures db.Valid()
    ensures OwnedStudent(db.students, data.studentId, parentUserId).None? ==>
      r == Err(StudentNotOwnedByParent) && db.qrs == old(db.qrs) && db.nextQrId == old(db.nextQrId)
    ensures OwnedStudent(db.students, data.studentId, parentUserId).Some? && data.reasonId !in db.reasons ==>
      r == Err(InvalidReason) && db.qrs == old(db.qrs) && db.nextQrId == old(db.nextQrId)
    ensures (&& OwnedStudent(db.students, data.studentId, parentUserId).Some? && data.reasonId in db.reasons
             && old(ActiveIndexFor(db.qrs, data.studentId, now)).Some?) ==>
      r == Err(ActiveQrExists) && db.qrs == old(db.qrs) && db.nextQrId == old(db.nextQrId)
    ensures (&& OwnedStudent(db.students, data.studentId, parentUserId).Some? && data.reasonId in db.reasons
             && old(ActiveIndexFor(db.qrs, data.studentId, now)).None?) ==>
      && r == Ok(GeneratedQr(code, expiresAt, data.studentId, data.reasonId, data.customReason))
      && db.qrs == old(db.qrs) + [IssuedRow(old(db.nextQrId), code,
           CreateQrAuthorizationData(data.studentId, parentUserId, data.reasonId, data.customReason), expiresAt, now)]
    ensures old(AtMostOneActivePerStudent(db.qrs, now)) ==> AtMostOneActivePerStudent(db.qrs, now)
  {
    var student := OwnedStudent(db.students, data.studentId, parentUserId);
    if student.None? {
      return Err(StudentNotOwnedByParent);
    }
    if data.reasonId !in db.reasons {
      return Err(InvalidReason);
    }
    var issued := CreateQrAuthorization(db,
      CreateQrAuthorizationData(data.studentId, parentUserId, data.reasonId, data.customReason), now, code, expiresAt);
    if issued.Err? {
      return Err(issued.error);
    }
    r := Ok(GeneratedQr(issued.value.qrCode, issued.value.expiresAt, student.value.id, data.reasonId, data.customReason));
  }

  // ----- validateAndProcessQr -----

  datatype ValidateQrRequest = ValidateQrRequest(qrCode: string, action: string, notes: Option<string>)

  /** The record a scanned QR code produces: QR method, APPROVED exactly when the
      inspector approved, and the parent who issued the code as the retriever. */
  function QrWithdrawalData(info: QrValidationInfo, qrAuthId: int, req: ValidateQrRequest, inspectorUserId: int)
    : ProcessWithdrawalData
  {
    ProcessWithdrawalData(info.studentId, inspectorUserId, info.reasonId, Qr,
      if req.action == ApproveAction then Approved else Denied,
      Some(qrAuthId), Some(info.parentId), None, None, None, None, info.customReason, req.notes, None, None)
  }

  /** The facts the QR path promises about its record. */
  lemma QrRecordFacts(id: int, info: QrValidationInfo, qrAuthId: int, req: ValidateQrRequest, inspectorUserId: int, now: int)
    ensures
      var w := RecordRow(id, QrWithdrawalData(info, qrAuthId, req, inspectorUserId), now);
      && w.withdrawalMethod == Qr
      && (w.status == Approved <==> req.action == ApproveAction)
      && (w.status == Denied <==> req.action != ApproveAction)
      && w.contactVerified
      && w.retrieverUserId == IdOrNull(Some(info.parentId))
      && w.retrieverDelegateId.None? && w.retrieverEmergencyContactId.None?
      && w.qrAuthorizationId == IdOrNull(Some(qrAuthId))
  {
  }

  /** An inspector scans a code. It must be well formed, found among the unused codes
      and not expired; the code is consumed and a QR-method record created. A missing
      inspector undoes the consumption. */
  method ValidateAndProcessQr(db: Database, req: ValidateQrRequest, inspectorUserId: int, now: int)
    returns (r: Outcome<WithdrawalResult>)
    requires db.Valid()
    modifies db`qrs, db`withdrawals, db`nextWithdrawalId, db`contacts, db`nextContactId
    ensures db.Valid()
    ensures db.contacts == old(db.contacts) && db.nextContactId == old(db.nextContactId)
    ensures old(GetQrValidationInfo(db.qrs, req.qrCode, now)).Err? ==>
      && r == Err(old(GetQrValidationInfo(db.qrs, req.qrCode, now)).error)
      && db.qrs == old(db.qrs) && db.withdrawals == old(db.withdrawals) && db.nextWithdrawalId == old(db.nextWithdrawalId)
    ensures old(GetQrValidationInfo(db.qrs, req.qrCode, now)).Ok? && old(GetQrValidationInfo(db.qrs, req.qrCode, now)).value.isExpired ==>
      && r == Err(QrExpired)
      && db.qrs == old(db.qrs) && db.withdrawals == old(db.withdrawals) && db.nextWithdrawalId == old(db.nextWithdrawalId)
    ensures (&& old(GetQrValidationInfo(db.qrs, req.qrCode, now)).Ok?
             && !old(GetQrValidationInfo(db.qrs, req.qrCode, now)).value.isExpired
             && UserById(db.users, inspectorUserId).None?) ==>
      && r == Err(InspectorNotFound)
      && db.qrs == old(db.qrs) && db.withdrawals == old(db.withdrawals) && db.nextWithdrawalId == old(db.nextWithdrawalId)
    ensures (&& old(GetQrValidationInfo(db.qrs, req.qrCode, now)).Ok?
             && !old(GetQrValidationInfo(db.qrs, req.qrCode, now)).value.isExpired
             && UserById(db.users, inspectorUserId).Some?) ==>
      var info := old(GetQrValidationInfo(db.qrs, req.qrCode, now)).value;
      var k := old(UnusedIndexByCode(db.qrs, req.qrCode)).value;
      var w := RecordRow(old(db.nextWithdrawalId), QrWithdrawalData(info, old(db.qrs[k].id), req, inspectorUserId), now);
      && db.qrs == old(db.qrs)[k := Consumed(old(db.qrs[k]), now)]
      && db.withdrawals == old(db.withdrawals) + [w]
      && db.nextWithdrawalId == old(db.nextWithdrawalId) + 1
      && r == Ok(ResultOf(w, info.customReason))
    ensures r.Ok? ==> GetQrValidationInfo(db.qrs, req.qrCode, now) == Err(QrNotFoundOrUsed)
    ensures old(AtMostOneActivePerStudent(db.qrs, now)) ==> AtMostOneActivePerStudent(db.qrs, now)
  {
    var qrInfo := GetQrValidationInfo(db.qrs, req.qrCode, now);
    if qrInfo.Err? {
      return Err(qrInfo.error);
    }
    if qrInfo.value.isExpired {
      return Err(QrExpired);
    }
    var saved := db.qrs;
    var qrAuth := MarkQrAsUsed(db, req.qrCode, now);
    if qrAuth.Err? {
      assert false;
    }
    var inspector := UserById(db.users, inspectorUserId);
    if inspector.None? {
      db.qrs := saved;
      return Err(InspectorNotFound);
    }
    var withdrawal := CreateWithdrawalRecord(db, QrWithdrawalData(qrInfo.value, qrAuth.value.id, req, inspectorUserId), now);
    r := Ok(ResultOf(withdrawal, qrInfo.value.customReason));
  }

  // ----- processManualWithdrawal -----

  datatype ManualWithdrawalRequest = ManualWithdrawalRequest(
    studentRut: string,
    parentRut: string,
    reasonId: int,
    customReason: Option<string>,
    notes: Option<string>)

  /** The record a manual entry by RUT produces: MANUAL, APPROVED, with the parent as retriever. */
  function ManualWithdrawalData(student: Student, parent: User, req: ManualWithdrawalRequest, inspectorUserId: int)
    : ProcessWithdrawalData
  {
    ProcessWithdrawalData(student.id, inspectorUserId, req.reasonId, Manual, Approved, None, Some(parent.id),
      None, None, None, None, req.customReason, req.notes, None, None)
  }

  /** An inspector records a pickup by the parent, both identified by RUT. The parent
      must be the student's, the reason and the inspector must exist. */
  method ProcessManualWithdrawal(db: Database, req: ManualWithdrawalRequest, inspectorUserId: int, now: int)
    returns (r: Outcome<WithdrawalResult>)
    requires db.Valid()
    modifies db`withdrawals, db`nextWithdrawalId, db`contacts, db`nextContactId
    ensures db.Valid()
    ensures db.contacts == old(db.contacts) && db.nextContactId == old(db.nextContactId)
    ensures StudentByRut(db.students, req.studentRut).None? ==>
      r == Err(StudentRutNotFound) && db.withdrawals == old(db.withdrawals)
    ensures StudentByRut(db.students, req.studentRut).Some? && UserByRut(db.users, req.parentRut).None? ==>
      r == Err(ParentRutNotFound) && db.withdrawals == old(db.withdrawals)
    ensures (&& StudentByRut(db.students, req.studentRut).Some? && UserByRut(db.users, req.parentRut).Some?
             && StudentByRut(db.students, req.studentRut).value.parentId != Some(UserByRut(db.users, req.parentRut).value.id)) ==>
      r == Err(ParentNotAuthorized) && db.withdrawals == old(db.withdrawals)
    ensures (&& StudentByRut(db.students, req.studentRut).Some? && UserByRut(db.users, req.parentRut).Some?
             && StudentByRut(db.students, req.studentRut).value.parentId == Some(UserByRut(db.users, req.parentRut).value.id)
             && req.reasonId !in db.reasons) ==>
      r == Err(InvalidReason) && db.withdrawals == old(db.withdrawals)
    ensures (&& StudentByRut(db.students, req.studentRut).Some? && UserByRut(db.users, req.parentRut).Some?
             && StudentByRut(db.students, req.studentRut).value.parentId == Some(UserByRut(db.users, req.parentRut).value.id)
             && req.reasonId in db.reasons && UserById(db.users, inspectorUserId).None?) ==>
      r == Err(InspectorNotFound) && db.withdrawals == old(db.withdrawals)
    ensures (&& StudentByRut(db.students, req.studentRut).Some? && UserByRut(db.users, req.parentRut).Some?
             && StudentByRut(db.students, req.studentRut).value.parentId == Some(UserByRut(db.users, req.parentRut).value.id)
             && req.reasonId in db.reasons && UserById(db.users, inspectorUserId).Some?) ==>
      var w := RecordRow(old(db.nextWithdrawalId),
        ManualWithdrawalData(StudentByRut(db.students, req.studentRut).value, UserByRut(db.users, req.parentRut).value,
          req, inspectorUserId), now);
      && r == Ok(ResultOf(w, req.customReason))
      && db.withdrawals == old(db.withdrawals) + [w]
      && db.nextWithdrawalId == old(db.nextWithdrawalId) + 1
    ensures r.Err? ==> db.withdrawals == old(db.withdrawals) && db.nextWithdrawalId == old(db.nextWithdrawalId)
    ensures r.Ok? ==>
      var student := StudentByRut(db.students, req.studentRut).value;
      var parent := UserByRut(db.users, req.parentRut).value;
      var w := RecordRow(old(db.nextWithdrawalId), ManualWithdrawalData(student, parent, req, inspectorUserId), now);
      && student.parentId == Some(parent.id) && req.reasonId in db.reasons && UserById(db.users, inspectorUserId).Some?
      && db.withdrawals == old(db.withdrawals) + [w]
      && r == Ok(ResultOf(w, req.customReason))
  {
    var student := StudentByRut(db.students, req.studentRut);
    if student.None? {
      return Err(StudentRutNotFound);
    }
    var parent := UserByRut(db.users, req.parentRut);
    if parent.None? {
      return Err(ParentRutNotFound);
    }
    if student.value.parentId != Some(parent.value.id) {
      return Err(ParentNotAuthorized);
    }
    if req.reasonId !in db.reasons {
      return Err(InvalidReason);
    }
    var inspector := UserById(db.users, inspectorUserId);
    if inspector.None? {
      return Err(InspectorNotFound);
    }
    var withdrawal := CreateWithdrawalRecord(db, ManualWithdrawalData(student.value, parent.value, req, inspectorUserId), now);
    r := Ok(ResultOf(withdrawal, req.customReason));
  }

  /** The RUT path records a MANUAL, APPROVED pickup by the student's own parent. */
  lemma ManualRecordFacts(id: int, student: Student, parent: User, req: ManualWithdrawalRequest, inspectorUserId: int, now: int)
    requires student.parentId == Some(parent.id)
    ensures
      var w := RecordRow(id, ManualWithdrawalData(student, parent, req, inspectorUserId), now);
      && w.withdrawalMethod == Manual && w.status == Approved && w.contactVerified
      && w.retrieverUserId == IdOrNull(student.parentId) && w.studentId == student.id
      && w.qrAuthorizationId.None? && w.retrieverEmergencyContactId.None?
  {
  }

  // ----- Notes of a resolution -----

  /** The comment line, when the trimmed comment is not empty. */
  function CommentNote(prefix: string, comment: Option<string>): seq<string> {
    if comment.Some? && Trim(comment.value) != "" then [prefix + Trim(comment.value)] else []
  }

  /** The old notes (when not empty), the action line, then the comment line if any. */
  function AppendedNoteParts(notes: Option<string>, line: string, commentPart: seq<string>): seq<string> {
    (if Truthy(notes) then [notes.value] else []) + [line] + commentPart
  }

  /** The `notesParts` pushes of a resolution: the old notes when not empty, the action
      line, then the trimmed comment when not empty. */
  method PushResolutionNotes(notes: Option<string>, line: string, prefix: string, comment: Option<string>)
    returns (notesParts: seq<string>)
    ensures notesParts == AppendedNoteParts(notes, line, CommentNote(prefix, comment))
  {
    notesParts := [];
    if Truthy(notes) {
      notesParts := notesParts + [notes.value];
    }
    notesParts := notesParts + [line];
    if comment.Some? && Trim(comment.value) != "" {
      notesParts := notesParts + [prefix + Trim(comment.value)];
    }
  }

  /** The old notes and the action line, joined. */
  lemma {:induction false} NotesHeadText(notes: Option<string>, line: string)
    ensures Join((if Truthy(notes) then [notes.value] else []) + [line], "\n") ==
      (if Truthy(notes) then notes.value + "\n" else "") + line
  {
    if Truthy(notes) {
      assert [notes.value] + [line] == [notes.value, line];
      JoinSnoc([notes.value], line, "\n");
    } else {
      assert [] + [line] == [line];
    }
  }

  /** The joined notes of a resolution: the old notes and a newline, the action line,
      and a newline with the comment line. */
  lemma {:induction false} AppendedNotesText(notes: Option<string>, line: string, prefix: string, comment: Option<string>)
    ensures Join(AppendedNoteParts(notes, line, CommentNote(prefix, comment)), "\n") ==
      (if Truthy(notes) then notes.value + "\n" else "") + line +
      (if comment.Some? && Trim(comment.value) != "" then "\n" + prefix + Trim(comment.value) else "")
  {
    var head := (if Truthy(notes) then [notes.value] else []) + [line];
    NotesHeadText(notes, line);
    if comment.Some? && Trim(comment.value) != "" {
      assert AppendedNoteParts(notes, line, CommentNote(prefix, comment)) == head + [prefix + Trim(comment.value)];
      NotesWithComment(head, (if Truthy(notes) then notes.value + "\n" else "") + line, prefix, Trim(comment.value));
    } else {
      assert AppendedNoteParts(notes, line, CommentNote(prefix, comment)) == head;
    }
  }

  /** Appending the comment line to joined notes. */
  lemma {:induction false} NotesWithComment(head: seq<string>, headText: string, prefix: string, comment: string)
    requires |head| > 0 && Join(head, "\n") == headText
    ensures Join(head + [prefix + comment], "\n") == headText + ("\n" + prefix + comment)
  {
    JoinSnoc(head, prefix + comment, "\n");
    assert headText + "\n" + (prefix + comment) == headText + ("\n" + prefix + comment);
  }

  // ----- resolvePendingManualApproval -----

  const GuardianApprovedLine: string := "Apoderado aprobó al delegado extraordinario."
  const GuardianDeniedLine: string := "Apoderado rechazó al delegado extraordinario."
  const GuardianCommentPrefix: string := "Comentario apoderado: "

  /** The query of `resolvePendingManualApproval`: the MANUAL, PENDING, unverified record
      with that id, whose student is the parent's. */
  predicate AwaitingGuardian(w: Withdrawal, students: seq<Student>, parentUserId: int, withdrawalId: int) {
    && w.id == withdrawalId && w.withdrawalMethod == Manual && w.status == Pending && !w.contactVerified
    && OwnedStudent(students, w.studentId, parentUserId).Some?
  }

  function PendingIndexFor(ws: seq<Withdrawal>, students: seq<Student>, parentUserId: int, withdrawalId: int)
    : (r: Option<nat>)
    ensures r.Some? ==> r.value < |ws| && AwaitingGuardian(ws[r.value], students, parentUserId, withdrawalId)
    ensures r.None? <==> forall i :: 0 <= i < |ws| ==> !AwaitingGuardian(ws[i], students, parentUserId, withdrawalId)
  {
    FirstIndex(ws, (w: Withdrawal) => AwaitingGuardian(w, students, parentUserId, withdrawalId))
  }

  /** `EmergencyContact` of a record, looked up by id. */
  function ContactIndexById(cs: seq<EmergencyContact>, id: int): (r: Option<nat>)
    ensures r.Some? ==> r.value < |cs| && cs[r.value].id == id
    ensures r.None? <==> forall i :: 0 <= i < |cs| ==> cs[i].id != id
  {
    FirstIndex(cs, (c: EmergencyContact) => c.id == id)
  }

  /** Under the table invariant a record's contact reference always resolves. */
  lemma ContactResolves(contacts: seq<EmergencyContact>, ws: seq<Withdrawal>, next: int, k: nat)
    requires ContactTableValid(contacts, ws, next)
    requires k < |ws| && ws[k].retrieverEmergencyContactId.Some?
    ensures ContactIndexById(contacts, ws[k].retrieverEmergencyContactId.value).Some?
  {
    var id := ws[k].retrieverEmergencyContactId.value;
    assert id in ContactRefs(ws);
    assert id in ContactIds(contacts);
  }

  /** The record after the parent approved its extraordinary delegate: still PENDING. */
  function GuardianApproved(w: Withdrawal, parentUserId: int, notes: Option<string>): Withdrawal {
    w.(contactVerified := true, guardianAuthorizerUserId := Some(parentUserId),
       guardianAuthorizerEmergencyContactId := w.retrieverEmergencyContactId, notes := notes)
  }

  /** The record after the parent rejected its extraordinary delegate. */
  function GuardianDenied(w: Withdrawal, parentUserId: int, notes: Option<string>): Withdrawal {
    w.(status := Denied, contactVerified := false, guardianAuthorizerUserId := Some(parentUserId),
       retrieverEmergencyContactId := None, guardianAuthorizerEmergencyContactId := None, notes := notes)
  }

  /** The contact an approval verifies; its first consumption instant is kept. */
  function VerifiedContact(c: EmergencyContact, now: int): EmergencyContact {
    c.(isVerified := true, isTemporary := true, isSingleUse := true,
       singleUseConsumedAt := if c.singleUseConsumedAt.Some? then c.singleUseConsumedAt else Some(now))
  }

  datatype ManualApprovalResolution = ManualApprovalResolution(
    id: int,
    status: WithdrawalStatus,
    contactVerified: bool,
    notes: Option<string>)

  /** The writes of a parent's approval: the record is verified and the temporary contact
      it points at is marked verified and consumed. */
  method ApproveExtraordinaryDelegate(db: Database, k: nat, parentUserId: int, notes: Option<string>, now: int)
    requires db.Valid()
    requires k < |db.withdrawals| && db.withdrawals[k].status == Pending
    modifies db`withdrawals, db`contacts
    ensures db.Valid()
    ensures db.withdrawals == old(db.withdrawals)[k := GuardianApproved(old(db.withdrawals[k]), parentUserId, notes)]
    ensures old(db.withdrawals[k].retrieverEmergencyContactId).Some? ==>
      var c := old(ContactIndexById(db.contacts, db.withdrawals[k].retrieverEmergencyContactId.value));
      c.Some? && db.contacts == old(db.contacts)[c.value := VerifiedContact(old(db.contacts)[c.value], now)]
    ensures old(db.withdrawals[k].retrieverEmergencyContactId).None? ==> db.contacts == old(db.contacts)
  {
    var withdrawal := db.withdrawals[k];
    if withdrawal.retrieverEmergencyContactId.Some? {
      ContactResolves(db.contacts, db.withdrawals, db.nextContactId, k);
      var c := ContactIndexById(db.contacts, withdrawal.retrieverEmergencyContactId.value).value;
      db.UpdateContact(c, VerifiedContact(db.contacts[c], now));
    }
    assert withdrawal.retrieverDelegateId.None?;
    db.UpdateWithdrawal(k, GuardianApproved(withdrawal, parentUserId, notes));
  }

  /** The parent approves or rejects the extraordinary delegate of a pending record.
      `action` is compared after upper-casing. A rejection deletes the temporary contact. */
  method ResolvePendingManualApproval(db: Database, parentUserId: int, withdrawalId: int, action: string,
                                      comment: Option<string>, now: int)
    returns (r: Outcome<ManualApprovalResolution>)
    requires db.Valid()
    modifies db`withdrawals, db`contacts
    ensures db.Valid()
    ensures old(PendingIndexFor(db.withdrawals, db.students, parentUserId, withdrawalId)).None? ==>
      r == Err(PendingRequestNotFound) && db.withdrawals == old(db.withdrawals) && db.contacts == old(db.contacts)
    ensures (&& old(PendingIndexFor(db.withdrawals, db.students, parentUserId, withdrawalId)).Some?
             && AsciiUpper(action) != ApproveAction && AsciiUpper(action) != DenyAction) ==>
      r == Err(InvalidApprovalAction) && db.withdrawals == old(db.withdrawals) && db.contacts == old(db.contacts)
    ensures old(PendingIndexFor(db.withdrawals, db.students, parentUserId, withdrawalId)).Some? && AsciiUpper(action) == ApproveAction ==>
      var k := old(PendingIndexFor(db.withdrawals, db.students, parentUserId, withdrawalId)).value;
      var w := old(db.withdrawals[k]);
      var notes := Some(Join(AppendedNoteParts(w.notes, GuardianApprovedLine, CommentNote(GuardianCommentPrefix, comment)), "\n"));
      && db.withdrawals == old(db.withdrawals)[k := GuardianApproved(w, parentUserId, notes)]
      && (w.retrieverEmergencyContactId.Some? ==>
            var c := old(ContactIndexById(db.contacts, w.retrieverEmergencyContactId.value));
            c.Some? && db.contacts == old(db.contacts)[c.value := VerifiedContact(old(db.contacts)[c.value], now)])
      && (w.retrieverEmergencyContactId.None? ==> db.contacts == old(db.contacts))
      && r == Ok(ManualApprovalResolution(w.id, Pending, true, StringOrNull(notes)))
    ensures old(PendingIndexFor(db.withdrawals, db.students, parentUserId, withdrawalId)).Some? && AsciiUpper(action) == DenyAction ==>
      var k := old(PendingIndexFor(db.withdrawals, db.students, parentUserId, withdrawalId)).value;
      var w := old(db.withdrawals[k]);
      var notes := Some(Join(AppendedNoteParts(w.notes, GuardianDeniedLine, CommentNote(GuardianCommentPrefix, comment)), "\n"));
      && db.withdrawals == old(db.withdrawals)[k := GuardianDenied(w, parentUserId, notes)]
      && (w.retrieverEmergencyContactId.Some? ==>
            |db.contacts| + 1 == |old(db.contacts)| &&
            forall c :: c in db.contacts <==> c in old(db.contacts) && c.id != w.retrieverEmergencyContactId.value)
      && (w.retrieverEmergencyContactId.None? ==> db.contacts == old(db.contacts))
      && r == Ok(ManualApprovalResolution(w.id, Denied, false, StringOrNull(notes)))
  {
    var found := PendingIndexFor(db.withdrawals, db.students, parentUserId, withdrawalId);
    if found.None? {
      return Err(PendingRequestNotFound);
    }
    var k := found.value;
    var withdrawal := db.withdrawals[k];
    var normalizedAction := AsciiUpper(action);
    if normalizedAction != ApproveAction && normalizedAction != DenyAction {
      return Err(InvalidApprovalAction);
    }
    var approve := normalizedAction == ApproveAction;
    var line := if approve then GuardianApprovedLine else GuardianDeniedLine;
    var notesParts := PushResolutionNotes(withdrawal.notes, line, GuardianCommentPrefix, comment);
    var notes := Some(Join(notesParts, "\n"));
    if approve {
      ApproveExtraordinaryDelegate(db, k, parentUserId, notes, now);
      r := Ok(ManualApprovalResolution(withdrawal.id, Pending, true, StringOrNull(notes)));
    } else {
      db.DetachContact(k, GuardianDenied(withdrawal, parentUserId, notes));
      r := Ok(ManualApprovalResolution(withdrawal.id, Denied, false, StringOrNull(notes)));
    }
  }

  /** A record an accepted manual authorization creates for an extraordinary delegate is
      one the parent can resolve: MANUAL, PENDING, unverified, pointing at the temporary
      contact and at no registered delegate. */
  lemma ExtraordinaryRecordAwaitsGuardian(id: int, p: ManualAuthorizationPayload, qrAuthId: int, contactId: int,
                                          notes: Option<string>, now: int, students: seq<Student>, parentUserId: int)
    requires p.manualDelegate.Some?
    requires OwnedStudent(students, p.studentId, parentUserId).Some?
    ensures
      var w := ManualWithdrawalRow(id, p, qrAuthId, None, Some(contactId), notes, now);
      && AwaitingGuardian(w, students, parentUserId, id)
      && w.retrieverEmergencyContactId == Some(contactId) && w.retrieverDelegateId.None?
  {
  }

  // ----- finalizeInspectorManualApproval -----

  const InspectorRejectedLine: string := "Inspector rechazó el retiro tras la confirmación."
  const InspectorAuthorizedLine: string := "Inspector autorizó el retiro tras confirmación del apoderado."
  const InspectorCommentPrefix: string := "Comentario inspector: "

  datatype Finalization = Finalization(status: WithdrawalStatus, line: string)

  /** The query of `finalizeInspectorManualApproval` as written: a MANUAL, PENDING,
      verified record of this inspector that names a registered delegate. */
  predicate ConfirmedAsWritten(w: Withdrawal, inspectorUserId: int, withdrawalId: int) {
    && w.id == withdrawalId && w.withdrawalMethod == Manual && w.status == Pending && w.contactVerified
    && w.organizationApproverUserId == inspectorUserId && w.retrieverDelegateId.Some?
  }

  function ConfirmedIndexAsWritten(ws: seq<Withdrawal>, inspectorUserId: int, withdrawalId: int): (r: Option<nat>)
    ensures r.Some? ==> r.value < |ws| && ConfirmedAsWritten(ws[r.value], inspectorUserId, withdrawalId)
    ensures r.None? <==> forall i :: 0 <= i < |ws| ==> !ConfirmedAsWritten(ws[i], inspectorUserId, withdrawalId)
  {
    FirstIndex(ws, (w: Withdrawal) => ConfirmedAsWritten(w, inspectorUserId, withdrawalId))
  }

  /** The status and note line as written: APPROVE and DENY both approve, under the
      rejection line; anything else denies, under the authorization line. */
  function InspectorFinalizationAsWritten(action: string): Finalization {
    if action == ApproveAction || action == DenyAction then Finalization(Approved, InspectorRejectedLine)
    else Finalization(Denied, InspectorAuthorizedLine)
  }

  /** A PENDING record never names a registered delegate, so the query as written finds nothing. */
  lemma ConfirmedAsWrittenUnreachable(ws: seq<Withdrawal>, inspectorUserId: int, withdrawalId: int)
    requires PendingHaveNoDelegate(ws)
    ensures ConfirmedIndexAsWritten(ws, inspectorUserId, withdrawalId).None?
  {
    forall i | 0 <= i < |ws| ensures !ConfirmedAsWritten(ws[i], inspectorUserId, withdrawalId) {
      if ws[i].status == Pending {
        assert ws[i].retrieverDelegateId.None?;
      }
    }
  }

  /** DENY approves the pickup, and APPROVE records that the inspector rejected it. */
  lemma InspectorFinalizationInverted()
    ensures InspectorFinalizationAsWritten(DenyAction).status == Approved
    ensures InspectorFinalizationAsWritten(ApproveAction) == Finalization(Approved, InspectorRejectedLine)
  {
  }

  /** `finalizeInspectorManualApproval` as written. Its query can match no record of a
      valid store, so it always fails and writes nothing. */
  method FinalizeInspectorManualApproval(db: Database, inspectorUserId: int, withdrawalId: int, action: string,
                                         comment: Option<string>, now: int)
    returns (r: Outcome<ManualApprovalResolution>)
    requires db.Valid()
    modifies db`withdrawals
    ensures db.Valid()
    ensures old(ConfirmedIndexAsWritten(db.withdrawals, inspectorUserId, withdrawalId)).Some? ==>
      var k := old(ConfirmedIndexAsWritten(db.withdrawals, inspectorUserId, withdrawalId)).value;
      var w := old(db.withdrawals[k]);
      var f := InspectorFinalizationAsWritten(action);
      var notes := Some(Join(AppendedNoteParts(w.notes, f.line, CommentNote(InspectorCommentPrefix, comment)), "\n"));
      && db.withdrawals == old(db.withdrawals)[k := w.(status := f.status, notes := notes, withdrawalTime := now)]
      && r == Ok(ManualApprovalResolution(w.id, f.status, w.contactVerified, StringOrNull(notes)))
    ensures r == Err(ConfirmedRequestNotFound) && db.withdrawals == old(db.withdrawals)
  {
    ConfirmedAsWrittenUnreachable(db.withdrawals, inspectorUserId, withdrawalId);
    var found := ConfirmedIndexAsWritten(db.withdrawals, inspectorUserId, withdrawalId);
    if found.Some? {
      assert false;
    }
    r := Err(ConfirmedRequestNotFound);
  }

  /** The query as evidently intended: the verified record of this inspector whose
      retriever is the extraordinary delegate the parent approved. */
  predicate ConfirmedByGuardian(w: Withdrawal, inspectorUserId: int, withdrawalId: int) {
    && w.id == withdrawalId && w.withdrawalMethod == Manual && w.status == Pending && w.contactVerified
    && w.organizationApproverUserId == inspectorUserId && w.retrieverEmergencyContactId.Some?
  }

  function ConfirmedIndex(ws: seq<Withdrawal>, inspectorUserId: int, withdrawalId: int): (r: Option<nat>)
    ensures r.Some? ==> r.value < |ws| && ConfirmedByGuardian(ws[r.value], inspectorUserId, withdrawalId)
    ensures r.None? <==> forall i :: 0 <= i < |ws| ==> !ConfirmedByGuardian(ws[i], inspectorUserId, withdrawalId)
  {
    FirstIndex(ws, (w: Withdrawal) => ConfirmedByGuardian(w, inspectorUserId, withdrawalId))
  }

  /** The status and note line as evidently intended: APPROVE approves under the
      authorization line, anything else denies under the rejection line. */
  function InspectorFinalization(action: string): (f: Finalization)
    ensures f.status == Approved <==> action == ApproveAction
    ensures f.status == Approved <==> f.line == InspectorAuthorizedLine
    ensures f.status == Denied <==> f.line == InspectorRejectedLine
  {
    if action == ApproveAction then Finalization(Approved, InspectorAuthorizedLine)
    else Finalization(Denied, InspectorRejectedLine)
  }

  /** A record the parent approved reaches the inspector's corrected query, and never the
      query as written. */
  lemma GuardianApprovalReachesInspector(w: Withdrawal, parentUserId: int, notes: Option<string>)
    requires w.withdrawalMethod == Manual && w.status == Pending
    requires w.retrieverEmergencyContactId.Some? && w.retrieverDelegateId.None?
    ensures ConfirmedByGuardian(GuardianApproved(w, parentUserId, notes), w.organizationApproverUserId, w.id)
    ensures !ConfirmedAsWritten(GuardianApproved(w, parentUserId, notes), w.organizationApproverUserId, w.id)
  {
  }

  /** The inspector finalizes a record the parent confirmed: APPROVE approves the pickup,
      anything else denies it, and the pickup instant is now. */
  method FinalizeConfirmedManualApproval(db: Database, inspectorUserId: int, withdrawalId: int, action: string,
                                         comment: Option<string>, now: int)
    returns (r: Outcome<ManualApprovalResolution>)
    requires db.Valid()
    modifies db`withdrawals
    ensures db.Valid()
    ensures old(ConfirmedIndex(db.withdrawals, inspectorUserId, withdrawalId)).None? ==>
      r == Err(ConfirmedRequestNotFound) && db.withdrawals == old(db.withdrawals)
    ensures old(ConfirmedIndex(db.withdrawals, inspectorUserId, withdrawalId)).Some? ==>
      var k := old(ConfirmedIndex(db.withdrawals, inspectorUserId, withdrawalId)).value;
      var w := old(db.withdrawals[k]);
      var f := InspectorFinalization(action);
      var notes := Some(Join(AppendedNoteParts(w.notes, f.line, CommentNote(InspectorCommentPrefix, comment)), "\n"));
      && db.withdrawals == old(db.withdrawals)[k := w.(status := f.status, notes := notes, withdrawalTime := now)]
      && r == Ok(ManualApprovalResolution(w.id, f.status, true, StringOrNull(notes)))
  {
    var found := ConfirmedIndex(db.withdrawals, inspectorUserId, withdrawalId);
    if found.None? {
      return Err(ConfirmedRequestNotFound);
    }
    var k := found.value;
    var withdrawal := db.withdrawals[k];
    var f := InspectorFinalization(action);
    var notesParts := PushResolutionNotes(withdrawal.notes, f.line, InspectorCommentPrefix, comment);
    var notes := Some(Join(notesParts, "\n"));
    db.UpdateWithdrawal(k, withdrawal.(status := f.status, notes := notes, withdrawalTime := now));
    r := Ok(ManualApprovalResolution(withdrawal.id, f.status, withdrawal.contactVerified, StringOrNull(notes)));
  }

  // ----- History pagination -----

  /** `offset + limit < count`, with `limit` defaulting to 20 and `offset` to 0. */
  function HasMore(limit: Option<nat>, offset: Option<nat>, count: nat): bool {
    (if offset.Some? then offset.value else 0) + (if limit.Some? then limit.value else 20) < count
  }

  /** `hasMore` holds exactly when matching rows remain after the page returned. */
  lemma HasMoreIffRowsRemain<T>(rows: seq<T>, limit: Option<nat>, offset: Option<nat>)
    ensures
      var l := if limit.Some? then limit.value else 20;
      var o := if offset.Some? then offset.value else 0;
      HasMore(limit, offset, |rows|) <==> o + |Page(rows, o, l)| < |rows|
  {
  }
}
