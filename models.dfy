/** The tables the withdrawal engine reads and writes, and the store that holds them.
    Students, users, delegates and withdrawal reasons are only read by the engine; QR
    authorizations, withdrawals and emergency contacts are created, updated and deleted
    by it. Each table is a sequence of rows in primary-key order. */
module Models {
  import opened Common
  import opened Text

  /** WITHDRAWAL_STATUS. */
  datatype WithdrawalStatus = Pending | Approved | Denied

  /** WITHDRAWAL_METHOD. */
  datatype WithdrawalMethod = Qr | Manual

  datatype Student = Student(id: int, rut: string, parentId: Option<int>)

  datatype User = User(id: int, rut: string)

  /** A delegate registered ahead of time by the parent `parentUserId`. */
  datatype Delegate = Delegate(
    id: int,
    parentUserId: int,
    name: string,
    phone: string,
    relationshipToStudent: string)

  /** A row of `QrAuthorization`; instants are milliseconds. */
  datatype QrAuthorization = QrAuthorization(
    id: int,
    code: string,
    studentId: int,
    generatedByUserId: int,
    reasonId: int,
    expiresAt: int,
    customWithdrawalReason: Option<string>,
    isUsed: bool,
    assignedDelegateId: Option<int>,
    createdAt: int,
    updatedAt: int)

  /** A row of `EmergencyContact`: here, the temporary identity of an extraordinary delegate. */
  datatype EmergencyContact = EmergencyContact(
    id: int,
    parentUserId: int,
    name: string,
    phone: string,
    relationship: string,
    isVerified: bool,
    isTemporary: bool,
    isSingleUse: bool,
    singleUseConsumedAt: Option<int>)

  /** A row of `Withdrawal`: one pickup event. */
  datatype Withdrawal = Withdrawal(
    id: int,
    qrAuthorizationId: Option<int>,
    studentId: int,
    organizationApproverUserId: int,
    reasonId: int,
    withdrawalMethod: WithdrawalMethod,
    status: WithdrawalStatus,
    contactVerified: bool,
    retrieverUserId: Option<int>,
    retrieverDelegateId: Option<int>,
    retrieverEmergencyContactId: Option<int>,
    retrieverNameIfOther: Option<string>,
    retrieverRutIfOther: Option<string>,
    retrieverRelationshipIfOther: Option<string>,
    customWithdrawalReason: Option<string>,
    notes: Option<string>,
    withdrawalTime: int,
    guardianAuthorizerUserId: Option<int>,
    guardianAuthorizerEmergencyContactId: Option<int>)

  /** The errors the two services throw, one per message. */
  datatype Error =
    | ActiveQrExists
    | InvalidQrFormat
    | QrNotFoundOrUsed
    | QrExpired
    | StudentNotFound
    | StudentWithoutParent
    | BothDelegateKinds
    | ForcedWithoutManualDelegate
    | DiscardedDelegateNotOwned
    | SelectedDelegateDiscarded
    | DelegateNotFound
    | DelegateNotOwned
    | RegisteredDelegatesAvailable
    | OverrideReasonMissing
    | DelegatesNotAllDiscarded
    | NoDelegateGiven
    | StudentNotOwnedByParent
    | InvalidReason
    | InspectorNotFound
    | StudentRutNotFound
    | ParentRutNotFound
    | ParentNotAuthorized
    | PendingRequestNotFound
    | InvalidApprovalAction
    | ConfirmedRequestNotFound

  type Outcome<T> = Result<T, Error>

  /** `value || null` on an optional string: the empty string becomes null. */
  function StringOrNull(s: Option<string>): (r: Option<string>)
    ensures r.Some? <==> s.Some? && s.value != ""
    ensures r.Some? ==> r == s
  {
    if s.Some? && s.value != "" then s else None
  }

  /** `value || null` on an optional id: the id 0 becomes null. */
  function IdOrNull(n: Option<int>): (r: Option<int>)
    ensures r.Some? <==> n.Some? && n.value != 0
    ensures r.Some? ==> r == n
  {
    if n.Some? && n.value != 0 then n else None
  }

  /** JavaScript truthiness of an optional string: present and not empty. */
  predicate Truthy(s: Option<string>) {
    s.Some? && s.value != ""
  }

  /** JavaScript truthiness of an optional id: present and not 0. */
  predicate TruthyId(n: Option<int>) {
    n.Some? && n.value != 0
  }

  /** `Student.findByPk`. */
  function StudentById(students: seq<Student>, id: int): (r: Option<Student>)
    ensures r.Some? ==> r.value in students && r.value.id == id
    ensures r.None? ==> forall s :: s in students ==> s.id != id
  {
    match FirstIndex(students, (s: Student) => s.id == id)
    case Some(i) => Some(students[i])
    case None => None
  }

  /** `Student.findOne({ where: { rut } })`. */
  function StudentByRut(students: seq<Student>, rut: string): (r: Option<Student>)
    ensures r.Some? ==> r.value in students && r.value.rut == rut
    ensures r.None? ==> forall s :: s in students ==> s.rut != rut
  {
    match FirstIndex(students, (s: Student) => s.rut == rut)
    case Some(i) => Some(students[i])
    case None => None
  }

  /** `User.findByPk`. */
  function UserById(users: seq<User>, id: int): (r: Option<User>)
    ensures r.Some? ==> r.value in users && r.value.id == id
    ensures r.None? ==> forall u :: u in users ==> u.id != id
  {
    match FirstIndex(users, (u: User) => u.id == id)
    case Some(i) => Some(users[i])
    case None => None
  }

  /** `User.findOne({ where: { rut } })`. */
  function UserByRut(users: seq<User>, rut: string): (r: Option<User>)
    ensures r.Some? ==> r.value in users && r.value.rut == rut
    ensures r.None? ==> forall u :: u in users ==> u.rut != rut
  {
    match FirstIndex(users, (u: User) => u.rut == rut)
    case Some(i) => Some(users[i])
    case None => None
  }

  /** `Delegate.findByPk`. */
  function DelegateById(delegates: seq<Delegate>, id: int): (r: Option<Delegate>)
    ensures r.Some? ==> r.value in delegates && r.value.id == id
    ensures r.None? ==> forall d :: d in delegates ==> d.id != id
  {
    match FirstIndex(delegates, (d: Delegate) => d.id == id)
    case Some(i) => Some(delegates[i])
    case None => None
  }

  /** `parent.delegates`: the delegates registered by the user `parentId`. */
  function DelegatesOf(delegates: seq<Delegate>, parentId: int): (r: seq<Delegate>)
    ensures forall d :: d in r <==> d in delegates && d.parentUserId == parentId
  {
    Filter(delegates, (d: Delegate) => d.parentUserId == parentId)
  }

  // ----- Table invariants -----

  /** Row ids are positive, below the next id to hand out, and distinct. */
  ghost predicate QrIdsValid(qrs: seq<QrAuthorization>, next: int) {
    && (forall i :: 0 <= i < |qrs| ==> 1 <= qrs[i].id < next)
    && (forall i, j :: 0 <= i < j < |qrs| ==> qrs[i].id != qrs[j].id)
  }

  /** No two unused QR rows share a code, so a lookup by code among unused rows is unambiguous. */
  ghost predicate UnusedCodesDistinct(qrs: seq<QrAuthorization>) {
    forall i, j :: 0 <= i < j < |qrs| && !qrs[i].isUsed && !qrs[j].isUsed ==> qrs[i].code != qrs[j].code
  }

  ghost predicate QrTableValid(qrs: seq<QrAuthorization>, next: int) {
    && QrIdsValid(qrs, next)
    && (forall i :: 0 <= i < |qrs| ==> IsSixDigits(qrs[i].code))
    && UnusedCodesDistinct(qrs)
  }

  /** A PENDING withdrawal never names a registered delegate as its retriever. */
  ghost predicate PendingHaveNoDelegate(ws: seq<Withdrawal>) {
    forall i :: 0 <= i < |ws| && ws[i].status == Pending ==> ws[i].retrieverDelegateId.None?
  }

  ghost predicate WithdrawalTableValid(ws: seq<Withdrawal>, next: int) {
    && (forall i :: 0 <= i < |ws| ==> 1 <= ws[i].id < next)
    && (forall i, j :: 0 <= i < j < |ws| ==> ws[i].id != ws[j].id)
    && PendingHaveNoDelegate(ws)
  }

  function ContactIds(contacts: seq<EmergencyContact>): set<int> {
    set i | 0 <= i < |contacts| :: contacts[i].id
  }

  /** The emergency contacts withdrawals name as their retriever. */
  function ContactRefs(ws: seq<Withdrawal>): set<int> {
    set i | 0 <= i < |ws| && ws[i].retrieverEmergencyContactId.Some? :: ws[i].retrieverEmergencyContactId.value
  }

  /** No two withdrawals name the same emergency contact. */
  ghost predicate ContactRefsDistinct(ws: seq<Withdrawal>) {
    forall i, j :: 0 <= i < j < |ws| && ws[i].retrieverEmergencyContactId.Some? ==>
      ws[i].retrieverEmergencyContactId != ws[j].retrieverEmergencyContactId
  }

  /** Contact ids are positive, below the next id and distinct; every reference a
      withdrawal holds names an existing contact (the foreign key), and no contact is the
      retriever of two withdrawals. Contacts no withdrawal names may exist. */
  ghost predicate ContactTableValid(contacts: seq<EmergencyContact>, ws: seq<Withdrawal>, next: int) {
    && (forall i :: 0 <= i < |contacts| ==> 1 <= contacts[i].id < next)
    && (forall i, j :: 0 <= i < j < |contacts| ==> contacts[i].id != contacts[j].id)
    && ContactRefs(ws) <= ContactIds(contacts)
    && ContactRefsDistinct(ws)
  }

  /** Adding a contact adds exactly its id to the table's ids. */
  lemma ContactIdsSnoc(cs: seq<EmergencyContact>, c: EmergencyContact)
    ensures ContactIds(cs + [c]) == ContactIds(cs) + {c.id}
  {
    var cs' := cs + [c];
    forall x | x in ContactIds(cs') ensures x in ContactIds(cs) + {c.id} {
      var i :| 0 <= i < |cs'| && cs'[i].id == x;
      if i < |cs| { assert cs'[i] == cs[i]; }
    }
    forall x | x in ContactIds(cs) ensures x in ContactIds(cs') {
      var i :| 0 <= i < |cs| && cs[i].id == x;
      assert cs'[i] == cs[i];
    }
    assert cs'[|cs|] == c;
  }

  /** The sequence without its element at index `k`. */
  function RemoveAt<T>(s: seq<T>, k: nat): (r: seq<T>)
    requires k < |s|
    ensures |r| + 1 == |s|
    ensures forall i :: 0 <= i < k ==> r[i] == s[i]
    ensures forall i :: k <= i < |r| ==> r[i] == s[i + 1]
  {
    s[..k] + s[k + 1..]
  }

  /** Removing the contact at index `k` removes exactly its id, when ids are distinct. */
  lemma ContactIdsRemove(cs: seq<EmergencyContact>, k: nat)
    requires k < |cs|
    requires forall i, j :: 0 <= i < j < |cs| ==> cs[i].id != cs[j].id
    ensures ContactIds(RemoveAt(cs, k)) == ContactIds(cs) - {cs[k].id}
  {
    var cs' := RemoveAt(cs, k);
    forall x | x in ContactIds(cs') ensures x in ContactIds(cs) - {cs[k].id} {
      var i :| 0 <= i < |cs'| && cs'[i].id == x;
      if i < k { assert cs'[i] == cs[i]; } else { assert cs'[i] == cs[i + 1]; }
    }
    forall x | x in ContactIds(cs) - {cs[k].id} ensures x in ContactIds(cs') {
      var i :| 0 <= i < |cs| && cs[i].id == x;
      if i < k { assert cs'[i] == cs[i]; } else { assert i != k; assert cs'[i - 1] == cs[i]; }
    }
  }

  /** Removing the row at index `k` of a table with distinct ids drops exactly the rows
      with that id. */
  lemma RemoveAtMembers(cs: seq<EmergencyContact>, k: nat)
    requires k < |cs|
    requires forall i, j :: 0 <= i < j < |cs| ==> cs[i].id != cs[j].id
    ensures forall c :: c in RemoveAt(cs, k) <==> c in cs && c.id != cs[k].id
  {
    var cs' := RemoveAt(cs, k);
    forall c | c in cs' ensures c in cs && c.id != cs[k].id {
      var i :| 0 <= i < |cs'| && cs'[i] == c;
      if i < k { assert c == cs[i]; } else { assert c == cs[i + 1]; }
    }
    forall c | c in cs && c.id != cs[k].id ensures c in cs' {
      var i :| 0 <= i < |cs| && cs[i] == c;
      if i < k { assert cs'[i] == c; } else { assert i != k; assert cs'[i - 1] == c; }
    }
  }

  /** Removing a row keeps the ids of the others distinct. */
  lemma RemoveAtDistinct(cs: seq<EmergencyContact>, k: nat)
    requires k < |cs|
    requires forall i, j :: 0 <= i < j < |cs| ==> cs[i].id != cs[j].id
    ensures forall a, b :: 0 <= a < b < |RemoveAt(cs, k)| ==> RemoveAt(cs, k)[a].id != RemoveAt(cs, k)[b].id
  {
    var cs' := RemoveAt(cs, k);
    forall a, b | 0 <= a < b < |cs'| ensures cs'[a].id != cs'[b].id {
      var a' := if a < k then a else a + 1;
      var b' := if b < k then b else b + 1;
      assert cs'[a] == cs[a'] && cs'[b] == cs[b'];
    }
  }

  /** Clearing a withdrawal's contact reference keeps the references distinct. */
  lemma RefsDistinctDetach(ws: seq<Withdrawal>, k: nat, w: Withdrawal)
    requires k < |ws| && w.retrieverEmergencyContactId.None?
    requires ContactRefsDistinct(ws)
    ensures ContactRefsDistinct(ws[k := w])
  {
    var ws' := ws[k := w];
    forall i, j | 0 <= i < j < |ws'| && ws'[i].retrieverEmergencyContactId.Some?
      ensures ws'[i].retrieverEmergencyContactId != ws'[j].retrieverEmergencyContactId
    {
      if j != k { assert ws'[i] == ws[i] && ws'[j] == ws[j]; }
    }
  }

  /** Appending a withdrawal with the next id keeps the table valid, provided a PENDING
      row names no registered delegate. */
  lemma WithdrawalTableSnoc(ws: seq<Withdrawal>, next: int, w: Withdrawal)
    requires WithdrawalTableValid(ws, next) && 1 <= next && w.id == next
    requires w.status == Pending ==> w.retrieverDelegateId.None?
    ensures WithdrawalTableValid(ws + [w], next + 1)
  {
    var ws' := ws + [w];
    forall i | 0 <= i < |ws'| ensures ws'[i] == if i < |ws| then ws[i] else w {}
  }

  /** Appending a withdrawal that names no emergency contact keeps the contact table valid. */
  lemma ContactTableSnocNone(cs: seq<EmergencyContact>, ws: seq<Withdrawal>, next: int, w: Withdrawal)
    requires ContactTableValid(cs, ws, next) && w.retrieverEmergencyContactId.None?
    ensures ContactTableValid(cs, ws + [w], next)
  {
    ContactRefsSnoc(ws, w);
    var ws' := ws + [w];
    forall i, j | 0 <= i < j < |ws'| && ws'[i].retrieverEmergencyContactId.Some?
      ensures ws'[i].retrieverEmergencyContactId != ws'[j].retrieverEmergencyContactId
    {
      if j < |ws| { assert ws'[i] == ws[i] && ws'[j] == ws[j]; } else { assert ws'[j] == w; }
    }
  }

  /** Appending a withdrawal together with the new contact it names keeps every contact
      owned by exactly one withdrawal. */
  lemma ContactTableSnocSome(cs: seq<EmergencyContact>, ws: seq<Withdrawal>, next: int, w: Withdrawal, c: EmergencyContact)
    requires ContactTableValid(cs, ws, next) && 1 <= next
    requires c.id == next && w.retrieverEmergencyContactId == Some(next)
    ensures ContactTableValid(cs + [c], ws + [w], next + 1)
  {
    ContactRefsSnoc(ws, w);
    ContactIdsSnoc(cs, c);
    var ws' := ws + [w];
    var cs' := cs + [c];
    forall i, j | 0 <= i < j < |cs'| ensures cs'[i].id != cs'[j].id {
      if j < |cs| { assert cs'[i] == cs[i] && cs'[j] == cs[j]; } else { assert cs'[i] == cs[i] && cs'[j] == c; }
    }
    forall i, j | 0 <= i < j < |ws'| && ws'[i].retrieverEmergencyContactId.Some?
      ensures ws'[i].retrieverEmergencyContactId != ws'[j].retrieverEmergencyContactId
    {
      if j < |ws| {
        assert ws'[i] == ws[i] && ws'[j] == ws[j];
      } else {
        assert ws'[i] == ws[i] && ws'[j] == w;
        assert ws[i].retrieverEmergencyContactId.value in ContactRefs(ws);
      }
    }
  }

  /** Replacing a withdrawal by one with the same id keeps the table valid, provided a
      PENDING row still names no registered delegate. */
  lemma WithdrawalRowReplaced(ws: seq<Withdrawal>, next: int, k: nat, w: Withdrawal)
    requires WithdrawalTableValid(ws, next) && k < |ws| && w.id == ws[k].id
    requires w.status == Pending ==> w.retrieverDelegateId.None?
    ensures WithdrawalTableValid(ws[k := w], next)
  {
    var ws' := ws[k := w];
    forall i, j | 0 <= i < j < |ws'| ensures ws'[i].id != ws'[j].id {
      assert ws'[i].id == ws[i].id && ws'[j].id == ws[j].id;
    }
  }

  /** Replacing a withdrawal by one with the same contact reference keeps the contact
      table valid. */
  lemma ContactTableKeepRef(cs: seq<EmergencyContact>, ws: seq<Withdrawal>, next: int, k: nat, w: Withdrawal)
    requires ContactTableValid(cs, ws, next)
    requires k < |ws| && w.retrieverEmergencyContactId == ws[k].retrieverEmergencyContactId
    ensures ContactTableValid(cs, ws[k := w], next)
  {
    ContactRefsUpdate(ws, k, w);
    var ws' := ws[k := w];
    forall i, j | 0 <= i < j < |ws'| && ws'[i].retrieverEmergencyContactId.Some?
      ensures ws'[i].retrieverEmergencyContactId != ws'[j].retrieverEmergencyContactId
    {
      assert ws'[i].retrieverEmergencyContactId == ws[i].retrieverEmergencyContactId;
      assert ws'[j].retrieverEmergencyContactId == ws[j].retrieverEmergencyContactId;
    }
  }

  /** Destroying the contact of the withdrawal whose reference is cleared keeps every
      contact owned by exactly one withdrawal. */
  lemma DetachKeepsContactTable(cs: seq<EmergencyContact>, ws: seq<Withdrawal>, next: int, k: nat, w: Withdrawal, j: nat)
    requires ContactTableValid(cs, ws, next)
    requires k < |ws| && ws[k].retrieverEmergencyContactId.Some? && w.retrieverEmergencyContactId.None?
    requires j < |cs| && cs[j].id == ws[k].retrieverEmergencyContactId.value
    ensures ContactTableValid(RemoveAt(cs, j), ws[k := w], next)
  {
    ContactRefsDetach(ws, k, w);
    ContactIdsRemove(cs, j);
    RemoveAtDistinct(cs, j);
    RefsDistinctDetach(ws, k, w);
  }

  /** Replacing a contact by one with the same id keeps the table's ids. */
  lemma ContactIdsUpdate(cs: seq<EmergencyContact>, k: nat, c: EmergencyContact)
    requires k < |cs| && c.id == cs[k].id
    ensures ContactIds(cs[k := c]) == ContactIds(cs)
  {
    var cs' := cs[k := c];
    forall x | x in ContactIds(cs') ensures x in ContactIds(cs) {
      var i :| 0 <= i < |cs'| && cs'[i].id == x;
      assert cs[i].id == x;
    }
    forall x | x in ContactIds(cs) ensures x in ContactIds(cs') {
      var i :| 0 <= i < |cs| && cs[i].id == x;
      assert cs'[i].id == x;
    }
  }

  /** Appending a withdrawal adds its contact reference, if it has one. */
  lemma ContactRefsSnoc(ws: seq<Withdrawal>, w: Withdrawal)
    ensures ContactRefs(ws + [w]) ==
      ContactRefs(ws) + (if w.retrieverEmergencyContactId.Some? then {w.retrieverEmergencyContactId.value} else {})
  {
    var ws' := ws + [w];
    forall x | x in ContactRefs(ws') ensures x in ContactRefs(ws) || (w.retrieverEmergencyContactId == Some(x)) {
      var i :| 0 <= i < |ws'| && ws'[i].retrieverEmergencyContactId == Some(x);
      if i < |ws| { assert ws'[i] == ws[i]; }
    }
    forall x | x in ContactRefs(ws) ensures x in ContactRefs(ws') {
      var i :| 0 <= i < |ws| && ws[i].retrieverEmergencyContactId == Some(x);
      assert ws'[i] == ws[i];
    }
    assert ws'[|ws|] == w;
  }

  /** Replacing a withdrawal by one with the same contact reference keeps the references. */
  lemma ContactRefsUpdate(ws: seq<Withdrawal>, k: nat, w: Withdrawal)
    requires k < |ws| && w.retrieverEmergencyContactId == ws[k].retrieverEmergencyContactId
    ensures ContactRefs(ws[k := w]) == ContactRefs(ws)
  {
    var ws' := ws[k := w];
    forall x | x in ContactRefs(ws') ensures x in ContactRefs(ws) {
      var i :| 0 <= i < |ws'| && ws'[i].retrieverEmergencyContactId == Some(x);
      assert ws[i].retrieverEmergencyContactId == Some(x);
    }
    forall x | x in ContactRefs(ws) ensures x in ContactRefs(ws') {
      var i :| 0 <= i < |ws| && ws[i].retrieverEmergencyContactId == Some(x);
      assert ws'[i].retrieverEmergencyContactId == Some(x);
    }
  }

  /** Clearing the contact reference of the only withdrawal holding it removes that reference. */
  lemma ContactRefsDetach(ws: seq<Withdrawal>, k: nat, w: Withdrawal)
    requires k < |ws| && ws[k].retrieverEmergencyContactId.Some? && w.retrieverEmergencyContactId.None?
    requires ContactRefsDistinct(ws)
    ensures ContactRefs(ws[k := w]) == ContactRefs(ws) - {ws[k].retrieverEmergencyContactId.value}
  {
    var ws' := ws[k := w];
    var id := ws[k].retrieverEmergencyContactId.value;
    forall x | x in ContactRefs(ws') ensures x in ContactRefs(ws) - {id} {
      var i :| 0 <= i < |ws'| && ws'[i].retrieverEmergencyContactId == Some(x);
      assert i != k && ws[i].retrieverEmergencyContactId == Some(x);
      if i < k { assert ws[i].retrieverEmergencyContactId != ws[k].retrieverEmergencyContactId; }
      else { assert ws[k].retrieverEmergencyContactId != ws[i].retrieverEmergencyContactId; }
    }
    forall x | x in ContactRefs(ws) - {id} ensures x in ContactRefs(ws') {
      var i :| 0 <= i < |ws| && ws[i].retrieverEmergencyContactId == Some(x);
      assert i != k;
      assert ws'[i].retrieverEmergencyContactId == Some(x);
    }
  }

  /** The relational store. The reference tables are fixed for the store's lifetime;
      the three tables the engine writes are fields the operations reassign. */
  class Database {
    const students: seq<Student>
    const users: seq<User>
    const reasons: set<int>
    const delegates: seq<Delegate>

    var qrs: seq<QrAuthorization>
    var withdrawals: seq<Withdrawal>
    var contacts: seq<EmergencyContact>
    var nextQrId: int
    var nextWithdrawalId: int
    var nextContactId: int

    ghost predicate Valid()
      reads this
    {
      && 1 <= nextQrId && 1 <= nextWithdrawalId && 1 <= nextContactId
      && QrTableValid(qrs, nextQrId)
      && WithdrawalTableValid(withdrawals, nextWithdrawalId)
      && ContactTableValid(contacts, withdrawals, nextContactId)
    }

    constructor (students: seq<Student>, users: seq<User>, reasons: set<int>, delegates: seq<Delegate>)
      ensures Valid()
      ensures this.students == students && this.users == users
      ensures this.reasons == reasons && this.delegates == delegates
      ensures qrs == [] && withdrawals == [] && contacts == []
    {
      this.students := students;
      this.users := users;
      this.reasons := reasons;
      this.delegates := delegates;
      qrs, withdrawals, contacts := [], [], [];
      nextQrId, nextWithdrawalId, nextContactId := 1, 1, 1;
    }

    /** `QrAuthorization.create`: the row takes the next id. An unused row must carry a
        code no other unused row has. */
    method InsertQr(row: QrAuthorization)
      requires Valid()
      requires row.id == nextQrId && IsSixDigits(row.code)
      requires !row.isUsed ==> forall i :: 0 <= i < |qrs| && !qrs[i].isUsed ==> qrs[i].code != row.code
      modifies this`qrs, this`nextQrId
      ensures Valid()
      ensures qrs == old(qrs) + [row] && nextQrId == old(nextQrId) + 1
    {
      qrs := qrs + [row];
      nextQrId := nextQrId + 1;
    }

    /** `qrAuth.update`: the row keeps its id and code, and a used row stays used. */
    method UpdateQr(k: nat, row: QrAuthorization)
      requires Valid() && k < |qrs|
      requires row.id == qrs[k].id && row.code == qrs[k].code && (qrs[k].isUsed ==> row.isUsed)
      modifies this`qrs
      ensures Valid()
      ensures qrs == old(qrs)[k := row]
    {
      qrs := qrs[k := row];
    }

    /** `Withdrawal.create`, together with the `EmergencyContact.create` of the temporary
        identity it points at, if any, inside the same transaction. */
    method InsertWithdrawal(row: Withdrawal, contact: Option<EmergencyContact>)
      requires Valid()
      requires row.id == nextWithdrawalId
      requires row.status == Pending ==> row.retrieverDelegateId.None?
      requires contact.Some? ==> contact.value.id == nextContactId && row.retrieverEmergencyContactId == Some(nextContactId)
      requires contact.None? ==> row.retrieverEmergencyContactId.None?
      modifies this`withdrawals, this`contacts, this`nextWithdrawalId, this`nextContactId
      ensures Valid()
      ensures withdrawals == old(withdrawals) + [row] && nextWithdrawalId == old(nextWithdrawalId) + 1
      ensures contact.Some? ==> contacts == old(contacts) + [contact.value] && nextContactId == old(nextContactId) + 1
      ensures contact.None? ==> contacts == old(contacts) && nextContactId == old(nextContactId)
    {
      WithdrawalTableSnoc(withdrawals, nextWithdrawalId, row);
      if contact.Some? {
        ContactTableSnocSome(contacts, withdrawals, nextContactId, row, contact.value);
        contacts := contacts + [contact.value];
        nextContactId := nextContactId + 1;
      } else {
        ContactTableSnocNone(contacts, withdrawals, nextContactId, row);
      }
      withdrawals := withdrawals + [row];
      nextWithdrawalId := nextWithdrawalId + 1;
    }

    /** `withdrawal.save` of a row that keeps its id and its contact reference. */
    method UpdateWithdrawal(k: nat, row: Withdrawal)
      requires Valid() && k < |withdrawals|
      requires row.id == withdrawals[k].id
      requires row.retrieverEmergencyContactId == withdrawals[k].retrieverEmergencyContactId
      requires row.status == Pending ==> row.retrieverDelegateId.None?
      modifies this`withdrawals
      ensures Valid()
      ensures withdrawals == old(withdrawals)[k := row]
    {
      WithdrawalRowReplaced(withdrawals, nextWithdrawalId, k, row);
      ContactTableKeepRef(contacts, withdrawals, nextContactId, k, row);
      withdrawals := withdrawals[k := row];
    }

    /** `contact.update` of a row that keeps its id. */
    method UpdateContact(k: nat, c: EmergencyContact)
      requires Valid() && k < |contacts| && c.id == contacts[k].id
      modifies this`contacts
      ensures Valid()
      ensures contacts == old(contacts)[k := c]
    {
      ContactIdsUpdate(contacts, k, c);
      contacts := contacts[k := c];
    }

    /** `withdrawal.save` of a row whose contact reference is cleared, together with the
        `destroy` of the contact it pointed at. */
    method DetachContact(k: nat, row: Withdrawal)
      requires Valid() && k < |withdrawals|
      requires row.id == withdrawals[k].id && row.retrieverEmergencyContactId.None?
      requires row.status == Pending ==> row.retrieverDelegateId.None?
      modifies this`withdrawals, this`contacts
      ensures Valid()
      ensures withdrawals == old(withdrawals)[k := row]
      ensures old(withdrawals[k].retrieverEmergencyContactId).None? ==> contacts == old(contacts)
      ensures old(withdrawals[k].retrieverEmergencyContactId).Some? ==>
        var id := old(withdrawals[k].retrieverEmergencyContactId.value);
        |contacts| + 1 == |old(contacts)| &&
        (forall c :: c in contacts <==> c in old(contacts) && c.id != id)
    {
      var ref := withdrawals[k].retrieverEmergencyContactId;
      var cs := contacts;
      WithdrawalRowReplaced(withdrawals, nextWithdrawalId, k, row);
      if ref.None? {
        ContactTableKeepRef(contacts, withdrawals, nextContactId, k, row);
      } else {
        assert ref.value in ContactRefs(withdrawals);
        var j :| 0 <= j < |contacts| && contacts[j].id == ref.value;
        DetachKeepsContactTable(contacts, withdrawals, nextContactId, k, row, j);
        RemoveAtMembers(contacts, j);
        cs := RemoveAt(contacts, j);
      }
      withdrawals, contacts := withdrawals[k := row], cs;
    }
  }
}
