/** QrAuthorizationService: the lifecycle of a QR pickup credential (issue, look up,
    consume, sweep), the history a parent sees of the credentials they issued, and the
    inspector's manual authorization of a pickup when no QR is presented.

    Instants are milliseconds. `now`, and the code and expiry instant the QR generator
    would produce, are parameters. */
module QrAuthorizationService {
  import opened Common
  import opened Text
  import opened Models

  // ----- Expiry and activity -----

  /** `QrGeneratorUtil.isExpired`, taken as: the expiry instant is not after now. */
  predicate IsExpired(expiresAt: int, now: int) {
    expiresAt <= now
  }

  /** The filter `isUsed = false AND expiresAt > now` of the "active QR" queries. */
  predicate IsActive(q: QrAuthorization, now: int) {
    !q.isUsed && q.expiresAt > now
  }

  /** The credential invariant: no student has two active QR codes at once. */
  ghost predicate AtMostOneActivePerStudent(qrs: seq<QrAuthorization>, now: int) {
    forall i, j :: 0 <= i < j < |qrs| && IsActive(qrs[i], now) && IsActive(qrs[j], now) ==>
      qrs[i].studentId != qrs[j].studentId
  }

  /** The invariant survives the passing of time: codes only leave the active set. */
  lemma AtMostOneActiveLater(qrs: seq<QrAuthorization>, now: int, later: int)
    requires now <= later
    requires AtMostOneActivePerStudent(qrs, now)
    ensures AtMostOneActivePerStudent(qrs, later)
  {
  }

  /** `QrAuthorization.findOne` of an active code for the student. */
  function ActiveIndexFor(qrs: seq<QrAuthorization>, studentId: int, now: int): (r: Option<nat>)
    ensures r.Some? ==> r.value < |qrs| && qrs[r.value].studentId == studentId && IsActive(qrs[r.value], now)
    ensures r.None? <==> forall i :: 0 <= i < |qrs| ==> !(qrs[i].studentId == studentId && IsActive(qrs[i], now))
  {
    FirstIndex(qrs, (q: QrAuthorization) => q.studentId == studentId && IsActive(q, now))
  }

  /** `QrAuthorization.findOne({ where: { code, isUsed: false } })`. */
  function UnusedIndexByCode(qrs: seq<QrAuthorization>, code: string): (r: Option<nat>)
    ensures r.Some? ==> r.value < |qrs| && qrs[r.value].code == code && !qrs[r.value].isUsed
    ensures r.None? <==> forall i :: 0 <= i < |qrs| ==> !(qrs[i].code == code && !qrs[i].isUsed)
  {
    FirstIndex(qrs, (q: QrAuthorization) => q.code == code && !q.isUsed)
  }

  /** Under the table invariant the unused row with a given code is unique, so the
      lookup finds exactly that row. */
  lemma UnusedLookupFindsTheRow(qrs: seq<QrAuthorization>, k: nat)
    requires UnusedCodesDistinct(qrs)
    requires k < |qrs| && !qrs[k].isUsed
    ensures UnusedIndexByCode(qrs, qrs[k].code) == Some(k)
  {
    assert forall j :: 0 <= j < k ==> !(qrs[j].code == qrs[k].code && !qrs[j].isUsed);
  }

  // ----- createQrAuthorization -----

  datatype CreateQrAuthorizationData = CreateQrAuthorizationData(
    studentId: int,
    parentUserId: int,
    reasonId: int,
    customReason: Option<string>)

  datatype IssuedQr = IssuedQr(qrCode: string, expiresAt: int, qrAuthId: int)

  /** The row `createQrAuthorization` inserts. */
  function IssuedRow(id: int, code: string, data: CreateQrAuthorizationData, expiresAt: int, now: int): QrAuthorization {
    QrAuthorization(id, code, data.studentId, data.parentUserId, data.reasonId, expiresAt,
      StringOrNull(data.customReason), false, None, now, now)
  }

  /** Issues a QR code for a student, unless the student already has an active one.
      `code` and `expiresAt` are what the generator produced: six digits, and a code no
      unused row carries. */
  method CreateQrAuthorization(db: Database, data: CreateQrAuthorizationData, now: int, code: string, expiresAt: int)
    returns (r: Outcome<IssuedQr>)
    requires db.Valid()
    requires IsSixDigits(code)
    requires forall i :: 0 <= i < |db.qrs| && !db.qrs[i].isUsed ==> db.qrs[i].code != code
    modifies db`qrs, db`nextQrId
    ensures db.Valid()
    ensures old(ActiveIndexFor(db.qrs, data.studentId, now)).Some? ==>
      r == Err(ActiveQrExists) && db.qrs == old(db.qrs) && db.nextQrId == old(db.nextQrId)
    ensures old(ActiveIndexFor(db.qrs, data.studentId, now)).None? ==>
      && r == Ok(IssuedQr(code, expiresAt, old(db.nextQrId)))
      && db.qrs == old(db.qrs) + [IssuedRow(old(db.nextQrId), code, data, expiresAt, now)]
      && UnusedIndexByCode(db.qrs, code) == Some(|old(db.qrs)|)
    ensures old(AtMostOneActivePerStudent(db.qrs, now)) ==> AtMostOneActivePerStudent(db.qrs, now)
  {
    var active := ActiveIndexFor(db.qrs, data.studentId, now);
    if active.Some? {
      return Err(ActiveQrExists);
    }
    var id := db.nextQrId;
    var row := IssuedRow(id, code, data, expiresAt, now);
    db.InsertQr(row);
    UnusedLookupFindsTheRow(db.qrs, |db.qrs| - 1);
    r := Ok(IssuedQr(code, expiresAt, id));
  }

  // ----- getQrValidationInfo -----

  /** What an inspector is shown about a scanned code; `parentId` is the user who issued it. */
  datatype QrValidationInfo = QrValidationInfo(
    qrAuthId: int,
    studentId: int,
    parentId: int,
    reasonId: int,
    customReason: Option<string>,
    expiresAt: int,
    generatedAt: int,
    isExpired: bool)

  function InfoOf(q: QrAuthorization, now: int): QrValidationInfo {
    QrValidationInfo(q.id, q.studentId, q.generatedByUserId, q.reasonId,
      StringOrNull(q.customWithdrawalReason), q.expiresAt, q.createdAt, IsExpired(q.expiresAt, now))
  }

  /** Checks the code's format, then looks it up among the unused codes. An expired code
      is still found, and reported as expired. */
  function GetQrValidationInfo(qrs: seq<QrAuthorization>, code: string, now: int): (r: Outcome<QrValidationInfo>)
    ensures !IsSixDigits(code) ==> r == Err(InvalidQrFormat)
    ensures IsSixDigits(code) ==>
      (r == Err(QrNotFoundOrUsed) <==> forall i :: 0 <= i < |qrs| ==> !(qrs[i].code == code && !qrs[i].isUsed))
    ensures r.Ok? ==> (r.value.isExpired <==> IsExpired(r.value.expiresAt, now))
    ensures r.Err? ==> r.error == InvalidQrFormat || r.error == QrNotFoundOrUsed
  {
    if !IsSixDigits(code) then Err(InvalidQrFormat)
    else match UnusedIndexByCode(qrs, code)
      case None => Err(QrNotFoundOrUsed)
      case Some(k) => Ok(InfoOf(qrs[k], now))
  }

  /** A code just issued is found by the validation lookup, with the data it was issued with. */
  lemma IssuedCodeIsValidated(qrs: seq<QrAuthorization>, id: int, code: string,
                              data: CreateQrAuthorizationData, expiresAt: int, now: int)
    requires UnusedCodesDistinct(qrs)
    requires IsSixDigits(code)
    requires forall i :: 0 <= i < |qrs| && !qrs[i].isUsed ==> qrs[i].code != code
    ensures GetQrValidationInfo(qrs + [IssuedRow(id, code, data, expiresAt, now)], code, now) ==
      Ok(QrValidationInfo(id, data.studentId, data.parentUserId, data.reasonId,
        StringOrNull(data.customReason), expiresAt, now, expiresAt <= now))
  {
    var qrs' := qrs + [IssuedRow(id, code, data, expiresAt, now)];
    assert UnusedCodesDistinct(qrs');
    UnusedLookupFindsTheRow(qrs', |qrs|);
  }

  /** Whatever unused row carries the code is the one described. */
  lemma ValidationDescribesTheRow(qrs: seq<QrAuthorization>, k: nat, now: int)
    requires UnusedCodesDistinct(qrs)
    requires k < |qrs| && !qrs[k].isUsed && IsSixDigits(qrs[k].code)
    ensures GetQrValidationInfo(qrs, qrs[k].code, now) == Ok(InfoOf(qrs[k], now))
  {
    UnusedLookupFindsTheRow(qrs, k);
  }

  // ----- markQrAsUsed -----

  function Consumed(q: QrAuthorization, now: int): QrAuthorization {
    q.(isUsed := true, updatedAt := now)
  }

  /** Consuming the unused row that carries a code leaves no unused row with that code. */
  lemma ConsumeIsOneShot(qrs: seq<QrAuthorization>, k: nat, now: int)
    requires UnusedCodesDistinct(qrs)
    requires k < |qrs| && !qrs[k].isUsed
    ensures UnusedIndexByCode(qrs[k := Consumed(qrs[k], now)], qrs[k].code).None?
  {
    var qrs' := qrs[k := Consumed(qrs[k], now)];
    forall i | 0 <= i < |qrs'| ensures !(qrs'[i].code == qrs[k].code && !qrs'[i].isUsed) {
      if i < k {
        assert !qrs[i].isUsed ==> qrs[i].code != qrs[k].code;
      } else if i > k {
        assert !qrs[i].isUsed ==> qrs[k].code != qrs[i].code;
      }
    }
  }

  /** Consumes a code: fails when no unused row has it or when it has expired, and
      otherwise marks the row used. A second call with the same code then fails. */
  method MarkQrAsUsed(db: Database, code: string, now: int) returns (r: Outcome<QrAuthorization>)
    requires db.Valid()
    modifies db`qrs
    ensures db.Valid()
    ensures old(UnusedIndexByCode(db.qrs, code)).None? ==> r == Err(QrNotFoundOrUsed) && db.qrs == old(db.qrs)
    ensures old(UnusedIndexByCode(db.qrs, code)).Some? ==>
      var k := old(UnusedIndexByCode(db.qrs, code)).value;
      && (IsExpired(old(db.qrs[k].expiresAt), now) ==> r == Err(QrExpired) && db.qrs == old(db.qrs))
      && (!IsExpired(old(db.qrs[k].expiresAt), now) ==>
            r == Ok(Consumed(old(db.qrs[k]), now)) && db.qrs == old(db.qrs)[k := Consumed(old(db.qrs[k]), now)])
    ensures r.Ok? ==> UnusedIndexByCode(db.qrs, code).None?
    ensures old(AtMostOneActivePerStudent(db.qrs, now)) ==> AtMostOneActivePerStudent(db.qrs, now)
  {
    var found := UnusedIndexByCode(db.qrs, code);
    if found.None? {
      return Err(QrNotFoundOrUsed);
    }
    var k := found.value;
    var q := db.qrs[k];
    if IsExpired(q.expiresAt, now) {
      return Err(QrExpired);
    }
    ConsumeIsOneShot(db.qrs, k, now);
    db.UpdateQr(k, Consumed(q, now));
    r := Ok(Consumed(q, now));
  }

  // ----- getActiveQrForStudent -----

  /** `Math.max(0, Math.floor((expiresAt - now) / 60000))`: whole minutes left. */
  function MinutesRemaining(expiresAt: int, now: int): (m: nat)
    ensures expiresAt <= now ==> m == 0
    ensures expiresAt > now ==> m * 60000 <= expiresAt - now < (m + 1) * 60000
  {
    if expiresAt - now <= 0 then 0 else (expiresAt - now) / 60000
  }

  datatype ActiveQr = ActiveQr(
    qrCode: string,
    expiresAt: int,
    qrAuthId: int,
    minutesRemaining: nat,
    customReason: Option<string>)

  /** The active code a parent issued for a student, if any. */
  function GetActiveQrForStudent(qrs: seq<QrAuthorization>, studentId: int, parentUserId: int, now: int)
    : (r: Option<ActiveQr>)
    ensures r.None? <==> forall i :: 0 <= i < |qrs| ==>
      !(qrs[i].studentId == studentId && qrs[i].generatedByUserId == parentUserId && IsActive(qrs[i], now))
    ensures r.Some? ==> r.value.expiresAt > now && r.value.minutesRemaining * 60000 < r.value.expiresAt - now + 60000
    ensures r.Some? ==>
      exists i :: && 0 <= i < |qrs|
                  && qrs[i].studentId == studentId && qrs[i].generatedByUserId == parentUserId && IsActive(qrs[i], now)
                  && r.value == ActiveQr(qrs[i].code, qrs[i].expiresAt, qrs[i].id,
                                         MinutesRemaining(qrs[i].expiresAt, now), qrs[i].customWithdrawalReason)
  {
    match FirstIndex(qrs, (q: QrAuthorization) =>
      q.studentId == studentId && q.generatedByUserId == parentUserId && IsActive(q, now))
    case None => None
    case Some(k) =>
      var q := qrs[k];
      Some(ActiveQr(q.code, q.expiresAt, q.id, MinutesRemaining(q.expiresAt, now), q.customWithdrawalReason))
  }

  // ----- cleanExpiredQrs -----

  /** The rows `cleanExpiredQrs` destroys: unused, and expired strictly before now. */
  predicate Swept(q: QrAuthorization, now: int) {
    !q.isUsed && q.expiresAt < now
  }

  function Sweep(qrs: seq<QrAuthorization>, now: int): (r: seq<QrAuthorization>)
    ensures |r| <= |qrs|
    ensures forall q :: q in r <==> q in qrs && !Swept(q, now)
  {
    if |qrs| == 0 then []
    else if Swept(qrs[0], now) then Sweep(qrs[1..], now)
    else [qrs[0]] + Sweep(qrs[1..], now)
  }

  /** Number of rows a sweep destroys. */
  function SweptCount(qrs: seq<QrAuthorization>, now: int): nat {
    if |qrs| == 0 then 0 else (if Swept(qrs[0], now) then 1 else 0) + SweptCount(qrs[1..], now)
  }

  /** The sweep keeps every row it does not destroy. */
  lemma {:induction false} SweepCount(qrs: seq<QrAuthorization>, now: int)
    ensures |Sweep(qrs, now)| + SweptCount(qrs, now) == |qrs|
  {
    if |qrs| > 0 {
      SweepCount(qrs[1..], now);
    }
  }

  /** Sweeping twice at the same instant destroys nothing the second time. */
  lemma {:induction false} SweepIdempotent(qrs: seq<QrAuthorization>, now: int)
    ensures Sweep(Sweep(qrs, now), now) == Sweep(qrs, now)
    ensures SweptCount(Sweep(qrs, now), now) == 0
  {
    if |qrs| > 0 {
      SweepIdempotent(qrs[1..], now);
      if !Swept(qrs[0], now) {
        var t := Sweep(qrs[1..], now);
        assert ([qrs[0]] + t)[1..] == t;
      }
    }
  }

  /** A sweep keeps the rows it keeps in their order, so a property of every pair of
      rows of the table holds of every pair of rows left. */
  lemma {:induction false} SweepKeepsPairwise(qrs: seq<QrAuthorization>, now: int,
                                              P: (QrAuthorization, QrAuthorization) -> bool)
    requires forall i, j :: 0 <= i < j < |qrs| ==> P(qrs[i], qrs[j])
    ensures forall i, j :: 0 <= i < j < |Sweep(qrs, now)| ==> P(Sweep(qrs, now)[i], Sweep(qrs, now)[j])
  {
    if |qrs| > 0 {
      var rest := qrs[1..];
      forall i, j | 0 <= i < j < |rest| ensures P(rest[i], rest[j]) {
        assert rest[i] == qrs[i + 1] && rest[j] == qrs[j + 1];
      }
      SweepKeepsPairwise(rest, now, P);
      if !Swept(qrs[0], now) {
        var t := Sweep(rest, now);
        var s := [qrs[0]] + t;
        forall i, j | 0 <= i < j < |s| ensures P(s[i], s[j]) {
          if i > 0 {
            assert s[i] == t[i - 1] && s[j] == t[j - 1];
          } else {
            assert s[j] == t[j - 1] && t[j - 1] in rest;
            var m :| 0 <= m < |rest| && rest[m] == t[j - 1];
            assert P(qrs[0], qrs[m + 1]);
          }
        }
      }
    }
  }

  /** Destroying rows keeps the table invariant and the at-most-one-active invariant. */
  lemma SweepKeepsInvariants(qrs: seq<QrAuthorization>, next: int, now: int)
    requires QrTableValid(qrs, next)
    ensures QrTableValid(Sweep(qrs, now), next)
    ensures AtMostOneActivePerStudent(qrs, now) ==> AtMostOneActivePerStudent(Sweep(qrs, now), now)
  {
    var s := Sweep(qrs, now);
    forall i | 0 <= i < |s| ensures 1 <= s[i].id < next && IsSixDigits(s[i].code) {
      assert s[i] in qrs;
    }
    SweepKeepsPairwise(qrs, now, (a: QrAuthorization, b: QrAuthorization) => a.id != b.id);
    SweepKeepsPairwise(qrs, now, (a: QrAuthorization, b: QrAuthorization) => a.isUsed || b.isUsed || a.code != b.code);
    if AtMostOneActivePerStudent(qrs, now) {
      SweepKeepsPairwise(qrs, now, (a: QrAuthorization, b: QrAuthorization) =>
        !(IsActive(a, now) && IsActive(b, now)) || a.studentId != b.studentId);
    }
  }

  /** Destroys the unused rows that expired before now and returns how many there were. */
  method CleanExpiredQrs(db: Database, now: int) returns (count: nat)
    requires db.Valid()
    modifies db`qrs
    ensures db.Valid()
    ensures db.qrs == Sweep(old(db.qrs), now)
    ensures count == |old(db.qrs)| - |db.qrs|
    ensures old(AtMostOneActivePerStudent(db.qrs, now)) ==> AtMostOneActivePerStudent(db.qrs, now)
  {
    SweepKeepsInvariants(db.qrs, db.nextQrId, now);
    SweepCount(db.qrs, now);
    count := SweptCount(db.qrs, now);
    db.qrs := Sweep(db.qrs, now);
  }

  // ----- getParentWithdrawalHistory -----

  datatype HistoryStatus = Completed | Active | Expired

  /** The status a history row is shown with. */
  function Classify(q: QrAuthorization, now: int): (r: HistoryStatus)
    ensures r == Completed <==> q.isUsed
    ensures r == Active <==> IsActive(q, now)
    ensures r == Expired <==> !q.isUsed && IsExpired(q.expiresAt, now)
  {
    if q.isUsed then Completed
    else if q.expiresAt <= now then Expired
    else Active
  }

  /** A row whose expiry is not after its creation is one an inspector created by hand. */
  predicate IsManualAuthorization(q: QrAuthorization) {
    q.expiresAt <= q.createdAt
  }

  datatype HistoryOptions = HistoryOptions(
    limit: Option<nat>,
    offset: Option<nat>,
    studentId: Option<int>,
    includePending: Option<bool>)

  datatype HistoryEntry = HistoryEntry(
    id: int,
    qrCode: string,
    studentId: int,
    reasonId: int,
    customReason: Option<string>,
    status: HistoryStatus,
    createdAt: int,
    usedAt: Option<int>,
    expiresAt: int,
    isManualAuthorization: bool)

  datatype HistorySummary = HistorySummary(totalCompleted: nat, totalActive: nat, totalExpired: nat)

  datatype ParentHistory = ParentHistory(withdrawals: seq<HistoryEntry>, total: nat, summary: HistorySummary)

  /** The WHERE clause: issued by the parent, for the student when one is given, and
      without still-pending codes when `includePending` is false. */
  predicate InHistory(q: QrAuthorization, parentUserId: int, opts: HistoryOptions, now: int) {
    && q.generatedByUserId == parentUserId
    && (IdOrNull(opts.studentId).Some? ==> q.studentId == opts.studentId.value)
    && (opts.includePending == Some(false) ==> q.isUsed || q.expiresAt <= now)
  }

  function HistoryRows(qrs: seq<QrAuthorization>, parentUserId: int, opts: HistoryOptions, now: int)
    : (r: seq<QrAuthorization>)
    ensures forall q :: q in r <==> q in qrs && InHistory(q, parentUserId, opts, now)
  {
    if |qrs| == 0 then []
    else if InHistory(qrs[0], parentUserId, opts, now) then [qrs[0]] + HistoryRows(qrs[1..], parentUserId, opts, now)
    else HistoryRows(qrs[1..], parentUserId, opts, now)
  }

  function EntryOf(q: QrAuthorization, now: int): HistoryEntry {
    HistoryEntry(q.id, q.code, q.studentId, q.reasonId, q.customWithdrawalReason, Classify(q, now),
      q.createdAt, if q.isUsed then Some(q.updatedAt) else None, q.expiresAt, IsManualAuthorization(q))
  }

  function Entries(rows: seq<QrAuthorization>, now: int): (r: seq<HistoryEntry>)
    ensures |r| == |rows|
    ensures forall i :: 0 <= i < |rows| ==> r[i] == EntryOf(rows[i], now)
  {
    if |rows| == 0 then [] else [EntryOf(rows[0], now)] + Entries(rows[1..], now)
  }

  function CountStatus(es: seq<HistoryEntry>, s: HistoryStatus): nat {
    if |es| == 0 then 0 else (if es[0].status == s then 1 else 0) + CountStatus(es[1..], s)
  }

  /** Every entry has exactly one of the three statuses. */
  lemma {:induction false} CountStatusPartition(es: seq<HistoryEntry>)
    ensures CountStatus(es, Completed) + CountStatus(es, Active) + CountStatus(es, Expired) == |es|
  {
    if |es| > 0 {
      CountStatusPartition(es[1..]);
    }
  }

  /** Entries built from rows that are none of them active count no active entry. */
  lemma {:induction false} NoActiveCounted(rows: seq<QrAuthorization>, now: int)
    requires forall i :: 0 <= i < |rows| ==> !IsActive(rows[i], now)
    ensures CountStatus(Entries(rows, now), Active) == 0
  {
    if |rows| > 0 {
      NoActiveCounted(rows[1..], now);
      assert Entries(rows, now)[1..] == Entries(rows[1..], now);
    }
  }

  function Page<T>(s: seq<T>, offset: nat, limit: nat): (r: seq<T>)
    ensures |r| <= limit
    ensures |r| == 0 || offset + |r| <= |s|
    ensures offset < |s| ==> |r| == (if offset + limit <= |s| then limit else |s| - offset)
    ensures forall i :: 0 <= i < |r| ==> r[i] == s[offset + i]
  {
    if offset >= |s| then [] else s[offset..if offset + limit <= |s| then offset + limit else |s|]
  }

  /** Without pending codes, no entry of a page is active. */
  lemma HistoryPageNotActive(qrs: seq<QrAuthorization>, parentUserId: int, opts: HistoryOptions, now: int,
                             offset: nat, limit: nat)
    ensures opts.includePending == Some(false) ==>
      CountStatus(Entries(Page(HistoryRows(qrs, parentUserId, opts, now), offset, limit), now), Active) == 0
  {
    if opts.includePending == Some(false) {
      var rows := HistoryRows(qrs, parentUserId, opts, now);
      var page := Page(rows, offset, limit);
      forall i | 0 <= i < |page| ensures !IsActive(page[i], now) {
        assert page[i] in rows;
      }
      NoActiveCounted(page, now);
    }
  }

  /** The history page: the matching rows after `offset`, at most `limit` of them
      (defaults 20 and 0), the number of matching rows, and status counts over the page. */
  function ParentWithdrawalHistory(qrs: seq<QrAuthorization>, parentUserId: int, opts: HistoryOptions, now: int)
    : (r: ParentHistory)
    ensures |r.withdrawals| <= (if opts.limit.Some? then opts.limit.value else 20)
    ensures |r.withdrawals| <= r.total
    ensures r.summary.totalCompleted + r.summary.totalActive + r.summary.totalExpired == |r.withdrawals|
    ensures opts.includePending == Some(false) ==> r.summary.totalActive == 0
    ensures forall e :: e in r.withdrawals ==> (e.status == Completed <==> e.usedAt.Some?)
    ensures
      var l := if opts.limit.Some? then opts.limit.value else 20;
      var o := if opts.offset.Some? then opts.offset.value else 0;
      && r.withdrawals == Entries(Page(HistoryRows(qrs, parentUserId, opts, now), o, l), now)
      && r.total == |HistoryRows(qrs, parentUserId, opts, now)|
    ensures r.summary.totalCompleted == CountStatus(r.withdrawals, Completed)
    ensures r.summary.totalActive == CountStatus(r.withdrawals, Active)
    ensures r.summary.totalExpired == CountStatus(r.withdrawals, Expired)
  {
    var limit := if opts.limit.Some? then opts.limit.value else 20;
    var offset := if opts.offset.Some? then opts.offset.value else 0;
    var rows := HistoryRows(qrs, parentUserId, opts, now);
    var page := Page(rows, offset, limit);
    var es := Entries(page, now);
    CountStatusPartition(es);
    HistoryPageNotActive(qrs, parentUserId, opts, now, offset, limit);
    ParentHistory(es, |rows|,
      HistorySummary(CountStatus(es, Completed), CountStatus(es, Active), CountStatus(es, Expired)))
  }

  // ----- authorizeWithoutQr -----

  /** The tables the manual authorization only reads. */
  datatype Roster = Roster(students: seq<Student>, users: seq<User>, delegates: seq<Delegate>)

  function RosterOf(db: Database): Roster {
    Roster(db.students, db.users, db.delegates)
  }

  /** The extraordinary delegate an inspector types in. */
  datatype ManualDelegateInput = ManualDelegateInput(
    name: string,
    rut: string,
    phone: string,
    relationshipToStudent: string)

  /** The request; `None` is an absent key. */
  datatype ManualAuthorizationPayload = ManualAuthorizationPayload(
    studentId: int,
    inspectorUserId: int,
    reasonId: int,
    customReason: Option<string>,
    delegateId: Option<int>,
    manualDelegate: Option<ManualDelegateInput>,
    discardedDelegateIds: Option<seq<int>>,
    unregisteredDelegateReason: Option<string>,
    allowManualDelegateOverride: Option<bool>,
    manualDelegateOverrideReason: Option<string>)

  datatype ManualAuthorizationResponse =
    | DelegateSelectionRequired(availableDelegates: seq<Delegate>, discardedDelegateIds: seq<int>)
    | ManualDelegateAllowed(discardedDelegateIds: seq<int>)
    | Authorized(qrAuthId: int, qrCode: string, hadActiveQr: bool, pendingParentApproval: bool)

  /** `WITHDRAWAL_CONSTANTS.NOTES.MANUAL_DELEGATE_OVERRIDE_PREFIX`; its text is not fixed here. */
  const OverrideNotePrefix: string

  /** `Boolean(allowManualDelegateOverride)`. */
  predicate Forced(p: ManualAuthorizationPayload) {
    p.allowManualDelegateOverride == Some(true)
  }

  /** `manualDelegateOverrideReason?.trim() || ''`. */
  function OverrideReason(p: ManualAuthorizationPayload): string {
    if p.manualDelegateOverrideReason.Some? then Trim(p.manualDelegateOverrideReason.value) else ""
  }

  /** `student.parent`: the user the student's `parentId` names. */
  function ParentOf(roster: Roster, studentId: int): Option<User> {
    match StudentById(roster.students, studentId)
    case None => None
    case Some(s) => if s.parentId.Some? then UserById(roster.users, s.parentId.value) else None
  }

  /** `parent.delegates`, or none when the student has no parent. */
  function ParentDelegates(roster: Roster, studentId: int): seq<Delegate> {
    match ParentOf(roster, studentId)
    case None => []
    case Some(u) => DelegatesOf(roster.delegates, u.id)
  }

  /** `Array.from(new Set(ids))`: each id once, at its first position. */
  function Dedup(ids: seq<int>): (r: seq<int>)
    ensures forall x :: x in r <==> x in ids
    ensures forall i, j :: 0 <= i < j < |r| ==> r[i] != r[j]
  {
    if |ids| == 0 then []
    else
      var front := ids[..|ids| - 1];
      var last := ids[|ids| - 1];
      assert ids == front + [last];
      var r := Dedup(front);
      if last in r then r else r + [last]
  }

  /** The discarded ids, once each; an absent list is empty. */
  function DiscardedIds(p: ManualAuthorizationPayload): seq<int> {
    if p.discardedDelegateIds.Some? then Dedup(p.discardedDelegateIds.value) else []
  }

  /** `parentDelegates.some((delegate) => delegate.id === id)`. */
  predicate Owns(ds: seq<Delegate>, id: int) {
    exists j :: 0 <= j < |ds| && ds[j].id == id
  }

  predicate AllOwned(ds: seq<Delegate>, discarded: seq<int>) {
    forall i :: 0 <= i < |discarded| ==> Owns(ds, discarded[i])
  }

  /** The parent's delegates that were not discarded. */
  function AvailableDelegates(ds: seq<Delegate>, discarded: seq<int>): (r: seq<Delegate>)
    ensures |r| <= |ds|
    ensures forall d :: d in r <==> d in ds && d.id !in discarded
  {
    Filter(ds, (d: Delegate) => d.id !in discarded)
  }

  /** The parent's delegates that were discarded. */
  function DiscardedDelegates(ds: seq<Delegate>, discarded: seq<int>): (r: seq<Delegate>)
    ensures forall d :: d in r <==> d in ds && d.id in discarded
  {
    Filter(ds, (d: Delegate) => d.id in discarded)
  }

  predicate AllDiscarded(ds: seq<Delegate>, discarded: seq<int>) {
    forall j :: 0 <= j < |ds| ==> ds[j].id in discarded
  }

  /** When no delegate is left available, every delegate was discarded. */
  lemma NoneAvailableMeansAllDiscarded(ds: seq<Delegate>, discarded: seq<int>)
    requires |AvailableDelegates(ds, discarded)| == 0
    ensures AllDiscarded(ds, discarded)
  {
    forall j | 0 <= j < |ds| ensures ds[j].id in discarded {
      assert ds[j] in ds;
      assert ds[j] !in AvailableDelegates(ds, discarded);
    }
  }

  /** The `forEach` over the discarded ids, with the `some` inside it: true when every
      discarded id is one of the parent's delegates. */
  method CheckDiscardedOwned(ds: seq<Delegate>, discarded: seq<int>) returns (ok: bool)
    ensures ok <==> AllOwned(ds, discarded)
  {
    var k := 0;
    while k < |discarded|
      invariant 0 <= k <= |discarded|
      invariant forall i :: 0 <= i < k ==> Owns(ds, discarded[i])
    {
      var belongs := false;
      var j := 0;
      while j < |ds|
        invariant 0 <= j <= |ds|
        invariant belongs <==> exists m :: 0 <= m < j && ds[m].id == discarded[k]
      {
        if ds[j].id == discarded[k] {
          belongs := true;
        }
        j := j + 1;
      }
      if !belongs {
        assert !Owns(ds, discarded[k]);
        return false;
      }
      k := k + 1;
    }
    return true;
  }

  /** What `authorizeWithoutQr` does with a request, before it writes anything. */
  datatype ManualDecision =
    | Refuse(error: Error)
    | AskForDelegate(available: seq<Delegate>, discarded: seq<int>)
    | AllowExtraordinary(discarded: seq<int>)
    | Register(delegateId: Option<int>, pendingParentApproval: bool)

  /** The checks that come before either delegate branch: the student has a parent, at
      most one kind of delegate is given, an override comes with an extraordinary delegate
      and every discarded id is one of the parent's delegates. */
  predicate PassesCommonChecks(p: ManualAuthorizationPayload, roster: Roster) {
    && ParentOf(roster, p.studentId).Some?
    && !(TruthyId(p.delegateId) && p.manualDelegate.Some?)
    && !(Forced(p) && p.manualDelegate.None?)
    && AllOwned(ParentDelegates(roster, p.studentId), DiscardedIds(p))
  }

  /** The delegate resolution rules, in the order the service applies them. */
  function DecideManual(p: ManualAuthorizationPayload, roster: Roster): (r: ManualDecision)
    ensures StudentById(roster.students, p.studentId).None? ==> r == Refuse(StudentNotFound)
    ensures StudentById(roster.students, p.studentId).Some? && ParentOf(roster, p.studentId).None? ==>
      r == Refuse(StudentWithoutParent)
    ensures ParentOf(roster, p.studentId).Some? && TruthyId(p.delegateId) && p.manualDelegate.Some? ==>
      r == Refuse(BothDelegateKinds)
    ensures ParentOf(roster, p.studentId).Some? && Forced(p) && p.manualDelegate.None? ==>
      r == Refuse(ForcedWithoutManualDelegate)
    ensures (&& ParentOf(roster, p.studentId).Some? && !(TruthyId(p.delegateId) && p.manualDelegate.Some?)
             && !(Forced(p) && p.manualDelegate.None?)
             && !AllOwned(ParentDelegates(roster, p.studentId), DiscardedIds(p))) ==>
      r == Refuse(DiscardedDelegateNotOwned)
    // the all-discarded and no-delegate checks never fire
    ensures r != Refuse(DelegatesNotAllDiscarded) && r != Refuse(NoDelegateGiven)
    ensures !r.Refuse? ==>
      ParentOf(roster, p.studentId).Some? && AllOwned(ParentDelegates(roster, p.studentId), DiscardedIds(p))
    ensures r.AskForDelegate? || r.AllowExtraordinary? <==>
      && ParentOf(roster, p.studentId).Some? && !TruthyId(p.delegateId) && p.manualDelegate.None? && !Forced(p)
      && AllOwned(ParentDelegates(roster, p.studentId), DiscardedIds(p))
    ensures r.AskForDelegate? ==>
      r.available == AvailableDelegates(ParentDelegates(roster, p.studentId), DiscardedIds(p)) && |r.available| > 0
    ensures r.AllowExtraordinary? ==> |AvailableDelegates(ParentDelegates(roster, p.studentId), DiscardedIds(p))| == 0
    ensures r.AskForDelegate? || r.AllowExtraordinary? ==> r.discarded == DiscardedIds(p)
    ensures r.Register? ==> (r.pendingParentApproval <==> p.manualDelegate.Some?)
    ensures r.Register? ==> (r.delegateId.Some? <==> !r.pendingParentApproval)
    ensures r.Register? && r.delegateId.Some? ==>
      && r.delegateId == p.delegateId && r.delegateId.value !in DiscardedIds(p)
      && r.delegateId.value != 0 && Owns(ParentDelegates(roster, p.studentId), r.delegateId.value)
    ensures (&& r.Register? && r.pendingParentApproval
             && |AvailableDelegates(ParentDelegates(roster, p.studentId), DiscardedIds(p))| > 0) ==>
      Forced(p) && OverrideReason(p) != ""
    // a selected registered delegate: refused when discarded, unknown or another parent's, accepted otherwise
    ensures PassesCommonChecks(p, roster) && TruthyId(p.delegateId) && p.delegateId.value in DiscardedIds(p) ==>
      r == Refuse(SelectedDelegateDiscarded)
    ensures (&& PassesCommonChecks(p, roster) && TruthyId(p.delegateId) && p.delegateId.value !in DiscardedIds(p)
             && DelegateById(roster.delegates, p.delegateId.value).None?) ==>
      r == Refuse(DelegateNotFound)
    ensures (&& PassesCommonChecks(p, roster) && TruthyId(p.delegateId) && p.delegateId.value !in DiscardedIds(p)
             && DelegateById(roster.delegates, p.delegateId.value).Some?
             && DelegateById(roster.delegates, p.delegateId.value).value.parentUserId != ParentOf(roster, p.studentId).value.id) ==>
      r == Refuse(DelegateNotOwned)
    ensures (&& PassesCommonChecks(p, roster) && TruthyId(p.delegateId) && p.delegateId.value !in DiscardedIds(p)
             && DelegateById(roster.delegates, p.delegateId.value).Some?
             && DelegateById(roster.delegates, p.delegateId.value).value.parentUserId == ParentOf(roster, p.studentId).value.id) ==>
      r == Register(p.delegateId, false)
    // an extraordinary delegate: refused while registered ones are available unless forced
    // with a reason, accepted pending the parent's approval otherwise
    ensures (&& PassesCommonChecks(p, roster) && p.manualDelegate.Some?
             && |AvailableDelegates(ParentDelegates(roster, p.studentId), DiscardedIds(p))| > 0 && !Forced(p)) ==>
      r == Refuse(RegisteredDelegatesAvailable)
    ensures (&& PassesCommonChecks(p, roster) && p.manualDelegate.Some?
             && |AvailableDelegates(ParentDelegates(roster, p.studentId), DiscardedIds(p))| > 0 && Forced(p)
             && OverrideReason(p) == "") ==>
      r == Refuse(OverrideReasonMissing)
    ensures (&& PassesCommonChecks(p, roster) && p.manualDelegate.Some?
             && (|AvailableDelegates(ParentDelegates(roster, p.studentId), DiscardedIds(p))| == 0
                 || (Forced(p) && OverrideReason(p) != ""))) ==>
      r == Register(None, true)
  {
    if StudentById(roster.students, p.studentId).None? then Refuse(StudentNotFound)
    else if ParentOf(roster, p.studentId).None? then Refuse(StudentWithoutParent)
    else if TruthyId(p.delegateId) && p.manualDelegate.Some? then Refuse(BothDelegateKinds)
    else if Forced(p) && p.manualDelegate.None? then Refuse(ForcedWithoutManualDelegate)
    else
      var parent := ParentOf(roster, p.studentId).value;
      var ds := ParentDelegates(roster, p.studentId);
      var discarded := DiscardedIds(p);
      if !AllOwned(ds, discarded) then Refuse(DiscardedDelegateNotOwned)
      else
        var available := AvailableDelegates(ds, discarded);
        if !TruthyId(p.delegateId) && p.manualDelegate.None? then
          if |available| > 0 then AskForDelegate(available, discarded) else AllowExtraordinary(discarded)
        else if TruthyId(p.delegateId) && p.delegateId.value in discarded then Refuse(SelectedDelegateDiscarded)
        else if TruthyId(p.delegateId) && DelegateById(roster.delegates, p.delegateId.value).None? then
          Refuse(DelegateNotFound)
        else if TruthyId(p.delegateId) && DelegateById(roster.delegates, p.delegateId.value).value.parentUserId != parent.id then
          Refuse(DelegateNotOwned)
        else
          var resolved := if TruthyId(p.delegateId) then Some(DelegateById(roster.delegates, p.delegateId.value).value.id) else None;
          if p.manualDelegate.Some? && |ds| > 0 && |available| > 0 && !Forced(p) then Refuse(RegisteredDelegatesAvailable)
          else if p.manualDelegate.Some? && |ds| > 0 && |available| > 0 && OverrideReason(p) == "" then
            Refuse(OverrideReasonMissing)
          else if p.manualDelegate.Some? && !Forced(p) && |ds| > 0 && |available| == 0 && !AllDiscarded(ds, discarded) then
            NoneAvailableMeansAllDiscarded(ds, discarded);
            Refuse(DelegatesNotAllDiscarded)
          else if p.manualDelegate.None? && !TruthyId(resolved) then Refuse(NoDelegateGiven)
          else Register(resolved, p.manualDelegate.Some?)
  }

  function Names(ds: seq<Delegate>): (r: seq<string>)
    ensures |r| == |ds| && forall i :: 0 <= i < |ds| ==> r[i] == ds[i].name
  {
    if |ds| == 0 then [] else [ds[0].name] + Names(ds[1..])
  }

  function DiscardedLine(ds: seq<Delegate>, discarded: seq<int>): string {
    "Delegados descartados: " + Join(Names(DiscardedDelegates(ds, discarded)), ", ")
  }

  function UnregisteredLine(reason: string): string {
    "Razón delegado no registrado: " + reason
  }

  /** The three lines that describe an extraordinary delegate. */
  function DelegateLines(m: ManualDelegateInput): seq<string> {
    ["Delegado extraordinario: " + m.name + " (" + m.relationshipToStudent + ")",
     "Teléfono delegado: " + m.phone,
     "RUT delegado: " + m.rut]
  }

  function OverrideLine(p: ManualAuthorizationPayload): string {
    OverrideNotePrefix + " " + (if OverrideReason(p) != "" then OverrideReason(p) else "Sin motivo especificado")
  }

  /** The line naming the discarded delegates, when some were discarded. */
  function DiscardedNote(p: ManualAuthorizationPayload, roster: Roster): seq<string> {
    var discarded := DiscardedIds(p);
    if |discarded| > 0 then [DiscardedLine(ParentDelegates(roster, p.studentId), discarded)] else []
  }

  /** The line giving why an extraordinary delegate is not registered. */
  function UnregisteredNote(p: ManualAuthorizationPayload): seq<string> {
    if p.manualDelegate.Some? && Truthy(p.unregisteredDelegateReason)
    then [UnregisteredLine(p.unregisteredDelegateReason.value)] else []
  }

  /** The override line, when the inspector forced an extraordinary delegate past available ones. */
  function OverrideNote(p: ManualAuthorizationPayload, roster: Roster): seq<string> {
    var ds := ParentDelegates(roster, p.studentId);
    if p.manualDelegate.Some? && Forced(p) && |ds| > 0 && |AvailableDelegates(ds, DiscardedIds(p))| > 0
    then [OverrideLine(p)] else []
  }

  function ExtraordinaryNote(p: ManualAuthorizationPayload): seq<string> {
    if p.manualDelegate.Some? then DelegateLines(p.manualDelegate.value) else []
  }

  /** The informative note lines of a manual authorization, pushed in this order. */
  function ManualNoteParts(p: ManualAuthorizationPayload, roster: Roster): seq<string> {
    DiscardedNote(p, roster) + UnregisteredNote(p) + OverrideNote(p, roster) + ExtraordinaryNote(p)
  }

  /** `notesParts.length ? notesParts.join('\n') : null`. */
  function NotesOf(parts: seq<string>): (r: Option<string>)
    ensures r.None? <==> |parts| == 0
  {
    if |parts| > 0 then Some(Join(parts, "\n")) else None
  }

  /** A manual authorization carries notes exactly when delegates were discarded or an
      extraordinary delegate was used, and an extraordinary delegate's notes end with
      its RUT line. */
  lemma ManualNotesPresence(p: ManualAuthorizationPayload, roster: Roster)
    ensures NotesOf(ManualNoteParts(p, roster)).None? <==> |DiscardedIds(p)| == 0 && p.manualDelegate.None?
    ensures p.manualDelegate.Some? ==>
      var parts := ManualNoteParts(p, roster);
      |parts| >= 3 && parts[|parts| - 1] == "RUT delegado: " + p.manualDelegate.value.rut
  {
  }

  /** The temporary identity created for an extraordinary delegate. */
  function ExtraordinaryContact(id: int, parentUserId: int, m: ManualDelegateInput): EmergencyContact {
    EmergencyContact(id, parentUserId, m.name, m.phone, m.relationshipToStudent, false, true, true, None)
  }

  /** An active QR taken over by the inspector. */
  function TakenOver(q: QrAuthorization, delegateId: Option<int>, now: int): QrAuthorization {
    q.(isUsed := true, updatedAt := now, assignedDelegateId := if delegateId.Some? then delegateId else q.assignedDelegateId)
  }

  /** The already-used QR row an inspector's manual authorization creates. */
  function ManualQrRow(id: int, code: string, p: ManualAuthorizationPayload, delegateId: Option<int>, now: int): QrAuthorization {
    QrAuthorization(id, code, p.studentId, p.inspectorUserId, p.reasonId, now,
      StringOrNull(p.customReason), true, delegateId, now, now)
  }

  /** The withdrawal a manual authorization records. */
  function ManualWithdrawalRow(id: int, p: ManualAuthorizationPayload, qrAuthId: int, delegateId: Option<int>,
                               contactId: Option<int>, notes: Option<string>, now: int): Withdrawal
  {
    var pending := p.manualDelegate.Some?;
    Withdrawal(id, Some(qrAuthId), p.studentId, p.inspectorUserId, p.reasonId, Manual,
      if pending then Pending else Approved, !pending, None, delegateId, contactId,
      if pending then Some(p.manualDelegate.value.name) else None,
      if pending then Some(p.manualDelegate.value.rut) else None,
      if pending then Some(p.manualDelegate.value.relationshipToStudent) else None,
      StringOrNull(p.customReason), notes, now, None, None)
  }

  /** The checks of `authorizeWithoutQr`, in order, up to the first write. */
  method ResolveManualDelegate(p: ManualAuthorizationPayload, roster: Roster) returns (d: ManualDecision)
    ensures d == DecideManual(p, roster)
  {
    if StudentById(roster.students, p.studentId).None? {
      return Refuse(StudentNotFound);
    }
    var parent := ParentOf(roster, p.studentId);
    if parent.None? {
      return Refuse(StudentWithoutParent);
    }
    if TruthyId(p.delegateId) && p.manualDelegate.Some? {
      return Refuse(BothDelegateKinds);
    }
    if Forced(p) && p.manualDelegate.None? {
      return Refuse(ForcedWithoutManualDelegate);
    }
    var parentDelegates := ParentDelegates(roster, p.studentId);
    var discarded := DiscardedIds(p);
    var owned := CheckDiscardedOwned(parentDelegates, discarded);
    if !owned {
      return Refuse(DiscardedDelegateNotOwned);
    }
    var available := AvailableDelegates(parentDelegates, discarded);
    if !TruthyId(p.delegateId) && p.manualDelegate.None? {
      if |available| > 0 {
        return AskForDelegate(available, discarded);
      }
      return AllowExtraordinary(discarded);
    }

    var resolved: Option<int> := None;
    if TruthyId(p.delegateId) {
      if p.delegateId.value in discarded {
        return Refuse(SelectedDelegateDiscarded);
      }
      var delegate := DelegateById(roster.delegates, p.delegateId.value);
      if delegate.None? {
        return Refuse(DelegateNotFound);
      }
      if delegate.value.parentUserId != parent.value.id {
        return Refuse(DelegateNotOwned);
      }
      resolved := Some(delegate.value.id);
    }

    var hasDelegates := |parentDelegates| > 0;
    var hasAvailable := |available| > 0;
    if p.manualDelegate.Some? {
      if hasDelegates && hasAvailable {
        if !Forced(p) {
          return Refuse(RegisteredDelegatesAvailable);
        }
        if OverrideReason(p) == "" {
          return Refuse(OverrideReasonMissing);
        }
      }
      if !Forced(p) && hasDelegates && !hasAvailable {
        NoneAvailableMeansAllDiscarded(parentDelegates, discarded);
        if !AllDiscarded(parentDelegates, discarded) {
          assert false;
        }
      }
    }
    if p.manualDelegate.None? && !TruthyId(resolved) {
      assert false;
    }
    d := Register(resolved, p.manualDelegate.Some?);
  }

  /** The `notesParts.push` sequence of `authorizeWithoutQr`. */
  method ComposeManualNotes(p: ManualAuthorizationPayload, roster: Roster) returns (notesParts: seq<string>)
    ensures notesParts == ManualNoteParts(p, roster)
  {
    var parentDelegates := ParentDelegates(roster, p.studentId);
    var discarded := DiscardedIds(p);
    var available := AvailableDelegates(parentDelegates, discarded);
    notesParts := [];
    if |discarded| > 0 {
      notesParts := notesParts + [DiscardedLine(parentDelegates, discarded)];
    }
    assert notesParts == DiscardedNote(p, roster);
    if p.manualDelegate.Some? && Truthy(p.unregisteredDelegateReason) {
      notesParts := notesParts + [UnregisteredLine(p.unregisteredDelegateReason.value)];
    }
    assert notesParts == DiscardedNote(p, roster) + UnregisteredNote(p);
    if p.manualDelegate.Some? && Forced(p) && |parentDelegates| > 0 && |available| > 0 {
      notesParts := notesParts + [OverrideLine(p)];
    }
    assert notesParts == DiscardedNote(p, roster) + UnregisteredNote(p) + OverrideNote(p, roster);
    if p.manualDelegate.Some? {
      notesParts := notesParts + DelegateLines(p.manualDelegate.value);
    }
  }

  /** The QR step of an accepted manual authorization: the student's active QR is consumed
      and assigned the selected delegate, otherwise a used QR row is created. */
  method TakeOverOrCreateQr(db: Database, p: ManualAuthorizationPayload, delegateId: Option<int>, now: int, code: string)
    returns (qrAuthId: int, qrCode: string, hadActiveQr: bool)
    requires db.Valid()
    requires IsSixDigits(code)
    modifies db`qrs, db`nextQrId
    ensures db.Valid()
    ensures
      var active := old(ActiveIndexFor(db.qrs, p.studentId, now));
      && hadActiveQr == active.Some?
      && (active.Some? ==>
            && qrAuthId == old(db.qrs[active.value].id) && qrCode == old(db.qrs[active.value].code)
            && db.qrs == old(db.qrs)[active.value := TakenOver(old(db.qrs[active.value]), delegateId, now)]
            && db.nextQrId == old(db.nextQrId))
      && (active.None? ==>
            && qrAuthId == old(db.nextQrId) && qrCode == code
            && db.qrs == old(db.qrs) + [ManualQrRow(old(db.nextQrId), code, p, delegateId, now)]
            && db.nextQrId == old(db.nextQrId) + 1)
    ensures old(AtMostOneActivePerStudent(db.qrs, now)) ==> AtMostOneActivePerStudent(db.qrs, now)
  {
    var active := ActiveIndexFor(db.qrs, p.studentId, now);
    hadActiveQr := active.Some?;
    if active.Some? {
      var q := db.qrs[active.value];
      db.UpdateQr(active.value, TakenOver(q, delegateId, now));
      qrAuthId, qrCode := q.id, q.code;
    } else {
      qrAuthId, qrCode := db.nextQrId, code;
      db.InsertQr(ManualQrRow(db.nextQrId, code, p, delegateId, now));
    }
  }

  /** The record step of an accepted manual authorization: the temporary contact of an
      extraordinary delegate, then the MANUAL withdrawal pointing at the QR row `qrAuthId`. */
  method InsertManualRecord(db: Database, p: ManualAuthorizationPayload, d: ManualDecision, qrAuthId: int, now: int)
    requires db.Valid()
    requires d.Register?
    requires d.pendingParentApproval <==> p.manualDelegate.Some?
    requires d.delegateId.Some? <==> !d.pendingParentApproval
    requires d.pendingParentApproval ==> ParentOf(RosterOf(db), p.studentId).Some?
    modifies db`withdrawals, db`nextWithdrawalId, db`contacts, db`nextContactId
    ensures db.Valid()
    ensures
      var pending := d.pendingParentApproval;
      var contactId := if pending then Some(old(db.nextContactId)) else None;
      && (pending ==>
            db.contacts == old(db.contacts) +
              [ExtraordinaryContact(old(db.nextContactId), ParentOf(RosterOf(db), p.studentId).value.id, p.manualDelegate.value)] &&
            db.nextContactId == old(db.nextContactId) + 1)
      && (!pending ==> db.contacts == old(db.contacts) && db.nextContactId == old(db.nextContactId))
      && db.withdrawals == old(db.withdrawals) +
           [ManualWithdrawalRow(old(db.nextWithdrawalId), p, qrAuthId, d.delegateId, contactId,
              NotesOf(ManualNoteParts(p, RosterOf(db))), now)]
      && db.nextWithdrawalId == old(db.nextWithdrawalId) + 1
  {
    var roster := RosterOf(db);
    var pending := d.pendingParentApproval;
    var contact: Option<EmergencyContact> := None;
    if pending {
      var parent := ParentOf(roster, p.studentId).value;
      contact := Some(ExtraordinaryContact(db.nextContactId, parent.id, p.manualDelegate.value));
    }
    var notesParts := ComposeManualNotes(p, roster);
    var contactId := if pending then Some(db.nextContactId) else None;
    var w := ManualWithdrawalRow(db.nextWithdrawalId, p, qrAuthId, d.delegateId, contactId, NotesOf(notesParts), now);
    db.InsertWithdrawal(w, contact);
  }

  /** The writes of an accepted manual authorization. */
  method RecordManualAuthorization(db: Database, p: ManualAuthorizationPayload, d: ManualDecision, now: int, code: string)
    returns (r: ManualAuthorizationResponse)
    requires db.Valid()
    requires IsSixDigits(code)
    requires d.Register?
    requires d.pendingParentApproval <==> p.manualDelegate.Some?
    requires d.delegateId.Some? <==> !d.pendingParentApproval
    requires d.pendingParentApproval ==> ParentOf(RosterOf(db), p.studentId).Some?
    modifies db`qrs, db`nextQrId, db`withdrawals, db`nextWithdrawalId, db`contacts, db`nextContactId
    ensures db.Valid()
    ensures
      var pending := d.pendingParentApproval;
      var active := old(ActiveIndexFor(db.qrs, p.studentId, now));
      var qrAuthId := if active.Some? then old(db.qrs[active.value].id) else old(db.nextQrId);
      var contactId := if pending then Some(old(db.nextContactId)) else None;
      && r == Authorized(qrAuthId, if active.Some? then old(db.qrs[active.value].code) else code, active.Some?, pending)
      && (active.Some? ==>
            db.qrs == old(db.qrs)[active.value := TakenOver(old(db.qrs[active.value]), d.delegateId, now)] &&
            db.nextQrId == old(db.nextQrId))
      && (active.None? ==>
            db.qrs == old(db.qrs) + [ManualQrRow(old(db.nextQrId), code, p, d.delegateId, now)] &&
            db.nextQrId == old(db.nextQrId) + 1)
      && (pending ==>
            db.contacts == old(db.contacts) +
              [ExtraordinaryContact(old(db.nextContactId), ParentOf(RosterOf(db), p.studentId).value.id, p.manualDelegate.value)] &&
            db.nextContactId == old(db.nextContactId) + 1)
      && (!pending ==> db.contacts == old(db.contacts) && db.nextContactId == old(db.nextContactId))
      && db.withdrawals == old(db.withdrawals) +
           [ManualWithdrawalRow(old(db.nextWithdrawalId), p, qrAuthId, d.delegateId, contactId,
              NotesOf(ManualNoteParts(p, RosterOf(db))), now)]
      && db.nextWithdrawalId == old(db.nextWithdrawalId) + 1
    ensures old(AtMostOneActivePerStudent(db.qrs, now)) ==> AtMostOneActivePerStudent(db.qrs, now)
  {
    var qrAuthId, qrCode, hadActiveQr := TakeOverOrCreateQr(db, p, d.delegateId, now, code);
    ghost var qrs, nextQrId := db.qrs, db.nextQrId;
    InsertManualRecord(db, p, d, qrAuthId, now);
    assert db.qrs == qrs && db.nextQrId == nextQrId;
    r := Authorized(qrAuthId, qrCode, hadActiveQr, d.pendingParentApproval);
  }

  /** The inspector authorizes a pickup without a QR code. Requests the rules refuse, and
      those that only ask for a delegate, write nothing; an accepted one consumes the
      student's active QR (or creates a used one), may create a temporary contact for an
      extraordinary delegate, and records a MANUAL withdrawal. `code` is what the QR
      generator produced. */
  method AuthorizeWithoutQr(db: Database, p: ManualAuthorizationPayload, now: int, code: string)
    returns (r: Outcome<ManualAuthorizationResponse>)
    requires db.Valid()
    requires IsSixDigits(code)
    modifies db`qrs, db`nextQrId, db`withdrawals, db`nextWithdrawalId, db`contacts, db`nextContactId
    ensures db.Valid()
    ensures DecideManual(p, RosterOf(db)).Refuse? ==>
      r == Err(DecideManual(p, RosterOf(db)).error) && unchanged(db)
    ensures DecideManual(p, RosterOf(db)).AskForDelegate? ==>
      var d := DecideManual(p, RosterOf(db));
      r == Ok(DelegateSelectionRequired(d.available, d.discarded)) && unchanged(db)
    ensures DecideManual(p, RosterOf(db)).AllowExtraordinary? ==>
      r == Ok(ManualDelegateAllowed(DecideManual(p, RosterOf(db)).discarded)) && unchanged(db)
    ensures DecideManual(p, RosterOf(db)).Register? ==>
      var d := DecideManual(p, RosterOf(db));
      var pending := d.pendingParentApproval;
      var active := old(ActiveIndexFor(db.qrs, p.studentId, now));
      var qrAuthId := if active.Some? then old(db.qrs[active.value].id) else old(db.nextQrId);
      var contactId := if pending then Some(old(db.nextContactId)) else None;
      && r == Ok(Authorized(qrAuthId, if active.Some? then old(db.qrs[active.value].code) else code, active.Some?, pending))
      && (active.Some? ==>
            db.qrs == old(db.qrs)[active.value := TakenOver(old(db.qrs[active.value]), d.delegateId, now)])
      && (active.None? ==> db.qrs == old(db.qrs) + [ManualQrRow(old(db.nextQrId), code, p, d.delegateId, now)])
      && (pending ==>
            db.contacts == old(db.contacts) +
              [ExtraordinaryContact(old(db.nextContactId), ParentOf(RosterOf(db), p.studentId).value.id, p.manualDelegate.value)])
      && (!pending ==> db.contacts == old(db.contacts))
      && db.withdrawals == old(db.withdrawals) +
           [ManualWithdrawalRow(old(db.nextWithdrawalId), p, qrAuthId, d.delegateId, contactId,
              NotesOf(ManualNoteParts(p, RosterOf(db))), now)]
    ensures old(AtMostOneActivePerStudent(db.qrs, now)) ==> AtMostOneActivePerStudent(db.qrs, now)
  {
    var d := ResolveManualDelegate(p, RosterOf(db));
    match d
    case Refuse(e) =>
      r := Err(e);
    case AskForDelegate(available, discarded) =>
      r := Ok(DelegateSelectionRequired(available, discarded));
    case AllowExtraordinary(discarded) =>
      r := Ok(ManualDelegateAllowed(discarded));
    case Register(_, _) =>
      var response := RecordManualAuthorization(db, p, d, now, code);
      r := Ok(response);
  }
}
