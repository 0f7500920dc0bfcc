# Withdrawal authorization engine of RITTA

RITTA decides whether a student may be picked up from school, and by whom. This project
models its withdrawal authorization engine in Dafny and proves properties of the model:

- **QR credential lifecycle** (`QrAuthorizationService`, file `qr_authorization_service.dfy`).
  - A parent issues a six-digit QR code for a student, refused while the student has another active code.
  - An inspector looks the code up, checking its format first, and consumes it exactly once.
  - Expired codes are rejected, and a sweep destroys the unused ones.
  - The parent's history classifies each code as COMPLETED, EXPIRED or ACTIVE.
- **Manual authorization** (`authorizeWithoutQr`, same file). It is the ordered rule set that decides between
  a registered delegate and an extraordinary (unregistered) one. An accepted request
  has three effects:
  - it consumes or creates a QR row;
  - it may create a temporary emergency contact;
  - it records a MANUAL withdrawal, APPROVED for a registered delegate and PENDING for an extraordinary one.
- **Withdrawal records** (`WithdrawalService`, file `withdrawal_service.dfy`).
  - Records are created on the QR path, the manual RUT path and the manual authorization.
  - The parent resolves a PENDING record (APPROVE verifies the contact; DENY denies the record and deletes the contact).
  - The inspector then finalizes it.
  - Notes are composed line by line along the way.
  - The histories' `hasMore` flag.
- **Request schemas** (files `schema_rules.dfy`, `inspector_validators.dfy`,
  `parent_validators.dfy`). The Joi schemas of the inspector and parent endpoints are written as
  predicates on request datatypes.
- **Request pipeline** (file `request_pipeline.dfy`). It turns a validated body into the service's
  arguments and proves what a validated request can and cannot provoke in the services.

The tables are `seq` fields of the class `Models.Database`:
- QR rows, withdrawals and emergency contacts are fields the methods reassign;
- students, users, delegates and reasons are read-only;
- each table has an id counter.

`Database.Valid()` states the table invariants:
- ids are unique and below the counter;
- unused codes are distinct six-digit strings;
- a PENDING record names no registered delegate;
- every contact id a withdrawal holds names an existing contact (a foreign key);
- no contact is the retriever of two withdrawals;
- contacts that no withdrawal names may exist.

Every service method keeps `Valid()`. Most also keep "at most one active QR per student".
Each transaction is modelled all-or-nothing: on every error path the method's `ensures` clauses say which tables are
unchanged.

Modelling choices:
- **Write order inside a transaction.** `authorizeWithoutQr` creates the temporary contact before the QR step; the model takes the QR step first. The QR and contact tables are independent, so the committed state is the same.
- **Time.** The current instant `now` is a parameter in milliseconds. So are the code and the expiry instant that the QR generator would produce.
- **The generator's contract.** Its code is six ASCII digits and is carried by no unused row.
- **Expiry.** `isExpired(t)` is taken as `t <= now`, the complement of the active filter `expiresAt > now`.
  `cleanExpiredQrs` destroys `expiresAt < now`, so a code expiring exactly now is
  reported expired but is not swept.

Where the code and its description disagree, the model follows the code:
- `authorizeWithoutQr` itself does not require `unregisteredDelegateReason` for an
  extraordinary delegate; only `manualAuthorizationSchema` does. The service model accepts a missing reason,
  and `RequestPipeline.ValidatedReasonIsNoted` shows that validated requests always carry one.
- The inspector finalization is modelled as written. See "## Findings".

## Model

| member | source | states |
|---|---|---|
| QrAuthorizationService.ActiveIndexFor | Ritta-app/services/backend/src/withdrawals/services/qr_authorization.service.ts:18-25 | finds an unused code of the student whose expiry is after now, and finds none exactly when no such code exists |
| QrAuthorizationService.AtMostOneActiveLater | Ritta-app/services/backend/src/withdrawals/services/qr_authorization.service.ts:18-29 | "no student has two active codes" keeps holding as time passes |
| QrAuthorizationService.CreateQrAuthorization | Ritta-app/services/backend/src/withdrawals/services/qr_authorization.service.ts:13-54 | with an active code for the student, it fails and writes nothing; otherwise it appends an unused row issued by the parent, with the given reason or null, answers the row's code, expiry and id, and the new code is then found by the lookup; keeps at most one active code per student |
| QrAuthorizationService.UnusedIndexByCode | Ritta-app/services/backend/src/withdrawals/services/qr_authorization.service.ts:66-72 | finds an unused row with the code, and finds none exactly when no unused row has it |
| QrAuthorizationService.UnusedLookupFindsTheRow | Ritta-app/services/backend/src/withdrawals/services/qr_authorization.service.ts:66-72 | under the table invariant, the lookup by code finds exactly the unused row that carries it |
| QrAuthorizationService.GetQrValidationInfo | Ritta-app/services/backend/src/withdrawals/services/qr_authorization.service.ts:60-134 | a malformed code is refused before any lookup; a well-formed code is "not found or used" exactly when no unused row carries it; `isExpired` is computed from the expiry against now; no other error |
| QrAuthorizationService.IssuedCodeIsValidated | Ritta-app/services/backend/src/withdrawals/services/qr_authorization.service.ts:37-48 | a code just issued is found by the validation lookup with the student, the issuing parent, the reason and the expiry it was issued with |
| QrAuthorizationService.ValidationDescribesTheRow | Ritta-app/services/backend/src/withdrawals/services/qr_authorization.service.ts:105-134 | the validation answer describes the unused row that carries the code, with the issuer as parent |
| QrAuthorizationService.ConsumeIsOneShot | Ritta-app/services/backend/src/withdrawals/services/qr_authorization.service.ts:137-162 | once the unused row with a code is consumed, no unused row carries that code |
| QrAuthorizationService.MarkQrAsUsed | Ritta-app/services/backend/src/withdrawals/services/qr_authorization.service.ts:137-162 | fails without a write on a missing or used code and on an expired one; otherwise marks exactly that row used; after a success the code is no longer found, so a second call fails |
| QrAuthorizationService.MinutesRemaining | Ritta-app/services/backend/src/withdrawals/services/qr_authorization.service.ts:206 | 0 once expired, otherwise the whole minutes left (floor of the remaining milliseconds over 60000) |
| QrAuthorizationService.GetActiveQrForStudent | Ritta-app/services/backend/src/withdrawals/services/qr_authorization.service.ts:168-220 | answers nothing exactly when the parent issued no active code for the student; otherwise the code, expiry, id and custom reason of an active row of that student and parent, with `MinutesRemaining` of its expiry (so fewer than one minute beyond the minutes reported) |
| QrAuthorizationService.Sweep | Ritta-app/services/backend/src/withdrawals/services/qr_authorization.service.ts:820-829 | keeps exactly the rows that are used or did not expire before now |
| QrAuthorizationService.SweepCount | Ritta-app/services/backend/src/withdrawals/services/qr_authorization.service.ts:820-829 | rows kept plus rows destroyed is the table size |
| QrAuthorizationService.SweepIdempotent | Ritta-app/services/backend/src/withdrawals/services/qr_authorization.service.ts:820-829 | a second sweep at the same instant destroys nothing |
| QrAuthorizationService.SweepKeepsInvariants | Ritta-app/services/backend/src/withdrawals/services/qr_authorization.service.ts:820-829 | the sweep keeps the table invariant and at most one active code per student |
| QrAuthorizationService.CleanExpiredQrs | Ritta-app/services/backend/src/withdrawals/services/qr_authorization.service.ts:820-829 | the table becomes the sweep of the old table, and the answer is the number of rows destroyed |
| QrAuthorizationService.Classify | Ritta-app/services/backend/src/withdrawals/services/qr_authorization.service.ts:663-671 | COMPLETED exactly when used, ACTIVE exactly when active, EXPIRED exactly when unused and expired |
| QrAuthorizationService.HistoryRows | Ritta-app/services/backend/src/withdrawals/services/qr_authorization.service.ts:620-634 | the rows issued by the parent, of the student when one is given, and without still-pending codes when `includePending` is false |
| QrAuthorizationService.Entries | Ritta-app/services/backend/src/withdrawals/services/qr_authorization.service.ts:662-690 | one entry per row, in order |
| QrAuthorizationService.CountStatusPartition | Ritta-app/services/backend/src/withdrawals/services/qr_authorization.service.ts:697-699 | the three status counts add up to the number of entries |
| QrAuthorizationService.NoActiveCounted | Ritta-app/services/backend/src/withdrawals/services/qr_authorization.service.ts:698 | entries of rows none of which is active count no ACTIVE entry |
| QrAuthorizationService.Page | Ritta-app/services/backend/src/withdrawals/services/qr_authorization.service.ts:656-658 | at most `limit` rows, the rows from `offset` on, as many as remain |
| QrAuthorizationService.HistoryPageNotActive | Ritta-app/services/backend/src/withdrawals/services/qr_authorization.service.ts:630-633 | without pending codes, a page counts no ACTIVE entry |
| QrAuthorizationService.ParentWithdrawalHistory | Ritta-app/services/backend/src/withdrawals/services/qr_authorization.service.ts:589-710 | the entries of the `limit`/`offset` window (defaults 20 and 0) of the matching rows; `total` is the number of all matching rows; each summary count is the number of page entries with that status, and the counts partition the page; no ACTIVE count without pending codes; an entry has a use instant exactly when COMPLETED |
| QrAuthorizationService.Dedup | Ritta-app/services/backend/src/withdrawals/services/qr_authorization.service.ts:359-361 | the same ids, each once |
| QrAuthorizationService.AvailableDelegates | Ritta-app/services/backend/src/withdrawals/services/qr_authorization.service.ts:372-379 | exactly the parent's delegates that were not discarded |
| QrAuthorizationService.DiscardedDelegates | Ritta-app/services/backend/src/withdrawals/services/qr_authorization.service.ts:524-528 | exactly the parent's delegates that were discarded |
| QrAuthorizationService.Names | Ritta-app/services/backend/src/withdrawals/services/qr_authorization.service.ts:527 | the delegates' names, in order |
| QrAuthorizationService.NoneAvailableMeansAllDiscarded | Ritta-app/services/backend/src/withdrawals/services/qr_authorization.service.ts:442-447 | with no delegate available every delegate was discarded, so the all-discarded check never throws |
| QrAuthorizationService.CheckDiscardedOwned | Ritta-app/services/backend/src/withdrawals/services/qr_authorization.service.ts:363-368 | true exactly when every discarded id is one of the parent's delegates |
| QrAuthorizationService.DecideManual | Ritta-app/services/backend/src/withdrawals/services/qr_authorization.service.ts:340-467 | the rules in order: missing student, missing parent, both delegate kinds, override without an extraordinary delegate, a discarded id not the parent's; the no-delegate answers occur exactly when neither delegate and no override is given, "select a delegate" with the non-empty available list, "extraordinary allowed" when none is available; the all-discarded and no-delegate errors never occur; an accepted request is pending exactly with an extraordinary delegate, and a registered delegate is not discarded, not 0 and the parent's; an extraordinary delegate past available ones needs the override flag and a non-empty trimmed reason; both no-delegate answers return the de-duplicated discarded ids; once the common checks pass, a registered id is refused as discarded, not found or not owned under exactly those conditions and is otherwise registered, and an extraordinary delegate is refused for available delegates without override, or for a missing reason, and is otherwise registered pending |
| QrAuthorizationService.ResolveManualDelegate | Ritta-app/services/backend/src/withdrawals/services/qr_authorization.service.ts:340-467 | the checks, step by step, reach the decision of `DecideManual` |
| QrAuthorizationService.NotesOf | Ritta-app/services/backend/src/withdrawals/services/qr_authorization.service.ts:566 | null notes exactly when no line was pushed |
| QrAuthorizationService.ManualNotesPresence | Ritta-app/services/backend/src/withdrawals/services/qr_authorization.service.ts:522-546 | a manual authorization has notes exactly when delegates were discarded or an extraordinary delegate was used, and an extraordinary delegate's notes end with its RUT line |
| QrAuthorizationService.ComposeManualNotes | Ritta-app/services/backend/src/withdrawals/services/qr_authorization.service.ts:522-546 | the pushes give the discarded line, the unregistered-reason line, the override line and the three delegate lines, each under its condition and in that order |
| QrAuthorizationService.TakeOverOrCreateQr | Ritta-app/services/backend/src/withdrawals/services/qr_authorization.service.ts:470-520 | an active code of the student is marked used and assigned the delegate; otherwise a row issued by the inspector, already used and expiring now, is appended; reports which happened and keeps at most one active code per student |
| QrAuthorizationService.InsertManualRecord | Ritta-app/services/backend/src/withdrawals/services/qr_authorization.service.ts:449-568 | an unverified, temporary, single-use contact for the parent exactly when the delegate is extraordinary, with the next contact id; then one MANUAL record appended with the next withdrawal id, pointing at that contact and at the given QR row, carrying the composed notes |
| QrAuthorizationService.RecordManualAuthorization | Ritta-app/services/backend/src/withdrawals/services/qr_authorization.service.ts:448-570 | the QR step; an unverified, temporary, single-use contact for the parent when pending; a MANUAL record, PENDING and unverified with an extraordinary delegate and otherwise APPROVED and verified, with the composed notes |
| QrAuthorizationService.AuthorizeWithoutQr | Ritta-app/services/backend/src/withdrawals/services/qr_authorization.service.ts:287-584 | refusals and the two no-delegate answers write nothing; an accepted request answers the QR id and code, whether a code was active and whether parent approval is pending, and performs exactly the writes above; keeps the table invariants |
| WithdrawalService.RecordNotesText | Ritta-app/services/backend/src/withdrawals/services/withdrawal.service.ts:921-931 | a new record's notes are null exactly when neither notes nor an unregistered reason was given, and otherwise those texts newline-joined in that order |
| WithdrawalService.CreateWithdrawalRecord | Ritta-app/services/backend/src/withdrawals/services/withdrawal.service.ts:917-954 | appends the record with the next id: empty ids and strings null, `contactVerified` true unless given, composed notes; nothing else changes |
| WithdrawalService.OwnedStudent | Ritta-app/services/backend/src/withdrawals/services/withdrawal.service.ts:42-56 | finds a student with that id whose parent is the user, and none exactly when there is no such student |
| WithdrawalService.GenerateQrCode | Ritta-app/services/backend/src/withdrawals/services/withdrawal.service.ts:37-99 | not the parent's student, an unknown reason or an active code each fail without a write; otherwise the code is issued as `createQrAuthorization` does |
| WithdrawalService.QrRecordFacts | Ritta-app/services/backend/src/withdrawals/services/withdrawal.service.ts:128-144 | a scanned code's record is QR-method, APPROVED exactly when the action is APPROVE and DENIED otherwise, verified, with the issuing parent as retriever and the code's row as QR |
| WithdrawalService.ValidateAndProcessQr | Ritta-app/services/backend/src/withdrawals/services/withdrawal.service.ts:105-173 | lookup errors, an expired code and a missing inspector fail with no QR or record change; otherwise consumes the code's row and appends that record; after a success the code no longer validates |
| WithdrawalService.ProcessManualWithdrawal | Ritta-app/services/backend/src/withdrawals/services/withdrawal.service.ts:178-277 | unknown student RUT, unknown parent RUT, a parent who is not the student's, an unknown reason and a missing inspector each fail without a write; when all of them pass it answers Ok with the record it appends, a MANUAL, APPROVED record by that parent under the next withdrawal id |
| WithdrawalService.ManualRecordFacts | Ritta-app/services/backend/src/withdrawals/services/withdrawal.service.ts:230-243 | the RUT path's record is MANUAL, APPROVED, verified, with the student's parent as retriever and no QR or contact |
| WithdrawalService.NotesHeadText | Ritta-app/services/backend/src/withdrawals/services/withdrawal.service.ts:593-599 | old notes (when not empty), a newline, then the action line |
| WithdrawalService.PushResolutionNotes | Ritta-app/services/backend/src/withdrawals/services/withdrawal.service.ts:593-630 | the parts pushed are the old notes only when not empty, then the action line, then the prefixed trimmed comment only when it is not empty, in that order |
| WithdrawalService.AppendedNotesText | Ritta-app/services/backend/src/withdrawals/services/withdrawal.service.ts:593-633 | the resolution's notes are the old notes and a newline when present, the action line, and a newline with the prefixed trimmed comment only when that comment is not empty |
| WithdrawalService.PendingIndexFor | Ritta-app/services/backend/src/withdrawals/services/withdrawal.service.ts:559-586 | finds the MANUAL, PENDING, unverified record with that id whose student is the parent's, and none exactly when there is none |
| WithdrawalService.ContactIndexById | Ritta-app/services/backend/src/withdrawals/services/withdrawal.service.ts:602-603 | finds the contact with that id, and none exactly when there is none |
| WithdrawalService.ContactResolves | Ritta-app/services/backend/src/withdrawals/services/withdrawal.service.ts:602-603 | under the table invariant a record's contact reference resolves |
| WithdrawalService.ApproveExtraordinaryDelegate | Ritta-app/services/backend/src/withdrawals/services/withdrawal.service.ts:598-614 | the record becomes verified with the parent and contact as authorizers and stays PENDING; its contact becomes verified, temporary, single-use, consumed now unless already consumed |
| WithdrawalService.ResolvePendingManualApproval | Ritta-app/services/backend/src/withdrawals/services/withdrawal.service.ts:548-649 | no matching record, and an action that is neither APPROVE nor DENY once upper-cased, fail without a write; APPROVE approves the delegate as above; DENY makes the record DENIED and unverified, clears both contact ids and deletes exactly that contact; both write the appended notes |
| WithdrawalService.ExtraordinaryRecordAwaitsGuardian | Ritta-app/services/backend/src/withdrawals/services/qr_authorization.service.ts:548-570 | the record an extraordinary delegate's authorization creates is the one the parent can resolve, and names no registered delegate |
| WithdrawalService.ConfirmedIndexAsWritten | Ritta-app/services/backend/src/withdrawals/services/withdrawal.service.ts:870-883 | finds a MANUAL, PENDING, verified record of the inspector naming a registered delegate, and none exactly when there is none |
| WithdrawalService.ConfirmedAsWrittenUnreachable | Ritta-app/services/backend/src/withdrawals/services/withdrawal.service.ts:870-878 | as PENDING records name no registered delegate, the query as written finds nothing |
| WithdrawalService.InspectorFinalizationInverted | Ritta-app/services/backend/src/withdrawals/services/withdrawal.service.ts:890-896 | as written, DENY approves the pickup and APPROVE approves it under the rejection line |
| WithdrawalService.FinalizeInspectorManualApproval | Ritta-app/services/backend/src/withdrawals/services/withdrawal.service.ts:862-912 | as written: a found record would get the inverted status, the notes and now as pickup instant; on a valid store it always fails "not found" and writes nothing |
| WithdrawalService.ConfirmedIndex | Ritta-app/services/backend/src/withdrawals/services/withdrawal.service.ts:870-883 | corrected query: finds the MANUAL, PENDING, verified record of the inspector whose retriever is a contact, and none exactly when there is none |
| WithdrawalService.InspectorFinalization | Ritta-app/services/backend/src/withdrawals/services/withdrawal.service.ts:890-896 | corrected: APPROVED exactly for APPROVE, exactly under the authorization line; DENIED exactly under the rejection line |
| WithdrawalService.GuardianApprovalReachesInspector | Ritta-app/services/backend/src/withdrawals/services/withdrawal.service.ts:598-614 | a record the parent approved matches the corrected query and never the query as written |
| WithdrawalService.FinalizeConfirmedManualApproval | Ritta-app/services/backend/src/withdrawals/services/withdrawal.service.ts:862-912 | corrected: no confirmed record fails without a write; otherwise the status follows the action, the notes are appended and the pickup instant is now |
| WithdrawalService.HasMoreIffRowsRemain | Ritta-app/services/backend/src/withdrawals/services/withdrawal.service.ts:457 | `hasMore` (defaults 20 and 0) holds exactly when matching rows remain after the page returned |
| Text.AsciiUpper | Ritta-app/services/backend/src/withdrawals/services/withdrawal.service.ts:588 | same length, each ASCII lower-case letter upper-cased and every other character kept |
| Text.TrimEmptyIff | Ritta-app/services/backend/src/withdrawals/services/withdrawal.service.ts:629 | a text trims to nothing exactly when it is all whitespace |
| Text.SplitJoinLines | Ritta-app/services/backend/src/withdrawals/services/withdrawal.service.ts:633 | newline-joined lines without newlines split back into the same lines |
| SchemaRules.RutShape | Ritta-app/services/backend/src/withdrawals/validators/inspector_withdrawal.validators.ts:102 | a RUT is exactly a body of 7 or 8 digits, a dash and a digit, k or K |
| SchemaRules.RutSplits | Ritta-app/services/backend/src/withdrawals/validators/inspector_withdrawal.validators.ts:102 | every RUT splits into its body, the dash and its check character |
| SchemaRules.RutIsNotPhone | Ritta-app/services/backend/src/withdrawals/validators/inspector_withdrawal.validators.ts:102-109 | no RUT passes the phone pattern |
| SchemaRules.OrDefault | Ritta-app/services/backend/src/withdrawals/validators/parent_withdrawal.validators.ts:101-120 | an absent key takes its default, a present integer keeps its value |
| SchemaRules.PageKeyBounds | Ritta-app/services/backend/src/withdrawals/validators/parent_withdrawal.validators.ts:101-120 | a validated page key, default applied, is within its bounds |
| InspectorValidators.ManualAuthorizationShape | Ritta-app/services/backend/src/withdrawals/validators/inspector_withdrawal.validators.ts:48-149 | a valid request has exactly one kind of delegate, a positive registered id, and with an extraordinary delegate a non-empty reason of at most 500 characters |
| InspectorValidators.HistoryPage | Ritta-app/services/backend/src/withdrawals/validators/inspector_withdrawal.validators.ts:268-286 | the inspector's history page has limit 1..200 (default 50) and offset at least 0 (default 0) |
| ParentValidators.HistoryDefaults | Ritta-app/services/backend/src/withdrawals/validators/parent_withdrawal.validators.ts:93-120 | the parent's history page has limit 1..100 (default 20), offset at least 0 (default 0), and includes pending codes unless told not to |
| ParentValidators.StudentHistoryPage | Ritta-app/services/backend/src/withdrawals/validators/parent_withdrawal.validators.ts:186-198 | a student's history page has limit 1..50 (default 10) and offset at least 0 (default 0) |
| RequestPipeline.ValidatedCodeIsLookedUp | Ritta-app/services/backend/src/withdrawals/validators/inspector_withdrawal.validators.ts:7-14 | a code passing the validator is never refused for its format; its only possible error is "not found or used" (reading `validateQrCodeFormat` as six ASCII digits, see "## Left out") |
| RequestPipeline.ValidatedScanStatus | Ritta-app/services/backend/src/withdrawals/validators/inspector_withdrawal.validators.ts:30-42 | for a validated scan the record is APPROVED exactly for APPROVE and DENIED exactly for DENY |
| RequestPipeline.ManualDelegateOf | Ritta-app/services/backend/src/withdrawals/validators/inspector_withdrawal.validators.ts:91-125 | the delegate the service receives has a non-empty name and relationship, a RUT and a phone |
| RequestPipeline.ManualDelegateTrimmed | Ritta-app/services/backend/src/withdrawals/validators/inspector_withdrawal.validators.ts:91-125 | the name and relationship the service receives are already trimmed: trimming them again changes nothing |
| RequestPipeline.ValidatedManualNeverAsks | Ritta-app/services/backend/src/withdrawals/validators/inspector_withdrawal.validators.ts:147 | a validated manual authorization is never refused for giving both delegates and never answered "select a delegate" or "extraordinary allowed": it is registered or refused |
| RequestPipeline.ValidatedReasonIsNoted | Ritta-app/services/backend/src/withdrawals/validators/inspector_withdrawal.validators.ts:127-148 | with a validated extraordinary delegate the unregistered-reason line is always among the notes |
| RequestPipeline.ManualWithdrawalRequestOf | Ritta-app/services/backend/src/withdrawals/validators/inspector_withdrawal.validators.ts:155-200 | a validated RUT withdrawal reaches the service with two RUTs and a positive reason |
| RequestPipeline.GenerateQrRequestOf | Ritta-app/services/backend/src/withdrawals/validators/parent_withdrawal.validators.ts:7-39 | a validated QR request reaches the service with positive student and reason ids, the submitted ones, and the reason as given |
| RequestPipeline.ParentHistoryNextPage | Ritta-app/services/backend/src/withdrawals/validators/parent_withdrawal.validators.ts:100-120 | with the parent schema's page keys, `hasMore` holds exactly when the next page is not empty |
| RequestPipeline.ValidatedActionIsAccepted | Ritta-app/services/backend/src/withdrawals/validators/parent_withdrawal.validators.ts:252-281 | a validated action is its own upper-case form and APPROVE or DENY, so the resolution never fails as an invalid action |

## Left out

- ORM specifics are not modelled: `include`s, joins, ordering (`createdAt DESC`), DTO mapping and name formatting. Tables are in primary-key order and `findOne` is the first matching row.
- `findAndCountAll` ordering in `getParentWithdrawalHistory`: the page is taken in table order, not newest first.
- `getParentStudents`, `getPendingManualApprovals`, `getInspectorConfirmedManualApprovals`, `getWithdrawalReasons`, `getStudentWithdrawalHistory` and `getActiveQrsForParent`: read-only listings that only join tables; not modelled.
- The listing `getInspectorConfirmedManualApprovals` has the same unsatisfiable filter as the finalization (withdrawal.service.ts:789). It is covered only through `ConfirmedAsWrittenUnreachable`.
- The filters of `getParentWithdrawalHistory` and `getInspectorWithdrawalHistory` in `WithdrawalService`: only their `hasMore` rule is modelled.
- `getParentWithdrawalStats`: floating-point success rates; not modelled.
- `QrGeneratorUtil` is not part of this model. The code and expiry instant it produces are parameters, and `isExpired` is taken as `expiresAt <= now`. Its `validateQrCodeFormat` (called at Ritta-app/services/backend/src/withdrawals/services/qr_authorization.service.ts:62) is read as exactly six ASCII digits (`^\d{6}$`), the same rule as the route validators; if the generator's check differs, `GetQrValidationInfo`'s format branch and `RequestPipeline.ValidatedCodeIsLookedUp` differ with it.
- Models.ContactTableValid: assumes every `retrieverEmergencyContactId` a withdrawal holds resolves to a contact (a foreign key). The source's null guard `if (withdrawal.retrieverEmergencyContact)` (Ritta-app/services/backend/src/withdrawals/services/withdrawal.service.ts:604, 621) is therefore always taken when the id is set; a dangling contact id is not modelled.
- Models.ContactTableValid: assumes no contact is the retriever of two withdrawals. This holds for every contact the engine creates, since each is created for one record; a contact shared by hand in the database is not modelled.
- No expiry duration is assumed.
- `new Date()`: the current instant is a parameter.
- Concurrency is not modelled:
  - the check-then-create race of `createQrAuthorization`;
  - the lookup of `validateAndProcessQr` outside its transaction;
  - the missing transaction of `finalizeInspectorManualApproval`.
- Event emission (`withdrawal.events.ts`) is left out: it is imported but never emitted here.
- `Number(id)` conversion and the `NaN` filter of the discarded ids: ids are integers in the model.
- Joi's unknown-key policy and its type conversion are left out. The middleware that applies the schemas is not part of this model.
  - `authorizeWithoutQr` reads three keys that `manualAuthorizationSchema` does not name: `discardedDelegateIds`, `allowManualDelegateOverride` and `manualDelegateOverrideReason`.
  - `RequestPipeline.ManualPayload` passes them through unchecked.
- The ISO date format of `startDate` and `endDate` is not modelled: dates are instants.
- The RUT check digit is not verified, as in the source: only the format is checked.
- The message texts of errors are not modelled: errors are constructors of `Models.Error`.
- `OverrideNotePrefix` (`WITHDRAWAL_CONSTANTS.NOTES.MANUAL_DELEGATE_OVERRIDE_PREFIX`) is declared without a value, because the constants file is not part of this model.
- `WithdrawalService.FinalizeConfirmedManualApproval`: the model answers `contactVerified` as true, which is what every record its query matches carries.
- The schemas `getQrInfoSchema`, `getActiveQrsSchema`, `resendQrSchema`, `getStatsSchema`, `getPendingApprovalsSchema` and `searchStudentSchema` are not modelled. They only guard endpoints outside the modelled core.

## Findings

| source | as written | input that shows it | evidently intended | confidence | as-written member | corrected member |
|---|---|---|---|---|---|---|
| Ritta-app/services/backend/src/withdrawals/services/withdrawal.service.ts:890-896 | `action === APPROVE \|\| action === 'DENY'` sets APPROVED and pushes "Inspector rechazó el retiro…"; any other action sets DENIED and pushes "Inspector autorizó el retiro…" | action `DENY` on a confirmed record: the pickup is APPROVED, and the note says the inspector rejected it | APPROVE approves under the authorization line; DENY denies under the rejection line | not executed | WithdrawalService.InspectorFinalizationInverted | WithdrawalService.InspectorFinalization |
| Ritta-app/services/backend/src/withdrawals/services/withdrawal.service.ts:870-878 | the query requires `retrieverDelegateId != null` on a PENDING, verified record; every PENDING record is created with a null registered delegate (qr_authorization.service.ts:560) | a record approved by the parent: MANUAL, PENDING, `contactVerified` true, `retrieverDelegateId` null, `retrieverEmergencyContactId` set; the inspector's finalization answers "Solicitud confirmada no encontrada" | the record whose retriever is the parent-approved emergency contact is found | not executed | WithdrawalService.ConfirmedAsWrittenUnreachable | WithdrawalService.GuardianApprovalReachesInspector |
