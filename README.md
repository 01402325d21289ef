# Sample inventory engine: documents, approval and the ledger

This project models the inventory engine of a laboratory sample tracker. The
engine keeps a store of movement documents and an append-only ledger of signed
transactions. Documents are inbound (IN), outbound (OUT), returns (RETURN) or
disposals (DISPOSE).

- A document is created as DRAFT under a number `PREFIX-YYYYMMDD-NNNN`.
- Approving a submitted document first checks it against the ledger. It then
  sets the status to APPROVE and posts one signed transaction per line.
- A sample's stock is never stored. It is the sum of the sample's transaction
  deltas.

Modules, one per concern:

- `Domain` (domain.dfy): the enumerations and records.
- `Digits` (digits.dfy): `String(n).padStart` and its inverse.
- `DocNumbers` (doc_numbers.dfy): `generateDocNo`.
- `Lookup` (lookup.dfy): lookup by id, and the first line that carries a sample.
- `Ledger` (ledger.dfy): `getStock`, the quantity already returned, and the
  entries an approval posts.
- `Approval` (approval.dfy): `approveDocument` as a decision function, the state
  it leaves, and what the decision means.
- `Listing` (listing.dfy): the query arithmetic of the document list.
- `Inventory` (inventory.dfy): class `Store`, which holds `docs`, `ledger` and
  `audit` and has the methods `Create` (POST), `Approve` (`approveDocument`) and
  `List` (GET).
- `Auth` (auth.dfy): the role predicates.
- `Scenarios` (scenarios.dfy): worked examples on concrete stores.

Quantities are exact decimals (`real`). The clock is a parameter: a `Date` for
the document number and a `Timestamp` for `approvedAt`. Document ids are
strings. A lookup by id returns the first stored document with that id. The
class invariant `Valid()` states two things. First, ids are distinct. Second,
every ledger entry belongs to a stored APPROVE document of the entry's type.
`Create` and `Approve` both preserve it.

## Behaviour kept as the code has it

The model keeps three behaviours of the code, each shown by a lemma:

- Each OUT or DISPOSE line is checked alone against the stock as it was before
  the approval. Two lines for one sample can each pass and together overdraw
  the stock (`Scenarios.SplitLinesOverdraw`). Stock stays at or above 0 when
  each sample appears on one line (`Approval.WithdrawalWithinStock`).
- Return lines are checked the same way. Two lines for one sample can together
  return more than was taken out (`Scenarios.SplitLinesOverreturn`). With one
  line per sample, the returned total stays within the original line
  (`Approval.ReturnWithinOriginal`).
- The return reference is only looked up. It is not checked to be an approved
  OUT document (`Scenarios.ReferenceNotVetted`). The new-document page offers
  only approved OUT documents as references (app/documents/new/page.tsx:63),
  but the approval itself does not require one.

The code writes the status update and each ledger entry separately, with no
transaction around them. The model treats one approval as one step (see
"Left out").

## Model

| member | source | states |
|---|---|---|
| `DocNumbers.GenerateDocNo` | lib/document.ts:9-27 | The generated number starts with the day prefix, so the count query for its own type and day matches it. |
| `DocNumbers.GenerateDocNoShape` | lib/document.ts:9-27 | The number is the type's prefix, a dash, the day, a dash, then at least four digits. Those digits read back as the count of same-type documents already numbered that day, plus one. |
| `DocNumbers.GenerateDocNoLength` | lib/document.ts:26-27 | While the count plus one stays below 10000, the sequence part is exactly four digits, so the number is the day prefix plus five characters. |
| `DocNumbers.PrefixesDiffer` | lib/document.ts:9-14 | The prefixes IN, OUT, RET and DIS of different types differ in their first character. |
| `DocNumbers.StampLength` | lib/document.ts:16 | A valid day renders as exactly eight characters (YYYYMMDD), and every one of them is a digit. |
| `DocNumbers.StampInjective` | lib/document.ts:16 | Distinct valid days have distinct stamps. |
| `DocNumbers.FormatInjective` | lib/document.ts:9-27 | A number determines its type, its day and its sequence, so numbers on valid days never collide. |
| `DocNumbers.NumberedDocNosMember` | lib/document.ts:17-24 | Every stored document of the type whose number carries the day prefix is counted. |
| `DocNumbers.NextSequence` | lib/document.ts:17-27 | Once a document with the generated number is stored, the count grows by one and the next number for that type and day has sequence plus one. |
| `DocNumbers.OtherDayUnaffected` | lib/document.ts:17-24 | A document numbered on another valid day does not move the count for this day. |
| `DocNumbers.GeneratedIsFresh` | lib/document.ts:17-27 | When the numbers of a type and day are consecutive from 1, the generated number is carried by no stored document of that type. |
| `DocNumbers.ConsecutiveAfterCreate` | lib/document.ts:17-27 | Storing a document under the generated number keeps the numbers of its type and day consecutive. |
| `Digits.PadStartRoundTrip` | lib/document.ts:26 | `String(n).padStart(w, '0')` is at least w digits long, is all digits, and reads back as n. |
| `Digits.PadStartInjective` | lib/document.ts:26 | Different sequence numbers never get the same padded text. |
| `Digits.DecimalLength` | lib/document.ts:16 | A number below 10^w renders in at most w digits, so padding to w gives exactly w characters. |
| `Digits.ParseDecimalOfDecimal` | lib/document.ts:26 | Parsing the decimal rendering of n gives back n. |
| `Lookup.FindDoc` | lib/document.ts:35-40 | The result is the first document with the id, or none when no stored document has that id. |
| `Lookup.FirstLineFor` | lib/document.ts:71-76 | The result is the first line for the sample, or none when no line carries it. |
| `Lookup.FindAfterAppend` | app/api/documents/route.ts:55-80 | Inserting a document does not change where a stored id is found. A new id is found at the end. |
| `Lookup.FindAfterUpdate` | lib/document.ts:106-113 | Rewriting a document's status fields in place does not change any lookup. |
| `Ledger.Total` | lib/document.ts:145-152 | An aggregate `_sum`, with `|| 0`: it is 0 when no entry is selected, and at least 0 when every selected entry has a non-negative delta. |
| `Ledger.Stock` | lib/document.ts:144-153 | `getStock`: a sample with no entries has stock 0. A sample whose entries all have non-negative deltas (it has only been taken in or returned) never has negative stock. `Ledger.StockAppend` and `Approval.StockAfterApproval` give its other properties. |
| `Ledger.StockAppend` | lib/document.ts:144-153 | Stock is additive over the ledger: the stock of a + b is the stock of a plus the stock of b. |
| `Ledger.TotalAppend` | lib/document.ts:79-94 | A filtered sum (the aggregate `_sum`) of a + b is the sum over a plus the sum over b. |
| `Ledger.Postings` | lib/document.ts:116-140 | An approval posts exactly one entry per line, in line order. Entry k is `Ledger.Posting` of line k: it carries the document id, line k's sample, batch and remark, the document's type, and the approver as operator. Its delta is the negated quantity for OUT and DISPOSE and the quantity itself for IN and RETURN. |
| `Ledger.ReturnedQty` | lib/document.ts:79-94 | The already-returned quantity is the `_sum` over the entries `Ledger.CountsAsReturned` selects: RETURN entries of the sample whose document is a stored, approved RETURN document referring to the original. It is 0 on an empty ledger. |
| `Ledger.ReturnedQtyBounds` | lib/document.ts:79-94 | The returned quantity is 0 while no entry counts, and at least 0 while every counted entry has a non-negative delta. |
| `Ledger.StockOfPostings` | lib/document.ts:123-140 | A document's entries move a sample's stock by the signed total of the document's lines for that sample: minus the total for OUT and DISPOSE, plus the total for IN and RETURN. |
| `Approval.CheckStock` | lib/document.ts:46-55 | The stock check passes if and only if every line's quantity is at most the sample's stock before approval. On failure it names the first short line, its sample and that stock. |
| `Approval.FirstFailure` | lib/document.ts:47-54 | Checking elements in order and stopping at the first failure passes if and only if every element is ok. On failure it reports the error of the first element that is not ok. |
| `Approval.CheckReturnLines` | lib/document.ts:70-101 | The check passes if and only if every line has a line for its sample on the original document (the first match), and its quantity is at most that line's quantity less what is already returned. On failure it reports the first such line. The error is not-in-original when the sample has no line on the original document, or otherwise not-returnable with the `availableReturn` figure. |
| `Approval.FirstRejection` | lib/document.ts:70-101 | Whatever line is the first inadmissible one is the line the return check reports, with its error. |
| `Approval.CheckReturn` | lib/document.ts:58-101 | A missing or empty reference fails with the missing-reference error. A reference to no stored document fails with the not-found error. Otherwise the outcome is exactly the line check against the referenced document's lines. |
| `Approval.Decide` | lib/document.ts:35-103 | Approval goes ahead only for a stored document in SUBMIT. A stock error is raised only for an OUT or DISPOSE document. A reference or return-line error is raised only for a RETURN document. |
| `Approval.DecidePasses` | lib/document.ts:35-103 | Approval goes ahead if and only if the document exists, is SUBMIT, and passes its type's check. IN needs nothing more. |
| `Approval.RefusesUnlessSubmitted` | lib/document.ts:35-43 | A missing document is refused with the not-found error. A document whose status is not SUBMIT is refused with its status, whatever the ledger holds. |
| `Approval.SecondApprovalRefused` | lib/document.ts:41-43 | After a successful approval, approving the same document again is refused, because its status is now APPROVE. |
| `Approval.StockRefusedAt` | lib/document.ts:46-55 | A submitted OUT or DISPOSE document is refused at its first line whose quantity exceeds the stock. The error names that line's sample and the stock. |
| `Approval.ReturnRefusedAt` | lib/document.ts:58-101 | A submitted RETURN document whose reference is found is refused at its first inadmissible line, with that line's error. |
| `Approval.StockAfterApproval` | lib/document.ts:123-153 | After approval each sample's stock changes by exactly the signed total of the document's lines for it. Samples not on the document keep their stock. |
| `Approval.WithdrawalWithinStock` | lib/document.ts:46-55 | When every sample appears on one line, an approved OUT or DISPOSE document leaves each of its samples with stock of at least 0. |
| `Approval.ReturnedUnchangedByApproval` | lib/document.ts:79-93 | Entries already on the ledger count as returned after an approval exactly as before. |
| `Approval.ReturnedByPostings` | lib/document.ts:79-93 | The entries of an approved RETURN document count as returned against its reference exactly for its lines' samples. |
| `Approval.ReturnWithinOriginal` | lib/document.ts:70-101 | After approving a RETURN document with one line per sample, the total returned against the original document for each of those samples is at most the original line's quantity. |
| `Inventory.Store.Create` | app/api/documents/route.ts:48-97 | The new document gets the generated number and the status DRAFT, whatever the body holds. It copies the body's type, header, reference (falsy becomes null) and lines, and it has no approver. Then exactly one CREATE audit record with the new id is appended. When the id or the number is already stored, the insert throws: the response is a 500 and nothing is written. |
| `Inventory.Store.CheckStockLines` | lib/document.ts:46-55 | The line-by-line loop returns the first insufficient-stock error, or passes, exactly as the stock check. |
| `Inventory.Store.CheckReturnDoc` | lib/document.ts:58-103 | The reference checks and the line-by-line loop give exactly the outcome of the return check. |
| `Inventory.Store.CheckReturnLoop` | lib/document.ts:70-101 | The loop over the return lines stops at the first line with no line on the original document, or the first that exceeds what is returnable. It gives exactly the outcome of the line checks. |
| `Inventory.Store.PostLines` | lib/document.ts:115-140 | The loop computes each delta itself: negated for OUT and DISPOSE, as is for IN and RETURN. It appends exactly the document's entries, one per line in order, after the existing ledger. The invariant is kept. |
| `Inventory.Store.Approve` | lib/document.ts:31-141 | The outcome is the decision on the old store. On failure the store and the ledger are unchanged. On success the document becomes APPROVE with the approver and time set, and its entries follow the old ledger. The audit log is untouched and the invariant is kept. |
| `Inventory.Store.Commit` | lib/document.ts:105-140 | The status update comes first, then the ledger entries. Nothing else changes. |
| `Inventory.Store.List` | app/api/documents/route.ts:6-46 | The list succeeds exactly when the query is accepted. It returns every match in the total. The page is the window of the newest-first matches that starts at skip = (page-1)*pageSize and holds at most pageSize documents, and all of them match the filter. |
| `Listing.Selected` | app/api/documents/route.ts:14-30 | The selection holds only stored documents that match the filter. |
| `Listing.SelectedComplete` | app/api/documents/route.ts:14-30 | A document is selected if and only if it is stored and matches the filter. |
| `Listing.SelectedNewestFirst` | app/api/documents/route.ts:28 | Of two selected documents, the one stored later is listed before the one stored earlier (newest first). |
| `Listing.SelectedWindow` | app/api/documents/route.ts:19-27 | Every document on a page of the selection is stored and matches the filter. |
| `Listing.SelectedUnfiltered` | app/api/documents/route.ts:14-16 | Without a type or status parameter, every document is counted. |
| `Listing.ParseInt` | app/api/documents/route.ts:11-12 | `parseInt` of an empty string is NaN. A negative result needs a minus sign in the text. |
| `Listing.ParseIntOfDecimal` | app/api/documents/route.ts:11-12 | `parseInt` reads back what `String(n)` writes. |
| `Listing.BuildQuery` | app/api/documents/route.ts:9-27 | Its skip is (page - 1) * pageSize and its take is pageSize. A type or status filter is set only when its parameter is non-empty. When that parameter is non-empty, the filter is its enum lookup. `Listing.Accepted` adds the database's demands: known enum names, and skip and take at least 0. |
| `Listing.Window` | app/api/documents/route.ts:26-27 | Skip and take keep the at most take elements that start at position skip, in order. |
| `Listing.DefaultQuery` | app/api/documents/route.ts:9-27 | With no parameters the query has no filter, page 1, pageSize 20, skip 0 and take 20. |
| `Listing.PagedQuery` | app/api/documents/route.ts:11-27 | For any page n and pageSize m written in decimal, the query is built as page n of size m: skip (n - 1) * m, take m. |
| `Auth.CanViewSensitiveFields` | lib/auth.ts:34-36 | The roles that may see sensitive fields are exactly the roles that `Auth.CanApproveDocument` allows to approve (lines 42-44). |
| `Auth.CanCreateDocument` | lib/auth.ts:38-44 | Of the roles that may create a document, only ADMIN may also approve one. |
| `Auth.CanViewAuditLog` | lib/auth.ts:34-48 | Seeing the audit log is allowed for exactly the roles that may see sensitive fields. |
| `Auth.AdminAllQueryNone` | lib/auth.ts:34-48 | ADMIN holds all four permissions. QUERY holds none. |
| `Auth.SeparationOfDuties` | lib/auth.ts:38-44 | INPUT can create but not approve. AUDIT can approve but not create. Only ADMIN can do both. |
| `Scenarios.OutboundWalkthrough` | lib/document.ts:46-55 | IN 100 then OUT 30 leaves 70. An OUT of 80 is refused with 70 available. An OUT of 50 passes and leaves 20. |
| `Scenarios.ReturnWalkthrough` | lib/document.ts:79-101 | After OUT 50 and an approved RETURN of 20, 20 counts as returned. A RETURN of 40 is refused with 30 returnable. |
| `Scenarios.NumbersOfTheDay` | lib/document.ts:9-27 | IN numbers 1 to 3 on 1 May 2024 read IN-20240501-0001 to IN-20240501-0003. |
| `Scenarios.ThreeOnOneDay` | lib/document.ts:17-27 | Three documents of one type created on a day with no numbers yet get sequences 1, 2 and 3. |
| `Scenarios.SplitLinesOverdraw` | lib/document.ts:46-55 | Two OUT lines of 6 for one sample, against a stock of 10, both pass. The stock then ends at -2. |
| `Scenarios.SplitLinesOverreturn` | lib/document.ts:70-101 | Two RETURN lines of 30 against an outbound line of 50 both pass. 60 then counts as returned. |
| `Scenarios.ReferenceNotVetted` | lib/document.ts:63-68 | A RETURN referring to a DRAFT IN document passes the reference check. |

## Left out

- Submit, reject, cancel and edit are not modelled. They are the PATCH and PUT
  handlers in app/api/documents/[id]/route.ts. So the model has no way to bring
  a document to SUBMIT; the approval lemmas hold for any store. The source's
  cancel is not gated on status. It would let an APPROVE document become
  CANCEL with its entries kept, which breaks the second half of `Valid()` and
  changes what counts as already returned. Reject is not gated either
  (app/api/documents/[id]/route.ts:167-182). An APPROVE document can become
  REJECT with its entries kept, with the same effect.
- Atomicity and concurrency are not modelled. `Inventory.Store.Approve` is one
  atomic step, but the source writes the status and each entry separately
  without a database transaction. Two approvals racing on one sample, and two
  creations racing for one number, are not modelled.
- Floating point is not modelled. The source's `Number(...)` conversions are
  JavaScript floats; quantities here are exact `real`s.
- The clock is a parameter. Years past 9999, which `toISOString` writes in the
  extended six-digit form, are not modelled: `DocNumbers.Stamp` pads the year
  to four digits.
- Inserts fail in the model only on a unique-key collision (the id or the
  number). Foreign-key failures, malformed bodies and unknown type names are
  not modelled, since the database schema is not part of this model. The
  request's type is already a `DocType`. A uniqueness constraint on `docNo` is
  assumed.
- `Inventory.Store.Create`: a failing audit write after a successful insert
  (the document stays, the response is a 500) is not modelled. Audit metadata
  is not modelled.
- `Inventory.Store.List`: Prisma reads a negative `take` as paging backwards;
  the model treats a negative skip or take as a failed query. The
  creator/approver/sample joins of the response are not modelled.
  `orderBy createdAt desc` is the reversed store, because the store keeps
  creation order.
- `Listing.ParseInt`: the `0x` hexadecimal prefix and white space other than
  space, tab, line feed and carriage return are not modelled.
- Error messages are typed errors here. The sample code in the source's
  messages is replaced by the sample id.
- `verifyPassword` is not modelled: it needs bcrypt and a database lookup.
  Login, seed data, spreadsheet import and export, the read-only query routes
  and the pages are not part of this model. The inbound import writes the
  fixed number `IN-…-0001` without calling `generateDocNo`; it is not modelled
  either.
