/**
 * The records of the inventory engine: document types and statuses, documents
 * with their lines, and signed ledger transactions.
 */
module Domain {
  import opened Wrappers

  type DocId = string
  type SampleId = string
  type UserId = string

  /** Seconds since the epoch; the clock is a parameter of the model. */
  type Timestamp = nat

  /** The four movement kinds. A transaction's type is always its document's type. */
  datatype DocType = IN | OUT | RETURN | DISPOSE

  datatype DocStatus = DRAFT | SUBMIT | APPROVE | REJECT | CANCEL

  /** A calendar day in UTC, as the clock reports it. */
  datatype Date = Date(year: nat, month: nat, day: nat)

  predicate ValidDate(d: Date) {
    d.year <= 9999 && 1 <= d.month <= 12 && 1 <= d.day <= 31
  }

  /** One sample and quantity on a document. Quantities are exact decimals. */
  datatype Line = Line(sampleId: SampleId, quantity: real, batchNo: Option<string>, remark: Option<string>)

  /** The free-text disposal fields a document carries. */
  datatype DisposeInfo = DisposeInfo(
    reason: Option<string>,
    disposalMethod: Option<string>,
    operator: Option<string>,
    supervisor: Option<string>,
    approver: Option<string>)

  datatype Document = Document(
    id: DocId,
    docNo: string,
    docType: DocType,
    status: DocStatus,
    description: Option<string>,
    dispose: DisposeInfo,
    returnFromDocId: Option<DocId>,
    creatorId: UserId,
    approverId: Option<UserId>,
    approvedAt: Option<Timestamp>,
    lines: seq<Line>)

  /** An immutable ledger entry, written once when its document is approved. */
  datatype Transaction = Transaction(
    documentId: DocId,
    sampleId: SampleId,
    txType: DocType,
    quantityDelta: real,
    batchNo: Option<string>,
    remark: Option<string>,
    operatorId: UserId)

  datatype AuditAction = CREATE | EDIT | SUBMIT_ACTION | APPROVE_ACTION | REJECT_ACTION | CANCEL_ACTION | IMPORT | EXPORT

  /** One entry of the append-only audit log. */
  datatype AuditRecord = AuditRecord(
    userId: UserId,
    action: AuditAction,
    entityType: string,
    entityId: string,
    description: string)

  /** OUT and DISPOSE take stock away; IN and RETURN add it. */
  predicate Withdraws(t: DocType) {
    t == OUT || t == DISPOSE
  }

  /** The signed ledger delta of a line quantity on a document of type t. */
  function SignedQuantity(t: DocType, q: real): real {
    if Withdraws(t) then -q else q
  }
}
