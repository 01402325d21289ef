/**
 * The append-only ledger: stock as the sum of signed deltas (getStock), the
 * quantity already returned against an outbound document, and the entries an
 * approval posts.
 */
module Ledger {
  import opened Wrappers
  import opened Domain
  import opened Lookup

  /** The sum of quantityDelta over the entries the filter selects (an aggregate _sum; 0 when none match). */
  function Total(ledger: seq<Transaction>, counted: Transaction -> bool): (r: real)
    ensures (forall k :: 0 <= k < |ledger| ==> !counted(ledger[k])) ==> r == 0.0
    ensures (forall k :: 0 <= k < |ledger| && counted(ledger[k]) ==> ledger[k].quantityDelta >= 0.0) ==> r >= 0.0
  {
    if ledger == [] then 0.0
    else
      var last := ledger[|ledger| - 1];
      Total(ledger[..|ledger| - 1], counted) + (if counted(last) then last.quantityDelta else 0.0)
  }

  /**
   * getStock: the signed sum over the sample's entries. A sample without entries
   * has stock 0, and one that has only ever been taken in never has less.
   */
  function Stock(ledger: seq<Transaction>, s: SampleId): (r: real)
    ensures (forall k :: 0 <= k < |ledger| ==> ledger[k].sampleId != s) ==> r == 0.0
    ensures (forall k :: 0 <= k < |ledger| && ledger[k].sampleId == s ==> ledger[k].quantityDelta >= 0.0) ==> r >= 0.0
  {
    Total(ledger, (t: Transaction) => t.sampleId == s)
  }

  lemma {:induction false} TotalAppend(a: seq<Transaction>, b: seq<Transaction>, counted: Transaction -> bool)
    ensures Total(a + b, counted) == Total(a, counted) + Total(b, counted)
    decreases |b|
  {
    if b == [] {
      assert a + b == a;
    } else {
      var init := b[..|b| - 1];
      TotalAppend(a, init, counted);
      assert (a + b)[..|a + b| - 1] == a + init;
    }
  }

  /** Filters that agree on every entry give the same total. */
  lemma {:induction false} TotalAgree(ledger: seq<Transaction>, f: Transaction -> bool, g: Transaction -> bool)
    requires forall k :: 0 <= k < |ledger| ==> f(ledger[k]) == g(ledger[k])
    ensures Total(ledger, f) == Total(ledger, g)
  {
    if ledger != [] {
      TotalAgree(ledger[..|ledger| - 1], f, g);
    }
  }

  /** Stock is additive over the ledger's history. */
  lemma StockAppend(a: seq<Transaction>, b: seq<Transaction>, s: SampleId)
    ensures Stock(a + b, s) == Stock(a, s) + Stock(b, s)
  {
    TotalAppend(a, b, (t: Transaction) => t.sampleId == s);
  }

  /**
   * Whether an entry counts as already returned against outbound document ref
   * for sample s: a RETURN entry of that sample whose document is an approved
   * RETURN document referring to ref.
   */
  predicate CountsAsReturned(docs: seq<Document>, t: Transaction, ref: DocId, s: SampleId) {
    t.sampleId == s && t.txType == RETURN &&
    match FindDoc(docs, t.documentId)
    case None => false
    case Some(k) =>
      docs[k].docType == RETURN && docs[k].returnFromDocId == Some(ref) && docs[k].status == APPROVE
  }

  /** The quantity of sample s already returned against outbound document ref (the aggregate's `_sum || 0`). */
  function ReturnedQty(docs: seq<Document>, ledger: seq<Transaction>, ref: DocId, s: SampleId): (r: real)
    ensures ledger == [] ==> r == 0.0
  {
    Total(ledger, (t: Transaction) => CountsAsReturned(docs, t, ref, s))
  }

  /**
   * Nothing counts as returned while no entry counts, and the returned quantity
   * is never below 0 while every counted entry has a non-negative delta.
   */
  lemma ReturnedQtyBounds(docs: seq<Document>, ledger: seq<Transaction>, ref: DocId, s: SampleId)
    ensures (forall k :: 0 <= k < |ledger| ==> !CountsAsReturned(docs, ledger[k], ref, s)) ==> ReturnedQty(docs, ledger, ref, s) == 0.0
    ensures (forall k :: 0 <= k < |ledger| && CountsAsReturned(docs, ledger[k], ref, s) ==> ledger[k].quantityDelta >= 0.0)
      ==> ReturnedQty(docs, ledger, ref, s) >= 0.0
  {
  }

  /** The sum of the quantities of the lines that carry sample s. */
  function LineTotal(lines: seq<Line>, s: SampleId): real {
    if lines == [] then 0.0
    else LineTotal(lines[..|lines| - 1], s) + (if lines[|lines| - 1].sampleId == s then lines[|lines| - 1].quantity else 0.0)
  }

  /** No two lines carry the same sample. */
  predicate DistinctSamples(lines: seq<Line>) {
    forall i, j :: 0 <= i < j < |lines| ==> lines[i].sampleId != lines[j].sampleId
  }

  /** When a sample appears on one line only, its total is that line's quantity. */
  lemma {:induction false} LineTotalOfUniqueLine(lines: seq<Line>, k: nat)
    requires DistinctSamples(lines) && k < |lines|
    ensures LineTotal(lines, lines[k].sampleId) == lines[k].quantity
  {
    var init := lines[..|lines| - 1];
    if k < |lines| - 1 {
      LineTotalOfUniqueLine(init, k);
    } else {
      LineTotalAbsent(init, lines[k].sampleId);
    }
  }

  lemma {:induction false} LineTotalAbsent(lines: seq<Line>, s: SampleId)
    requires forall k :: 0 <= k < |lines| ==> lines[k].sampleId != s
    ensures LineTotal(lines, s) == 0.0
  {
    if lines != [] {
      LineTotalAbsent(lines[..|lines| - 1], s);
    }
  }

  /** The entry an approval posts for one line: signed by the document type, operated by the approver. */
  function Posting(doc: Document, line: Line, approverId: UserId): Transaction {
    Transaction(doc.id, line.sampleId, doc.docType, SignedQuantity(doc.docType, line.quantity),
                line.batchNo, line.remark, approverId)
  }

  /** The entries for the given lines: exactly one per line, the k-th entry for the k-th line. */
  function Postings(doc: Document, lines: seq<Line>, approverId: UserId): (r: seq<Transaction>)
    ensures |r| == |lines|
    ensures forall k :: 0 <= k < |lines| ==> r[k] == Posting(doc, lines[k], approverId)
  {
    if lines == [] then []
    else Postings(doc, lines[..|lines| - 1], approverId) + [Posting(doc, lines[|lines| - 1], approverId)]
  }

  /** The entries of a document move a sample's stock by the signed total of its lines for that sample. */
  lemma {:induction false} StockOfPostings(doc: Document, lines: seq<Line>, approverId: UserId, s: SampleId)
    ensures Stock(Postings(doc, lines, approverId), s) == SignedQuantity(doc.docType, LineTotal(lines, s))
  {
    if lines != [] {
      var init := lines[..|lines| - 1];
      StockOfPostings(doc, init, approverId, s);
      var last := Posting(doc, lines[|lines| - 1], approverId);
      StockAppend(Postings(doc, init, approverId), [last], s);
      assert [last][..0] == [];
      assert Stock([last], s) == if last.sampleId == s then last.quantityDelta else 0.0;
    }
  }
}
