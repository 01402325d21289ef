/**
 * approveDocument as a decision over the store and the ledger, and the state
 * an approval leaves. All checks are made against the ledger as it stood
 * before the approval, line by line, and the first failure aborts.
 */
module Approval {
  import opened Wrappers
  import opened Domain
  import opened Lookup
  import opened Ledger

  /** The errors approveDocument throws, in the order it checks for them. */
  datatype ApprovalError =
    | DocumentNotFound
    | NotSubmitted(status: DocStatus)
    | InsufficientStock(sampleId: SampleId, available: real)
    | MissingReturnReference
    | ReturnSourceNotFound(ref: DocId)
    | LineNotInOriginal(sampleId: SampleId)
    | InsufficientReturnable(sampleId: SampleId, available: real)

  /** Checks the elements in order and reports the first that fails; Pass when every element is ok. */
  function FirstFailure<T, E(==)>(xs: seq<T>, ok: T -> bool, err: T -> E): (r: Outcome<E>)
    ensures r.Pass? <==> forall k :: 0 <= k < |xs| ==> ok(xs[k])
    ensures r.Fail? ==> (exists k :: 0 <= k < |xs| && !ok(xs[k]) && (forall j :: 0 <= j < k ==> ok(xs[j]))
                           && r.error == err(xs[k]))
  {
    if xs == [] then Pass
    else if !ok(xs[0]) then Fail(err(xs[0]))
    else
      var rest := FirstFailure(xs[1..], ok, err);
      if rest.Fail? then
        var k :| 0 <= k < |xs[1..]| && !ok(xs[1..][k]) && (forall j :: 0 <= j < k ==> ok(xs[1..][j]))
          && rest.error == err(xs[1..][k]);
        assert xs[k + 1] == xs[1..][k];
        assert forall j :: 1 <= j < k + 1 ==> xs[j] == xs[1..][j - 1];
        rest
      else
        assert forall j :: 1 <= j < |xs| ==> xs[j] == xs[1..][j - 1];
        rest
  }

  /** An outbound or disposal line is covered when the sample's current stock is at least its quantity. */
  predicate Covered(ledger: seq<Transaction>, line: Line) {
    line.quantity <= Stock(ledger, line.sampleId)
  }

  /** The stock check: the first line that is not covered fails the approval, naming its sample and stock. */
  function CheckStock(lines: seq<Line>, ledger: seq<Transaction>): (r: Outcome<ApprovalError>)
    ensures r.Pass? <==> forall k :: 0 <= k < |lines| ==> Covered(ledger, lines[k])
    ensures r.Fail? ==> (exists k :: 0 <= k < |lines| && FirstUncovered(lines, ledger, k)
                           && r.error == InsufficientStock(lines[k].sampleId, Stock(ledger, lines[k].sampleId)))
  {
    if lines == [] then Pass
    else
      var stock := Stock(ledger, lines[0].sampleId);
      if stock < lines[0].quantity then
        assert FirstUncovered(lines, ledger, 0);
        Fail(InsufficientStock(lines[0].sampleId, stock))
      else
        var rest := CheckStock(lines[1..], ledger);
        if rest.Fail? then
          var k :| 0 <= k < |lines[1..]| && FirstUncovered(lines[1..], ledger, k)
            && rest.error == InsufficientStock(lines[1..][k].sampleId, Stock(ledger, lines[1..][k].sampleId));
          assert FirstUncovered(lines, ledger, k + 1);
          rest
        else rest
  }

  /** Line k is the first line that is not covered. */
  predicate FirstUncovered(lines: seq<Line>, ledger: seq<Transaction>, k: nat)
    requires k < |lines|
  {
    !Covered(ledger, lines[k]) && forall j :: 0 <= j < k ==> Covered(ledger, lines[j])
  }

  /** What may still be returned of a sample: the original line's quantity less what is already returned. */
  function Returnable(origLine: Line, docs: seq<Document>, ledger: seq<Transaction>, ref: DocId): real {
    origLine.quantity - ReturnedQty(docs, ledger, ref, origLine.sampleId)
  }

  /**
   * A return line is admissible when the original document has a line for its
   * sample and its quantity does not exceed what is still returnable there.
   */
  predicate Admissible(line: Line, origLines: seq<Line>, docs: seq<Document>, ledger: seq<Transaction>, ref: DocId) {
    match FirstLineFor(origLines, line.sampleId)
    case None => false
    case Some(j) => line.quantity <= Returnable(origLines[j], docs, ledger, ref)
  }

  /** The error an inadmissible return line fails with: no line on the original, or what is still returnable. */
  function Rejection(line: Line, origLines: seq<Line>, docs: seq<Document>, ledger: seq<Transaction>, ref: DocId): ApprovalError {
    match FirstLineFor(origLines, line.sampleId)
    case None => LineNotInOriginal(line.sampleId)
    case Some(j) => InsufficientReturnable(line.sampleId, Returnable(origLines[j], docs, ledger, ref))
  }

  /** The return check: the first inadmissible line fails the approval, with the reason it fails. */
  function CheckReturnLines(lines: seq<Line>, origLines: seq<Line>, docs: seq<Document>, ledger: seq<Transaction>, ref: DocId)
    : (r: Outcome<ApprovalError>)
    ensures r.Pass? <==> forall k :: 0 <= k < |lines| ==> Admissible(lines[k], origLines, docs, ledger, ref)
    ensures r.Fail? ==> (exists k :: 0 <= k < |lines| && FirstInadmissible(lines, origLines, docs, ledger, ref, k)
                           && r.error == Rejection(lines[k], origLines, docs, ledger, ref))
    ensures r.Fail? ==> r.error.LineNotInOriginal? || r.error.InsufficientReturnable?
  {
    var r := FirstFailure(lines, (l: Line) => Admissible(l, origLines, docs, ledger, ref),
                          (l: Line) => Rejection(l, origLines, docs, ledger, ref));
    if r.Fail? then
      var k :| 0 <= k < |lines| && !Admissible(lines[k], origLines, docs, ledger, ref)
        && (forall j :: 0 <= j < k ==> Admissible(lines[j], origLines, docs, ledger, ref))
        && r.error == Rejection(lines[k], origLines, docs, ledger, ref);
      assert FirstInadmissible(lines, origLines, docs, ledger, ref, k);
      r
    else r
  }

  /** Line k is the first return line that is not admissible. */
  predicate FirstInadmissible(lines: seq<Line>, origLines: seq<Line>, docs: seq<Document>, ledger: seq<Transaction>,
                              ref: DocId, k: nat)
    requires k < |lines|
  {
    !Admissible(lines[k], origLines, docs, ledger, ref)
    && forall j :: 0 <= j < k ==> Admissible(lines[j], origLines, docs, ledger, ref)
  }

  /** The first inadmissible line is the one the return check reports. */
  lemma FirstRejection(lines: seq<Line>, origLines: seq<Line>, docs: seq<Document>, ledger: seq<Transaction>,
                       ref: DocId, k: nat)
    requires k < |lines| && FirstInadmissible(lines, origLines, docs, ledger, ref, k)
    ensures CheckReturnLines(lines, origLines, docs, ledger, ref) == Fail(Rejection(lines[k], origLines, docs, ledger, ref))
  {
    var r := CheckReturnLines(lines, origLines, docs, ledger, ref);
    var k' :| 0 <= k' < |lines| && FirstInadmissible(lines, origLines, docs, ledger, ref, k')
      && r.error == Rejection(lines[k'], origLines, docs, ledger, ref);
    assert k' == k;
  }

  /** The reference is present and truthy (an empty id counts as absent). */
  predicate HasReference(doc: Document) {
    doc.returnFromDocId.Some? && doc.returnFromDocId.value != ""
  }

  /** The return reconciliation for a RETURN document. */
  function CheckReturn(doc: Document, docs: seq<Document>, ledger: seq<Transaction>): (r: Outcome<ApprovalError>)
    ensures r.Pass? <==> (HasReference(doc) && FindDoc(docs, doc.returnFromDocId.value).Some?
      && forall k :: 0 <= k < |doc.lines| ==>
           Admissible(doc.lines[k], docs[FindDoc(docs, doc.returnFromDocId.value).value].lines, docs, ledger, doc.returnFromDocId.value))
    ensures !HasReference(doc) ==> r == Fail(MissingReturnReference)
    ensures HasReference(doc) && FindDoc(docs, doc.returnFromDocId.value).None? ==>
      r == Fail(ReturnSourceNotFound(doc.returnFromDocId.value))
    ensures HasReference(doc) && FindDoc(docs, doc.returnFromDocId.value).Some? ==>
      r == CheckReturnLines(doc.lines, docs[FindDoc(docs, doc.returnFromDocId.value).value].lines, docs, ledger,
                            doc.returnFromDocId.value)
  {
    if !HasReference(doc) then Fail(MissingReturnReference)
    else
      var ref := doc.returnFromDocId.value;
      match FindDoc(docs, ref)
      case None => Fail(ReturnSourceNotFound(ref))
      case Some(j) => CheckReturnLines(doc.lines, docs[j].lines, docs, ledger, ref)
  }

  /** The decision approveDocument reaches: Pass exactly when it goes on to write. */
  function Decide(docs: seq<Document>, ledger: seq<Transaction>, docId: DocId): (r: Outcome<ApprovalError>)
    ensures r.Pass? ==> FindDoc(docs, docId).Some? && docs[FindDoc(docs, docId).value].status == SUBMIT
    ensures r.Fail? && r.error.InsufficientStock? ==>
      FindDoc(docs, docId).Some? && Withdraws(docs[FindDoc(docs, docId).value].docType)
    ensures r.Fail? && (r.error.MissingReturnReference? || r.error.ReturnSourceNotFound?
                        || r.error.LineNotInOriginal? || r.error.InsufficientReturnable?) ==>
      FindDoc(docs, docId).Some? && docs[FindDoc(docs, docId).value].docType == RETURN
  {
    match FindDoc(docs, docId)
    case None => Fail(DocumentNotFound)
    case Some(i) =>
      var doc := docs[i];
      if doc.status != SUBMIT then Fail(NotSubmitted(doc.status))
      else if Withdraws(doc.docType) then CheckStock(doc.lines, ledger)
      else if doc.docType == RETURN then CheckReturn(doc, docs, ledger)
      else Pass
  }

  /** The header after approval: status APPROVE, approver and time set, all else as it was. */
  function Approved(doc: Document, approverId: UserId, now: Timestamp): Document {
    doc.(status := APPROVE, approverId := Some(approverId), approvedAt := Some(now))
  }

  /** The store after a successful approval of the document at position i. */
  function ApprovedDocs(docs: seq<Document>, i: nat, approverId: UserId, now: Timestamp): seq<Document>
    requires i < |docs|
  {
    docs[i := Approved(docs[i], approverId, now)]
  }

  /** The ledger after a successful approval: the old entries, then one per line. */
  function ApprovedLedger(ledger: seq<Transaction>, doc: Document, approverId: UserId): seq<Transaction> {
    ledger + Postings(doc, doc.lines, approverId)
  }

  /** Every ledger entry belongs to a stored, approved document of the entry's type. */
  predicate Backed(docs: seq<Document>, t: Transaction) {
    match FindDoc(docs, t.documentId)
    case None => false
    case Some(k) => docs[k].status == APPROVE && docs[k].docType == t.txType
  }

  predicate LedgerBacked(docs: seq<Document>, ledger: seq<Transaction>) {
    forall k :: 0 <= k < |ledger| ==> Backed(docs, ledger[k])
  }

  // ---------------------------------------------------------------------
  // What the decision means

  /**
   * Approval goes ahead exactly when the document exists, is submitted, and
   * passes the check of its type; IN documents need nothing more.
   */
  lemma DecidePasses(docs: seq<Document>, ledger: seq<Transaction>, docId: DocId)
    ensures Decide(docs, ledger, docId).Pass? <==>
      FindDoc(docs, docId).Some? &&
      var doc := docs[FindDoc(docs, docId).value];
      doc.status == SUBMIT &&
      (Withdraws(doc.docType) ==> forall k :: 0 <= k < |doc.lines| ==> Covered(ledger, doc.lines[k])) &&
      (doc.docType == RETURN ==> CheckReturn(doc, docs, ledger).Pass?)
  {
  }

  /** A missing document, or one that is not submitted, is refused whatever the ledger holds. */
  lemma RefusesUnlessSubmitted(docs: seq<Document>, ledger: seq<Transaction>, docId: DocId)
    ensures FindDoc(docs, docId).None? ==> Decide(docs, ledger, docId) == Fail(DocumentNotFound)
    ensures FindDoc(docs, docId).Some? && docs[FindDoc(docs, docId).value].status != SUBMIT ==>
      Decide(docs, ledger, docId) == Fail(NotSubmitted(docs[FindDoc(docs, docId).value].status))
  {
  }

  /** A submitted outbound or disposal document is refused at its first uncovered line, naming that line's stock. */
  lemma StockRefusedAt(docs: seq<Document>, ledger: seq<Transaction>, docId: DocId, k: nat)
    requires FindDoc(docs, docId).Some?
    requires var doc := docs[FindDoc(docs, docId).value];
      doc.status == SUBMIT && Withdraws(doc.docType) && k < |doc.lines| && FirstUncovered(doc.lines, ledger, k)
    ensures var doc := docs[FindDoc(docs, docId).value];
      Decide(docs, ledger, docId) == Fail(InsufficientStock(doc.lines[k].sampleId, Stock(ledger, doc.lines[k].sampleId)))
  {
    var lines := docs[FindDoc(docs, docId).value].lines;
    var r := CheckStock(lines, ledger);
    var k' :| 0 <= k' < |lines| && FirstUncovered(lines, ledger, k')
      && r.error == InsufficientStock(lines[k'].sampleId, Stock(ledger, lines[k'].sampleId));
    assert k' == k;
  }

  /**
   * A submitted RETURN document whose reference is found is refused at its
   * first inadmissible line, with that line's error.
   */
  lemma ReturnRefusedAt(docs: seq<Document>, ledger: seq<Transaction>, docId: DocId, k: nat)
    requires FindDoc(docs, docId).Some?
    requires var doc := docs[FindDoc(docs, docId).value];
      doc.status == SUBMIT && doc.docType == RETURN && HasReference(doc)
      && FindDoc(docs, doc.returnFromDocId.value).Some? && k < |doc.lines|
      && FirstInadmissible(doc.lines, docs[FindDoc(docs, doc.returnFromDocId.value).value].lines, docs, ledger,
                           doc.returnFromDocId.value, k)
    ensures var doc := docs[FindDoc(docs, docId).value]; var ref := doc.returnFromDocId.value;
      Decide(docs, ledger, docId) == Fail(Rejection(doc.lines[k], docs[FindDoc(docs, ref).value].lines, docs, ledger, ref))
  {
    var doc := docs[FindDoc(docs, docId).value];
    var ref := doc.returnFromDocId.value;
    FirstRejection(doc.lines, docs[FindDoc(docs, ref).value].lines, docs, ledger, ref, k);
  }

  /** Approving a second time is refused: the document is APPROVE now, so no second set of entries is written. */
  lemma SecondApprovalRefused(docs: seq<Document>, ledger: seq<Transaction>, docId: DocId,
                              approverId: UserId, now: Timestamp, laterLedger: seq<Transaction>)
    requires Decide(docs, ledger, docId).Pass?
    ensures FindDoc(docs, docId).Some?
    ensures Decide(ApprovedDocs(docs, FindDoc(docs, docId).value, approverId, now), laterLedger, docId)
         == Fail(NotSubmitted(APPROVE))
  {
    var i := FindDoc(docs, docId).value;
    FindAfterUpdate(docs, i, Approved(docs[i], approverId, now), docId);
  }

  /**
   * A successful approval moves each sample's stock by exactly the signed total
   * of the document's lines for it; samples not on the document keep their stock.
   */
  lemma StockAfterApproval(ledger: seq<Transaction>, doc: Document, approverId: UserId, s: SampleId)
    ensures Stock(ApprovedLedger(ledger, doc, approverId), s)
         == Stock(ledger, s) + SignedQuantity(doc.docType, LineTotal(doc.lines, s))
    ensures (forall k :: 0 <= k < |doc.lines| ==> doc.lines[k].sampleId != s) ==>
      Stock(ApprovedLedger(ledger, doc, approverId), s) == Stock(ledger, s)
  {
    StockAppend(ledger, Postings(doc, doc.lines, approverId), s);
    StockOfPostings(doc, doc.lines, approverId, s);
    if forall k :: 0 <= k < |doc.lines| ==> doc.lines[k].sampleId != s {
      LineTotalAbsent(doc.lines, s);
    }
  }

  /**
   * When every sample appears on one line only, an approved outbound or disposal
   * document leaves each of its samples with stock at least 0.
   */
  lemma WithdrawalWithinStock(docs: seq<Document>, ledger: seq<Transaction>, docId: DocId, approverId: UserId, k: nat)
    requires Decide(docs, ledger, docId).Pass?
    requires FindDoc(docs, docId).Some?
    requires var doc := docs[FindDoc(docs, docId).value];
      Withdraws(doc.docType) && DistinctSamples(doc.lines) && k < |doc.lines|
    ensures var doc := docs[FindDoc(docs, docId).value];
      Stock(ApprovedLedger(ledger, doc, approverId), doc.lines[k].sampleId) >= 0.0
  {
    var doc := docs[FindDoc(docs, docId).value];
    var s := doc.lines[k].sampleId;
    StockAfterApproval(ledger, doc, approverId, s);
    LineTotalOfUniqueLine(doc.lines, k);
    assert Covered(ledger, doc.lines[k]);
  }

  /**
   * Entries already on the ledger count as returned after an approval exactly as
   * before: they belong to approved documents, never to the one being approved.
   */
  lemma {:induction false} ReturnedUnchangedByApproval(docs: seq<Document>, ledger: seq<Transaction>, i: nat,
                                                       approverId: UserId, now: Timestamp, ref: DocId, s: SampleId)
    requires i < |docs| && docs[i].status == SUBMIT
    requires LedgerBacked(docs, ledger)
    ensures ReturnedQty(ApprovedDocs(docs, i, approverId, now), ledger, ref, s) == ReturnedQty(docs, ledger, ref, s)
  {
    var after := ApprovedDocs(docs, i, approverId, now);
    forall k | 0 <= k < |ledger|
      ensures CountsAsReturned(after, ledger[k], ref, s) == CountsAsReturned(docs, ledger[k], ref, s)
    {
      FindAfterUpdate(docs, i, Approved(docs[i], approverId, now), ledger[k].documentId);
      assert Backed(docs, ledger[k]);
    }
    TotalAgree(ledger, (t: Transaction) => CountsAsReturned(after, t, ref, s), (t: Transaction) => CountsAsReturned(docs, t, ref, s));
  }

  /** The entries an approved RETURN document posts count as returned exactly when they carry the sample. */
  lemma ReturnedByPostings(docs: seq<Document>, i: nat, approverId: UserId, now: Timestamp, s: SampleId)
    requires i < |docs| && FindDoc(docs, docs[i].id) == Some(i)
    requires docs[i].docType == RETURN && HasReference(docs[i])
    ensures var doc := docs[i];
      ReturnedQty(ApprovedDocs(docs, i, approverId, now), Postings(doc, doc.lines, approverId), doc.returnFromDocId.value, s)
      == LineTotal(doc.lines, s)
  {
    var doc := docs[i];
    var after := ApprovedDocs(docs, i, approverId, now);
    var posts := Postings(doc, doc.lines, approverId);
    var ref := doc.returnFromDocId.value;
    FindAfterUpdate(docs, i, Approved(doc, approverId, now), doc.id);
    forall k | 0 <= k < |posts|
      ensures CountsAsReturned(after, posts[k], ref, s) == (posts[k].sampleId == s)
    {
      assert posts[k].documentId == doc.id && posts[k].txType == RETURN;
    }
    TotalAgree(posts, (t: Transaction) => CountsAsReturned(after, t, ref, s), (t: Transaction) => t.sampleId == s);
    StockOfPostings(doc, doc.lines, approverId, s);
  }

  /**
   * Return reconciliation: after approving a RETURN document whose samples each
   * appear on one line, what has been returned against the original document
   * for each of those samples stays within the original line's quantity.
   */
  lemma ReturnWithinOriginal(docs: seq<Document>, ledger: seq<Transaction>, docId: DocId,
                             approverId: UserId, now: Timestamp, k: nat)
    requires IdsDistinct(docs) && LedgerBacked(docs, ledger)
    requires Decide(docs, ledger, docId).Pass?
    requires FindDoc(docs, docId).Some?
    requires var doc := docs[FindDoc(docs, docId).value];
      doc.docType == RETURN && DistinctSamples(doc.lines) && k < |doc.lines|
    ensures var i := FindDoc(docs, docId).value; var doc := docs[i];
      HasReference(doc) && FindDoc(docs, doc.returnFromDocId.value).Some? &&
      var orig := docs[FindDoc(docs, doc.returnFromDocId.value).value];
      FirstLineFor(orig.lines, doc.lines[k].sampleId).Some? &&
      ReturnedQty(ApprovedDocs(docs, i, approverId, now), ApprovedLedger(ledger, doc, approverId),
                  doc.returnFromDocId.value, doc.lines[k].sampleId)
      <= orig.lines[FirstLineFor(orig.lines, doc.lines[k].sampleId).value].quantity
  {
    var i := FindDoc(docs, docId).value;
    var doc := docs[i];
    var ref := doc.returnFromDocId.value;
    var s := doc.lines[k].sampleId;
    var after := ApprovedDocs(docs, i, approverId, now);
    var posts := Postings(doc, doc.lines, approverId);
    assert Admissible(doc.lines[k], docs[FindDoc(docs, ref).value].lines, docs, ledger, ref);
    TotalAppend(ledger, posts, (t: Transaction) => CountsAsReturned(after, t, ref, s));
    ReturnedUnchangedByApproval(docs, ledger, i, approverId, now, ref, s);
    ReturnedByPostings(docs, i, approverId, now, s);
    LineTotalOfUniqueLine(doc.lines, k);
  }
}
