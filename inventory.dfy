/**
 * The document store and the ledger as one object: document creation (POST in
 * app/api/documents/route.ts), approval (approveDocument in lib/document.ts) and
 * the paged document list (GET).
 */
module Inventory {
  import opened Wrappers
  import opened Domain
  import opened Lookup
  import opened Ledger
  import opened DocNumbers
  import opened Approval
  import opened Listing

  /** The body of a create request. */
  datatype CreateRequest = CreateRequest(
    docType: DocType,
    description: Option<string>,
    dispose: DisposeInfo,
    returnFromDocId: Option<string>,
    lines: seq<Line>)

  /** The created document, or the 500 response when the insert throws. */
  datatype CreateResponse = Created(doc: Document) | CreateFailed

  /** One page of documents with the total count, or the 500 response when the query throws. */
  datatype ListResponse = Listed(data: seq<Document>, total: nat, page: int, pageSize: int) | ListFailed

  /** `value || null`: absent and empty both become null. */
  function NullIfFalsy(v: Option<string>): Option<string> {
    if v.None? || v.value == "" then None else v
  }

  /** `header || ''` for the caller's user id. */
  function OrEmpty(v: Option<string>): string {
    if v.None? then "" else v.value
  }

  function CreateDescription(docNo: string): string {
    "创建单据 " + docNo
  }

  /** The insert throws on a unique-key collision: the id or the number is already stored. */
  predicate KeyInUse(docs: seq<Document>, id: DocId, docNo: string) {
    exists k :: 0 <= k < |docs| && (docs[k].id == id || docs[k].docNo == docNo)
  }

  class Store {
    var docs: seq<Document>
    var ledger: seq<Transaction>
    var audit: seq<AuditRecord>

    /** Ids are keys, and every ledger entry belongs to an approved document of its type. */
    ghost predicate Valid()
      reads this
    {
      IdsDistinct(docs) && LedgerBacked(docs, ledger)
    }

    constructor ()
      ensures Valid() && docs == [] && ledger == [] && audit == []
    {
      docs, ledger, audit := [], [], [];
    }

    /**
     * POST: number the document, insert it as DRAFT with the request's lines,
     * then write one CREATE audit record. When the insert throws nothing is
     * written and the response is a 500.
     */
    method Create(userHeader: Option<string>, body: CreateRequest, newId: DocId, today: Date)
      returns (resp: CreateResponse)
      requires Valid()
      modifies this
      ensures Valid()
      ensures ledger == old(ledger)
      ensures resp.CreateFailed? <==> KeyInUse(old(docs), newId, GenerateDocNo(old(docs), body.docType, today))
      ensures resp.CreateFailed? ==> docs == old(docs) && audit == old(audit)
      ensures resp.Created? ==>
        docs == old(docs) + [resp.doc]
        && resp.doc.id == newId
        && resp.doc.docNo == GenerateDocNo(old(docs), body.docType, today)
        && resp.doc.docType == body.docType
        && resp.doc.status == DRAFT
        && resp.doc.description == body.description
        && resp.doc.dispose == body.dispose
        && resp.doc.returnFromDocId == NullIfFalsy(body.returnFromDocId)
        && resp.doc.creatorId == OrEmpty(userHeader)
        && resp.doc.approverId.None? && resp.doc.approvedAt.None?
        && resp.doc.lines == body.lines
        && audit == old(audit) + [AuditRecord(OrEmpty(userHeader), CREATE, "Document", newId, CreateDescription(resp.doc.docNo))]
    {
      var userId := OrEmpty(userHeader);
      var docNo := GenerateDocNo(docs, body.docType, today);
      if KeyInUse(docs, newId, docNo) {
        return CreateFailed;
      }
      var doc := Document(newId, docNo, body.docType, DRAFT, body.description, body.dispose,
                          NullIfFalsy(body.returnFromDocId), userId, None, None, body.lines);
      forall k | 0 <= k < |ledger|
        ensures Backed(docs + [doc], ledger[k])
      {
        FindAfterAppend(docs, doc, ledger[k].documentId);
      }
      docs := docs + [doc];
      audit := audit + [AuditRecord(userId, CREATE, "Document", doc.id, CreateDescription(docNo))];
      resp := Created(doc);
    }

    /** The stock check of approveDocument, line by line against the current ledger. */
    method CheckStockLines(lines: seq<Line>) returns (outcome: Outcome<ApprovalError>)
      ensures outcome == CheckStock(lines, ledger)
    {
      var k := 0;
      while k < |lines|
        invariant 0 <= k <= |lines|
        invariant CheckStock(lines[k..], ledger) == CheckStock(lines, ledger)
      {
        var line := lines[k];
        var stock := Stock(ledger, line.sampleId);
        if stock < line.quantity {
          return Fail(InsufficientStock(line.sampleId, stock));
        }
        assert lines[k..][1..] == lines[k + 1..];
        k := k + 1;
      }
      return Pass;
    }

    /** The return reconciliation of approveDocument for a RETURN document. */
    method CheckReturnDoc(doc: Document) returns (outcome: Outcome<ApprovalError>)
      ensures outcome == CheckReturn(doc, docs, ledger)
    {
      if doc.returnFromDocId.None? || doc.returnFromDocId.value == "" {
        return Fail(MissingReturnReference);
      }
      var ref := doc.returnFromDocId.value;
      var source := FindDoc(docs, ref);
      if source.None? {
        return Fail(ReturnSourceNotFound(ref));
      }
      outcome := CheckReturnLoop(doc.lines, docs[source.value].lines, ref);
    }

    /** The line loop of the return reconciliation, against the original document's lines. */
    method CheckReturnLoop(lines: seq<Line>, origLines: seq<Line>, ref: DocId) returns (outcome: Outcome<ApprovalError>)
      ensures outcome == CheckReturnLines(lines, origLines, docs, ledger, ref)
    {
      var k := 0;
      while k < |lines|
        invariant 0 <= k <= |lines|
        invariant forall j :: 0 <= j < k ==> Admissible(lines[j], origLines, docs, ledger, ref)
      {
        var line := lines[k];
        var original := FirstLineFor(origLines, line.sampleId);
        if original.None? {
          FirstRejection(lines, origLines, docs, ledger, ref, k);
          return Fail(LineNotInOriginal(line.sampleId));
        }
        var returned := ReturnedQty(docs, ledger, ref, line.sampleId);
        var available := origLines[original.value].quantity - returned;
        assert available == Returnable(origLines[original.value], docs, ledger, ref);
        if line.quantity > available {
          FirstRejection(lines, origLines, docs, ledger, ref, k);
          return Fail(InsufficientReturnable(line.sampleId, available));
        }
        k := k + 1;
      }
      return Pass;
    }

    /** Writes one ledger entry per line of an approved document, in line order. */
    method PostLines(doc: Document, approverId: UserId)
      requires Valid()
      requires FindDoc(docs, doc.id).Some? && docs[FindDoc(docs, doc.id).value].status == APPROVE
      requires docs[FindDoc(docs, doc.id).value].docType == doc.docType
      modifies this`ledger
      ensures Valid()
      ensures ledger == ApprovedLedger(old(ledger), doc, approverId)
    {
      var k := 0;
      while k < |doc.lines|
        invariant 0 <= k <= |doc.lines|
        invariant ledger == old(ledger) + Postings(doc, doc.lines[..k], approverId)
        invariant LedgerBacked(docs, ledger)
      {
        var line := doc.lines[k];
        var delta := if doc.docType == OUT || doc.docType == DISPOSE then -line.quantity else line.quantity;
        ledger := ledger + [Transaction(doc.id, line.sampleId, doc.docType, delta, line.batchNo, line.remark, approverId)];
        assert doc.lines[..k + 1][..k] == doc.lines[..k];
        k := k + 1;
      }
      assert doc.lines[..k] == doc.lines;
    }

    /**
     * approveDocument: all checks first, against the ledger as it stands; then
     * the status flip and one ledger entry per line, in line order.
     */
    method Approve(docId: DocId, approverId: UserId, now: Timestamp) returns (outcome: Outcome<ApprovalError>)
      requires Valid()
      modifies this
      ensures Valid()
      ensures outcome == Decide(old(docs), old(ledger), docId)
      ensures audit == old(audit)
      ensures outcome.Fail? ==> docs == old(docs) && ledger == old(ledger)
      ensures outcome.Pass? ==> FindDoc(old(docs), docId).Some?
      ensures outcome.Pass? ==>
        var i := FindDoc(old(docs), docId).value;
        docs == ApprovedDocs(old(docs), i, approverId, now)
        && ledger == ApprovedLedger(old(ledger), old(docs)[i], approverId)
    {
      var found := FindDoc(docs, docId);
      if found.None? {
        return Fail(DocumentNotFound);
      }
      var i := found.value;
      var doc := docs[i];
      if doc.status != SUBMIT {
        return Fail(NotSubmitted(doc.status));
      }
      if doc.docType == OUT || doc.docType == DISPOSE {
        outcome := CheckStockLines(doc.lines);
        assert outcome == Decide(docs, ledger, docId);
        if outcome.Fail? {
          return;
        }
      }
      if doc.docType == RETURN {
        outcome := CheckReturnDoc(doc);
        assert outcome == Decide(docs, ledger, docId);
        if outcome.Fail? {
          return;
        }
      }

      Commit(i, approverId, now);
      outcome := Pass;
    }

    /** Every check passed: the document is approved before its entries are written. */
    method Commit(i: nat, approverId: UserId, now: Timestamp)
      requires Valid()
      requires i < |docs| && docs[i].status == SUBMIT
      modifies this`docs, this`ledger
      ensures Valid()
      ensures docs == ApprovedDocs(old(docs), i, approverId, now)
      ensures ledger == ApprovedLedger(old(ledger), old(docs)[i], approverId)
    {
      var doc := docs[i];
      var approved := Approved(doc, approverId, now);
      forall k | 0 <= k < |ledger|
        ensures Backed(docs[i := approved], ledger[k])
      {
        FindAfterUpdate(docs, i, approved, ledger[k].documentId);
      }
      FindStored(docs, i);
      FindAfterUpdate(docs, i, approved, doc.id);
      docs := docs[i := approved];
      PostLines(doc, approverId);
    }

    /**
     * GET: filter by type and status only when given, count every match, and
     * return the window of the newest-first matches that starts at the skip
     * and holds at most a page.
     */
    method List(p: ListParams) returns (resp: ListResponse)
      ensures resp.Listed? <==> Accepted(p)
      ensures resp.Listed? ==>
        var q := BuildQuery(p).value;
        var selected := Selected(docs, q.filter);
        resp.page == q.page && resp.pageSize == q.pageSize
        && resp.total == |selected|
        && |resp.data| <= q.take
        && (forall d :: d in resp.data ==> d in docs && Matches(d, q.filter))
        && |resp.data| == (if q.skip >= |selected| then 0
                           else if q.take < |selected| - q.skip then q.take else |selected| - q.skip)
        && (forall j :: 0 <= j < |resp.data| ==> q.skip + j < |selected| && resp.data[j] == selected[q.skip + j])
    {
      if !Accepted(p) {
        return ListFailed;
      }
      var q := BuildQuery(p).value;
      var selected := Selected(docs, q.filter);
      var page := Window(selected, q.skip, q.take);
      SelectedWindow(docs, q.filter, q.skip, q.take);
      resp := Listed(page, |selected|, q.page, q.pageSize);
    }
  }
}
