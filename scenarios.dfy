/**
 * Worked examples over concrete stores: the stock and return walk-throughs,
 * day-scoped numbering, and the checks as the code has them (each line judged
 * alone against the stock before approval; the return reference checked only
 * for existence).
 */
module Scenarios {
  import opened Wrappers
  import opened Domain
  import opened Lookup
  import opened Ledger
  import opened DocNumbers
  import opened Approval
  import opened Digits

  const NoDispose := DisposeInfo(None, None, None, None, None)

  function Doc(id: DocId, t: DocType, status: DocStatus, ref: Option<DocId>, lines: seq<Line>): Document {
    Document(id, "", t, status, None, NoDispose, ref, "u1", None, None, lines)
  }

  function L(s: SampleId, q: real): Line {
    Line(s, q, None, None)
  }

  function Entry(docId: DocId, s: SampleId, t: DocType, delta: real): Transaction {
    Transaction(docId, s, t, delta, None, None, "a1")
  }

  const OutboundDocs := [Doc("d1", IN, APPROVE, None, [L("S", 100.0)]),
                          Doc("d2", OUT, APPROVE, None, [L("S", 30.0)]),
                          Doc("d3", OUT, SUBMIT, None, [L("S", 80.0)]),
                          Doc("d4", OUT, SUBMIT, None, [L("S", 50.0)])]
  const OutboundLedger := [Entry("d1", "S", IN, 100.0), Entry("d2", "S", OUT, -30.0)]

  /** IN 100 then OUT 30 leaves 70; an OUT of 80 is refused with 70 available; an OUT of 50 leaves 20. */
  lemma OutboundWalkthrough()
    ensures Stock(OutboundLedger, "S") == 70.0
    ensures Decide(OutboundDocs, OutboundLedger, "d3") == Fail(InsufficientStock("S", 70.0))
    ensures Decide(OutboundDocs, OutboundLedger, "d4") == Pass
    ensures Stock(ApprovedLedger(OutboundLedger, OutboundDocs[3], "a1"), "S") == 20.0
  {
    var docs, ledger := OutboundDocs, OutboundLedger;
    OutboundStock();
    assert FindDoc(docs, "d3") == Some(2);
    assert FindDoc(docs, "d4") == Some(3);
    assert FirstUncovered(docs[2].lines, ledger, 0);
    StockRefusedAt(docs, ledger, "d3", 0);
    StockAfterApproval(ledger, docs[3], "a1", "S");
    assert docs[3].lines[..0] == [];
  }

  lemma OutboundStock()
    ensures Stock(OutboundLedger, "S") == 70.0
  {
    var ledger := OutboundLedger;
    assert ledger[..1] == [ledger[0]] && [ledger[0]][..0] == [];
    assert Stock([ledger[0]], "S") == 100.0;
  }

  const ReturnDocs := [Doc("d1", OUT, APPROVE, None, [L("S", 50.0)]),
                        Doc("d2", RETURN, APPROVE, Some("d1"), [L("S", 20.0)]),
                        Doc("d3", RETURN, SUBMIT, Some("d1"), [L("S", 40.0)])]
  const ReturnLedger := [Entry("d1", "S", OUT, -50.0), Entry("d2", "S", RETURN, 20.0)]

  /** OUT 50 approved, RETURN 20 against it approved: 30 stays returnable, so a RETURN of 40 is refused. */
  lemma ReturnWalkthrough()
    ensures ReturnedQty(ReturnDocs, ReturnLedger, "d1", "S") == 20.0
    ensures Decide(ReturnDocs, ReturnLedger, "d3") == Fail(InsufficientReturnable("S", 30.0))
  {
    var docs, ledger := ReturnDocs, ReturnLedger;
    ReturnedSoFar();
    assert FindDoc(docs, "d1") == Some(0);
    assert FindDoc(docs, "d3") == Some(2);
    assert FirstLineFor(docs[0].lines, "S") == Some(0);
    assert FirstInadmissible(docs[2].lines, docs[0].lines, docs, ledger, "d1", 0);
    ReturnRefusedAt(docs, ledger, "d3", 0);
  }

  lemma ReturnedSoFar()
    ensures ReturnedQty(ReturnDocs, ReturnLedger, "d1", "S") == 20.0
  {
    var docs, ledger := ReturnDocs, ReturnLedger;
    assert FindDoc(docs, "d1") == Some(0);
    assert FindDoc(docs, "d2") == Some(1);
    assert !CountsAsReturned(docs, ledger[0], "d1", "S");
    assert CountsAsReturned(docs, ledger[1], "d1", "S");
    assert ledger[..1] == [ledger[0]];
  }

  lemma StampOfTheDay()
    ensures Stamp(Date(2024, 5, 1)) == "20240501"
  {
    assert Decimal(2) == "2";
    assert Decimal(20) == "20";
    assert Decimal(202) == "202";
    assert Decimal(2024) == "2024";
    assert Decimal(5) == "5";
    assert Decimal(1) == "1";
  }

  lemma SmallSequence(n: nat)
    requires 1 <= n <= 9
    ensures PadStart(n, 4) == "000" + [DigitChar(n)]
  {
    assert Decimal(n) == [DigitChar(n)];
    assert Zeros(3) == "000";
  }

  /** The numbers of 1 May 2024 for IN. */
  lemma NumbersOfTheDay(n: nat)
    requires 1 <= n <= 3
    ensures Format(IN, Date(2024, 5, 1), n) == "IN-20240501-000" + [DigitChar(n)]
  {
    StampOfTheDay();
    SmallSequence(n);
  }

  /**
   * Three documents of one type created on a day with no numbers yet are
   * numbered 1, 2 and 3 (for IN on 1 May 2024: IN-20240501-0001, -0002, -0003).
   */
  lemma ThreeOnOneDay(docs: seq<Document>, t: DocType, day: Date, d1: Document, d2: Document, d3: Document)
    requires NumberedDocNos(docs, t, day) == []
    requires d1.docType == t && d1.docNo == GenerateDocNo(docs, t, day)
    requires d2.docType == t && d2.docNo == GenerateDocNo(docs + [d1], t, day)
    requires d3.docType == t && d3.docNo == GenerateDocNo(docs + [d1, d2], t, day)
    ensures d1.docNo == Format(t, day, 1) && d2.docNo == Format(t, day, 2) && d3.docNo == Format(t, day, 3)
  {
    NextSequence(docs, d1, t, day);
    NextSequence(docs + [d1], d2, t, day);
    assert docs + [d1] + [d2] == docs + [d1, d2];
  }

  /**
   * As written, each outbound line is checked alone against the stock before
   * approval: two lines of 6 against a stock of 10 both pass, and the stock
   * ends at -2.
   */
  lemma SplitLinesOverdraw()
    ensures var docs := [Doc("d1", OUT, SUBMIT, None, [L("S", 6.0), L("S", 6.0)])];
      var ledger := [Entry("d0", "S", IN, 10.0)];
      Decide(docs, ledger, "d1") == Pass
      && Stock(ApprovedLedger(ledger, docs[0], "a1"), "S") == -2.0
  {
    var docs := [Doc("d1", OUT, SUBMIT, None, [L("S", 6.0), L("S", 6.0)])];
    var ledger := [Entry("d0", "S", IN, 10.0)];
    assert Stock(ledger, "S") == 10.0;
    assert Covered(ledger, docs[0].lines[0]) && Covered(ledger, docs[0].lines[1]);
    StockAfterApproval(ledger, docs[0], "a1", "S");
    assert docs[0].lines[..1] == [docs[0].lines[0]];
  }

  const OverreturnDocs := [Doc("d1", OUT, APPROVE, None, [L("S", 50.0)]),
                            Doc("d2", RETURN, SUBMIT, Some("d1"), [L("S", 30.0), L("S", 30.0)])]
  const OverreturnLedger := [Entry("d1", "S", OUT, -50.0)]

  /**
   * As written, two return lines for one sample are each checked against the
   * same returnable quantity: 30 + 30 against an outbound 50 both pass, and 60
   * is then recorded as returned.
   */
  lemma SplitLinesOverreturn()
    ensures Decide(OverreturnDocs, OverreturnLedger, "d2") == Pass
    ensures ReturnedQty(ApprovedDocs(OverreturnDocs, 1, "a1", 0), ApprovedLedger(OverreturnLedger, OverreturnDocs[1], "a1"), "d1", "S")
         == 60.0
  {
    OverreturnPasses();
    OverreturnRecorded();
  }

  lemma OverreturnPasses()
    ensures Decide(OverreturnDocs, OverreturnLedger, "d2") == Pass
  {
    var docs, ledger := OverreturnDocs, OverreturnLedger;
    assert FindDoc(docs, "d1") == Some(0);
    assert FindDoc(docs, "d2") == Some(1);
    assert !CountsAsReturned(docs, ledger[0], "d1", "S");
    assert ReturnedQty(docs, ledger, "d1", "S") == 0.0;
    assert FirstLineFor(docs[0].lines, "S") == Some(0);
    assert Admissible(docs[1].lines[0], docs[0].lines, docs, ledger, "d1");
    assert Admissible(docs[1].lines[1], docs[0].lines, docs, ledger, "d1");
    assert CheckReturn(docs[1], docs, ledger).Pass?;
  }

  lemma OverreturnRecorded()
    ensures ReturnedQty(ApprovedDocs(OverreturnDocs, 1, "a1", 0), ApprovedLedger(OverreturnLedger, OverreturnDocs[1], "a1"), "d1", "S")
         == 60.0
  {
    var docs, ledger := OverreturnDocs, OverreturnLedger;
    var after := ApprovedDocs(docs, 1, "a1", 0);
    var posts := Postings(docs[1], docs[1].lines, "a1");
    assert FindDoc(docs, "d1") == Some(0);
    assert FindDoc(docs, "d2") == Some(1);
    assert !CountsAsReturned(docs, ledger[0], "d1", "S");
    assert LedgerBacked(docs, ledger);
    ReturnedUnchangedByApproval(docs, ledger, 1, "a1", 0, "d1", "S");
    assert ReturnedQty(after, ledger, "d1", "S") == 0.0;
    ReturnedByPostings(docs, 1, "a1", 0, "S");
    assert LineTotal(docs[1].lines, "S") == 60.0 by {
      assert docs[1].lines[..1] == [docs[1].lines[0]];
    }
    assert ReturnedQty(after, posts, "d1", "S") == 60.0;
    TotalAppend(ledger, posts, (t: Transaction) => CountsAsReturned(after, t, "d1", "S"));
  }

  /**
   * As written, the return reference is only looked up: a RETURN against a
   * draft inbound document passes the reference check.
   */
  lemma ReferenceNotVetted()
    ensures var docs := [Doc("d1", IN, DRAFT, None, [L("S", 5.0)]),
                         Doc("d2", RETURN, SUBMIT, Some("d1"), [L("S", 5.0)])];
      Decide(docs, [], "d2") == Pass
  {
    var docs := [Doc("d1", IN, DRAFT, None, [L("S", 5.0)]),
                 Doc("d2", RETURN, SUBMIT, Some("d1"), [L("S", 5.0)])];
    assert FindDoc(docs, "d1") == Some(0);
    assert FindDoc(docs, "d2") == Some(1);
    assert FirstLineFor(docs[0].lines, "S") == Some(0);
    assert Admissible(docs[1].lines[0], docs[0].lines, docs, [], "d1");
  }
}
