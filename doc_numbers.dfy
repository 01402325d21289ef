/**
 * Document numbers PREFIX-YYYYMMDD-NNNN (generateDocNo in lib/document.ts). The
 * sequence is one more than the number of documents of the same type whose
 * number already carries that type's prefix and that day.
 */
module DocNumbers {
  import opened Domain
  import opened Digits

  function Prefix(t: DocType): string {
    match t
    case IN => "IN"
    case OUT => "OUT"
    case RETURN => "RET"
    case DISPOSE => "DIS"
  }

  /** The day as YYYYMMDD (the ISO date of the clock with its dashes removed). */
  function Stamp(d: Date): string {
    PadStart(d.year, 4) + PadStart(d.month, 2) + PadStart(d.day, 2)
  }

  /** The text every number of type t issued on day d starts with. */
  function DayPrefix(t: DocType, d: Date): string {
    Prefix(t) + "-" + Stamp(d)
  }

  function Format(t: DocType, d: Date, n: nat): string {
    DayPrefix(t, d) + "-" + PadStart(n, 4)
  }

  predicate StartsWith(s: string, p: string) {
    |p| <= |s| && s[..|p|] == p
  }

  /** The count query's filter: same type, number starting with the day prefix. */
  predicate NumberedOn(doc: Document, t: DocType, d: Date) {
    doc.docType == t && StartsWith(doc.docNo, DayPrefix(t, d))
  }

  /** The numbers of the documents the count query matches, in store order. */
  function NumberedDocNos(docs: seq<Document>, t: DocType, d: Date): (r: seq<string>)
    ensures |r| <= |docs|
  {
    if docs == [] then []
    else
      var last := docs[|docs| - 1];
      NumberedDocNos(docs[..|docs| - 1], t, d) + (if NumberedOn(last, t, d) then [last.docNo] else [])
  }

  /**
   * generateDocNo: the type's prefix, the day, and the count of already numbered
   * documents plus one, padded to at least four digits.
   */
  function GenerateDocNo(docs: seq<Document>, t: DocType, today: Date): (r: string)
    ensures StartsWith(r, DayPrefix(t, today))
  {
    FormatParts(t, today, |NumberedDocNos(docs, t, today)| + 1);
    Format(t, today, |NumberedDocNos(docs, t, today)| + 1)
  }

  /** Where the parts of a number sit. */
  lemma FormatParts(t: DocType, d: Date, n: nat)
    ensures var s := Format(t, d, n); var p := |DayPrefix(t, d)|;
      |s| == p + 1 + |PadStart(n, 4)| && s[..p] == DayPrefix(t, d) && s[p] == '-' && s[p + 1..] == PadStart(n, 4)
  {
  }

  /**
   * The number starts with the day prefix and ends in at least four digits that
   * read back as the count plus one.
   */
  lemma GenerateDocNoShape(docs: seq<Document>, t: DocType, today: Date)
    ensures var r := GenerateDocNo(docs, t, today); var p := |DayPrefix(t, today)|;
      StartsWith(r, DayPrefix(t, today) + "-")
      && |r[p + 1..]| >= 4
      && (forall i :: p + 1 <= i < |r| ==> IsDigit(r[i]))
      && ParseDecimal(r[p + 1..]) == |NumberedDocNos(docs, t, today)| + 1
  {
    var n := |NumberedDocNos(docs, t, today)| + 1;
    var r := Format(t, today, n);
    var p := |DayPrefix(t, today)|;
    FormatParts(t, today, n);
    PadStartRoundTrip(n, 4);
    assert r[..p + 1] == DayPrefix(t, today) + "-";
    forall i | p + 1 <= i < |r| ensures IsDigit(r[i]) {
      assert r[i] == r[p + 1..][i - p - 1];
    }
  }

  /** While the count stays below 9999 the sequence takes exactly four digits. */
  lemma GenerateDocNoLength(docs: seq<Document>, t: DocType, today: Date)
    requires |NumberedDocNos(docs, t, today)| + 1 < Pow10(4)
    ensures |GenerateDocNo(docs, t, today)| == |DayPrefix(t, today)| + 5
  {
    var n := |NumberedDocNos(docs, t, today)| + 1;
    DecimalLength(n, 4);
    FormatParts(t, today, n);
  }

  lemma PrefixesDiffer(t1: DocType, t2: DocType)
    requires t1 != t2
    ensures Prefix(t1)[0] != Prefix(t2)[0]
  {
  }

  /** A valid day renders in exactly eight digits. */
  lemma StampLength(d: Date)
    requires ValidDate(d)
    ensures |Stamp(d)| == 8
    ensures forall i :: 0 <= i < |Stamp(d)| ==> IsDigit(Stamp(d)[i])
  {
    DecimalLength(d.year, 4);
    DecimalLength(d.month, 2);
    DecimalLength(d.day, 2);
    PadStartRoundTrip(d.year, 4);
    PadStartRoundTrip(d.month, 2);
    PadStartRoundTrip(d.day, 2);
    var y, m := PadStart(d.year, 4), PadStart(d.month, 2);
    forall i | 0 <= i < |Stamp(d)| ensures IsDigit(Stamp(d)[i]) {
      if i < 4 {
        assert Stamp(d)[i] == y[i];
      } else if i < 6 {
        assert Stamp(d)[i] == m[i - 4];
      } else {
        assert Stamp(d)[i] == PadStart(d.day, 2)[i - 6];
      }
    }
  }

  /** Distinct valid days have distinct stamps. */
  lemma StampInjective(d1: Date, d2: Date)
    requires ValidDate(d1) && ValidDate(d2)
    requires Stamp(d1) == Stamp(d2)
    ensures d1 == d2
  {
    DecimalLength(d1.year, 4); DecimalLength(d1.month, 2); DecimalLength(d1.day, 2);
    DecimalLength(d2.year, 4); DecimalLength(d2.month, 2); DecimalLength(d2.day, 2);
    var s := Stamp(d1);
    assert s[..4] == PadStart(d1.year, 4) == PadStart(d2.year, 4);
    assert s[4..6] == PadStart(d1.month, 2) == PadStart(d2.month, 2);
    assert s[6..] == PadStart(d1.day, 2) == PadStart(d2.day, 2);
    PadStartInjective(d1.year, d2.year, 4);
    PadStartInjective(d1.month, d2.month, 2);
    PadStartInjective(d1.day, d2.day, 2);
  }

  /** The stamp sits right after the type's prefix and its dash. */
  lemma DayPrefixParts(t: DocType, d: Date)
    ensures var p := DayPrefix(t, d); var k := |Prefix(t)|;
      |p| == k + 1 + |Stamp(d)| && p[0] == Prefix(t)[0] && p[k + 1..] == Stamp(d)
  {
  }

  /** A document number names its type, its day and its sequence: numbers of valid days never collide. */
  lemma FormatInjective(t1: DocType, d1: Date, n1: nat, t2: DocType, d2: Date, n2: nat)
    requires ValidDate(d1) && ValidDate(d2)
    requires Format(t1, d1, n1) == Format(t2, d2, n2)
    ensures t1 == t2 && d1 == d2 && n1 == n2
  {
    var s := Format(t1, d1, n1);
    FormatParts(t1, d1, n1);
    FormatParts(t2, d2, n2);
    DayPrefixParts(t1, d1);
    DayPrefixParts(t2, d2);
    StampLength(d1);
    StampLength(d2);
    if t1 != t2 {
      PrefixesDiffer(t1, t2);
    } else {
      var p := |DayPrefix(t1, d1)|;
      assert DayPrefix(t1, d1) == s[..p] == DayPrefix(t2, d2);
      StampInjective(d1, d2);
      assert PadStart(n1, 4) == s[p + 1..] == PadStart(n2, 4);
      PadStartInjective(n1, n2, 4);
    }
  }

  /** Every stored document the count query matches has its number among the counted ones. */
  lemma {:induction false} NumberedDocNosMember(docs: seq<Document>, t: DocType, d: Date, doc: Document)
    requires doc in docs && NumberedOn(doc, t, d)
    ensures doc.docNo in NumberedDocNos(docs, t, d)
  {
    var init := docs[..|docs| - 1];
    if doc != docs[|docs| - 1] {
      assert doc in init by {
        var k :| 0 <= k < |docs| && docs[k] == doc;
        assert init[k] == doc;
      }
      NumberedDocNosMember(init, t, d, doc);
    }
  }

  /** Storing a document under the generated number makes the next number for that type and day one higher. */
  lemma NextSequence(docs: seq<Document>, doc: Document, t: DocType, today: Date)
    requires doc.docType == t && doc.docNo == GenerateDocNo(docs, t, today)
    ensures |NumberedDocNos(docs + [doc], t, today)| == |NumberedDocNos(docs, t, today)| + 1
    ensures GenerateDocNo(docs + [doc], t, today) == Format(t, today, |NumberedDocNos(docs, t, today)| + 2)
  {
    FormatParts(t, today, |NumberedDocNos(docs, t, today)| + 1);
    assert NumberedOn(doc, t, today);
    assert (docs + [doc])[..|docs|] == docs;
  }

  /** Numbering is scoped to the day: a document numbered on another valid day does not move the count. */
  lemma {:induction false} OtherDayUnaffected(docs: seq<Document>, doc: Document, t: DocType, d1: Date, d2: Date)
    requires ValidDate(d1) && ValidDate(d2) && d1 != d2
    requires doc.docType == t && doc.docNo == GenerateDocNo(docs, t, d1)
    ensures GenerateDocNo(docs + [doc], t, d2) == GenerateDocNo(docs, t, d2)
  {
    assert (docs + [doc])[..|docs|] == docs;
    if StartsWith(doc.docNo, DayPrefix(t, d2)) {
      StampLength(d1);
      StampLength(d2);
      var p := |Prefix(t)| + 1;
      assert doc.docNo[..p + 8] == DayPrefix(t, d1);
      assert doc.docNo[..p + 8] == DayPrefix(t, d2);
      assert Stamp(d1) == DayPrefix(t, d1)[p..] == DayPrefix(t, d2)[p..] == Stamp(d2);
      StampInjective(d1, d2);
    }
  }

  /** The numbers of type t on day d are exactly 1, 2, ... in store order. */
  ghost predicate Consecutive(docs: seq<Document>, t: DocType, d: Date) {
    var nos := NumberedDocNos(docs, t, d);
    forall k :: 0 <= k < |nos| ==> nos[k] == Format(t, d, k + 1)
  }

  /** Under sequential creation the generated number is not yet carried by any document of that type. */
  lemma GeneratedIsFresh(docs: seq<Document>, t: DocType, today: Date, doc: Document)
    requires Consecutive(docs, t, today)
    requires doc in docs && doc.docType == t
    ensures doc.docNo != GenerateDocNo(docs, t, today)
  {
    var nos := NumberedDocNos(docs, t, today);
    if doc.docNo == GenerateDocNo(docs, t, today) {
      assert NumberedOn(doc, t, today);
      NumberedDocNosMember(docs, t, today, doc);
      var k :| 0 <= k < |nos| && nos[k] == doc.docNo;
      SequenceInjective(t, today, k + 1, |nos| + 1);
    }
  }

  /** Two numbers of one type and day are equal only for equal sequences. */
  lemma SequenceInjective(t: DocType, d: Date, a: nat, b: nat)
    requires Format(t, d, a) == Format(t, d, b)
    ensures a == b
  {
    FormatParts(t, d, a);
    FormatParts(t, d, b);
    var p := |DayPrefix(t, d)|;
    assert PadStart(a, 4) == Format(t, d, a)[p + 1..];
    PadStartInjective(a, b, 4);
  }

  /** Storing a document under the generated number keeps the numbers of its type and day consecutive. */
  lemma ConsecutiveAfterCreate(docs: seq<Document>, t: DocType, today: Date, doc: Document)
    requires Consecutive(docs, t, today)
    requires doc.docType == t && doc.docNo == GenerateDocNo(docs, t, today)
    ensures Consecutive(docs + [doc], t, today)
  {
    var nos := NumberedDocNos(docs, t, today);
    FormatParts(t, today, |nos| + 1);
    assert NumberedOn(doc, t, today);
    assert (docs + [doc])[..|docs|] == docs;
    assert NumberedDocNos(docs + [doc], t, today) == nos + [doc.docNo];
  }
}
