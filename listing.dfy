/**
 * The query arithmetic of the document list (GET in app/api/documents/route.ts):
 * optional type and status filters, and paging by skip = (page - 1) * pageSize,
 * take = pageSize, with page 1 and 20 per page by default.
 */
module Listing {
  import opened Wrappers
  import opened Domain
  import opened Digits

  /** The query-string parameters, None when absent. */
  datatype ListParams = ListParams(
    typeParam: Option<string>,
    statusParam: Option<string>,
    pageParam: Option<string>,
    pageSizeParam: Option<string>)

  /** The `where` object: a filter is set only for a non-empty parameter. */
  datatype Filter = Filter(docType: Option<DocType>, status: Option<DocStatus>)

  datatype Query = Query(filter: Filter, page: int, pageSize: int, skip: int, take: int)

  /** `p || fallback` on a query parameter: absent and empty both fall back. */
  function OrDefault(p: Option<string>, fallback: string): string {
    if p.None? || p.value == "" then fallback else p.value
  }

  predicate IsSpace(c: char) {
    c == ' ' || c == '\t' || c == '\n' || c == '\r'
  }

  function SkipSpaces(s: string): (r: string)
    ensures |r| <= |s| && r == s[|s| - |r|..]
  {
    if s != [] && IsSpace(s[0]) then SkipSpaces(s[1..]) else s
  }

  /** The longest prefix of decimal digits. */
  function DigitRun(s: string): (r: string)
    ensures |r| <= |s| && r == s[..|r|]
    ensures forall i :: 0 <= i < |r| ==> IsDigit(r[i])
    ensures |r| < |s| ==> !IsDigit(s[|r|])
  {
    if s != [] && IsDigit(s[0]) then [s[0]] + DigitRun(s[1..]) else []
  }

  /**
   * parseInt(s) in base 10: leading white space, an optional sign, then as many
   * digits as follow; None (NaN) when there are none.
   */
  function ParseInt(s: string): (r: Option<int>)
    ensures s == [] ==> r.None?
    ensures r.Some? && r.value < 0 ==> '-' in s
  {
    var t := SkipSpaces(s);
    var negative := t != [] && t[0] == '-';
    assert negative ==> s[|s| - |t|] == '-';
    var body := if t != [] && (t[0] == '-' || t[0] == '+') then t[1..] else t;
    var digits := DigitRun(body);
    if digits == [] then None
    else Some(if negative then -(ParseDecimal(digits) as int) else ParseDecimal(digits) as int)
  }

  function TypeByName(s: string): Option<DocType> {
    if s == "IN" then Some(IN)
    else if s == "OUT" then Some(OUT)
    else if s == "RETURN" then Some(RETURN)
    else if s == "DISPOSE" then Some(DISPOSE)
    else None
  }

  function StatusByName(s: string): Option<DocStatus> {
    if s == "DRAFT" then Some(DRAFT)
    else if s == "SUBMIT" then Some(SUBMIT)
    else if s == "APPROVE" then Some(APPROVE)
    else if s == "REJECT" then Some(REJECT)
    else if s == "CANCEL" then Some(CANCEL)
    else None
  }

  predicate Matches(doc: Document, f: Filter) {
    (f.docType.Some? ==> doc.docType == f.docType.value) &&
    (f.status.Some? ==> doc.status == f.status.value)
  }

  /** The documents a filter selects, newest first (the store keeps creation order). */
  function Selected(docs: seq<Document>, f: Filter): (r: seq<Document>)
    ensures |r| <= |docs|
    ensures forall k :: 0 <= k < |r| ==> Matches(r[k], f) && r[k] in docs
  {
    if docs == [] then []
    else
      var last := docs[|docs| - 1];
      var older := Selected(docs[..|docs| - 1], f);
      (if Matches(last, f) then [last] else []) + older
  }

  /** A document is selected exactly when it is stored and matches. */
  lemma {:induction false} SelectedComplete(docs: seq<Document>, f: Filter, doc: Document)
    ensures doc in Selected(docs, f) <==> doc in docs && Matches(doc, f)
  {
    if docs != [] {
      var init := docs[..|docs| - 1];
      SelectedComplete(init, f, doc);
      assert docs == init + [docs[|docs| - 1]];
    }
  }

  /** Without filters every document is listed. */
  lemma {:induction false} SelectedUnfiltered(docs: seq<Document>)
    ensures |Selected(docs, Filter(None, None))| == |docs|
  {
    if docs != [] {
      SelectedUnfiltered(docs[..|docs| - 1]);
    }
  }

  /**
   * The parsed query string: None when page or pageSize is NaN. A filter is set
   * only for a non-empty parameter; one that names no enum value is kept as None
   * here and refused by Accepted.
   */
  function BuildQuery(p: ListParams): (r: Option<Query>)
    ensures r.Some? ==> r.value.skip == (r.value.page - 1) * r.value.pageSize && r.value.take == r.value.pageSize
    ensures r.Some? && r.value.filter.docType.Some? ==> p.typeParam.Some? && p.typeParam.value != ""
    ensures r.Some? && r.value.filter.status.Some? ==> p.statusParam.Some? && p.statusParam.value != ""
    ensures r.Some? && p.typeParam.Some? && p.typeParam.value != "" ==> r.value.filter.docType == TypeByName(p.typeParam.value)
    ensures r.Some? && p.statusParam.Some? && p.statusParam.value != "" ==> r.value.filter.status == StatusByName(p.statusParam.value)
  {
    var page := ParseInt(OrDefault(p.pageParam, "1"));
    var pageSize := ParseInt(OrDefault(p.pageSizeParam, "20"));
    if page.None? || pageSize.None? then None
    else
      var t := if p.typeParam.None? || p.typeParam.value == "" then None else TypeByName(p.typeParam.value);
      var s := if p.statusParam.None? || p.statusParam.value == "" then None else StatusByName(p.statusParam.value);
      Some(Query(Filter(t, s), page.value, pageSize.value, (page.value - 1) * pageSize.value, pageSize.value))
  }

  /** The database accepts the query: known enum names in the filters, no negative skip or take. */
  predicate Accepted(p: ListParams) {
    BuildQuery(p).Some? &&
    (p.typeParam.Some? && p.typeParam.value != "" ==> TypeByName(p.typeParam.value).Some?) &&
    (p.statusParam.Some? && p.statusParam.value != "" ==> StatusByName(p.statusParam.value).Some?) &&
    BuildQuery(p).value.skip >= 0 && BuildQuery(p).value.take >= 0
  }

  /** skip/take on a result list: the at most take elements that start at position skip. */
  function Window<T>(xs: seq<T>, skip: nat, take: nat): (w: seq<T>)
    ensures |w| == (if skip >= |xs| then 0 else if take < |xs| - skip then take else |xs| - skip)
    ensures forall j :: 0 <= j < |w| ==> skip + j < |xs| && w[j] == xs[skip + j]
  {
    var lo := if skip < |xs| then skip else |xs|;
    var hi := if skip + take < |xs| then skip + take else |xs|;
    xs[lo..hi]
  }

  /** parseInt reads back what String(n) writes. */
  lemma ParseIntOfDecimal(n: nat)
    ensures ParseInt(Decimal(n)) == Some(n)
  {
    var s := Decimal(n);
    ParseDecimalOfDecimal(n);
    assert s[0] != '-' && s[0] != '+' && !IsSpace(s[0]);
    DigitRunAll(s);
  }

  /** The digit run of a string of digits is the whole string. */
  lemma {:induction false} DigitRunAll(s: string)
    requires forall i :: 0 <= i < |s| ==> IsDigit(s[i])
    ensures DigitRun(s) == s
  {
    if s != [] {
      DigitRunAll(s[1..]);
    }
  }

  /** With no parameters the first page of twenty is asked for, unfiltered. */
  lemma DefaultQuery()
    ensures BuildQuery(ListParams(None, None, None, None))
         == Some(Query(Filter(None, None), 1, 20, 0, 20))
  {
    ParseIntOfDecimal(1);
    ParseIntOfDecimal(20);
    assert Decimal(1) == "1";
    assert Decimal(20) == "20";
  }

  /**
   * With page n and pageSize m written as decimals, the query asks for page n
   * of size m: skip (n - 1) * m, take m, whatever the filters.
   */
  lemma PagedQuery(tp: Option<string>, sp: Option<string>, n: nat, m: nat)
    ensures var r := BuildQuery(ListParams(tp, sp, Some(Decimal(n)), Some(Decimal(m))));
      r.Some? && r.value.page == n && r.value.pageSize == m && r.value.skip == (n - 1) * m && r.value.take == m
  {
    var p := ListParams(tp, sp, Some(Decimal(n)), Some(Decimal(m)));
    DecimalDigits(n);
    DecimalDigits(m);
    assert OrDefault(p.pageParam, "1") == Decimal(n);
    assert OrDefault(p.pageSizeParam, "20") == Decimal(m);
    ParseIntOfDecimal(n);
    ParseIntOfDecimal(m);
    QueryPage(p, n, m);
  }

  /** The page and pageSize of the query are the parsed parameters. */
  lemma QueryPage(p: ListParams, n: int, m: int)
    requires ParseInt(OrDefault(p.pageParam, "1")) == Some(n)
    requires ParseInt(OrDefault(p.pageSizeParam, "20")) == Some(m)
    ensures var r := BuildQuery(p);
      r.Some? && r.value.page == n && r.value.pageSize == m && r.value.skip == (n - 1) * m && r.value.take == m
  {
  }

  /** A page of the selection holds only stored documents that match the filter. */
  lemma SelectedWindow(docs: seq<Document>, f: Filter, skip: nat, take: nat)
    ensures forall d :: d in Window(Selected(docs, f), skip, take) ==> d in docs && Matches(d, f)
  {
    var selected := Selected(docs, f);
    var page := Window(selected, skip, take);
    forall d | d in page
      ensures d in docs && Matches(d, f)
    {
      var j :| 0 <= j < |page| && page[j] == d;
      assert d == selected[skip + j];
    }
  }

  /** Selecting from a non-empty store puts the last document, when it matches, ahead of the older ones. */
  lemma SelectedUnfold(docs: seq<Document>, f: Filter)
    requires docs != []
    ensures var last := docs[|docs| - 1];
      Selected(docs, f) == (if Matches(last, f) then [last] else []) + Selected(docs[..|docs| - 1], f)
  {
  }

  /** The last stored document, when it matches, is listed first, ahead of every older match. */
  lemma NewestFirstLast(docs: seq<Document>, f: Filter, a: nat) returns (j: nat)
    requires a < |docs| - 1 && Matches(docs[a], f) && Matches(docs[|docs| - 1], f)
    ensures 0 < j < |Selected(docs, f)| && Selected(docs, f)[0] == docs[|docs| - 1] && Selected(docs, f)[j] == docs[a]
  {
    var init := docs[..|docs| - 1];
    var older := Selected(init, f);
    SelectedUnfold(docs, f);
    assert Selected(docs, f) == [docs[|docs| - 1]] + older;
    assert init[a] == docs[a];
    SelectedComplete(init, f, init[a]);
    var k :| 0 <= k < |older| && older[k] == docs[a];
    j := 1 + k;
  }

  /** Where Selected lists two matching documents, docs[b] stored after docs[a]: docs[b] at i, docs[a] at j > i. */
  lemma {:induction false} NewestFirstAt(docs: seq<Document>, f: Filter, a: nat, b: nat) returns (i: nat, j: nat)
    requires a < b < |docs| && Matches(docs[a], f) && Matches(docs[b], f)
    ensures i < j < |Selected(docs, f)| && Selected(docs, f)[i] == docs[b] && Selected(docs, f)[j] == docs[a]
  {
    var init := docs[..|docs| - 1];
    assert init[a] == docs[a];
    if b == |docs| - 1 {
      j := NewestFirstLast(docs, f, a);
      i := 0;
    } else {
      assert init[b] == docs[b];
      var i', j' := NewestFirstAt(init, f, a, b);
      i, j := KeepOrder(docs, f, i', j');
    }
  }

  /** Two places of the older selection keep their order in the full selection. */
  lemma KeepOrder(docs: seq<Document>, f: Filter, i': nat, j': nat) returns (i: nat, j: nat)
    requires docs != [] && i' < j' < |Selected(docs[..|docs| - 1], f)|
    ensures i < j < |Selected(docs, f)|
    ensures Selected(docs, f)[i] == Selected(docs[..|docs| - 1], f)[i']
    ensures Selected(docs, f)[j] == Selected(docs[..|docs| - 1], f)[j']
  {
    if Matches(docs[|docs| - 1], f) {
      ShiftedByNewest(docs, f, i');
      ShiftedByNewest(docs, f, j');
      i, j := 1 + i', 1 + j';
    } else {
      SelectedUnfold(docs, f);
      i, j := i', j';
    }
  }

  /** When the last stored document matches, every older selected document moves back one place. */
  lemma ShiftedByNewest(docs: seq<Document>, f: Filter, k: nat)
    requires docs != [] && Matches(docs[|docs| - 1], f) && k < |Selected(docs[..|docs| - 1], f)|
    ensures 1 + k < |Selected(docs, f)| && Selected(docs, f)[1 + k] == Selected(docs[..|docs| - 1], f)[k]
  {
    SelectedUnfold(docs, f);
  }

  /** Of two stored documents the filter selects, the one stored later is listed first. */
  lemma SelectedNewestFirst(docs: seq<Document>, f: Filter, a: nat, b: nat)
    requires a < b < |docs| && Matches(docs[a], f) && Matches(docs[b], f)
    ensures exists i, j :: 0 <= i < j < |Selected(docs, f)| && Selected(docs, f)[i] == docs[b] && Selected(docs, f)[j] == docs[a]
  {
    var i, j := NewestFirstAt(docs, f, a, b);
  }
}
