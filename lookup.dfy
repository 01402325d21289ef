/**
 * Lookups the engine does against the store: a document by id (findUnique) and
 * the first line of a document that carries a given sample (Array.find).
 */
module Lookup {
  import opened Wrappers
  import opened Domain

  /** Document ids are primary keys: no two stored documents share one. */
  predicate IdsDistinct(docs: seq<Document>) {
    forall i, j :: 0 <= i < j < |docs| ==> docs[i].id != docs[j].id
  }

  /** The position of the first document with the given id, if any. */
  function FindDoc(docs: seq<Document>, id: DocId): (r: Option<nat>)
    ensures r.Some? ==> r.value < |docs| && docs[r.value].id == id
    ensures r.Some? ==> forall k :: 0 <= k < r.value ==> docs[k].id != id
    ensures r.None? <==> forall k :: 0 <= k < |docs| ==> docs[k].id != id
  {
    if docs == [] then None
    else if docs[0].id == id then Some(0)
    else
      match FindDoc(docs[1..], id)
      case None => None
      case Some(k) => Some(k + 1)
  }

  /** The position of the first line for the given sample, if any. */
  function FirstLineFor(lines: seq<Line>, s: SampleId): (r: Option<nat>)
    ensures r.Some? ==> r.value < |lines| && lines[r.value].sampleId == s
    ensures r.Some? ==> forall k :: 0 <= k < r.value ==> lines[k].sampleId != s
    ensures r.None? <==> forall k :: 0 <= k < |lines| ==> lines[k].sampleId != s
  {
    if lines == [] then None
    else if lines[0].sampleId == s then Some(0)
    else
      match FirstLineFor(lines[1..], s)
      case None => None
      case Some(k) => Some(k + 1)
  }

  /** Appending a document does not change where an already stored id is found. */
  lemma FindAfterAppend(docs: seq<Document>, d: Document, id: DocId)
    ensures FindDoc(docs, id).Some? ==> FindDoc(docs + [d], id) == FindDoc(docs, id)
    ensures FindDoc(docs, id).None? && d.id == id ==> FindDoc(docs + [d], id) == Some(|docs|)
    ensures FindDoc(docs, id).None? && d.id != id ==> FindDoc(docs + [d], id).None?
  {
    var e := docs + [d];
    assert e[|docs|] == d;
    assert forall k :: 0 <= k < |docs| ==> e[k] == docs[k];
  }

  /** Rewriting a stored document in place, keeping its id, does not change any lookup. */
  lemma FindAfterUpdate(docs: seq<Document>, i: nat, d: Document, id: DocId)
    requires i < |docs| && d.id == docs[i].id
    ensures FindDoc(docs[i := d], id) == FindDoc(docs, id)
  {
    assert forall k :: 0 <= k < |docs| ==> docs[i := d][k].id == docs[k].id;
  }

  /** With distinct ids every stored document is found at its own position. */
  lemma FindStored(docs: seq<Document>, k: nat)
    requires IdsDistinct(docs) && k < |docs|
    ensures FindDoc(docs, docs[k].id) == Some(k)
  {
  }
}
