/**
 * The document store the graph layer runs on: one vertex collection and one
 * edge collection, each a map from primary key to document. Keys are handed
 * out by a counter and never reused; the store's natural iteration order is
 * ascending key. Only the calls graph.js makes are modelled: save, document,
 * replace, remove, firstExample('$id', …), all() and the three edge-index
 * lookups edges/inEdges/outEdges.
 */
module Collections {
  import opened Wrappers
  import opened JsValue
  import opened Properties

  type Key = nat
  type CollectionId = nat

  /** An edge document: its endpoints (`_from`, `_to`) and its body. */
  datatype EdgeDoc = EdgeDoc(from: Key, to: Key, body: Doc)

  /** Which endpoint an edge-index lookup matches on. */
  datatype Direction = In | Out | Any

  /** `inEdges(v)` matches `_to`, `outEdges(v)` matches `_from`, `edges(v)`
      matches either. */
  predicate Touches(e: EdgeDoc, v: Key, dir: Direction) {
    match dir
    case In => e.to == v
    case Out => e.from == v
    case Any => e.to == v || e.from == v
  }

  /** All keys of `docs` in [lo, hi), ascending. */
  function KeysIn<D>(docs: map<Key, D>, lo: nat, hi: nat): (r: seq<Key>)
    ensures forall k :: k in r <==> lo <= k < hi && k in docs
    ensures forall i, j :: 0 <= i < j < |r| ==> r[i] < r[j]
    decreases hi - lo
  {
    if lo >= hi then []
    else if lo in docs then
      var rest := KeysIn(docs, lo + 1, hi);
      assert forall j :: 0 <= j < |rest| ==> rest[j] in rest;
      [lo] + rest
    else KeysIn(docs, lo + 1, hi)
  }

  /** The keys in [lo, hi) of the edges touching `v` in direction `dir`, ascending. */
  function Incident(docs: map<Key, EdgeDoc>, v: Key, dir: Direction, lo: nat, hi: nat): (r: seq<Key>)
    ensures forall i :: 0 <= i < |r| ==> lo <= r[i] < hi && r[i] in docs && Touches(docs[r[i]], v, dir)
    ensures forall k :: lo <= k < hi && k in docs && Touches(docs[k], v, dir) ==> k in r
    ensures forall i, j :: 0 <= i < j < |r| ==> r[i] < r[j]
    decreases hi - lo
  {
    if lo >= hi then []
    else if lo in docs && Touches(docs[lo], v, dir) then [lo] + Incident(docs, v, dir, lo + 1, hi)
    else Incident(docs, v, dir, lo + 1, hi)
  }

  /** The first key in [lo, hi) whose document has `$id` equal to `id`. */
  function FirstWithId(docs: map<Key, Doc>, id: Value, lo: nat, hi: nat): (r: Option<Key>)
    ensures r.Some? ==> lo <= r.value < hi && r.value in docs && Get(docs[r.value], "$id") == id
    ensures r.Some? ==> forall k :: lo <= k < r.value && k in docs ==> Get(docs[k], "$id") != id
    ensures r.None? ==> forall k :: lo <= k < hi && k in docs ==> Get(docs[k], "$id") != id
    decreases hi - lo
  {
    if lo >= hi then None
    else if lo in docs && Get(docs[lo], "$id") == id then Some(lo)
    else FirstWithId(docs, id, lo + 1, hi)
  }

  /** Every edge of `docs` that does not touch `v`, as the store holds them
      once a vertex and its incident edges are gone. */
  function WithoutIncident(docs: map<Key, EdgeDoc>, v: Key): (r: map<Key, EdgeDoc>)
    ensures forall k :: k in r ==> !Touches(r[k], v, Any)
    ensures forall k :: k in r <==> k in docs && !Touches(docs[k], v, Any)
    ensures forall k :: k in r ==> r[k] == docs[k]
  {
    map k | k in docs && !Touches(docs[k], v, Any) :: docs[k]
  }

  /** Deleting exactly the incident edges leaves WithoutIncident. */
  lemma RemoveIncident(docs: map<Key, EdgeDoc>, v: Key, ks: set<Key>)
    requires forall k :: k in ks <==> k in docs && Touches(docs[k], v, Any)
    ensures docs - ks == WithoutIncident(docs, v)
  {
  }

  class VertexCollection {
    const cid: CollectionId
    var docs: map<Key, Doc>
    var next: Key

    ghost predicate Valid()
      reads this
    {
      forall k :: k in docs ==> k < next
    }

    constructor (cid: CollectionId)
      ensures Valid() && this.cid == cid && docs == map[] && next == 0
    {
      this.cid := cid;
      docs := map[];
      next := 0;
    }

    /** save(doc): stores the document under a new key. */
    method Save(d: Doc) returns (k: Key)
      requires Valid()
      modifies this
      ensures Valid()
      ensures k == old(next) && k !in old(docs) && next == old(next) + 1
      ensures docs == old(docs)[k := d]
    {
      k := next;
      docs := docs[k := d];
      next := next + 1;
    }

    /** document(k): the stored document, or nothing for a missing key. */
    function Document(k: Key): Option<Doc>
      reads this
    {
      if k in docs then Some(docs[k]) else None
    }

    /** replace(k, doc): overwrites an existing document; refused for a missing key. */
    method Replace(k: Key, d: Doc) returns (ok: bool)
      modifies this
      ensures ok == (k in old(docs)) && next == old(next)
      ensures docs == if ok then old(docs)[k := d] else old(docs)
    {
      ok := k in docs;
      if ok {
        docs := docs[k := d];
      }
    }

    /** remove(doc): deletes the document; false when it is already gone. */
    method Remove(k: Key) returns (ok: bool)
      modifies this
      ensures ok == (k in old(docs)) && next == old(next)
      ensures docs == old(docs) - {k}
    {
      ok := k in docs;
      docs := docs - {k};
    }

    /** firstExample('$id', id) */
    function FirstExample(id: Value): Option<Key>
      reads this
    {
      FirstWithId(docs, id, 0, next)
    }

    /** all(): every key in natural order. */
    function All(): seq<Key>
      reads this
    {
      KeysIn(docs, 0, next)
    }
  }

  class EdgeCollection {
    const cid: CollectionId
    var docs: map<Key, EdgeDoc>
    var next: Key

    ghost predicate Valid()
      reads this
    {
      forall k :: k in docs ==> k < next
    }

    constructor (cid: CollectionId)
      ensures Valid() && this.cid == cid && docs == map[] && next == 0
    {
      this.cid := cid;
      docs := map[];
      next := 0;
    }

    /** save(from, to, body) */
    method Save(from: Key, to: Key, body: Doc) returns (k: Key)
      requires Valid()
      modifies this
      ensures Valid()
      ensures k == old(next) && k !in old(docs) && next == old(next) + 1
      ensures docs == old(docs)[k := EdgeDoc(from, to, body)]
    {
      k := next;
      docs := docs[k := EdgeDoc(from, to, body)];
      next := next + 1;
    }

    function Document(k: Key): Option<EdgeDoc>
      reads this
    {
      if k in docs then Some(docs[k]) else None
    }

    /** replace(doc, body): a new body for an existing edge; the endpoints stay. */
    method Replace(k: Key, body: Doc) returns (ok: bool)
      modifies this
      ensures ok == (k in old(docs)) && next == old(next)
      ensures docs == if ok then old(docs)[k := old(docs)[k].(body := body)] else old(docs)
    {
      ok := k in docs;
      if ok {
        docs := docs[k := docs[k].(body := body)];
      }
    }

    method Remove(k: Key) returns (ok: bool)
      modifies this
      ensures ok == (k in old(docs)) && next == old(next)
      ensures docs == old(docs) - {k}
    {
      ok := k in docs;
      docs := docs - {k};
    }

    /** edges(v), inEdges(v), outEdges(v): the matching edges in natural order. */
    function Query(v: Key, dir: Direction): seq<Key>
      reads this
    {
      Incident(docs, v, dir, 0, next)
    }

    function All(): seq<Key>
      reads this
    {
      KeysIn(docs, 0, next)
    }

    /** On a valid store a lookup returns exactly the matching edges, each once. */
    lemma QueryExact(v: Key, dir: Direction)
      requires Valid()
      ensures forall k :: k in Query(v, dir) <==> k in docs && Touches(docs[k], v, dir)
      ensures forall i, j :: 0 <= i < j < |Query(v, dir)| ==> Query(v, dir)[i] != Query(v, dir)[j]
    {
    }
  }
}
