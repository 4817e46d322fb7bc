/**
 * The property-graph layer of js/common/modules/graph.js: Graph, Vertex and
 * Edge handles over one vertex collection and one edge collection, the
 * per-graph identity caches (`_weakVertices`, `_weakEdges`) and the `_graph`
 * registry of the database.
 *
 * A handle keeps the `_id` it was built for (`id`, cleared to None when the
 * graph removes the entity) and the document it last read (`snapshot`, the
 * source's `_properties`); `key` is the `_id` recorded inside that snapshot,
 * which survives the deletion. The identity caches are plain maps: an entry is
 * never evicted.
 */
module Graphs {
  import opened Wrappers
  import opened JsValue
  import opened Properties
  import opened Collections
  import opened Registry

  datatype GraphError =
    | RegistryFailure(reason: RegistryError)
    | DeletedEntity        // "accessing a deleted edge", thrown by both handle constructors
    | DocumentNotFound     // the store refuses to replace a missing document
    | DeadEndpoint         // an edge endpoint handle whose `_id` is cleared
    | CannotDeleteVertex   // "cannot delete vertex"
    | CannotDeleteEdge     // "cannot delete edge"
    | CrossCollection      // the store refuses a document handle of another collection

  // ---------------------------------------------------------------------------
  // Documents written by addVertex, addEdge and setProperty
  // ---------------------------------------------------------------------------

  /** addVertex(id, data): the copied data plus `$id`, set to `id` or to null
      when `id` is falsy; a null or non-object `data` counts as `{}`. */
  function VertexBody(id: Value, data: Value): (d: Doc)
    ensures Get(d, "$id") == Or(id, Null)
    ensures forall k :: k in d && Reserved(k) ==> k == "$id"
    ensures forall k :: !Reserved(k) ==> Get(d, k) == Get(ObjectFields(data), k)
    ensures !IsObjectType(data) || data.Null? ==> d == map["$id" := Or(id, Null)]
  {
    ShallowCopy(ObjectFields(data))["$id" := Or(id, Null)]
  }

  /** addEdge(id, out, in, label, data): an object-typed label (null, an array
      or an object) is taken as the data and the label becomes null; a falsy
      label is stored as null. */
  function EdgeBody(id: Value, edgeLabel: Value, data: Value): (d: Doc)
    ensures Get(d, "$id") == Or(id, Null)
    ensures Get(d, "$label") == if IsObjectType(edgeLabel) then Null else Or(edgeLabel, Null)
    ensures forall k :: k in d && Reserved(k) ==> k == "$id" || k == "$label"
    ensures forall k :: !Reserved(k) ==>
      Get(d, k) == Get(ObjectFields(if IsObjectType(edgeLabel) then edgeLabel else data), k)
  {
    var (lbl, dat) := if IsObjectType(edgeLabel) then (Undefined, edgeLabel) else (edgeLabel, data);
    var lbl := if lbl == Undefined then Null else lbl;
    ShallowCopy(ObjectFields(dat))["$id" := Or(id, Null)]["$label" := Or(lbl, Null)]
  }

  /** Vertex.setProperty(name, value): the full replacement written back. */
  function VertexReplacement(snapshot: Doc, name: string, value: Value): (d: Doc)
    ensures Get(d, name) == value
    ensures forall k :: k != name && !Reserved(k) ==> Get(d, k) == Get(snapshot, k)
    ensures name != "$id" ==> Get(d, "$id") == Get(snapshot, "$id")
    ensures forall k :: k in d && Reserved(k) ==> k == "$id" || k == name
  {
    ShallowCopy(snapshot)["$id" := Get(snapshot, "$id")][name := value]
  }

  /** Edge.setProperty(name, value): as for vertices, and `$label` is kept too. */
  function EdgeReplacement(snapshot: Doc, name: string, value: Value): (d: Doc)
    ensures Get(d, name) == value
    ensures forall k :: k != name && !Reserved(k) ==> Get(d, k) == Get(snapshot, k)
    ensures name != "$id" ==> Get(d, "$id") == Get(snapshot, "$id")
    ensures name != "$label" ==> Get(d, "$label") == Get(snapshot, "$label")
    ensures forall k :: k in d && Reserved(k) ==> k == "$id" || k == "$label" || k == name
  {
    ShallowCopy(snapshot)["$id" := Get(snapshot, "$id")]["$label" := Get(snapshot, "$label")][name := value]
  }

  /** After setProperty of a non-reserved name, the property names are the old
      ones plus that name. */
  lemma SetPropertyKeys(snapshot: Doc, name: string, value: Value)
    requires !Reserved(name)
    ensures PropertyKeys(VertexReplacement(snapshot, name, value)) == PropertyKeys(snapshot) + {name}
    ensures PropertyKeys(EdgeReplacement(snapshot, name, value)) == PropertyKeys(snapshot) + {name}
  {
  }

  // ---------------------------------------------------------------------------
  // Label filtering of getInEdges / getOutEdges
  // ---------------------------------------------------------------------------

  /** The keys of the `labels` object built from the arguments. */
  function LabelKeys(labels: seq<Value>): set<string> {
    set l | l in labels :: ToPropertyKey(l)
  }

  /** The edge's label, converted to an object key, is one of the allowed
      label keys. */
  predicate HasLabel(e: Edge, allowed: set<string>)
    reads e
  {
    ToPropertyKey(e.GetLabel()) in allowed
  }

  /** The in-order selection of the edges whose label key is allowed. */
  function WithLabels(es: seq<Edge>, allowed: set<string>): seq<Edge>
    reads es
  {
    if es == [] then []
    else (if HasLabel(es[0], allowed) then [es[0]] else []) + WithLabels(es[1..], allowed)
  }

  /** WithLabels keeps exactly the allowed edges; see WithLabelsConcat for
      their order. */
  lemma {:induction false} WithLabelsSpec(es: seq<Edge>, allowed: set<string>)
    ensures forall e :: e in WithLabels(es, allowed) <==> e in es && HasLabel(e, allowed)
    ensures |WithLabels(es, allowed)| <= |es|
    ensures (forall e :: e in es ==> HasLabel(e, allowed)) ==> WithLabels(es, allowed) == es
  {
    if es != [] {
      WithLabelsSpec(es[1..], allowed);
      assert es == [es[0]] + es[1..];
    }
  }

  /** Filtering keeps the order of the edges: filtering a list made of two
      parts gives the kept edges of the first part followed by those of the
      second, so each kept edge stays ahead of every edge after it. */
  lemma {:induction false} WithLabelsConcat(a: seq<Edge>, b: seq<Edge>, allowed: set<string>)
    ensures WithLabels(a + b, allowed) == WithLabels(a, allowed) + WithLabels(b, allowed)
  {
    if a == [] {
      assert a + b == b;
    } else {
      assert (a + b)[0] == a[0];
      assert (a + b)[1..] == a[1..] + b;
      WithLabelsConcat(a[1..], b, allowed);
    }
  }

  /** Label matching goes through object keys: an edge stored with a null
      label is selected by the argument "null". */
  lemma NullLabelMatchesStringNull(e: Edge)
    requires e.GetLabel() == Null
    ensures WithLabels([e], LabelKeys([Str("null")])) == [e]
  {
    assert ToPropertyKey(Str("null")) in LabelKeys([Str("null")]);
  }

  // ---------------------------------------------------------------------------
  // The cache miss tests of constructVertex and constructEdge
  // ---------------------------------------------------------------------------

  /** What reading `dict[k]` yields: undefined for an absent key, or a handle. */
  datatype Slot<H> = Absent | NullEntry | Held(handle: H)

  function CacheRead<H>(cache: map<Key, H>, k: Key): Slot<H> {
    if k in cache then Held(cache[k]) else Absent
  }

  /** constructVertex's miss test: the cache read is undefined. */
  predicate IsVertexMiss<H>(s: Slot<H>) {
    s.Absent?
  }

  /** constructEdge's miss test as written: the cache read is null. */
  predicate IsEdgeMissAsWritten<H>(s: Slot<H>) {
    s.NullEntry?
  }

  /** What constructEdge does as written: build a handle when its miss test
      fires, otherwise return what it read. */
  datatype EdgeLookup<H> = Builds | Returns(result: Option<H>)

  function ConstructEdgeAsWritten<H>(cache: map<Key, H>, k: Key): (r: EdgeLookup<H>)
    ensures k in cache ==> r == Returns(Some(cache[k]))
  {
    var s := CacheRead(cache, k);
    if IsEdgeMissAsWritten(s) then Builds
    else Returns(if s.Held? then Some(s.handle) else None)
  }

  /** On a miss the as-written constructEdge builds nothing and returns
      undefined, while the vertex test recognises the same miss. Whatever a
      miss reads as, exactly one of the two tests fires. */
  lemma EdgeMissReturnsUndefined<H>(cache: map<Key, H>, k: Key)
    requires k !in cache
    ensures ConstructEdgeAsWritten(cache, k) == Returns(None)
    ensures IsVertexMiss(CacheRead(cache, k))
    ensures forall s: Slot<H> :: !s.Held? ==> IsVertexMiss(s) != IsEdgeMissAsWritten(s)
  {
  }

  /** The edge cache as the as-written constructEdge leaves it: empty. */
  const NoEdgeHandles: map<Key, Edge> := map[]

  /** How removeVertex ends when run with the as-written constructEdge. */
  datatype RemovalFailure = VertexNotDeleted | TypeErrorOnUndefined

  datatype RemovalAsWritten =
    RemovalAsWritten(vertices: map<Key, Doc>, edges: map<Key, EdgeDoc>, idCleared: bool, thrown: Option<RemovalFailure>)

  /** removeVertex of a live vertex with the as-written constructEdge. That
      constructEdge never caches a handle, so the edge cache stays empty and
      every handle `vertex.edges()` collects for the queried keys `query` is
      undefined. The vertex is deleted and its `_id` cleared first; then
      removeEdge of the first undefined handle throws a TypeError when it
      reads `_id`, and no edge is deleted. */
  function RemoveVertexAsWritten(vdocs: map<Key, Doc>, edocs: map<Key, EdgeDoc>, v: Key, query: seq<Key>): RemovalAsWritten
  {
    if v !in vdocs then RemovalAsWritten(vdocs, edocs, false, Some(VertexNotDeleted))
    else if query == [] then RemovalAsWritten(vdocs - {v}, edocs, true, None)
    else RemovalAsWritten(vdocs - {v}, edocs, true, Some(TypeErrorOnUndefined))
  }

  /** As written, removing a vertex with an incident edge deletes the vertex
      and clears its `_id`, then throws, leaving every incident edge in place
      (where the corrected removal leaves exactly WithoutIncident). */
  lemma RemoveVertexStrandsEdges(vdocs: map<Key, Doc>, edocs: map<Key, EdgeDoc>, v: Key, query: seq<Key>, k: Key)
    requires v in vdocs
    requires forall j :: j in query <==> j in edocs && Touches(edocs[j], v, Any)
    requires k in edocs && Touches(edocs[k], v, Any)
    ensures query != [] && ConstructEdgeAsWritten(NoEdgeHandles, query[0]) == Returns(None)
    ensures var r := RemoveVertexAsWritten(vdocs, edocs, v, query);
      && r.vertices == vdocs - {v} && r.idCleared && r.thrown == Some(TypeErrorOnUndefined)
      && r.edges == edocs && k in r.edges
      && r.edges != WithoutIncident(edocs, v)
  {
    assert k in query;
    EdgeMissReturnsUndefined(NoEdgeHandles, query[0]);
    assert k !in WithoutIncident(edocs, v);
  }

  // ---------------------------------------------------------------------------
  // Handles
  // ---------------------------------------------------------------------------

  class Vertex {
    const graph: Graph
    const key: Key
    var id: Option<Key>
    var snapshot: Doc

    /** Built only from a fetched document; see Graph.ConstructVertex. */
    constructor (graph: Graph, key: Key, snapshot: Doc)
      ensures this.graph == graph && this.key == key && this.snapshot == snapshot && id == Some(key)
    {
      this.graph := graph;
      this.key := key;
      this.snapshot := snapshot;
      id := Some(key);
    }

    /** The handle's `_id` is its snapshot's `_id` until the graph clears it. */
    ghost predicate Wf()
      reads this
    {
      id == Some(key) || id == None
    }

    function GetId(): Value
      reads this
    {
      Get(snapshot, "$id")
    }

    function GetProperty(name: string): Value
      reads this
    {
      Get(snapshot, name)
    }

    function GetPropertyKeys(): set<string>
      reads this
    {
      PropertyKeys(snapshot)
    }

    /** properties(): exactly the non-reserved entries of the snapshot, so its
        names are getPropertyKeys(). */
    function Properties(): (r: Doc)
      reads this
      ensures r.Keys == GetPropertyKeys()
      ensures forall k :: k in r ==> r[k] == snapshot[k]
    {
      PropertiesAreShallowCopy(snapshot);
      VertexProperties(snapshot)
    }

    method SetProperty(name: string, value: Value) returns (r: Result<Value, GraphError>)
      requires graph.Valid()
      modifies this, graph.vertices
      ensures graph.Valid()
      ensures id == old(id) && graph.vertices.next == old(graph.vertices.next)
      ensures old(id).Some? && old(id).value in old(graph.vertices.docs) ==>
        var d := VertexReplacement(old(snapshot), name, value);
        && r == Ok(value)
        && graph.vertices.docs == old(graph.vertices.docs)[old(id).value := d]
        && snapshot == d
      ensures old(id).None? || old(id).value !in old(graph.vertices.docs) ==>
        r == Err(DocumentNotFound) && graph.vertices.docs == old(graph.vertices.docs) && snapshot == old(snapshot)
    {
      var shallow := VertexReplacement(snapshot, name, value);
      if id.None? {
        // replace(undefined, …)
        return Err(DocumentNotFound);
      }
      var ok := graph.vertices.Replace(id.value, shallow);
      if !ok {
        return Err(DocumentNotFound);
      }
      var stored := graph.vertices.Document(id.value);
      snapshot := stored.value;
      r := Ok(value);
    }

    /** The edge-index lookup for this vertex's `_id`; nothing matches a
        cleared `_id`. */
    function EdgeQuery(dir: Direction): seq<Key>
      reads this, graph.edges
    {
      match id
      case None => []
      case Some(k) => graph.edges.Query(k, dir)
    }

    /** edges(): every edge with this vertex at either end. */
    method Edges() returns (r: seq<Edge>)
      requires graph.Valid()
      modifies graph`weakEdges
      ensures graph.Valid() && graph.EdgeCacheExtended()
      ensures forall k :: k in EdgeQuery(Any) ==> k in graph.weakEdges
      ensures r == graph.EdgeHandles(EdgeQuery(Any))
    {
      r := graph.ConstructEdges(EdgeQuery(Any));
    }

    /** inbound(): the edges whose `_to` is this vertex. */
    method Inbound() returns (r: seq<Edge>)
      requires graph.Valid()
      modifies graph`weakEdges
      ensures graph.Valid() && graph.EdgeCacheExtended()
      ensures forall k :: k in EdgeQuery(In) ==> k in graph.weakEdges
      ensures r == graph.EdgeHandles(EdgeQuery(In))
    {
      r := graph.ConstructEdges(EdgeQuery(In));
    }

    /** outbound(): the edges whose `_from` is this vertex. */
    method Outbound() returns (r: seq<Edge>)
      requires graph.Valid()
      modifies graph`weakEdges
      ensures graph.Valid() && graph.EdgeCacheExtended()
      ensures forall k :: k in EdgeQuery(Out) ==> k in graph.weakEdges
      ensures r == graph.EdgeHandles(EdgeQuery(Out))
    {
      r := graph.ConstructEdges(EdgeQuery(Out));
    }

    /** getInEdges(labels…): inbound() without arguments, otherwise the inbound
        edges whose label is one of the arguments, in order. */
    method GetInEdges(labels: seq<Value>) returns (r: seq<Edge>)
      requires graph.Valid()
      modifies graph`weakEdges
      ensures graph.Valid() && graph.EdgeCacheExtended()
      ensures forall k :: k in EdgeQuery(In) ==> k in graph.weakEdges
      ensures |labels| == 0 ==> r == graph.EdgeHandles(EdgeQuery(In))
      ensures |labels| > 0 ==> r == WithLabels(graph.EdgeHandles(EdgeQuery(In)), LabelKeys(labels))
    {
      if |labels| == 0 {
        r := Inbound();
      } else {
        var all := Inbound();
        r := SelectLabelled(all, LabelKeys(labels));
      }
    }

    /** getOutEdges(labels…): the same over outbound(). */
    method GetOutEdges(labels: seq<Value>) returns (r: seq<Edge>)
      requires graph.Valid()
      modifies graph`weakEdges
      ensures graph.Valid() && graph.EdgeCacheExtended()
      ensures forall k :: k in EdgeQuery(Out) ==> k in graph.weakEdges
      ensures |labels| == 0 ==> r == graph.EdgeHandles(EdgeQuery(Out))
      ensures |labels| > 0 ==> r == WithLabels(graph.EdgeHandles(EdgeQuery(Out)), LabelKeys(labels))
    {
      if |labels| == 0 {
        r := Outbound();
      } else {
        var all := Outbound();
        r := SelectLabelled(all, LabelKeys(labels));
      }
    }

    /** addInEdge(id, out, label, data): addEdge with this vertex as the head. */
    method AddInEdge(eid: Value, out: Vertex, edgeLabel: Value, data: Value) returns (r: Result<Edge, GraphError>)
      requires graph.Valid() && out.graph.vertices == graph.vertices
      modifies graph`weakEdges, graph.edges
      ensures graph.Valid() && graph.EdgeCacheExtended()
      ensures out.id.None? || id.None? ==> r == Err(DeadEndpoint) && graph.edges.docs == old(graph.edges.docs)
      ensures out.id.Some? && id.Some? ==>
        && r.Ok? && fresh(r.value) && r.value.key == old(graph.edges.next) && r.value.id == Some(r.value.key)
        && graph.edges.docs == old(graph.edges.docs)[r.value.key := EdgeDoc(out.id.value, id.value, EdgeBody(eid, edgeLabel, data))]
        && r.value.snapshot == graph.edges.docs[r.value.key]
        && graph.weakEdges == old(graph.weakEdges)[r.value.key := r.value]
    {
      r := graph.AddEdge(eid, out, this, edgeLabel, data);
    }

    /** addOutEdge(id, in, label, data): addEdge with this vertex as the tail. */
    method AddOutEdge(eid: Value, ine: Vertex, edgeLabel: Value, data: Value) returns (r: Result<Edge, GraphError>)
      requires graph.Valid() && ine.graph.vertices == graph.vertices
      modifies graph`weakEdges, graph.edges
      ensures graph.Valid() && graph.EdgeCacheExtended()
      ensures id.None? || ine.id.None? ==> r == Err(DeadEndpoint) && graph.edges.docs == old(graph.edges.docs)
      ensures id.Some? && ine.id.Some? ==>
        && r.Ok? && fresh(r.value) && r.value.key == old(graph.edges.next) && r.value.id == Some(r.value.key)
        && graph.edges.docs == old(graph.edges.docs)[r.value.key := EdgeDoc(id.value, ine.id.value, EdgeBody(eid, edgeLabel, data))]
        && r.value.snapshot == graph.edges.docs[r.value.key]
        && graph.weakEdges == old(graph.weakEdges)[r.value.key := r.value]
    {
      r := graph.AddEdge(eid, this, ine, edgeLabel, data);
    }
  }

  /** The filtering loop of getInEdges/getOutEdges. */
  method SelectLabelled(es: seq<Edge>, allowed: set<string>) returns (r: seq<Edge>)
    ensures r == WithLabels(es, allowed)
  {
    r := [];
    var i := 0;
    while i < |es|
      invariant 0 <= i <= |es|
      invariant r + WithLabels(es[i..], allowed) == WithLabels(es, allowed)
    {
      assert es[i..] == [es[i]] + es[i + 1..];
      if HasLabel(es[i], allowed) {
        r := r + [es[i]];
      }
      i := i + 1;
    }
  }

  class Edge {
    const graph: Graph
    const key: Key
    var id: Option<Key>
    var snapshot: EdgeDoc

    constructor (graph: Graph, key: Key, snapshot: EdgeDoc)
      ensures this.graph == graph && this.key == key && this.snapshot == snapshot && id == Some(key)
    {
      this.graph := graph;
      this.key := key;
      this.snapshot := snapshot;
      id := Some(key);
    }

    function GetId(): Value
      reads this
    {
      Get(snapshot.body, "$id")
    }

    function GetLabel(): Value
      reads this
    {
      Get(snapshot.body, "$label")
    }

    function GetProperty(name: string): Value
      reads this
    {
      Get(snapshot.body, name)
    }

    function GetPropertyKeys(): set<string>
      reads this
    {
      PropertyKeys(snapshot.body)
    }

    /** properties(): exactly the non-reserved entries of the snapshot. */
    function Properties(): (r: Doc)
      reads this
      ensures r.Keys == GetPropertyKeys()
      ensures forall k :: k in r ==> r[k] == snapshot.body[k]
    {
      PropertiesAreShallowCopy(snapshot.body);
      EdgeProperties(snapshot.body)
    }

    /** setProperty(name, value): replaces the document named by the snapshot
        and re-reads it; the endpoints stay as they are. */
    method SetProperty(name: string, value: Value) returns (r: Result<Value, GraphError>)
      requires graph.Valid()
      modifies this, graph.edges
      ensures graph.Valid()
      ensures id == old(id) && graph.edges.next == old(graph.edges.next)
      ensures key in old(graph.edges.docs) ==>
        var d := old(graph.edges.docs)[key].(body := EdgeReplacement(old(snapshot.body), name, value));
        && r == Ok(value)
        && graph.edges.docs == old(graph.edges.docs)[key := d]
        && snapshot == d
      ensures key !in old(graph.edges.docs) ==>
        r == Err(DocumentNotFound) && graph.edges.docs == old(graph.edges.docs) && snapshot == old(snapshot)
    {
      var shallow := EdgeReplacement(snapshot.body, name, value);
      var ok := graph.edges.Replace(key, shallow);
      if !ok {
        return Err(DocumentNotFound);
      }
      var stored := graph.edges.Document(key);
      snapshot := stored.value;
      r := Ok(value);
    }

    /** getInVertex(): the head vertex, through the vertex cache. */
    method GetInVertex() returns (r: Result<Vertex, GraphError>)
      requires graph.Valid()
      modifies graph`weakVertices
      ensures graph.Valid() && graph.VertexCacheExtended()
      ensures snapshot.to in old(graph.weakVertices) ==> r == Ok(old(graph.weakVertices)[snapshot.to])
      ensures snapshot.to !in old(graph.weakVertices) && snapshot.to !in graph.vertices.docs ==> r == Err(DeletedEntity)
      ensures snapshot.to in old(graph.weakVertices) || snapshot.to in graph.vertices.docs ==>
        r.Ok? && r.value.key == snapshot.to && snapshot.to in graph.weakVertices && graph.weakVertices[snapshot.to] == r.value
    {
      r := graph.ConstructVertex(snapshot.to);
    }

    /** getOutVertex(): the tail vertex, through the vertex cache. */
    method GetOutVertex() returns (r: Result<Vertex, GraphError>)
      requires graph.Valid()
      modifies graph`weakVertices
      ensures graph.Valid() && graph.VertexCacheExtended()
      ensures snapshot.from in old(graph.weakVertices) ==> r == Ok(old(graph.weakVertices)[snapshot.from])
      ensures snapshot.from !in old(graph.weakVertices) && snapshot.from !in graph.vertices.docs ==> r == Err(DeletedEntity)
      ensures snapshot.from in old(graph.weakVertices) || snapshot.from in graph.vertices.docs ==>
        r.Ok? && r.value.key == snapshot.from && snapshot.from in graph.weakVertices && graph.weakVertices[snapshot.from] == r.value
    {
      r := graph.ConstructVertex(snapshot.from);
    }
  }

  // ---------------------------------------------------------------------------
  // Graph
  // ---------------------------------------------------------------------------

  class Graph {
    const entry: RegistryEntry
    const vertices: VertexCollection
    const edges: EdgeCollection
    var weakVertices: map<Key, Vertex>
    var weakEdges: map<Key, Edge>

    /** Each cached handle belongs to this graph, is filed under its own key,
        and was built for a key the store has handed out; a cached handle
        whose `_id` is cleared names a document that is gone. */
    ghost predicate Valid()
      reads this, vertices, edges, weakVertices.Values, weakEdges.Values
    {
      && vertices.Valid() && edges.Valid()
      && (forall k :: k in weakVertices ==>
            && weakVertices[k].graph == this && weakVertices[k].key == k && k < vertices.next
            && (weakVertices[k].id == Some(k) || (weakVertices[k].id == None && k !in vertices.docs)))
      && (forall k :: k in weakEdges ==>
            && weakEdges[k].graph == this && weakEdges[k].key == k && k < edges.next
            && (weakEdges[k].id == Some(k) || (weakEdges[k].id == None && k !in edges.docs)))
    }

    /** A cache only ever gains entries, and the entries it gains are new
        handles holding the document stored under their key. */
    twostate predicate VertexCacheExtended()
      reads this, weakVertices.Values
    {
      && (forall k :: k in old(weakVertices) ==> k in weakVertices && weakVertices[k] == old(weakVertices)[k])
      && (forall k :: k in weakVertices && k !in old(weakVertices) ==> fresh(weakVertices[k]))
      && (forall k :: k in weakVertices && k !in old(weakVertices) && k in old(vertices.docs) ==>
            weakVertices[k].snapshot == old(vertices.docs)[k])
    }

    twostate predicate EdgeCacheExtended()
      reads this, weakEdges.Values
    {
      && (forall k :: k in old(weakEdges) ==> k in weakEdges && weakEdges[k] == old(weakEdges)[k])
      && (forall k :: k in weakEdges && k !in old(weakEdges) ==> fresh(weakEdges[k]))
      && (forall k :: k in weakEdges && k !in old(weakEdges) && k in old(edges.docs) ==>
            weakEdges[k].snapshot == old(edges.docs)[k])
    }

    /** The cached handles for a list of keys. */
    function EdgeHandles(ks: seq<Key>): (r: seq<Edge>)
      reads this
      requires forall k :: k in ks ==> k in weakEdges
      ensures |r| == |ks| && forall i :: 0 <= i < |ks| ==> r[i] == weakEdges[ks[i]]
    {
      if ks == [] then [] else [weakEdges[ks[0]]] + EdgeHandles(ks[1..])
    }

    function VertexHandles(ks: seq<Key>): (r: seq<Vertex>)
      reads this
      requires forall k :: k in ks ==> k in weakVertices
      ensures |r| == |ks| && forall i :: 0 <= i < |ks| ==> r[i] == weakVertices[ks[i]]
    {
      if ks == [] then [] else [weakVertices[ks[0]]] + VertexHandles(ks[1..])
    }

    constructor (entry: RegistryEntry, vertices: VertexCollection, edges: EdgeCollection)
      requires vertices.Valid() && edges.Valid()
      ensures Valid()
      ensures this.entry == entry && this.vertices == vertices && this.edges == edges
      ensures weakVertices == map[] && weakEdges == map[]
    {
      this.entry := entry;
      this.vertices := vertices;
      this.edges := edges;
      weakVertices := map[];
      weakEdges := map[];
    }

    /** constructVertex(k): the cached handle if there is one; otherwise a new
        handle for the stored document, cached under k; a missing document
        throws. */
    method ConstructVertex(k: Key) returns (r: Result<Vertex, GraphError>)
      requires Valid()
      modifies this`weakVertices
      ensures Valid() && VertexCacheExtended()
      ensures k in old(weakVertices) ==> r == Ok(old(weakVertices)[k]) && weakVertices == old(weakVertices)
      ensures k !in old(weakVertices) && k !in vertices.docs ==> r == Err(DeletedEntity) && weakVertices == old(weakVertices)
      ensures k !in old(weakVertices) && k in vertices.docs ==>
        && r.Ok? && fresh(r.value) && weakVertices == old(weakVertices)[k := r.value]
        && r.value.id == Some(k) && r.value.snapshot == vertices.docs[k]
      ensures r.Ok? ==> k in weakVertices && weakVertices[k] == r.value && r.value.key == k && r.value.graph == this
    {
      var slot := CacheRead(weakVertices, k);
      if !IsVertexMiss(slot) {
        return Ok(slot.handle);
      }
      var d := vertices.Document(k);
      if d.None? {
        return Err(DeletedEntity);
      }
      var v := new Vertex(this, k, d.value);
      weakVertices := weakVertices[k := v];
      r := Ok(v);
    }

    /** constructEdge(k), with the miss test constructVertex uses. */
    method ConstructEdge(k: Key) returns (r: Result<Edge, GraphError>)
      requires Valid()
      modifies this`weakEdges
      ensures Valid() && EdgeCacheExtended()
      ensures k in old(weakEdges) ==> r == Ok(old(weakEdges)[k]) && weakEdges == old(weakEdges)
      ensures k !in old(weakEdges) && k !in edges.docs ==> r == Err(DeletedEntity) && weakEdges == old(weakEdges)
      ensures k !in old(weakEdges) && k in edges.docs ==>
        && r.Ok? && fresh(r.value) && weakEdges == old(weakEdges)[k := r.value]
        && r.value.id == Some(k) && r.value.snapshot == edges.docs[k]
      ensures r.Ok? ==> k in weakEdges && weakEdges[k] == r.value && r.value.key == k && r.value.graph == this
    {
      var slot := CacheRead(weakEdges, k);
      if !IsVertexMiss(slot) {
        return Ok(slot.handle);
      }
      var d := edges.Document(k);
      if d.None? {
        return Err(DeletedEntity);
      }
      var e := new Edge(this, k, d.value);
      weakEdges := weakEdges[k := e];
      r := Ok(e);
    }

    /** The loop of edges()/inbound()/outbound()/getEdges(): one cached handle
        per stored edge key, in query order. */
    method ConstructEdges(query: seq<Key>) returns (r: seq<Edge>)
      requires Valid()
      requires forall k :: k in query ==> k in edges.docs
      modifies this`weakEdges
      ensures Valid() && EdgeCacheExtended()
      ensures forall k :: k in query ==> k in weakEdges
      ensures r == EdgeHandles(query)
      ensures forall i :: 0 <= i < |r| ==> r[i].key == query[i]
    {
      r := [];
      var i := 0;
      while i < |query|
        invariant 0 <= i <= |query|
        invariant Valid() && EdgeCacheExtended()
        invariant |r| == i
        invariant forall j :: 0 <= j < i ==> query[j] in weakEdges && r[j] == weakEdges[query[j]]
      {
        var e := ConstructEdge(query[i]);
        r := r + [e.value];
        i := i + 1;
      }
    }

    /** addVertex(id, data) */
    method AddVertex(id: Value, data: Value) returns (v: Vertex)
      requires Valid()
      modifies this`weakVertices, vertices
      ensures Valid() && VertexCacheExtended()
      ensures fresh(v) && v.key == old(vertices.next) && v.id == Some(v.key) && v.graph == this
      ensures vertices.docs == old(vertices.docs)[v.key := VertexBody(id, data)]
      ensures v.snapshot == VertexBody(id, data)
      ensures weakVertices == old(weakVertices)[v.key := v]
    {
      var k := vertices.Save(VertexBody(id, data));
      var r := ConstructVertex(k);
      v := r.value;
    }

    /** addEdge(id, out, in, label, data): a new edge from `out` to `ine`,
        both vertices of this graph's vertex collection (a key names a
        document of one collection only). */
    method AddEdge(id: Value, out: Vertex, ine: Vertex, edgeLabel: Value, data: Value) returns (r: Result<Edge, GraphError>)
      requires Valid()
      requires out.graph.vertices == vertices && ine.graph.vertices == vertices
      modifies this`weakEdges, edges
      ensures Valid() && EdgeCacheExtended()
      ensures out.id.None? || ine.id.None? ==>
        r == Err(DeadEndpoint) && edges.docs == old(edges.docs) && weakEdges == old(weakEdges)
      ensures out.id.Some? && ine.id.Some? ==>
        && r.Ok? && fresh(r.value) && r.value.key == old(edges.next) && r.value.graph == this
        && r.value.id == Some(r.value.key)
        && edges.docs == old(edges.docs)[r.value.key := EdgeDoc(out.id.value, ine.id.value, EdgeBody(id, edgeLabel, data))]
        && r.value.snapshot == edges.docs[r.value.key]
        && weakEdges == old(weakEdges)[r.value.key := r.value]
    {
      var shallow := EdgeBody(id, edgeLabel, data);
      if out.id.None? || ine.id.None? {
        // save(undefined, …)
        return Err(DeadEndpoint);
      }
      var k := edges.Save(out.id.value, ine.id.value, shallow);
      r := ConstructEdge(k);
    }

    /** getVertex(id): the first vertex whose `$id` equals `id`, or null. */
    method GetVertex(id: Value) returns (r: Option<Vertex>)
      requires Valid()
      modifies this`weakVertices
      ensures Valid() && VertexCacheExtended()
      ensures r.None? <==> forall k :: k in vertices.docs ==> Get(vertices.docs[k], "$id") != id
      ensures r.Some? ==>
        && r.value.key in vertices.docs && Get(vertices.docs[r.value.key], "$id") == id
        && (forall k :: k in vertices.docs && k < r.value.key ==> Get(vertices.docs[k], "$id") != id)
        && r.value.key in weakVertices && weakVertices[r.value.key] == r.value
    {
      var ref := vertices.FirstExample(id);
      if ref.None? {
        return None;
      }
      var v := ConstructVertex(ref.value);
      r := Some(v.value);
    }

    /** getVertices(), as the list the iterator walks through. */
    method GetVertices() returns (r: seq<Vertex>)
      requires Valid()
      modifies this`weakVertices
      ensures Valid() && VertexCacheExtended()
      ensures forall k :: k in vertices.docs ==> k in weakVertices
      ensures r == VertexHandles(vertices.All())
    {
      var all := vertices.All();
      r := [];
      var i := 0;
      while i < |all|
        invariant 0 <= i <= |all|
        invariant Valid() && VertexCacheExtended()
        invariant |r| == i
        invariant forall j :: 0 <= j < i ==> all[j] in weakVertices && r[j] == weakVertices[all[j]]
      {
        var v := ConstructVertex(all[i]);
        r := r + [v.value];
        i := i + 1;
      }
    }

    /** getEdges(), as the list the iterator walks through. */
    method GetEdges() returns (r: seq<Edge>)
      requires Valid()
      modifies this`weakEdges
      ensures Valid() && EdgeCacheExtended()
      ensures forall k :: k in edges.docs ==> k in weakEdges
      ensures r == EdgeHandles(edges.All())
    {
      r := ConstructEdges(edges.All());
    }

    /** removeEdge(e): nothing for a cleared handle; otherwise delete the
        document the snapshot names (or throw) and clear the handle's `_id`;
        the snapshot stays as it was. A handle of another edge collection
        names a document the store refuses. The vertices stay. */
    method RemoveEdge(e: Edge) returns (r: Outcome<GraphError>)
      requires Valid()
      modifies edges, e
      ensures Valid()
      ensures edges.next == old(edges.next) && vertices.docs == old(vertices.docs)
      ensures e.snapshot == old(e.snapshot)
      ensures old(e.id).None? ==> r == Pass && edges.docs == old(edges.docs) && e.id == None
      ensures old(e.id).Some? && e.graph.edges != edges ==>
        r == Fail(CrossCollection) && edges.docs == old(edges.docs) && e.id == old(e.id)
      ensures old(e.id).Some? && e.graph.edges == edges && e.key !in old(edges.docs) ==>
        r == Fail(CannotDeleteEdge) && edges.docs == old(edges.docs) && e.id == old(e.id)
      ensures old(e.id).Some? && e.graph.edges == edges && e.key in old(edges.docs) ==>
        r == Pass && edges.docs == old(edges.docs) - {e.key} && e.id == None
    {
      if e.id.None? {
        return Pass;
      }
      if e.graph.edges != edges {
        return Fail(CrossCollection);
      }
      var ok := edges.Remove(e.key);
      if !ok {
        return Fail(CannotDeleteEdge);
      }
      e.id := None;
      r := Pass;
    }

    /** The loop of removeVertex over the collected edge handles: each one is
        removed through removeEdge. */
    method RemoveCollected(collected: seq<Edge>, ghost query: seq<Key>)
      requires Valid()
      requires |collected| == |query|
      requires forall j :: 0 <= j < |query| ==> query[j] in weakEdges && collected[j] == weakEdges[query[j]]
      requires forall j :: 0 <= j < |query| ==> query[j] in edges.docs
      requires forall i, j :: 0 <= i < j < |query| ==> query[i] != query[j]
      modifies edges, collected
      ensures Valid()
      ensures edges.next == old(edges.next)
      ensures edges.docs == old(edges.docs) - set j | 0 <= j < |query| :: query[j]
      ensures forall j :: 0 <= j < |collected| ==> collected[j].id == None
      ensures forall j :: 0 <= j < |collected| ==> collected[j].snapshot == old(collected[j].snapshot)
      ensures forall k :: k in query ==> k in weakEdges && weakEdges[k].id == None
    {
      var i := 0;
      while i < |collected|
        invariant 0 <= i <= |collected|
        invariant Valid()
        invariant edges.next == old(edges.next)
        invariant edges.docs == old(edges.docs) - set j | 0 <= j < i :: query[j]
        invariant forall j :: 0 <= j < i ==> collected[j].id == None
        invariant forall j :: 0 <= j < |collected| ==> collected[j].snapshot == old(collected[j].snapshot)
      {
        assert collected[i].key == query[i];
        assert forall j :: 0 <= j < i ==> collected[j] != collected[i] by {
          forall j | 0 <= j < i ensures collected[j] != collected[i] {
            assert collected[j].key == query[j];
          }
        }
        var res := RemoveEdge(collected[i]);
        assert (set j | 0 <= j < i + 1 :: query[j]) == (set j | 0 <= j < i :: query[j]) + {query[i]};
        i := i + 1;
      }
    }

    /** The first step of removeVertex: `vertex.edges()`, with what the later
        steps need to know about the handles it returns. */
    method CollectIncident(v: Vertex) returns (collected: seq<Edge>, ghost query: seq<Key>)
      requires Valid() && v.graph == this && v.id == Some(v.key)
      modifies this`weakEdges
      ensures Valid() && EdgeCacheExtended()
      ensures |collected| == |query|
      ensures forall k :: k in query <==> k in edges.docs && Touches(edges.docs[k], v.key, Any)
      ensures forall i, j :: 0 <= i < j < |query| ==> query[i] != query[j]
      ensures forall j :: 0 <= j < |query| ==> query[j] in weakEdges && collected[j] == weakEdges[query[j]]
      ensures forall j :: 0 <= j < |collected| ==> collected[j] in old(weakEdges).Values || fresh(collected[j])
    {
      query := v.EdgeQuery(Any);
      edges.QueryExact(v.key, Any);
      collected := v.Edges();
      forall j | 0 <= j < |collected|
        ensures collected[j] in old(weakEdges).Values || fresh(collected[j])
      {
        if query[j] in old(weakEdges) {
          assert old(weakEdges)[query[j]] in old(weakEdges).Values;
        }
      }
    }

    /** The rest of removeVertex once the edges are collected: delete the
        vertex (or throw, removing nothing), clear the handle, remove every
        collected edge. */
    method DeleteWithEdges(v: Vertex, collected: seq<Edge>, ghost query: seq<Key>) returns (r: Outcome<GraphError>)
      requires Valid() && v.graph == this && v.id == Some(v.key)
      requires |collected| == |query|
      requires forall k :: k in query <==> k in edges.docs && Touches(edges.docs[k], v.key, Any)
      requires forall i, j :: 0 <= i < j < |query| ==> query[i] != query[j]
      requires forall j :: 0 <= j < |query| ==> query[j] in weakEdges && collected[j] == weakEdges[query[j]]
      modifies vertices, edges, v, collected
      ensures Valid()
      ensures edges.next == old(edges.next) && vertices.next == old(vertices.next)
      ensures v.snapshot == old(v.snapshot)
      ensures forall j :: 0 <= j < |collected| ==> collected[j].snapshot == old(collected[j].snapshot)
      ensures forall k :: k in weakEdges && k !in query ==> weakEdges[k].id == old(weakEdges[k].id)
      ensures v.key !in old(vertices.docs) ==>
        && r == Fail(CannotDeleteVertex) && v.id == old(v.id)
        && vertices.docs == old(vertices.docs) && edges.docs == old(edges.docs)
      ensures v.key in old(vertices.docs) ==>
        && r == Pass && v.id == None
        && vertices.docs == old(vertices.docs) - {v.key}
        && edges.docs == WithoutIncident(old(edges.docs), v.key)
        && (forall k :: k in old(edges.docs) && Touches(old(edges.docs)[k], v.key, Any) ==>
              k in weakEdges && weakEdges[k].id == None)
    {
      ghost var incident := set k | k in query;
      RemoveIncident(edges.docs, v.key, incident);
      // A handle cached under a key outside the query is none of the collected ones.
      forall k, j | k in weakEdges && k !in query && 0 <= j < |collected|
        ensures weakEdges[k] != collected[j]
      {
        assert collected[j].key == query[j];
      }
      var ok := vertices.Remove(v.key);
      if !ok {
        return Fail(CannotDeleteVertex);
      }
      v.id := None;
      RemoveCollected(collected, query);
      assert (set j | 0 <= j < |query| :: query[j]) == incident;
      r := Pass;
    }

    /** removeVertex(v): nothing for a cleared handle; otherwise collect the
        incident edges, then delete the vertex and those edges. */
    method RemoveVertex(v: Vertex) returns (r: Outcome<GraphError>)
      requires Valid() && v.graph == this && v.Wf()
      modifies this`weakEdges, vertices, edges, v, weakEdges.Values
      ensures Valid() && EdgeCacheExtended()
      ensures edges.next == old(edges.next) && vertices.next == old(vertices.next)
      ensures v.snapshot == old(v.snapshot)
      ensures forall k :: k in old(weakEdges) ==> weakEdges[k].snapshot == old(weakEdges[k].snapshot)
      ensures forall k :: k in old(weakEdges) && !(k in old(edges.docs) && Touches(old(edges.docs)[k], v.key, Any)) ==>
        weakEdges[k].id == old(weakEdges[k].id)
      ensures old(v.id).None? ==>
        r == Pass && v.id == None && vertices.docs == old(vertices.docs) && edges.docs == old(edges.docs)
      ensures old(v.id).Some? && v.key !in old(vertices.docs) ==>
        && r == Fail(CannotDeleteVertex) && v.id == old(v.id)
        && vertices.docs == old(vertices.docs) && edges.docs == old(edges.docs)
      ensures old(v.id).Some? && v.key in old(vertices.docs) ==>
        && r == Pass && v.id == None
        && vertices.docs == old(vertices.docs) - {v.key}
        && edges.docs == WithoutIncident(old(edges.docs), v.key)
        && (forall k :: k in old(edges.docs) && Touches(old(edges.docs)[k], v.key, Any) ==>
              k in weakEdges && weakEdges[k].id == None)
    {
      if v.id.None? {
        return Pass;
      }
      var collected;
      ghost var query;
      collected, query := CollectIncident(v);
      r := DeleteWithEdges(v, collected, query);
    }
  }
}
