/**
 * The database side of js/common/modules/graph.js: the `_graph` registry
 * together with the collections it names, the Graph constructor that resolves
 * a graph against them, and Graph.drop.
 */
module GraphDatabase {
  import opened Wrappers
  import opened JsValue
  import opened Collections
  import opened Registry
  import opened Graphs

  /** The registry with every copy of one record taken out. */
  function RemoveEntry(reg: seq<RegistryEntry>, e: RegistryEntry): (r: seq<RegistryEntry>)
    ensures forall x :: x in r <==> x in reg && x != e
    ensures |r| <= |reg|
  {
    if reg == [] then []
    else (if reg[0] == e then [] else [reg[0]]) + RemoveEntry(reg[1..], e)
  }

  /** RemoveEntry keeps the records that stay in their order, so a registry
      without duplicate names or pairs stays so. */
  lemma {:induction false} RemoveEntryWellFormed(reg: seq<RegistryEntry>, e: RegistryEntry)
    requires WellFormed(reg)
    ensures WellFormed(RemoveEntry(reg, e))
  {
    if reg != [] {
      RemoveEntryWellFormed(reg[1..], e);
      var rest := RemoveEntry(reg[1..], e);
      if reg[0] != e {
        var r := RemoveEntry(reg, e);
        assert r == [reg[0]] + rest;
        forall j | 0 < j < |r|
          ensures r[0].name != r[j].name && (r[0].vertices != r[j].vertices || r[0].edges != r[j].edges)
        {
          assert r[j] in rest;
          var k :| 1 <= k < |reg| && reg[k] == r[j];
        }
      }
    }
  }

  /** After a graph's record is removed from a registry without duplicate
      names, its name is unknown. */
  lemma DroppedNameIsUnknown(reg: seq<RegistryEntry>, e: RegistryEntry)
    requires WellFormed(reg) && e in reg
    ensures FindByName(RemoveEntry(reg, e), Str(e.name)).None?
  {
    var r := RemoveEntry(reg, e);
    forall i | 0 <= i < |r|
      ensures !Named(r[i], Str(e.name))
    {
      assert r[i] in reg && r[i] != e;
      var a :| 0 <= a < |reg| && reg[a] == r[i];
      var b :| 0 <= b < |reg| && reg[b] == e;
      assert a != b;
    }
  }

  class Database {
    var registry: seq<RegistryEntry>
    var vertexCollections: map<CollectionId, VertexCollection>
    var edgeCollections: map<CollectionId, EdgeCollection>

    ghost predicate Valid()
      reads this, vertexCollections.Values, edgeCollections.Values
    {
      && WellFormed(registry)
      && (forall c :: c in vertexCollections ==> vertexCollections[c].cid == c && vertexCollections[c].Valid())
      && (forall c :: c in edgeCollections ==> edgeCollections[c].cid == c && edgeCollections[c].Valid())
    }

    /** A database whose `_graph` collection is still empty. */
    constructor (vertexCollections: map<CollectionId, VertexCollection>,
                 edgeCollections: map<CollectionId, EdgeCollection>)
      requires forall c :: c in vertexCollections ==> vertexCollections[c].cid == c && vertexCollections[c].Valid()
      requires forall c :: c in edgeCollections ==> edgeCollections[c].cid == c && edgeCollections[c].Valid()
      ensures Valid() && registry == []
      ensures this.vertexCollections == vertexCollections && this.edgeCollections == edgeCollections
    {
      registry := [];
      this.vertexCollections := vertexCollections;
      this.edgeCollections := edgeCollections;
    }

    /** new Graph(name) in Lookup mode, new Graph(name, vertices, edges) in
        Bind mode: resolve against the registry, then build a Graph over the
        recorded collections with empty identity caches. */
    method Open(name: Value, mode: Mode) returns (r: Result<Graph, GraphError>)
      requires Valid()
      requires mode.Bind? ==> mode.vertices in vertexCollections && mode.edges in edgeCollections
      modifies this`registry
      ensures Valid()
      ensures var res := Resolve(old(registry), vertexCollections.Keys, edgeCollections.Keys, name, mode);
        && (res.Err? ==> r == Err(RegistryFailure(res.error)) && registry == old(registry))
        && (res.Ok? ==>
              && r.Ok? && fresh(r.value) && r.value.Valid()
              && registry == res.value.registry && r.value.entry == res.value.entry
              && Named(r.value.entry, name)
              && r.value.vertices == vertexCollections[r.value.entry.vertices]
              && r.value.edges == edgeCollections[r.value.entry.edges]
              && r.value.weakVertices == map[] && r.value.weakEdges == map[])
    {
      var res := Resolve(registry, vertexCollections.Keys, edgeCollections.Keys, name, mode);
      if res.Err? {
        return Err(RegistryFailure(res.error));
      }
      ResolveOk(registry, vertexCollections.Keys, edgeCollections.Keys, name, mode);
      ResolvePreservesWellFormed(registry, vertexCollections.Keys, edgeCollections.Keys, name, mode);
      registry := res.value.registry;
      var entry := res.value.entry;
      var g := new Graph(entry, vertexCollections[entry.vertices], edgeCollections[entry.edges]);
      r := Ok(g);
    }

    /** drop(): remove the graph's record and drop both of its collections;
        the name can then no longer be looked up. */
    method Drop(g: Graph)
      requires Valid()
      modifies this
      ensures Valid()
      ensures registry == RemoveEntry(old(registry), g.entry)
      ensures vertexCollections == old(vertexCollections) - {g.vertices.cid}
      ensures edgeCollections == old(edgeCollections) - {g.edges.cid}
      ensures g.entry in old(registry) ==> FindByName(registry, Str(g.entry.name)).None?
    {
      RemoveEntryWellFormed(registry, g.entry);
      if g.entry in registry {
        DroppedNameIsUnknown(registry, g.entry);
      }
      registry := RemoveEntry(registry, g.entry);
      vertexCollections := vertexCollections - {g.vertices.cid};
      edgeCollections := edgeCollections - {g.edges.cid};
    }
  }

  /** Dropping a graph and opening it again by name fails with "no graph named". */
  method DropThenOpen(db: Database, g: Graph) returns (r: Result<Graph, GraphError>)
    requires db.Valid() && g.entry in db.registry
    modifies db
    ensures r == Err(RegistryFailure(NoSuchGraph))
  {
    db.Drop(g);
    r := db.Open(Str(g.entry.name), Lookup);
  }
}
