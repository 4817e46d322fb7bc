/**
 * The `_graph` registry and the resolve-or-create step of the Graph
 * constructor (js/common/modules/graph.js, function Graph). A registry record
 * binds a graph name to one vertex collection and one edge collection; the
 * registry is kept in save order, and `firstExample` returns the first match.
 */
module Registry {
  import opened Wrappers
  import opened JsValue
  import opened Collections

  datatype RegistryEntry = RegistryEntry(name: string, vertices: CollectionId, edges: CollectionId)

  /** Graph(name) looks a binding up; Graph(name, vertices, edges) binds. */
  datatype Mode = Lookup | Bind(vertices: CollectionId, edges: CollectionId)

  datatype RegistryError =
    | NoSuchGraph                        // "no graph named '<name>' found"
    | VertexCollectionVanished           // "vertex collection '…' has vanished"
    | EdgeCollectionVanished             // "edge collection '…' has vanished"
    | NameNotString                      // "<name> must be a string"
    | DifferentName                      // "found graph but has different <name>"
    | DifferentVertices                  // "found graph but has different <vertices>"
    | DifferentEdges                     // "found graph but has different <edges>"

  datatype Resolution = Resolution(registry: seq<RegistryEntry>, entry: RegistryEntry)

  predicate Named(e: RegistryEntry, name: Value) {
    Str(e.name) == name
  }

  /** firstExample('name', name) */
  function FindByName(reg: seq<RegistryEntry>, name: Value): (r: Option<nat>)
    ensures r.Some? ==> r.value < |reg| && Named(reg[r.value], name)
    ensures r.Some? ==> forall i :: 0 <= i < r.value ==> !Named(reg[i], name)
    ensures r.None? ==> forall i :: 0 <= i < |reg| ==> !Named(reg[i], name)
  {
    if |reg| == 0 then None
    else if Named(reg[0], name) then Some(0)
    else match FindByName(reg[1..], name)
      case None => None
      case Some(i) => Some(i + 1)
  }

  /** firstExample('vertices', v, 'edges', e) */
  function FindByPair(reg: seq<RegistryEntry>, v: CollectionId, e: CollectionId): (r: Option<nat>)
    ensures r.Some? ==> r.value < |reg| && reg[r.value].vertices == v && reg[r.value].edges == e
    ensures r.Some? ==> forall i :: 0 <= i < r.value ==> reg[i].vertices != v || reg[i].edges != e
    ensures r.None? ==> forall i :: 0 <= i < |reg| ==> reg[i].vertices != v || reg[i].edges != e
  {
    if |reg| == 0 then None
    else if reg[0].vertices == v && reg[0].edges == e then Some(0)
    else match FindByPair(reg[1..], v, e)
      case None => None
      case Some(i) => Some(i + 1)
  }

  /**
   * The registry part of the Graph constructor. In lookup mode the name must
   * be registered and both recorded collections must still exist (`liveV`,
   * `liveE` are the ids of the existing collections). In bind mode the name
   * must be a non-empty string; a new name is saved unless its collection
   * pair is already registered, and a known name must be recorded with
   * exactly the given pair.
   */
  function Resolve(reg: seq<RegistryEntry>, liveV: set<CollectionId>, liveE: set<CollectionId>,
                   name: Value, mode: Mode): (r: Result<Resolution, RegistryError>)
    ensures r.Ok? ==> r.value.entry in r.value.registry && Named(r.value.entry, name)
    ensures r.Ok? ==> reg <= r.value.registry && |r.value.registry| <= |reg| + 1
    ensures mode.Lookup? ==> (r == Err(NoSuchGraph) <==> FindByName(reg, name).None?)
    ensures mode.Bind? && (!name.Str? || name.s == "") ==> r == Err(NameNotString)
    ensures mode.Bind? && name.Str? && name.s != "" && FindByName(reg, name).None? ==>
      (r == Err(DifferentName) <==> exists i :: 0 <= i < |reg| && reg[i].vertices == mode.vertices && reg[i].edges == mode.edges)
    ensures (mode.Bind? && name.Str? && name.s != "" && FindByName(reg, name).None?
             && FindByPair(reg, mode.vertices, mode.edges).None?) ==>
      r == Ok(Resolution(reg + [RegistryEntry(name.s, mode.vertices, mode.edges)], RegistryEntry(name.s, mode.vertices, mode.edges)))
    ensures mode.Bind? && name.Str? && name.s != "" && FindByName(reg, name).Some? ==>
      var i := FindByName(reg, name).value;
      (r.Ok? <==> reg[i].vertices == mode.vertices && reg[i].edges == mode.edges)
      && (r.Ok? ==> r == Ok(Resolution(reg, reg[i])))
    ensures mode.Lookup? && FindByName(reg, name).Some? ==>
      var i := FindByName(reg, name).value;
      (r.Ok? <==> reg[i].vertices in liveV && reg[i].edges in liveE)
      && (r.Ok? ==> r == Ok(Resolution(reg, reg[i])))
      && (reg[i].vertices !in liveV ==> r == Err(VertexCollectionVanished))
      && (reg[i].vertices in liveV && reg[i].edges !in liveE ==> r == Err(EdgeCollectionVanished))
  {
    match mode
    case Lookup =>
      (match FindByName(reg, name)
       case None => Err(NoSuchGraph)
       case Some(i) =>
         if reg[i].vertices !in liveV then Err(VertexCollectionVanished)
         else if reg[i].edges !in liveE then Err(EdgeCollectionVanished)
         else Ok(Resolution(reg, reg[i])))
    case Bind(v, e) =>
      if !name.Str? || name.s == "" then Err(NameNotString)
      else
        match FindByName(reg, name)
        case None =>
          if FindByPair(reg, v, e).Some? then Err(DifferentName)
          else
            var entry := RegistryEntry(name.s, v, e);
            Ok(Resolution(reg + [entry], entry))
        case Some(i) =>
          if reg[i].vertices != v then Err(DifferentVertices)
          else if reg[i].edges != e then Err(DifferentEdges)
          else Ok(Resolution(reg, reg[i]))
  }

  /** No two records share a name, and no two share a collection pair. */
  ghost predicate WellFormed(reg: seq<RegistryEntry>) {
    forall i, j :: 0 <= i < j < |reg| ==>
      reg[i].name != reg[j].name && (reg[i].vertices != reg[j].vertices || reg[i].edges != reg[j].edges)
  }

  /** What a successful resolution yields, mode by mode: lookup never writes
      the registry; binding yields a record with the requested name and pair,
      and writes only by appending that record for a name not yet registered. */
  lemma ResolveOk(reg: seq<RegistryEntry>, liveV: set<CollectionId>, liveE: set<CollectionId>,
                  name: Value, mode: Mode)
    requires Resolve(reg, liveV, liveE, name, mode).Ok?
    ensures var res := Resolve(reg, liveV, liveE, name, mode).value;
      && Named(res.entry, name)
      && (mode.Lookup? ==> res.registry == reg && res.entry.vertices in liveV && res.entry.edges in liveE)
      && (mode.Bind? ==> res.entry.vertices == mode.vertices && res.entry.edges == mode.edges && name.s != "")
      && (mode.Bind? && FindByName(reg, name).Some? ==> res.registry == reg && res.entry == reg[FindByName(reg, name).value])
      && (mode.Bind? && FindByName(reg, name).None? ==> res.registry == reg + [res.entry])
  {
  }

  /** Resolution keeps names and collection pairs unique. */
  lemma {:induction false} ResolvePreservesWellFormed(reg: seq<RegistryEntry>, liveV: set<CollectionId>,
                                                      liveE: set<CollectionId>, name: Value, mode: Mode)
    requires WellFormed(reg)
    requires Resolve(reg, liveV, liveE, name, mode).Ok?
    ensures WellFormed(Resolve(reg, liveV, liveE, name, mode).value.registry)
  {
    var res := Resolve(reg, liveV, liveE, name, mode).value;
    if mode.Bind? && FindByName(reg, name).None? {
      var r := res.registry;
      assert r == reg + [res.entry];
      forall i, j | 0 <= i < j < |r|
        ensures r[i].name != r[j].name && (r[i].vertices != r[j].vertices || r[i].edges != r[j].edges)
      {
        if j == |reg| {
          assert !Named(reg[i], name);
          assert FindByPair(reg, mode.vertices, mode.edges).None?;
        }
      }
    }
  }

  /** Appending a record with a fresh name makes it the first match for that name. */
  lemma {:induction false} FindByNameAppend(reg: seq<RegistryEntry>, entry: RegistryEntry, name: Value)
    requires FindByName(reg, name).None? && Named(entry, name)
    ensures FindByName(reg + [entry], name) == Some(|reg|)
    decreases |reg|
  {
    if |reg| > 0 {
      assert (reg + [entry])[1..] == reg[1..] + [entry];
      FindByNameAppend(reg[1..], entry, name);
    }
  }

  /** Once a bind succeeds, looking the name up yields the bound record
      (while both collections exist). */
  lemma BindThenLookup(reg: seq<RegistryEntry>, liveV: set<CollectionId>, liveE: set<CollectionId>,
                       name: Value, v: CollectionId, e: CollectionId)
    requires Resolve(reg, liveV, liveE, name, Bind(v, e)).Ok?
    requires v in liveV && e in liveE
    ensures var res := Resolve(reg, liveV, liveE, name, Bind(v, e)).value;
      Resolve(res.registry, liveV, liveE, name, Lookup) == Ok(res)
  {
    if FindByName(reg, name).None? {
      FindByNameAppend(reg, RegistryEntry(name.s, v, e), name);
    }
  }

  /** A name, once bound, binds only to the same pair again: a second
      successful bind of the name has the first bind's collections. */
  lemma NameKeepsItsPair(reg: seq<RegistryEntry>, liveV: set<CollectionId>, liveE: set<CollectionId>,
                         name: Value, v1: CollectionId, e1: CollectionId, v2: CollectionId, e2: CollectionId)
    requires Resolve(reg, liveV, liveE, name, Bind(v1, e1)).Ok?
    requires Resolve(Resolve(reg, liveV, liveE, name, Bind(v1, e1)).value.registry, liveV, liveE, name, Bind(v2, e2)).Ok?
    ensures v1 == v2 && e1 == e2
  {
    if FindByName(reg, name).None? {
      FindByNameAppend(reg, RegistryEntry(name.s, v1, e1), name);
    }
  }

  /** A collection pair, once bound, belongs to one name: a second successful
      bind of the same pair uses the first bind's name. */
  lemma PairKeepsItsName(reg: seq<RegistryEntry>, liveV: set<CollectionId>, liveE: set<CollectionId>,
                         name1: Value, name2: Value, v: CollectionId, e: CollectionId)
    requires WellFormed(reg)
    requires Resolve(reg, liveV, liveE, name1, Bind(v, e)).Ok?
    requires Resolve(Resolve(reg, liveV, liveE, name1, Bind(v, e)).value.registry, liveV, liveE, name2, Bind(v, e)).Ok?
    ensures name1 == name2
  {
    var r1 := Resolve(reg, liveV, liveE, name1, Bind(v, e)).value;
    ResolvePreservesWellFormed(reg, liveV, liveE, name1, Bind(v, e));
    var reg1 := r1.registry;
    var i :| 0 <= i < |reg1| && reg1[i] == r1.entry;
    assert FindByPair(reg1, v, e).Some?;
    var j := FindByName(reg1, name2).value;
    assert reg1[j].vertices == v && reg1[j].edges == e;
    assert reg1[i].name == reg1[j].name;
  }
}
