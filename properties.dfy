/**
 * Property documents and the reserved-name filter of the graph layer
 * (js/common/modules/graph.js: shallowCopy, propertyKeys and the
 * `properties()` readers of vertices and edges).
 *
 * Names starting with `_` carry storage metadata (`_id`, `_rev`, `_from`,
 * `_to`) and names starting with `$` carry graph metadata (`$id`,
 * `$label`); neither kind is ever handed out as a user property.
 */
module Properties {
  import opened JsValue

  type Doc = map<string, Value>

  /** A reserved name starts with `_` or `$`; the empty name is not reserved. */
  predicate Reserved(k: string) {
    |k| > 0 && (k[0] == '_' || k[0] == '$')
  }

  /** The own properties of a value used as property data: those of a plain
      object, the index properties of an array, none for anything else. */
  function ObjectFields(v: Value): (m: Doc)
    ensures !v.Arr? && !v.Obj? ==> m == map[]
    ensures v.Obj? ==> m == v.fields
  {
    match v
    case Obj(fields) => fields
    case Arr(items) => IndexFields(items, 0)
    case _ => map[]
  }

  function IndexFields(items: seq<Value>, i: nat): (m: Doc)
    ensures forall k :: k in m ==> !Reserved(k)
    decreases |items| - i
  {
    if i >= |items| then map[] else IndexFields(items, i + 1)[NatString(i) := items[i]]
  }

  /** shallowCopy: every own non-reserved key of `props`, with its value. */
  function ShallowCopy(props: Doc): (r: Doc)
    ensures r.Keys <= props.Keys
    ensures forall k :: k in r ==> !Reserved(k) && r[k] == props[k]
    ensures forall k :: k in props && !Reserved(k) ==> k in r
  {
    map k | k in props && !Reserved(k) :: props[k]
  }

  /** propertyKeys: the names shallowCopy keeps (their order is not modelled). */
  function PropertyKeys(props: Doc): (ks: set<string>)
    ensures forall k :: k in ks <==> k in props && !Reserved(k)
  {
    set k | k in props && !Reserved(k)
  }

  /** Vertex.properties(): the shallow copy minus `$id`, `_id` and `_rev`. */
  function VertexProperties(snapshot: Doc): Doc {
    ShallowCopy(snapshot) - {"$id", "_id", "_rev"}
  }

  /** Edge.properties(): the shallow copy minus `$id`, `$label`, `_id`,
      `_rev`, `_from` and `_to`. */
  function EdgeProperties(snapshot: Doc): Doc {
    ShallowCopy(snapshot) - {"$id", "$label", "_id", "_rev", "_from", "_to"}
  }

  /** The deletions in `properties()` remove nothing: shallowCopy has already
      dropped every reserved name, so both readers equal the shallow copy,
      and their key sets are exactly `propertyKeys`. */
  lemma PropertiesAreShallowCopy(snapshot: Doc)
    ensures VertexProperties(snapshot) == ShallowCopy(snapshot)
    ensures EdgeProperties(snapshot) == ShallowCopy(snapshot)
    ensures ShallowCopy(snapshot).Keys == PropertyKeys(snapshot)
  {
    var c := ShallowCopy(snapshot);
    assert Reserved("$id") && Reserved("$label") && Reserved("_id");
    assert Reserved("_rev") && Reserved("_from") && Reserved("_to");
    assert c - {"$id", "_id", "_rev"} == c;
    assert c - {"$id", "$label", "_id", "_rev", "_from", "_to"} == c;
  }

  /** Copying twice changes nothing, and reserved entries never influence
      the copy. */
  lemma ShallowCopyIgnoresReserved(props: Doc, meta: Doc)
    requires forall k :: k in meta ==> Reserved(k)
    ensures ShallowCopy(ShallowCopy(props)) == ShallowCopy(props)
    ensures ShallowCopy(props + meta) == ShallowCopy(props)
  {
  }
}
