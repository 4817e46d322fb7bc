# ArangoDB graph layer and Foxx service configuration, modelled in Dafny

This project models two parts of ArangoDB's JavaScript layer.

**The graph module** (`js/common/modules/graph.js`). A `Graph` ties a name,
recorded in the `_graph` registry, to one vertex collection and one edge
collection. `Vertex` and `Edge` are handles on documents of those
collections. Each graph keeps identity caches (`_weakVertices`,
`_weakEdges`), so one document yields one handle. Property documents hide
every name that starts with `_` or `$`. User properties are stored next to
the graph's own `$id` and `$label`.

**The Foxx service object** (`js/server/modules/@arangodb/foxx/service.js`).
A service carries manifest definitions for configuration options and
dependencies, plus the options stored for it.
- `applyConfiguration` and `applyDependencies` check the supplied values
  name by name. They update the stored options and the parsed
  configuration, and collect warnings.
- `getConfiguration`, `getDependencies` and `needsConfiguration` read the
  result back.
- `isSystem`, `collectionPrefix` and `executeScript` derive values from
  the mount path and the manifest.

Files:
- `wrappers.dfy`: `Option`, `Result`, `Outcome`.
- `js_value.dfy`: JavaScript values, truthiness, `||`, string conversion of
  object keys.
- `properties.dfy`: `shallowCopy`, `propertyKeys` and the `properties()`
  readers.
- `collections.dfy`: vertex and edge collections as classes over maps. They
  are keyed by a counter, and their natural order is ascending key. They
  offer save, document, replace, remove, `firstExample` and the three edge
  index lookups.
- `registry.dfy`: the `_graph` registry and the resolve-or-bind step of the
  `Graph` constructor.
- `graph.dfy`: the `Graph`, `Vertex` and `Edge` classes.
- `database.dfy`: a database of collections and registry, with `Graph`
  construction and `Graph.drop`.
- `foxx_config.dfy`: per-name effects of the two apply operations, the
  readers, and the mount-path and script rules.
- `foxx_service.dfy`: the `FoxxService` class and its loops.

The type validators (`parameterTypes[def.type]`, Joi or plain functions) are
code this model cannot see. They are a function value `Validator` passed to
the service. It returns the parsed value or the failure's message.

## Model

| member | source | states |
|---|---|---|
| Properties.ShallowCopy | js/common/modules/graph.js:56-69 | the copy holds exactly the own non-reserved keys of the input, each with its value |
| Properties.PropertyKeys | js/common/modules/graph.js:75-88 | a name is listed iff it is an own, non-reserved key |
| Properties.PropertiesAreShallowCopy | js/common/modules/graph.js:674-683 | the `_id`/`$id`/`_rev` (and, for edges, `$label`/`_from`/`_to`) deletions in `properties()` remove nothing; both readers equal the shallow copy, whose keys are `propertyKeys` |
| Properties.ShallowCopyIgnoresReserved | js/common/modules/graph.js:56-69 | copying is idempotent, and adding reserved entries to the input never changes the copy |
| Registry.FindByName | js/common/modules/graph.js:799 | `firstExample('name', …)` returns the first record with that name, and nothing exactly when no record has it |
| Registry.FindByPair | js/common/modules/graph.js:866 | the returned record is the first with the requested collection pair; none means no record has that pair |
| Registry.Resolve | js/common/modules/graph.js:797-890 | a success yields a record of the resulting registry with the requested name, and the registry grows by at most that record; a lookup fails with "no graph named" exactly when the name is unregistered; a bind with a non-string or empty name fails; a bind of a new name fails with "different <name>" exactly when its collection pair is registered, and otherwise appends the new record and yields it; a bind of a registered name succeeds exactly with its recorded pair, yielding that record with the registry unchanged; a lookup of a registered name succeeds exactly when both recorded collections exist, and otherwise reports the vanished vertex or edge collection |
| Registry.ResolveOk | js/common/modules/graph.js:798-890 | a lookup never writes the registry and yields a record whose collections both exist; a bind yields a record with the requested name and pair; for a registered name it is that record and the registry is unchanged, for an unregistered one it is appended |
| Registry.ResolvePreservesWellFormed | js/common/modules/graph.js:856-890 | resolution keeps record names unique and collection pairs unique |
| Registry.BindThenLookup | js/common/modules/graph.js:798-890 | after a successful bind, a lookup of the same name returns the bound record |
| Registry.NameKeepsItsPair | js/common/modules/graph.js:881-889 | a second bind of a name succeeds only with the collections it was first bound to |
| Registry.PairKeepsItsName | js/common/modules/graph.js:863-879 | a second bind of a collection pair succeeds only under the name it was first bound to |
| GraphDatabase.RemoveEntry | js/common/modules/graph.js:937 | the registry afterwards holds exactly the other records |
| GraphDatabase.RemoveEntryWellFormed | js/common/modules/graph.js:937 | removing a record keeps names and pairs unique |
| GraphDatabase.DroppedNameIsUnknown | js/common/modules/graph.js:932-941 | after the record is removed, its name is found nowhere in the registry |
| GraphDatabase.Database.Open | js/common/modules/graph.js:784-909 | every registry error of the constructor is reported as such; on success the registry is the resolved one and the graph has the record's collections and empty caches |
| GraphDatabase.Database.Drop | js/common/modules/graph.js:932-941 | the record and both collections are gone, and the name no longer resolves |
| GraphDatabase.DropThenOpen | js/common/modules/graph.js:799-803 | opening a dropped graph by name fails with "no graph named" |
| Graphs.VertexBody | js/common/modules/graph.js:1028-1043 | the stored body has `$id` set to `id`, or null when `id` is falsy, the non-reserved data properties and no other reserved name; non-object or null data counts as `{}` |
| Graphs.EdgeBody | js/common/modules/graph.js:977-1002 | an object-typed label is taken as the data and the stored label becomes null; otherwise a falsy label is stored as null; `$id` as for vertices |
| Graphs.VertexReplacement | js/common/modules/graph.js:697-709 | the new document has the new value, keeps every other user property and `$id`, and no other reserved name |
| Graphs.EdgeReplacement | js/common/modules/graph.js:251-264 | as for vertices, and `$label` is kept as well |
| Graphs.SetPropertyKeys | js/common/modules/graph.js:697-709 | setting a non-reserved name makes the property keys the old ones plus that name |
| Graphs.WithLabelsSpec | js/common/modules/graph.js:503-529 | label filtering keeps exactly the edges whose label key is allowed, never lengthens the list, and keeps it whole when all are allowed |
| Graphs.WithLabelsConcat | js/common/modules/graph.js:519-525 | filtering keeps the input order: filtering two concatenated parts gives the first part's kept edges followed by the second's |
| Graphs.NullLabelMatchesStringNull | js/common/modules/graph.js:503-529 | labels compare as object keys, so the argument `"null"` selects an edge with a null label |
| Graphs.SelectLabelled | js/common/modules/graph.js:519-525 | the filtering loop returns the label-filtered list |
| Graphs.ConstructEdgeAsWritten | js/common/modules/graph.js:1262-1270 | a cached handle is returned as is |
| Graphs.EdgeMissReturnsUndefined | js/common/modules/graph.js:1262-1270 | on a cache miss the code as written builds no handle and returns undefined, while the vertex test (line 1251) recognises the same miss |
| Graphs.RemoveVertexStrandsEdges | js/common/modules/graph.js:1181-1201 | with the as-written constructEdge, removing a vertex with an incident edge deletes the vertex and clears its `_id`, then throws on the first collected (undefined) handle, so every incident edge stays, unlike the corrected removal |
| Graphs.Vertex.constructor | js/common/modules/graph.js:351-367 | a new handle's `_id` is the key it was built for |
| Graphs.Vertex.Properties | js/common/modules/graph.js:674-683 | the result's names are exactly `getPropertyKeys()`, with the snapshot's values |
| Graphs.Vertex.SetProperty | js/common/modules/graph.js:697-709 | a live vertex's document and snapshot become the replacement and the value is returned; a missing document is refused and changes nothing |
| Graphs.Vertex.Edges | js/common/modules/graph.js:456-472 | the cached handles of every edge touching the vertex, in store order; the cache only grows; a handle created by the call holds the document stored under its key |
| Graphs.Vertex.Inbound | js/common/modules/graph.js:614-630 | the cached handles of the edges whose `_to` is the vertex; a handle created by the call holds the document stored under its key |
| Graphs.Vertex.Outbound | js/common/modules/graph.js:644-660 | the cached handles of the edges whose `_from` is the vertex; a handle created by the call holds the document stored under its key |
| Graphs.Vertex.GetInEdges | js/common/modules/graph.js:503-529 | without arguments all inbound edges, otherwise those whose stored label is among the arguments, in order; a handle created by the call holds the document stored under its key |
| Graphs.Vertex.GetOutEdges | js/common/modules/graph.js:543-568 | the same over the outbound edges |
| Graphs.Vertex.AddInEdge | js/common/modules/graph.js:409-411 | an edge from `out` (a vertex of the same collection) to this vertex is stored under a new key and a fresh handle holding it is cached and returned, or the call is refused with nothing changed when an endpoint was removed |
| Graphs.Vertex.AddOutEdge | js/common/modules/graph.js:440-442 | an edge from this vertex to `in` (a vertex of the same collection) is stored under a new key and a fresh handle holding it is cached and returned, or the call is refused with nothing changed when an endpoint was removed |
| Graphs.Edge.constructor | js/common/modules/graph.js:112-128 | a new handle's `_id` is the key it was built for |
| Graphs.Edge.Properties | js/common/modules/graph.js:278-290 | the result's names are exactly `getPropertyKeys()`, with the snapshot's values |
| Graphs.Edge.SetProperty | js/common/modules/graph.js:251-264 | the document is replaced with the same endpoints and re-read; a missing document is refused and changes nothing |
| Graphs.Edge.GetInVertex | js/common/modules/graph.js:171-173 | the cached handle of the `_to` vertex, a new cached handle holding its stored document, or the deleted-entity error |
| Graphs.Edge.GetOutVertex | js/common/modules/graph.js:203-205 | the same for the `_from` vertex |
| Graphs.Graph.constructor | js/common/modules/graph.js:900-908 | the graph keeps its record and collections and starts with empty caches |
| Graphs.Graph.ConstructVertex | js/common/modules/graph.js:1248-1256 | a cached handle is returned unchanged; otherwise a fresh handle on the stored document is cached under the key; a missing document throws; the cache only grows and stays consistent |
| Graphs.Graph.ConstructEdge | js/common/modules/graph.js:1262-1270 | constructEdge with the corrected miss test: the same three cases for edges |
| Graphs.Graph.ConstructEdges | js/common/modules/graph.js:456-472 | one cached handle per queried key, in query order; a handle created by the call holds the document stored under its key |
| Graphs.Graph.AddVertex | js/common/modules/graph.js:1028-1043 | the body is saved under a new key, and a fresh cached handle on it is returned |
| Graphs.Graph.AddEdge | js/common/modules/graph.js:977-1002 | for endpoints of this graph's vertex collection, the body is saved with the endpoints' ids under a new key, and a fresh cached handle is returned; a removed endpoint refuses the save and changes nothing |
| Graphs.Graph.GetVertex | js/common/modules/graph.js:1057-1071 | the cached handle of the first vertex whose `$id` matches; null iff no vertex matches; a handle created by the call holds the document stored under its key |
| Graphs.Graph.GetVertices | js/common/modules/graph.js:1086-1119 | the cached handles of all vertices, in store order; a handle created by the call holds the document stored under its key |
| Graphs.Graph.GetEdges | js/common/modules/graph.js:1134-1167 | the cached handles of all edges, in store order; a handle created by the call holds the document stored under its key |
| Graphs.Graph.RemoveEdge | js/common/modules/graph.js:1215-1229 | a cleared handle is a no-op; a handle of another edge collection is refused; otherwise the document is deleted and the handle's `_id` cleared, or "cannot delete edge" with nothing changed; the handle's snapshot and the vertices are untouched |
| Graphs.Graph.RemoveCollected | js/common/modules/graph.js:1198-1200 | removing the collected handles deletes exactly their edges and clears each handle's `_id`, keeping its snapshot |
| Graphs.Graph.CollectIncident | js/common/modules/graph.js:1189 | the collected handles are exactly the edges touching the vertex, each once; a handle created by the call holds the document stored under its key |
| Graphs.Graph.DeleteWithEdges | js/common/modules/graph.js:1190-1200 | the vertex and exactly its incident edges are deleted and their handles' `_id`s cleared, snapshots kept, or "cannot delete vertex" with nothing deleted |
| Graphs.Graph.RemoveVertex | js/common/modules/graph.js:1181-1201 | a cleared handle is a no-op; otherwise the vertex is gone, the edges left are exactly those not touching it, and every incident handle's `_id` is cleared while every other cached edge handle keeps its `_id`; the vertex handle and every cached edge handle keep their snapshots, so they still answer `getProperty` |
| Collections.WithoutIncident | js/common/modules/graph.js:1189-1200 | the edges kept are exactly those not touching the vertex, unchanged |
| Collections.EdgeCollection.QueryExact | js/common/modules/graph.js:463 | an edge-index lookup returns exactly the touching edges, each once |
| FoxxConfig.Visited | js/server/modules/@arangodb/foxx/service.js:127-131 | the supplied names are always visited; with `replace` every defined name is visited too; nothing else is |
| FoxxConfig.ConfigEffect | js/server/modules/@arangodb/foxx/service.js:134-175 | an unknown name only warns "is not allowed"; any name that writes is defined and writes both maps |
| FoxxConfig.ConfigEffectSpec | js/server/modules/@arangodb/foxx/service.js:134-175 | a blank value clears the option and restores the default, warning iff not explicitly optional; a non-blank value is stored raw iff validation records no warning, with its parsed form; a failed validation changes nothing |
| FoxxConfig.DepValues | js/server/modules/@arangodb/foxx/service.js:202-206 | an array is its own list; a blank value is `[]`; anything else is a one-item list |
| FoxxConfig.StringsOfMembers | js/server/modules/@arangodb/foxx/service.js:215-222 | the kept items are exactly the string items; all-string lists are kept whole |
| FoxxConfig.LastNonStringSpec | js/server/modules/@arangodb/foxx/service.js:215-222 | the warning index is the last non-string item, and there is none iff all items are strings |
| FoxxConfig.SingleDepEffect | js/server/modules/@arangodb/foxx/service.js:223-238 | the option is cleared first; only a non-empty string is stored; blank warns "is required" iff required and nothing otherwise; other non-strings warn "must be a string" |
| FoxxConfig.DepEffect | js/server/modules/@arangodb/foxx/service.js:192-238 | unknown names only warn; known names always write the option and never the configuration |
| FoxxConfig.MultipleDependencyStored | js/server/modules/@arangodb/foxx/service.js:200-222 | corrected multiple branch: the stored list holds exactly the string items; no warning iff all items are strings and the list is non-empty or optional |
| FoxxConfig.DepEffectAsWritten | js/server/modules/@arangodb/foxx/service.js:200-222 | outside the multiple branch the code behaves like the corrected one |
| FoxxConfig.MultipleDependencyAsWritten | js/server/modules/@arangodb/foxx/service.js:200-222 | as written, a multiple dependency throws iff any item is a string, and otherwise stores the whole `deps` object |
| FoxxConfig.MultipleDependencyExample | js/server/modules/@arangodb/foxx/service.js:200-222 | `{ "db": "/storage" }` throws as written, while the corrected branch stores `["/storage"]` without a warning |
| FoxxConfig.ConfigEffects | js/server/modules/@arangodb/foxx/service.js:134-176 | one effect per visited name: an unknown name only warns "is not allowed", a known blank name clears the option and restores the default |
| FoxxConfig.DepEffects | js/server/modules/@arangodb/foxx/service.js:192-239 | one effect per visited name: an unknown name only warns "is not allowed", every known name writes its option and never the parsed configuration |
| FoxxConfig.WriteAllSpec | js/server/modules/@arangodb/foxx/service.js:137-176 | each writing effect decides its entry, every other entry keeps its value, and a name has a warning iff its effect has one |
| FoxxConfig.ReplayAll | js/server/modules/@arangodb/foxx/service.js:137-176 | visiting each name once, in any order, has the effect of the whole effect map: the order of `Object.keys` does not matter |
| FoxxConfig.CreateConfiguration | js/server/modules/@arangodb/foxx/service.js:571-580 | exactly the definitions with a default other than undefined, with that default |
| FoxxConfig.GetConfiguration | js/server/modules/@arangodb/foxx/service.js:395-408 | every defined name, with its stored option, or its default when the option is undefined |
| FoxxConfig.GetDependencies | js/server/modules/@arangodb/foxx/service.js:410-423 | every defined name with its stored option |
| FoxxConfig.CreateMatchesGet | js/server/modules/@arangodb/foxx/service.js:571-580 | with no stored options, `getConfiguration` agrees with `createConfiguration` on every defined name |
| FoxxConfig.ApplyThenGetConfiguration | js/server/modules/@arangodb/foxx/service.js:123-179 | afterwards `getConfiguration` reads the default for a cleared name, the raw value for an accepted one, and the earlier reading for a rejected one |
| FoxxConfig.UnknownNamesNotStored | js/server/modules/@arangodb/foxx/service.js:134-138 | undefined names never enter either map and always warn "is not allowed"; a call without warnings visited only defined names |
| FoxxConfig.ReplaceWithNothingResets | js/server/modules/@arangodb/foxx/service.js:123-149 | replacing with `{}` resets every option to its default and warns exactly for the options not explicitly optional |
| FoxxConfig.NeedsConfiguration | js/server/modules/@arangodb/foxx/service.js:425-432 | true exactly when a required option has neither a stored value nor a default, or a required dependency is missing (an empty or absent list for a multiple one) |
| FoxxConfig.ClearedRequiredNeedsConfiguration | js/server/modules/@arangodb/foxx/service.js:425-432 | clearing a required option without default leaves the service needing configuration |
| FoxxConfig.ApplyThenGetDependencies | js/server/modules/@arangodb/foxx/service.js:223-238 | a single dependency reads back as the given non-empty string or undefined; a required one left without a string needs configuration |
| FoxxConfig.CollectionPrefix | js/server/modules/@arangodb/foxx/service.js:538-540 | the mount without its first character, each of `-.:/` replaced by `_`, plus a final `_`; no separator survives |
| FoxxConfig.IsSystem | js/server/modules/@arangodb/foxx/service.js:527-529 | a mount of at most one character is not a system mount; a system mount's collection prefix starts with `_`, and unless the second character is a separator that is exactly when it does |
| FoxxConfig.CollectionPrefixProperties | js/server/modules/@arangodb/foxx/service.js:527-540 | a system mount's prefix starts with `_`; mounts differing only in separators share a prefix |
| FoxxConfig.NormalizeArgv | js/server/modules/@arangodb/foxx/service.js:485 | falsy argv is `[]`, an array is kept, anything else is wrapped |
| FoxxConfig.NormalizeArgvIdempotent | js/server/modules/@arangodb/foxx/service.js:485 | normalising a normalised argv changes nothing, and a non-array gives at most one item |
| FoxxConfig.ExecuteScript | js/server/modules/@arangodb/foxx/service.js:468-488 | a missing `setup`/`teardown` script runs nothing; any other missing script is an unknown-script error; an existing one runs with the normalised argv |
| FoxxService.Service.constructor | js/server/modules/@arangodb/foxx/service.js:65-100 | missing manifest and option maps become `{}`; the configuration starts from the defaults and the stored options are applied without replacing |
| FoxxService.Service.ApplyConfiguration | js/server/modules/@arangodb/foxx/service.js:123-179 | both maps become the old ones with every visited name's effect written; the result is the warnings map, or nothing iff there are none |
| FoxxService.Service.VisitConfigNames | js/server/modules/@arangodb/foxx/service.js:137-176 | the loop visits every name once and leaves the maps as replaying the names in that order does |
| FoxxService.Service.VisitConfigName | js/server/modules/@arangodb/foxx/service.js:139-175 | one iteration writes exactly the name's effect and returns its warning |
| FoxxService.Service.ApplyDependencies | js/server/modules/@arangodb/foxx/service.js:181-242 | the stored dependencies become the old ones with every visited name's corrected effect written; warnings as for configuration |
| FoxxService.Service.VisitDependencyNames | js/server/modules/@arangodb/foxx/service.js:192-239 | the loop visits every name once and leaves the options as replaying the names in that order does |
| FoxxService.Service.VisitDependencyName | js/server/modules/@arangodb/foxx/service.js:193-238 | one iteration writes exactly the name's corrected effect and returns its warning |
| FoxxService.Service.CurrentConfiguration | js/server/modules/@arangodb/foxx/service.js:395-408 | `getConfiguration(true)` has exactly the defined names |
| FoxxService.Service.NeedsSetup | js/server/modules/@arangodb/foxx/service.js:425-432 | this service needs configuration exactly when a required option has neither a stored value nor a default, or a required dependency is missing |
| FoxxService.CollectStrings | js/server/modules/@arangodb/foxx/service.js:215-222 | the item loop keeps the string items in order and leaves the warning of the last non-string index |

## Left out

- Storage-level behaviour of collections is not modelled: durability (`waitForSync`), revisions, `_rev` checks, and the system attributes the store adds to documents. Documents hold only what the graph layer writes.
- Creating the `_graph` collection when it is missing (graph.js:791-795) is not modelled; the registry is always present.
- Bind mode with collection names (graph.js:822-853) is not modelled: it looks collections up or creates them by name. Bind mode takes collection ids that exist. A call with only one of `vertices`/`edges` undefined is not modelled.
- The `instanceof` checks on the collections (graph.js:892-898) are not modelled: the collections are typed.
- The registry's extra fields `verticesName` and `edgesName` are not modelled.
- `_PRINT` of graphs, vertices and edges is not modelled: it is output formatting.
- `getVertices` and `getEdges` return lazy iterators in the source. The model returns the full list the iterator walks through.
- `WeakDictionary` eviction is not modelled: cache entries are never dropped.
- Object key order is not modelled. Property keys are sets, and the apply loops visit names in some order. `ReplayAll` shows the order does not affect the maps or the warnings; only the key order of the warnings object is lost.
- Numbers are unbounded integers; floating point is not modelled.
- GraphDatabase.Database.Open: the `Bind` case requires that both collection ids exist in the database, because the source would create or fail on them by name (left out above).
- GraphDatabase.Database.Drop: removing an already removed record is a no-op here. The store's behaviour for a stale `_rev` is not modelled.
- Graphs.Graph.RemoveVertex: requires the handle to belong to this graph. For a handle of another graph the source collects the edges through that handle's own graph (`vertex.edges()`, graph.js:1189) and then removes the vertex and those edges from this graph's collections (graph.js:1190, 1199); that mix of two graphs is not modelled.
- Graphs.Graph.AddEdge: requires both endpoints to be vertices of this graph's vertex collection, and so do Graphs.Vertex.AddInEdge and Graphs.Vertex.AddOutEdge. The store would save an edge whose `_from` or `_to` names another collection, but a key in this model names a document of one collection only.
- Graphs.Graph.RemoveEdge: a handle of another edge collection fails with `CrossCollection`, which stands for the store refusing a document handle of another collection; the store's own answer is not part of this model.
- Graphs.Vertex.EdgeQuery: for a removed vertex (cleared `_id`) the store is assumed to answer `edges(undefined)`, `inEdges(undefined)` and `outEdges(undefined)` with no edges, so `edges`, `inbound`, `outbound`, `getInEdges` and `getOutEdges` of a removed vertex return empty lists. What the store really does there is not part of this model; `setProperty` and `addEdge` on a removed vertex are modelled as refusals instead.
- Members built on the corrected constructEdge (first Findings row). As written, constructEdge never caches or returns an edge handle, so each of the following would return undefined in place of every edge handle. The model follows the corrected lookup instead:
- Graphs.Vertex.Edges: follows the corrected constructEdge; as written the list holds undefined for each edge.
- Graphs.Vertex.Inbound: follows the corrected constructEdge; as written the list holds undefined for each edge.
- Graphs.Vertex.Outbound: follows the corrected constructEdge; as written the list holds undefined for each edge.
- Graphs.Vertex.GetInEdges: follows the corrected constructEdge; as written, without arguments the list holds undefined for each edge, and with label arguments the label test reads the label of undefined and throws a TypeError as soon as there is an inbound edge.
- Graphs.Vertex.GetOutEdges: follows the corrected constructEdge; as written it throws like getInEdges.
- Graphs.Vertex.AddInEdge: follows the corrected constructEdge; as written the edge is saved and undefined is returned.
- Graphs.Vertex.AddOutEdge: follows the corrected constructEdge; as written the edge is saved and undefined is returned.
- Graphs.Graph.ConstructEdges: follows the corrected constructEdge; as written every entry is undefined.
- Graphs.Graph.AddEdge: follows the corrected constructEdge; as written the edge is saved and undefined is returned.
- Graphs.Graph.GetEdges: follows the corrected constructEdge; as written the iterator yields undefined for each edge.
- Graphs.Graph.CollectIncident: follows the corrected constructEdge; as written the collected handles are undefined.
- Graphs.Graph.RemoveVertex: follows the corrected constructEdge; as written it strands the incident edges (second Findings row, Graphs.RemoveVertexStrandsEdges).
- Objects have no prototype in this model: reading a name a JavaScript object inherits from Object.prototype (`constructor`, `toString`, `hasOwnProperty`, …) or the special name `__proto__` gives undefined here, while the source reads the inherited member. Manifest, option, script and label names that collide with those are not modelled:
- FoxxConfig.GetConfiguration: an option named after an Object.prototype member with nothing stored reads the inherited member in the source, not the default.
- FoxxConfig.GetDependencies: a dependency named after an Object.prototype member with nothing stored reads the inherited member in the source, not undefined.
- FoxxConfig.NeedsConfiguration: such a name reads as defined in the source and is never counted as missing.
- FoxxService.Service.NeedsSetup: as for FoxxConfig.NeedsConfiguration.
- FoxxConfig.ReplaceWithNothingResets: in replace mode an omitted known name such as `constructor` reads the inherited member in the source and is validated rather than reset.
- FoxxService.Service.ApplyConfiguration: in replace mode an omitted known name such as `constructor` reads the inherited member, not a blank value.
- FoxxService.Service.ApplyDependencies: in replace mode an omitted known name such as `constructor` reads the inherited member, not a blank value.
- FoxxConfig.ExecuteScript: a missing script named like an inherited member (such as `toString`) reads a truthy function in the source, which then runs it instead of reporting an unknown script.
- Graphs.Vertex.GetInEdges: the label argument `hasOwnProperty` overwrites the method the label test calls, so the source throws a TypeError; the argument `__proto__` creates no own key, so an edge labelled `__proto__` is never selected. The model treats both as ordinary labels.
- Graphs.Vertex.GetOutEdges: as for Graphs.Vertex.GetInEdges.
- The getters `getId`, `getLabel`, `getProperty`, `getPropertyKeys` are modelled as plain readers of the snapshot, without their own contracts.
- `buildRoutes`, `run`, `_reset`, `toJSON`, `simpleJSON`, `development`, `getScripts`, `exports`, `root`, the static path getters, the thumbnail and the semver `legacy` flag are not modelled: they do I/O, load modules, or build routers.
- `createDependencies` is not modelled: its getters call `requireService`, which is outside this model.
- `getConfiguration(false)` and `getDependencies(false)` are modelled only through the `current`, `required` and `multiple` fields that `needsConfiguration` reads. `title`/`getReadableName` is not modelled.
- A validator that is neither Joi nor a function (an unknown `type`) is not modelled: it throws in the source.
- Joi's message rewriting (`replace(/^"value"\s+/, '')`) is inside the validator value.
- A string used as the configuration object is not modelled: its index properties are not seen (a string contributes no names).
- `manifest.scripts` being undefined is not modelled: `executeScript` then throws a TypeError in the source; here the scripts map is always present.
- The numeric error code of `ERROR_SERVICE_UNKNOWN_SCRIPT` and its message text are not modelled; the error carries the script name.
- FoxxService.Service.constructor: the `assert`s on `data`, `path` and `manifest` are not modelled; only `mount` is required (non-empty). The console warning about stored options is not modelled.
- FoxxService.Service.ApplyDependencies: follows the corrected multiple branch (see Findings), not the code as written.

## Findings

| source | as written | input that shows it | evidently intended | confidence | as-written member | corrected member |
|---|---|---|---|---|---|---|
| js/common/modules/graph.js:1262-1270 | `constructEdge` treats `edge === null` as a cache miss; a missing key reads as `undefined` | any edge id not yet in `_weakEdges`, e.g. the new edge in `addEdge` | the miss test `=== undefined` of `constructVertex` (line 1251), so a handle is built and cached | high; not executed | Graphs.EdgeMissReturnsUndefined | Graphs.Graph.ConstructEdge |
| js/common/modules/graph.js:1181-1201 | with `constructEdge` as written the edge cache is never filled, so `vertex.edges()` collects undefined handles; `removeVertex` deletes the vertex, clears its `_id`, and then `removeEdge(undefined)` throws a TypeError at line 1218 | a vertex with one incident edge and an empty edge cache | delete the vertex and every incident edge | high; not executed | Graphs.RemoveVertexStrandsEdges | Graphs.Graph.RemoveVertex |
| js/server/modules/@arangodb/foxx/service.js:200-222 | the multiple branch stores the whole `deps` object under the name, then calls `.push` on it | `applyDependencies({ db: "/storage" })` with `db` defined as multiple: plain objects have no `push`, so a TypeError is thrown | store a list and push each string item onto it | high; not executed | FoxxConfig.MultipleDependencyAsWritten | FoxxConfig.MultipleDependencyStored |
