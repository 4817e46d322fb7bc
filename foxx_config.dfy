/**
 * The value-level rules of a Foxx service (js/server/modules/@arangodb/foxx/service.js):
 * what applyConfiguration and applyDependencies do for one visited name, the
 * readers createConfiguration, getConfiguration, getDependencies and
 * needsConfiguration, the mount-path rules isSystem and collectionPrefix, and
 * the script lookup of executeScript.
 *
 * Manifest entries are records; the type validators (`parameterTypes`, Joi)
 * are a function value handed in by the caller.
 */
module FoxxConfig {
  import opened Wrappers
  import opened JsValue

  /** A manifest configuration entry: `type`, `default`, `required`. */
  datatype ConfigDef = ConfigDef(kind: string, defaultValue: Value, required: Value)

  /** A manifest dependency entry: `multiple`, `required`. */
  datatype DepDef = DepDef(multiple: Value, required: Value)

  /** `parameterTypes[type]` applied to a raw value: the parsed value, or the
      message of the failure. */
  type Validator = (string, Value) -> Result<Value, string>

  const NotAllowed: string := "is not allowed"
  const IsRequired: string := "is required"
  const MustBeString: string := "must be a string"

  /** What visiting one name does: the value written to the options map, the
      value written to the parsed `configuration` map, the warning recorded;
      None leaves that entry as it was. */
  datatype Effect = Effect(option: Option<Value>, current: Option<Value>, warning: Option<string>)

  // ---------------------------------------------------------------------------
  // The names a call visits
  // ---------------------------------------------------------------------------

  /** The names one apply call visits: the supplied names and, when
      replacing, also every defined name that was not supplied. */
  function Visited(supplied: set<string>, known: set<string>, replace: bool): (r: set<string>)
    ensures supplied <= r && r <= supplied + known
    ensures replace ==> known <= r
    ensures !replace ==> r == supplied
  {
    var omitted := known - supplied;
    if replace then supplied + omitted else supplied
  }

  // ---------------------------------------------------------------------------
  // applyConfiguration, one name
  // ---------------------------------------------------------------------------

  /** The loop body of applyConfiguration for `name` with the supplied value
      `raw`. A failure whose message is empty counts as success with the raw
      value, since the warning is tested for truthiness. */
  function ConfigEffect(defs: map<string, ConfigDef>, validate: Validator, name: string, raw: Value): (e: Effect)
    ensures name !in defs ==> e == Effect(None, None, Some(NotAllowed))
    ensures e.option.Some? ==> name in defs && e.current.Some?
  {
    if name !in defs then Effect(None, None, Some(NotAllowed))
    else
      var def := defs[name];
      if IsBlank(raw) then
        Effect(Some(Undefined), Some(def.defaultValue), if def.required != Bool(false) then Some(IsRequired) else None)
      else
        match validate(def.kind, raw)
        case Ok(parsed) => Effect(Some(raw), Some(parsed), None)
        case Err(message) =>
          if message != "" then Effect(None, None, Some(message))
          else Effect(Some(raw), Some(raw), None)
  }

  /** What one visited configuration name does: a blank value clears the
      option and restores the default, warning unless the option is
      explicitly optional; a supplied value is stored raw, with its parsed
      form, exactly when validation records no warning; a failed validation
      changes nothing. Every name without a warning is written. */
  lemma ConfigEffectSpec(defs: map<string, ConfigDef>, validate: Validator, name: string, raw: Value)
    ensures var e := ConfigEffect(defs, validate, name, raw);
      && (e.option.Some? <==> e.current.Some?)
      && (e.warning.None? ==> e.option.Some?)
      && (name in defs && IsBlank(raw) ==>
            && e.option == Some(Undefined) && e.current == Some(defs[name].defaultValue)
            && (e.warning.Some? <==> defs[name].required != Bool(false))
            && (e.warning.Some? ==> e.warning.value == IsRequired))
      && (name in defs && !IsBlank(raw) ==>
            (e.option.Some? <==> e.warning.None?) && (e.option.Some? ==> e.option == Some(raw)))
      && (name in defs && !IsBlank(raw) && validate(defs[name].kind, raw).Ok? ==>
            e == Effect(Some(raw), Some(validate(defs[name].kind, raw).value), None))
      && (name in defs && !IsBlank(raw) && validate(defs[name].kind, raw).Err?
          && validate(defs[name].kind, raw).error != "" ==>
            e == Effect(None, None, Some(validate(defs[name].kind, raw).error)))
  {
  }

  /** The effects of one applyConfiguration call, name by name. */
  function ConfigEffects(defs: map<string, ConfigDef>, validate: Validator, config: map<string, Value>,
                         visited: set<string>): (es: map<string, Effect>)
    ensures es.Keys == visited
    ensures forall n :: n in es && n !in defs ==> es[n] == Effect(None, None, Some(NotAllowed))
    ensures forall n :: n in es && n in defs && IsBlank(Get(config, n)) ==>
      es[n].option == Some(Undefined) && es[n].current == Some(defs[n].defaultValue)
  {
    map n | n in visited :: ConfigEffect(defs, validate, n, Get(config, n))
  }

  // ---------------------------------------------------------------------------
  // applyDependencies, one name
  // ---------------------------------------------------------------------------

  /** The list a multiple dependency value stands for. */
  function DepValues(value: Value): (vs: seq<Value>)
    ensures value.Arr? ==> vs == value.items
    ensures !value.Arr? && IsBlank(value) ==> vs == []
    ensures !value.Arr? && !IsBlank(value) ==> vs == [value]
  {
    if value.Arr? then value.items else if IsBlank(value) then [] else [value]
  }

  /** The string entries of a list, in order. */
  function StringsOf(vs: seq<Value>): (r: seq<Value>)
    ensures |r| <= |vs|
    ensures forall i :: 0 <= i < |r| ==> r[i].Str?
  {
    if vs == [] then []
    else (if vs[0].Str? then [vs[0]] else []) + StringsOf(vs[1..])
  }

  /** StringsOf drops exactly the entries that are not strings. */
  lemma {:induction false} StringsOfMembers(vs: seq<Value>)
    ensures forall x :: x in StringsOf(vs) <==> x in vs && x.Str?
    ensures (forall i :: 0 <= i < |vs| ==> vs[i].Str?) ==> StringsOf(vs) == vs
  {
    if vs != [] {
      StringsOfMembers(vs[1..]);
      assert vs == [vs[0]] + vs[1..];
    }
  }

  /** The index of the last entry that is not a string. */
  function LastNonString(vs: seq<Value>): Option<nat> {
    if vs == [] then None
    else if !vs[|vs| - 1].Str? then Some(|vs| - 1)
    else LastNonString(vs[..|vs| - 1])
  }

  /** LastNonString finds the last non-string entry, and nothing when all
      entries are strings. */
  lemma {:induction false} LastNonStringSpec(vs: seq<Value>)
    ensures var r := LastNonString(vs);
      && (r.None? <==> forall i :: 0 <= i < |vs| ==> vs[i].Str?)
      && (r.Some? ==> r.value < |vs| && !vs[r.value].Str?)
      && (r.Some? ==> forall i :: r.value < i < |vs| ==> vs[i].Str?)
  {
    if vs != [] && vs[|vs| - 1].Str? {
      var init := vs[..|vs| - 1];
      LastNonStringSpec(init);
      assert forall i :: 0 <= i < |init| ==> init[i] == vs[i];
    }
  }

  /** `at ${i} must be a string` */
  function IndexWarning(i: nat): string {
    "at " + NatString(i) + " " + MustBeString
  }

  /** The warning left after the item loop: each non-string item overwrites
      it, so the last one wins. */
  function ItemWarning(vs: seq<Value>): Option<string> {
    match LastNonString(vs)
    case None => None
    case Some(i) => Some(IndexWarning(i))
  }

  /** One more item of the filtering loop. */
  lemma StringsOfStep(vs: seq<Value>, i: nat)
    requires i < |vs|
    ensures StringsOf(vs[i..]) == (if vs[i].Str? then [vs[i]] else []) + StringsOf(vs[i + 1..])
  {
    assert vs[i..][1..] == vs[i + 1..];
  }

  /** One more item of the warning loop: a non-string item overwrites the warning. */
  lemma ItemWarningStep(vs: seq<Value>, i: nat)
    requires i < |vs|
    ensures ItemWarning(vs[..i + 1]) ==
      if vs[i].Str? then ItemWarning(vs[..i]) else Some(IndexWarning(i))
  {
    assert vs[..i + 1][..i] == vs[..i];
  }

  /** The single-valued branch: the option is cleared first, and only a
      string is stored. */
  function SingleDepEffect(def: DepDef, value: Value): (e: Effect)
    ensures e.current.None? && e.option.Some?
    ensures value.Str? && value != Str("") ==> e == Effect(Some(value), None, None)
    ensures !value.Str? || value == Str("") ==> e.option == Some(Undefined) && e.warning != Some(NotAllowed)
    ensures IsBlank(value) ==> e.warning == (if def.required != Bool(false) then Some(IsRequired) else None)
    ensures !IsBlank(value) && !value.Str? ==> e.warning == Some(MustBeString)
  {
    if IsBlank(value) then
      Effect(Some(Undefined), None, if def.required != Bool(false) then Some(IsRequired) else None)
    else if !value.Str? then Effect(Some(Undefined), None, Some(MustBeString))
    else Effect(Some(value), None, None)
  }

  /** The loop body of applyDependencies with the multiple branch storing the
      list of given service mounts, as the code evidently intends. */
  function DepEffect(defs: map<string, DepDef>, name: string, value: Value): (e: Effect)
    ensures name !in defs ==> e == Effect(None, None, Some(NotAllowed))
    ensures name in defs ==> e.option.Some? && e.current.None?
    ensures name in defs && !Truthy(defs[name].multiple) ==> e == SingleDepEffect(defs[name], value)
  {
    if name !in defs then Effect(None, None, Some(NotAllowed))
    else
      var def := defs[name];
      if Truthy(def.multiple) then
        var vs := DepValues(value);
        if |vs| == 0 then
          Effect(Some(Arr([])), None, if def.required != Bool(false) then Some(IsRequired) else None)
        else
          Effect(Some(Arr(StringsOf(vs))), None, ItemWarning(vs))
      else SingleDepEffect(def, value)
  }

  /** A multiple dependency stores exactly its string items, and warns exactly
      when an item is not a string or, required, the list is empty. */
  lemma MultipleDependencyStored(defs: map<string, DepDef>, deps: map<string, Value>, name: string)
    requires name in defs && Truthy(defs[name].multiple)
    ensures var e := DepEffect(defs, name, Get(deps, name));
      var vs := DepValues(Get(deps, name));
      && e.option.Some? && e.option.value.Arr?
      && (forall x :: x in e.option.value.items <==> x in vs && x.Str?)
      && (e.warning.None? <==> (forall i :: 0 <= i < |vs| ==> vs[i].Str?) && (vs == [] ==> defs[name].required == Bool(false)))
  {
    StringsOfMembers(DepValues(Get(deps, name)));
    LastNonStringSpec(DepValues(Get(deps, name)));
  }

  /** What the multiple branch does as written: it stores the whole `deps`
      object under the name and then pushes each string item onto it; an
      object has no `push`, so the first string item throws a TypeError. */
  datatype DepFailure = PushOnObject

  function DepEffectAsWritten(defs: map<string, DepDef>, deps: map<string, Value>, name: string): (r: Result<Effect, DepFailure>)
    ensures name !in defs || !Truthy(defs[name].multiple) ==> r == Ok(DepEffect(defs, name, Get(deps, name)))
  {
    if name !in defs || !Truthy(defs[name].multiple) then Ok(DepEffect(defs, name, Get(deps, name)))
    else
      var def := defs[name];
      var vs := DepValues(Get(deps, name));
      if |vs| == 0 then
        Ok(Effect(Some(Obj(deps)), None, if def.required != Bool(false) then Some(IsRequired) else None))
      else if exists i :: 0 <= i < |vs| && vs[i].Str? then Err(PushOnObject)
      else Ok(Effect(Some(Obj(deps)), None, ItemWarning(vs)))
  }

  /** As written, a multiple dependency given any service mount at all
      throws, and one given none stores the `deps` object instead of a list. */
  lemma MultipleDependencyAsWritten(defs: map<string, DepDef>, deps: map<string, Value>, name: string)
    requires name in defs && Truthy(defs[name].multiple)
    ensures (exists x :: x in DepValues(Get(deps, name)) && x.Str?) <==> DepEffectAsWritten(defs, deps, name).Err?
    ensures DepEffectAsWritten(defs, deps, name).Ok? ==>
      DepEffectAsWritten(defs, deps, name).value.option == Some(Obj(deps))
  {
  }

  /** A concrete input: `{ "db": "/storage" }` for a required multiple
      dependency `db`. */
  lemma MultipleDependencyExample()
    ensures var defs := map["db" := DepDef(Bool(true), Bool(true))];
      var deps := map["db" := Str("/storage")];
      && DepEffectAsWritten(defs, deps, "db") == Err(PushOnObject)
      && DepEffect(defs, "db", Str("/storage")) == Effect(Some(Arr([Str("/storage")])), None, None)
  {
    var defs := map["db" := DepDef(Bool(true), Bool(true))];
    var deps := map["db" := Str("/storage")];
    assert DepValues(Get(deps, "db")) == [Str("/storage")];
    assert DepValues(Get(deps, "db"))[0].Str?;
    assert StringsOf([Str("/storage")]) == [Str("/storage")] by {
      assert [Str("/storage")][1..] == [];
    }
  }

  /** The effects of one applyDependencies call, name by name. */
  function DepEffects(defs: map<string, DepDef>, deps: map<string, Value>, visited: set<string>): (es: map<string, Effect>)
    ensures es.Keys == visited
    ensures forall n :: n in es && n !in defs ==> es[n] == Effect(None, None, Some(NotAllowed))
    ensures forall n :: n in es && n in defs ==> es[n].option.Some? && es[n].current.None?
  {
    map n | n in visited :: DepEffect(defs, n, Get(deps, n))
  }

  // ---------------------------------------------------------------------------
  // Applying effects to the maps
  // ---------------------------------------------------------------------------

  datatype Field = OptionField | CurrentField

  function Pick(e: Effect, f: Field): Option<Value> {
    match f
    case OptionField => e.option
    case CurrentField => e.current
  }

  /** `m[name] = v` when the effect writes, otherwise nothing. */
  function Write(m: map<string, Value>, name: string, v: Option<Value>): map<string, Value> {
    match v
    case None => m
    case Some(x) => m[name := x]
  }

  /** A map after every effect has written its field. */
  function WriteAll(m: map<string, Value>, es: map<string, Effect>, f: Field): map<string, Value> {
    map n | n in m.Keys + es.Keys && (n in m || Pick(es[n], f).Some?) ::
      if n in es && Pick(es[n], f).Some? then Pick(es[n], f).value else m[n]
  }

  /** The warnings map of a call. */
  function WarningsOf(es: map<string, Effect>): map<string, string> {
    map n | n in es && es[n].warning.Some? :: es[n].warning.value
  }

  /** Each effect that writes a field decides that entry; every other entry
      keeps its value; a name has a warning exactly when its effect has one. */
  lemma WriteAllSpec(m: map<string, Value>, es: map<string, Effect>, f: Field)
    ensures var r := WriteAll(m, es, f);
      && (forall n :: n in r <==> n in m || (n in es && Pick(es[n], f).Some?))
      && (forall n :: n in es && Pick(es[n], f).Some? ==> r[n] == Pick(es[n], f).value)
      && (forall n :: n in m && (n !in es || Pick(es[n], f).None?) ==> r[n] == m[n])
    ensures forall n :: n in WarningsOf(es) <==> n in es && es[n].warning.Some?
    ensures forall n :: n in WarningsOf(es) ==> WarningsOf(es)[n] == es[n].warning.value
  {
  }

  /** One more loop iteration writes one more name. */
  lemma WriteAllStep(m: map<string, Value>, es: map<string, Effect>, n: string, e: Effect, f: Field)
    requires n !in es
    ensures WriteAll(m, es[n := e], f) == Write(WriteAll(m, es, f), n, Pick(e, f))
  {
    WriteAllSpec(m, es[n := e], f);
    WriteAllSpec(m, es, f);
    var a := WriteAll(m, es[n := e], f);
    var b := Write(WriteAll(m, es, f), n, Pick(e, f));
    assert a.Keys == b.Keys;
  }

  /** One more loop iteration adds at most one warning. */
  lemma WarningsStep(es: map<string, Effect>, n: string, e: Effect)
    requires n !in es
    ensures WarningsOf(es[n := e]) == if e.warning.Some? then WarningsOf(es)[n := e.warning.value] else WarningsOf(es)
  {
    var wa := WarningsOf(es[n := e]);
    var wb := if e.warning.Some? then WarningsOf(es)[n := e.warning.value] else WarningsOf(es);
    assert wa.Keys == wb.Keys;
  }

  /** The names of `order` one after another, each writing its effect's
      field, as the `for (const name of names)` loops do. */
  function Replay(m: map<string, Value>, es: map<string, Effect>, order: seq<string>, f: Field): map<string, Value>
    requires forall i :: 0 <= i < |order| ==> order[i] in es
    decreases |order|
  {
    if order == [] then m
    else
      var last := order[|order| - 1];
      Write(Replay(m, es, order[..|order| - 1], f), last, Pick(es[last], f))
  }

  /** The warnings collected by visiting the names of `order` one after another. */
  function ReplayWarnings(es: map<string, Effect>, order: seq<string>): map<string, string>
    requires forall i :: 0 <= i < |order| ==> order[i] in es
    decreases |order|
  {
    if order == [] then map[]
    else
      var last := order[|order| - 1];
      var w := ReplayWarnings(es, order[..|order| - 1]);
      if es[last].warning.Some? then w[last := es[last].warning.value] else w
  }

  /** The effects of the names that occur in `order`. */
  function Restrict(es: map<string, Effect>, order: seq<string>): (r: map<string, Effect>)
    ensures forall n :: n in r <==> n in es && n in order
  {
    map n | n in es && n in order :: es[n]
  }

  /** One more distinct name restricts the effect map to one more entry. */
  lemma RestrictStep(es: map<string, Effect>, order: seq<string>)
    requires order != [] && order[|order| - 1] in es
    requires order[|order| - 1] !in order[..|order| - 1]
    ensures var last := order[|order| - 1];
      && last !in Restrict(es, order[..|order| - 1])
      && Restrict(es, order) == Restrict(es, order[..|order| - 1])[last := es[last]]
  {
    assert order == order[..|order| - 1] + [order[|order| - 1]];
  }

  /** Visiting distinct names one after another writes what the whole effect
      map restricted to them writes: the order of the names does not matter. */
  lemma {:induction false} ReplayMatches(m: map<string, Value>, es: map<string, Effect>, order: seq<string>, f: Field)
    requires forall i :: 0 <= i < |order| ==> order[i] in es
    requires forall i, j :: 0 <= i < j < |order| ==> order[i] != order[j]
    ensures Replay(m, es, order, f) == WriteAll(m, Restrict(es, order), f)
  {
    if order == [] {
      WriteAllSpec(m, map[], f);
      assert WriteAll(m, map[], f) == m;
    } else {
      var prefix := order[..|order| - 1];
      var last := order[|order| - 1];
      ReplayMatches(m, es, prefix, f);
      RestrictStep(es, order);
      WriteAllStep(m, Restrict(es, prefix), last, es[last], f);
    }
  }

  /** The same for the warnings. */
  lemma {:induction false} ReplayWarningsMatch(es: map<string, Effect>, order: seq<string>)
    requires forall i :: 0 <= i < |order| ==> order[i] in es
    requires forall i, j :: 0 <= i < j < |order| ==> order[i] != order[j]
    ensures ReplayWarnings(es, order) == WarningsOf(Restrict(es, order))
  {
    if order == [] {
      assert WarningsOf(map[]) == map[];
    } else {
      var prefix := order[..|order| - 1];
      var last := order[|order| - 1];
      ReplayWarningsMatch(es, prefix);
      RestrictStep(es, order);
      WarningsStep(Restrict(es, prefix), last, es[last]);
    }
  }

  /** Visiting every name of an effect map once, in any order, has the
      effect of the whole map. */
  lemma ReplayAll(m: map<string, Value>, es: map<string, Effect>, order: seq<string>, f: Field)
    requires forall n :: n in order <==> n in es
    requires forall i, j :: 0 <= i < j < |order| ==> order[i] != order[j]
    ensures Replay(m, es, order, f) == WriteAll(m, es, f)
    ensures ReplayWarnings(es, order) == WarningsOf(es)
  {
    ReplayMatches(m, es, order, f);
    ReplayWarningsMatch(es, order);
    assert Restrict(es, order) == es;
  }

  // ---------------------------------------------------------------------------
  // Readers
  // ---------------------------------------------------------------------------

  /** createConfiguration(definitions): the defaults that are not undefined. */
  function CreateConfiguration(defs: map<string, ConfigDef>): (c: map<string, Value>)
    ensures forall n :: n in c <==> n in defs && defs[n].defaultValue != Undefined
    ensures forall n :: n in c ==> c[n] == defs[n].defaultValue
  {
    map n | n in defs && defs[n].defaultValue != Undefined :: defs[n].defaultValue
  }

  /** getConfiguration(true): every defined name, with the stored option or,
      when that is undefined, the default. */
  function GetConfiguration(defs: map<string, ConfigDef>, options: map<string, Value>): (c: map<string, Value>)
    ensures c.Keys == defs.Keys
    ensures forall n :: n in c && Get(options, n) != Undefined ==> c[n] == options[n]
    ensures forall n :: n in c && Get(options, n) == Undefined ==> c[n] == defs[n].defaultValue
  {
    map n | n in defs :: if Get(options, n) == Undefined then defs[n].defaultValue else options[n]
  }

  /** getDependencies(true): every defined name with its stored option. */
  function GetDependencies(defs: map<string, DepDef>, options: map<string, Value>): (d: map<string, Value>)
    ensures d.Keys == defs.Keys
    ensures forall n :: n in d ==> d[n] == Get(options, n)
  {
    map n | n in defs :: Get(options, n)
  }

  /** `v.length`: arrays and strings have one; other objects may carry a
      `length` property; anything else reads as undefined. */
  function LengthOf(v: Value): Value {
    match v
    case Arr(items) => Num(|items|)
    case Str(s) => Num(|s|)
    case Obj(fields) => Get(fields, "length")
    case _ => Undefined
  }

  predicate ConfigNeeded(def: ConfigDef, current: Value) {
    current == Undefined && Truthy(def.required)
  }

  predicate DepNeeded(def: DepDef, current: Value) {
    (if Truthy(def.multiple) then !Truthy(current) || !Truthy(LengthOf(current)) else !Truthy(current))
    && Truthy(def.required)
  }

  /** needsConfiguration(): some required option resolves to undefined, or some
      required dependency is missing (an empty list for a multiple one). In
      terms of what is stored: a required option has neither a stored value
      nor a default, or a required dependency's stored value is missing. */
  function NeedsConfiguration(configDefs: map<string, ConfigDef>, configOptions: map<string, Value>,
                              depDefs: map<string, DepDef>, depOptions: map<string, Value>): (b: bool)
    ensures b <==>
      || (exists n :: n in configDefs && Truthy(configDefs[n].required)
            && Get(configOptions, n) == Undefined && configDefs[n].defaultValue == Undefined)
      || (exists n :: n in depDefs && DepNeeded(depDefs[n], Get(depOptions, n)))
  {
    || (exists n :: n in configDefs && ConfigNeeded(configDefs[n], GetConfiguration(configDefs, configOptions)[n]))
    || (exists n :: n in depDefs && DepNeeded(depDefs[n], GetDependencies(depDefs, depOptions)[n]))
  }

  /** A new service reads its defaults: getConfiguration over empty options
      agrees with createConfiguration wherever that has an entry, and is
      undefined elsewhere. */
  lemma CreateMatchesGet(defs: map<string, ConfigDef>)
    ensures forall n :: n in defs ==> GetConfiguration(defs, map[])[n] == Get(CreateConfiguration(defs), n)
  {
  }

  // ---------------------------------------------------------------------------
  // What a call leaves behind
  // ---------------------------------------------------------------------------

  /** After applyConfiguration, getConfiguration reports, for each known
      visited name: the default once it was cleared, the raw value once it was
      accepted, and the earlier reading when the value was rejected. */
  lemma ApplyThenGetConfiguration(defs: map<string, ConfigDef>, validate: Validator, config: map<string, Value>,
                                  visited: set<string>, options: map<string, Value>, name: string)
    requires name in visited && name in defs
    ensures var es := ConfigEffects(defs, validate, config, visited);
      var after := GetConfiguration(defs, WriteAll(options, es, OptionField));
      var raw := Get(config, name);
      && (IsBlank(raw) ==> after[name] == defs[name].defaultValue)
      && (!IsBlank(raw) && es[name].warning.None? ==> after[name] == raw)
      && (es[name].warning.Some? && !IsBlank(raw) ==> after[name] == GetConfiguration(defs, options)[name])
  {
    var es := ConfigEffects(defs, validate, config, visited);
    var e := ConfigEffect(defs, validate, name, Get(config, name));
    assert es[name] == e;
  }

  /** Names without a definition never enter either map, and a call with no
      warning visited only known names. */
  lemma UnknownNamesNotStored(defs: map<string, ConfigDef>, validate: Validator, config: map<string, Value>,
                              visited: set<string>, options: map<string, Value>, current: map<string, Value>)
    ensures var es := ConfigEffects(defs, validate, config, visited);
      && WriteAll(options, es, OptionField).Keys <= options.Keys + defs.Keys
      && WriteAll(current, es, CurrentField).Keys <= current.Keys + defs.Keys
      && (WarningsOf(es) == map[] ==> visited <= defs.Keys)
      && (forall n :: n in visited && n !in defs ==> n in WarningsOf(es) && WarningsOf(es)[n] == NotAllowed)
  {
    var es := ConfigEffects(defs, validate, config, visited);
    WriteAllSpec(options, es, OptionField);
    WriteAllSpec(current, es, CurrentField);
    if WarningsOf(es) == map[] {
      forall n | n in visited ensures n in defs {
        assert n in es;
      }
    }
  }

  /** Replacing with an empty configuration resets every option to its
      default, and warns for every option not explicitly optional. */
  lemma ReplaceWithNothingResets(defs: map<string, ConfigDef>, validate: Validator,
                                 options: map<string, Value>, current: map<string, Value>)
    ensures var es := ConfigEffects(defs, validate, map[], Visited({}, defs.Keys, true));
      && (forall n :: n in defs ==> GetConfiguration(defs, WriteAll(options, es, OptionField))[n] == defs[n].defaultValue)
      && (forall n :: n in defs ==> WriteAll(current, es, CurrentField)[n] == defs[n].defaultValue)
      && (forall n :: n in WarningsOf(es) <==> n in defs && defs[n].required != Bool(false))
  {
    var es := ConfigEffects(defs, validate, map[], Visited({}, defs.Keys, true));
    forall n | n in defs
      ensures GetConfiguration(defs, WriteAll(options, es, OptionField))[n] == defs[n].defaultValue
    {
      assert es[n] == ConfigEffect(defs, validate, n, Undefined);
    }
  }

  /** Clearing a required option that has no default leaves the service in
      need of configuration. */
  lemma ClearedRequiredNeedsConfiguration(defs: map<string, ConfigDef>, validate: Validator, config: map<string, Value>,
                                          visited: set<string>, options: map<string, Value>,
                                          depDefs: map<string, DepDef>, depOptions: map<string, Value>, name: string)
    requires name in visited && name in defs && IsBlank(Get(config, name))
    requires defs[name].defaultValue == Undefined && Truthy(defs[name].required)
    ensures NeedsConfiguration(defs, WriteAll(options, ConfigEffects(defs, validate, config, visited), OptionField),
                               depDefs, depOptions)
  {
    var after := WriteAll(options, ConfigEffects(defs, validate, config, visited), OptionField);
    ApplyThenGetConfiguration(defs, validate, config, visited, options, name);
    assert ConfigNeeded(defs[name], GetConfiguration(defs, after)[name]);
  }

  /** After applyDependencies, getDependencies reports for each known visited
      single dependency the given string, or undefined when none was given;
      a required single dependency left without a string needs configuration. */
  lemma ApplyThenGetDependencies(defs: map<string, DepDef>, deps: map<string, Value>, visited: set<string>,
                                 options: map<string, Value>, configDefs: map<string, ConfigDef>,
                                 configOptions: map<string, Value>, name: string)
    requires name in visited && name in defs && !Truthy(defs[name].multiple)
    ensures var after := WriteAll(options, DepEffects(defs, deps, visited), OptionField);
      var value := Get(deps, name);
      && GetDependencies(defs, after)[name] == (if Truthy(value) && value.Str? then value else Undefined)
      && (!(Truthy(value) && value.Str?) && Truthy(defs[name].required) ==>
            NeedsConfiguration(configDefs, configOptions, defs, after))
  {
    var es := DepEffects(defs, deps, visited);
    assert es[name] == DepEffect(defs, name, Get(deps, name));
    var after := WriteAll(options, es, OptionField);
    if !(Truthy(Get(deps, name)) && Get(deps, name).Str?) && Truthy(defs[name].required) {
      assert DepNeeded(defs[name], GetDependencies(defs, after)[name]);
    }
  }

  // ---------------------------------------------------------------------------
  // Mount paths
  // ---------------------------------------------------------------------------

  /** isSystem: the character after the leading slash is `_`. Unless that
      character is a separator, this is exactly when the collection prefix
      starts with `_`. */
  function IsSystem(mount: string): (b: bool)
    ensures b ==> CollectionPrefix(mount)[0] == '_'
    ensures |mount| > 1 && !IsSeparator(mount[1]) ==> (b <==> CollectionPrefix(mount)[0] == '_')
    ensures |mount| <= 1 ==> !b
  {
    |mount| > 1 && mount[1] == '_'
  }

  predicate IsSeparator(c: char) {
    c == '-' || c == '.' || c == ':' || c == '/'
  }

  function Sanitize(s: string): (r: string)
    ensures |r| == |s|
    ensures forall i :: 0 <= i < |s| ==> r[i] == if IsSeparator(s[i]) then '_' else s[i]
  {
    if s == [] then [] else [if IsSeparator(s[0]) then '_' else s[0]] + Sanitize(s[1..])
  }

  /** collectionPrefix: the mount without its first character, each of
      `-`, `.`, `:`, `/` turned into `_`, followed by `_`. */
  function CollectionPrefix(mount: string): (p: string)
    ensures |mount| > 0 ==> |p| == |mount|
    ensures |mount| == 0 ==> p == "_"
    ensures p[|p| - 1] == '_'
    ensures forall i :: 0 <= i < |p| ==> !IsSeparator(p[i])
    ensures forall i :: 0 < i < |mount| ==> p[i - 1] == (if IsSeparator(mount[i]) then '_' else mount[i])
  {
    Sanitize(if |mount| == 0 then "" else mount[1..]) + "_"
  }

  /** The prefix of a system service starts with `_`; mounts that differ only
      in their separators share a prefix. */
  lemma CollectionPrefixProperties(mount: string, other: string)
    ensures IsSystem(mount) ==> CollectionPrefix(mount)[0] == '_'
    ensures |mount| == |other| && (forall i :: 0 < i < |mount| ==>
        mount[i] == other[i] || (IsSeparator(mount[i]) && IsSeparator(other[i])))
      ==> CollectionPrefix(mount) == CollectionPrefix(other)
  {
  }

  // ---------------------------------------------------------------------------
  // executeScript
  // ---------------------------------------------------------------------------

  datatype ScriptError = UnknownScript(name: string)  // ERROR_SERVICE_UNKNOWN_SCRIPT

  /** What executeScript hands to `run`, or that there is nothing to run. */
  datatype ScriptRun = NoScript | Run(file: Value, argv: seq<Value>)

  /** The argument list handed to a script: empty for a falsy argv, the
      array itself for an array, and a one-item list otherwise. */
  function NormalizeArgv(argv: Value): (r: seq<Value>)
    ensures !Truthy(argv) ==> r == []
    ensures argv.Arr? ==> r == argv.items
    ensures Truthy(argv) && !argv.Arr? ==> r == [argv]
  {
    if !Truthy(argv) then [] else if argv.Arr? then argv.items else [argv]
  }

  /** Normalising an already normalised list changes nothing. */
  lemma NormalizeArgvIdempotent(argv: Value)
    ensures NormalizeArgv(Arr(NormalizeArgv(argv))) == NormalizeArgv(argv)
    ensures !argv.Arr? ==> |NormalizeArgv(argv)| <= 1
  {
  }

  function ExecuteScript(scripts: map<string, Value>, name: string, argv: Value): (r: Result<ScriptRun, ScriptError>)
    ensures !Truthy(Get(scripts, name)) && (name == "setup" || name == "teardown") ==> r == Ok(NoScript)
    ensures !Truthy(Get(scripts, name)) && name != "setup" && name != "teardown" ==> r == Err(UnknownScript(name))
    ensures Truthy(Get(scripts, name)) ==> r.Ok? && r.value.Run? && r.value.file == scripts[name]
    ensures r.Ok? && r.value.Run? ==> r.value.argv == NormalizeArgv(argv)
  {
    if !Truthy(Get(scripts, name)) then
      if name == "setup" || name == "teardown" then Ok(NoScript) else Err(UnknownScript(name))
    else Ok(Run(scripts[name], NormalizeArgv(argv)))
  }
}
