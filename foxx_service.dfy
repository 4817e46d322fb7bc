/**
 * The FoxxService object of js/server/modules/@arangodb/foxx/service.js: the
 * manifest's configuration and dependency definitions, the stored options,
 * and the parsed configuration, updated in place by applyConfiguration and
 * applyDependencies.
 */
module FoxxService {
  import opened Wrappers
  import opened JsValue
  import opened Properties
  import opened FoxxConfig

  class Service {
    const mount: string
    const manifestConfiguration: map<string, ConfigDef>
    const manifestDependencies: map<string, DepDef>
    const scripts: map<string, Value>
    const validate: Validator
    var optionsConfiguration: map<string, Value>
    var optionsDependencies: map<string, Value>
    var configuration: map<string, Value>

    /** The constructor: missing manifest and option maps become `{}`, the
        parsed configuration starts from the defaults, and the stored options
        are applied without replacing. `None` stands for a falsy entry. */
    constructor (mount: string,
                 manifestConfiguration: Option<map<string, ConfigDef>>,
                 manifestDependencies: Option<map<string, DepDef>>,
                 optionsConfiguration: Option<map<string, Value>>,
                 optionsDependencies: Option<map<string, Value>>,
                 scripts: map<string, Value>,
                 validate: Validator)
      requires mount != ""
      ensures this.mount == mount && this.scripts == scripts && this.validate == validate
      ensures this.manifestConfiguration == manifestConfiguration.GetOr(map[])
      ensures this.manifestDependencies == manifestDependencies.GetOr(map[])
      ensures this.optionsDependencies == optionsDependencies.GetOr(map[])
      ensures var stored := optionsConfiguration.GetOr(map[]);
        var es := ConfigEffects(this.manifestConfiguration, validate, stored, stored.Keys);
        && this.optionsConfiguration == WriteAll(stored, es, OptionField)
        && this.configuration == WriteAll(CreateConfiguration(this.manifestConfiguration), es, CurrentField)
    {
      this.mount := mount;
      this.manifestConfiguration := manifestConfiguration.GetOr(map[]);
      this.manifestDependencies := manifestDependencies.GetOr(map[]);
      this.optionsConfiguration := optionsConfiguration.GetOr(map[]);
      this.optionsDependencies := optionsDependencies.GetOr(map[]);
      this.scripts := scripts;
      this.validate := validate;
      this.configuration := CreateConfiguration(manifestConfiguration.GetOr(map[]));
      new;
      var warnings := ApplyConfiguration(Obj(this.optionsConfiguration), false);
    }

    /** applyConfiguration(config, replace): visit the supplied names (plus,
        when replacing, every defined name not supplied), update both maps,
        and return the warnings, or None when there are none. */
    method ApplyConfiguration(config: Value, replace: bool) returns (warnings: Option<map<string, string>>)
      modifies this`optionsConfiguration, this`configuration
      ensures var cfg := ObjectFields(config);
        var es := ConfigEffects(manifestConfiguration, validate, cfg, Visited(cfg.Keys, manifestConfiguration.Keys, replace));
        && optionsConfiguration == WriteAll(old(optionsConfiguration), es, OptionField)
        && configuration == WriteAll(old(configuration), es, CurrentField)
        && (warnings.None? <==> WarningsOf(es) == map[])
        && (warnings.Some? ==> warnings.value == WarningsOf(es))
    {
      var cfg := ObjectFields(config);
      var names := Visited(cfg.Keys, manifestConfiguration.Keys, replace);
      ghost var es := ConfigEffects(manifestConfiguration, validate, cfg, names);
      var found, order := VisitConfigNames(cfg, names, es);
      ReplayAll(old(optionsConfiguration), es, order, OptionField);
      ReplayAll(old(configuration), es, order, CurrentField);
      warnings := if |found| > 0 then Some(found) else None;
    }

    /** The `for (const name of names)` loop of applyConfiguration: visit every
        name once, in some order, and collect the warnings. */
    method VisitConfigNames(cfg: map<string, Value>, names: set<string>, ghost es: map<string, Effect>)
      returns (found: map<string, string>, ghost order: seq<string>)
      requires es.Keys == names
      requires forall n :: n in es ==> es[n] == ConfigEffect(manifestConfiguration, validate, n, Get(cfg, n))
      modifies this`optionsConfiguration, this`configuration
      ensures forall n :: n in order <==> n in names
      ensures forall i :: 0 <= i < |order| ==> order[i] in es
      ensures forall i, j :: 0 <= i < j < |order| ==> order[i] != order[j]
      ensures optionsConfiguration == Replay(old(optionsConfiguration), es, order, OptionField)
      ensures configuration == Replay(old(configuration), es, order, CurrentField)
      ensures found == ReplayWarnings(es, order)
    {
      found := map[];
      order := [];
      var remaining := names;
      while remaining != {}
        invariant remaining <= names
        invariant forall n :: n in order <==> n in names && n !in remaining
        invariant forall i :: 0 <= i < |order| ==> order[i] in es
        invariant forall i, j :: 0 <= i < j < |order| ==> order[i] != order[j]
        invariant optionsConfiguration == Replay(old(optionsConfiguration), es, order, OptionField)
        invariant configuration == Replay(old(configuration), es, order, CurrentField)
        invariant found == ReplayWarnings(es, order)
        decreases remaining
      {
        var name :| name in remaining;
        var warning := VisitConfigName(name, Get(cfg, name));
        if warning.Some? {
          found := found[name := warning.value];
        }
        assert (order + [name])[..|order|] == order;
        order := order + [name];
        remaining := remaining - {name};
      }
    }

    /** The loop body of applyConfiguration for one name and its raw value. */
    method VisitConfigName(name: string, rawValue: Value) returns (warning: Option<string>)
      modifies this`optionsConfiguration, this`configuration
      ensures var e := ConfigEffect(manifestConfiguration, validate, name, rawValue);
        && optionsConfiguration == Write(old(optionsConfiguration), name, e.option)
        && configuration == Write(old(configuration), name, e.current)
        && warning == e.warning
    {
      if name !in manifestConfiguration {
        return Some(NotAllowed);
      }
      var def := manifestConfiguration[name];
      if IsBlank(rawValue) {
        optionsConfiguration := optionsConfiguration[name := Undefined];
        configuration := configuration[name := def.defaultValue];
        warning := if def.required != Bool(false) then Some(IsRequired) else None;
        return;
      }
      var parsedValue := rawValue;
      var message := "";
      match validate(def.kind, rawValue) {
        case Ok(p) => parsedValue := p;
        case Err(m) => message := m;
      }
      if message != "" {
        return Some(message);
      }
      optionsConfiguration := optionsConfiguration[name := rawValue];
      configuration := configuration[name := parsedValue];
      warning := None;
    }

    /** applyDependencies(deps, replace), with the multiple branch storing the
        list of string items (see DepEffect). */
    method ApplyDependencies(deps: Value, replace: bool) returns (warnings: Option<map<string, string>>)
      modifies this`optionsDependencies
      ensures var given := ObjectFields(deps);
        var es := DepEffects(manifestDependencies, given, Visited(given.Keys, manifestDependencies.Keys, replace));
        && optionsDependencies == WriteAll(old(optionsDependencies), es, OptionField)
        && (warnings.None? <==> WarningsOf(es) == map[])
        && (warnings.Some? ==> warnings.value == WarningsOf(es))
    {
      var given := ObjectFields(deps);
      var names := Visited(given.Keys, manifestDependencies.Keys, replace);
      ghost var es := DepEffects(manifestDependencies, given, names);
      var found, order := VisitDependencyNames(given, names, es);
      ReplayAll(old(optionsDependencies), es, order, OptionField);
      warnings := if |found| > 0 then Some(found) else None;
    }

    /** The `for (const name of names)` loop of applyDependencies: visit every
        name once, in some order, and collect the warnings. */
    method VisitDependencyNames(given: map<string, Value>, names: set<string>, ghost es: map<string, Effect>)
      returns (found: map<string, string>, ghost order: seq<string>)
      requires es.Keys == names
      requires forall n :: n in es ==> es[n] == DepEffect(manifestDependencies, n, Get(given, n))
      modifies this`optionsDependencies
      ensures forall n :: n in order <==> n in names
      ensures forall i :: 0 <= i < |order| ==> order[i] in es
      ensures forall i, j :: 0 <= i < j < |order| ==> order[i] != order[j]
      ensures optionsDependencies == Replay(old(optionsDependencies), es, order, OptionField)
      ensures found == ReplayWarnings(es, order)
    {
      found := map[];
      order := [];
      var remaining := names;
      while remaining != {}
        invariant remaining <= names
        invariant forall n :: n in order <==> n in names && n !in remaining
        invariant forall i :: 0 <= i < |order| ==> order[i] in es
        invariant forall i, j :: 0 <= i < j < |order| ==> order[i] != order[j]
        invariant optionsDependencies == Replay(old(optionsDependencies), es, order, OptionField)
        invariant found == ReplayWarnings(es, order)
        decreases remaining
      {
        var name :| name in remaining;
        var warning := VisitDependencyName(name, Get(given, name));
        if warning.Some? {
          found := found[name := warning.value];
        }
        assert (order + [name])[..|order|] == order;
        order := order + [name];
        remaining := remaining - {name};
      }
    }

    /** The loop body of applyDependencies for one name and its given value. */
    method VisitDependencyName(name: string, value: Value) returns (warning: Option<string>)
      modifies this`optionsDependencies
      ensures var e := DepEffect(manifestDependencies, name, value);
        && optionsDependencies == Write(old(optionsDependencies), name, e.option)
        && warning == e.warning
    {
      if name !in manifestDependencies {
        return Some(NotAllowed);
      }
      var def := manifestDependencies[name];
      if Truthy(def.multiple) {
        var values := DepValues(value);
        if |values| == 0 {
          optionsDependencies := optionsDependencies[name := Arr([])];
          warning := if def.required != Bool(false) then Some(IsRequired) else None;
          return;
        }
        var list;
        list, warning := CollectStrings(values);
        optionsDependencies := optionsDependencies[name := Arr(list)];
        return;
      }
      optionsDependencies := optionsDependencies[name := Undefined];
      if IsBlank(value) {
        warning := if def.required != Bool(false) then Some(IsRequired) else None;
      } else if !value.Str? {
        warning := Some(MustBeString);
      } else {
        optionsDependencies := optionsDependencies[name := value];
        warning := None;
      }
    }

    /** getConfiguration(true) of this service. */
    function CurrentConfiguration(): (c: map<string, Value>)
      reads this
      ensures c.Keys == manifestConfiguration.Keys
    {
      GetConfiguration(manifestConfiguration, optionsConfiguration)
    }

    /** needsConfiguration() of this service: a required option has neither
        a stored value nor a default, or a required dependency is missing. */
    function NeedsSetup(): (b: bool)
      reads this
      ensures b <==>
        || (exists n :: n in manifestConfiguration && Truthy(manifestConfiguration[n].required)
              && Get(optionsConfiguration, n) == Undefined && manifestConfiguration[n].defaultValue == Undefined)
        || (exists n :: n in manifestDependencies && DepNeeded(manifestDependencies[n], Get(optionsDependencies, n)))
    {
      NeedsConfiguration(manifestConfiguration, optionsConfiguration, manifestDependencies, optionsDependencies)
    }
  }

  /** The item loop of a multiple dependency: string items are kept in order,
      and each other item sets the warning for its index. */
  method CollectStrings(values: seq<Value>) returns (list: seq<Value>, warning: Option<string>)
    ensures list == StringsOf(values) && warning == ItemWarning(values)
  {
    list := [];
    warning := None;
    var i := 0;
    while i < |values|
      invariant 0 <= i <= |values|
      invariant list + StringsOf(values[i..]) == StringsOf(values)
      invariant warning == ItemWarning(values[..i])
    {
      StringsOfStep(values, i);
      ItemWarningStep(values, i);
      if !values[i].Str? {
        warning := Some(IndexWarning(i));
      } else {
        list := list + [values[i]];
      }
      i := i + 1;
    }
    assert values[..i] == values;
  }
}
