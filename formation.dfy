/** models/formation.js: a formation template expanded into machine specs, linted,
    matched against the running instances and booted.  Cloud calls and the remote
    execution of commands are arguments: the registry of running instances is the
    outcome of a load, and running commands on a machine is a function of the
    machine and the commands. */
module Formation {
  import opened Js
  import Queue
  import Instance

  const DefaultType := "t2.nano"
  const DefaultRegion := "us-east-1"

  /** A property of the template, `undefined` when absent. */
  function Get(ps: seq<Prop>, k: string): Value {
    match Lookup(ps, k)
    case None => Undefined
    case Some(v) => v
  }

  /** An object parsed from JSON never repeats a key. */
  predicate DistinctKeys(v: Value) {
    v.Obj? ==> Distinct(Keys(v.props))
  }

  // ---------------------------------------------------------------------------
  // The constructor

  /** `_.defaultsDeep` of `config`: a missing config becomes the default one, and a
      config object gets the default type and region where it lacks them. */
  function DefaultConfig(config: Value): (r: Value)
    ensures config.Undefined? || config.Obj? ==> r.Obj?
    ensures config.Undefined? || config.Obj? ==>
      Lookup(r.props, "type") ==
        (if config.Obj? && !Missing(config.props, "type") then Lookup(config.props, "type") else Some(Str(DefaultType)))
    ensures config.Undefined? || config.Obj? ==>
      Lookup(r.props, "region") ==
        (if config.Obj? && !Missing(config.props, "region") then Lookup(config.props, "region") else Some(Str(DefaultRegion)))
    ensures config.Obj? ==> forall k :: k != "type" && k != "region" ==> Lookup(r.props, k) == Lookup(config.props, k)
    ensures !config.Undefined? && !config.Obj? ==> r == config
  {
    if config.Undefined? then Obj([Prop("type", Str(DefaultType)), Prop("region", Str(DefaultRegion))])
    else if config.Obj? then
      DefaultPair(config.props, "type", Str(DefaultType), "region", Str(DefaultRegion));
      Obj(Default(Default(config.props, "type", Str(DefaultType)), "region", Str(DefaultRegion)))
    else config
  }

  /** Assigning a key keeps the keys of an object distinct. */
  lemma PutKeepsDistinct(ps: seq<Prop>, k: string, v: Value)
    requires Distinct(Keys(ps))
    ensures Distinct(Keys(Put(ps, k, v)))
  {
    if k !in Keys(ps) {
      var ks := Keys(ps) + [k];
      assert Keys(Put(ps, k, v)) == ks;
      forall i, j | 0 <= i < j < |ks| ensures ks[i] != ks[j] {
        if j == |ks| - 1 {
          assert ks[i] in Keys(ps);
        }
      }
    }
  }

  /** The default config repeats no key either. */
  lemma DefaultConfigDistinct(config: Value)
    requires DistinctKeys(config)
    ensures DistinctKeys(DefaultConfig(config))
  {
    if config.Undefined? {
      assert Keys([Prop("type", Str(DefaultType)), Prop("region", Str(DefaultRegion))]) == ["type", "region"];
    } else if config.Obj? {
      PutKeepsDistinct(config.props, "type", Str(DefaultType));
      var withType := Default(config.props, "type", Str(DefaultType));
      PutKeepsDistinct(withType, "region", Str(DefaultRegion));
    }
  }

  /** The template after `_.defaultsDeep`: the default config, and `{}` for missing
      scripts, machines and services; nothing else changes. */
  /** The sections `_.defaultsDeep` gives an empty object when they are missing. */
  const Sections: seq<string> := ["scripts", "machines", "services"]

  function WithDefaults(template: seq<Prop>): (r: seq<Prop>)
    ensures Get(r, "config") == DefaultConfig(Get(template, "config"))
    ensures Get(r, "scripts") == if Missing(template, "scripts") then Obj([]) else Get(template, "scripts")
    ensures Get(r, "machines") == if Missing(template, "machines") then Obj([]) else Get(template, "machines")
    ensures Get(r, "services") == if Missing(template, "services") then Obj([]) else Get(template, "services")
    ensures forall k :: k != "config" && k != "scripts" && k != "machines" && k != "services" ==>
      Lookup(r, k) == Lookup(template, k)
  {
    assert "config" !in Sections by {
      assert |"config"| == 6 && |Sections[0]| == 7 && |Sections[1]| == 8 && |Sections[2]| == 8;
    }
    var r := WithSections(template, "config", DefaultConfig(Get(template, "config")), Sections);
    assert "scripts" != "config" by { assert |"scripts"| != |"config"|; }
    assert "machines" != "config" by { assert |"machines"| != |"config"|; }
    assert "services" != "config" by { assert |"services"| != |"config"|; }
    assert "scripts" in Sections && "machines" in Sections && "services" in Sections;
    r
  }

  /** `config` set to the given value, and `{}` for every missing section. */
  function WithSections(template: seq<Prop>, c: string, config: Value, sections: seq<string>): (r: seq<Prop>)
    requires c !in sections
    ensures Lookup(r, c) == Some(config)
    ensures forall k :: k != c ==>
      Lookup(r, k) == if k in sections && Missing(template, k) then Some(Obj([])) else Lookup(template, k)
  {
    DefaultEmpties(Put(template, c, config), sections)
  }

  /** `_.defaults(ps, {k: {}})` for every key `k` of `ks` */
  function DefaultEmpties(ps: seq<Prop>, ks: seq<string>): (r: seq<Prop>)
    ensures forall k :: Lookup(r, k) == if k in ks && Missing(ps, k) then Some(Obj([])) else Lookup(ps, k)
    decreases |ks|
  {
    if ks == [] then ps
    else DefaultEmpties(Default(ps, ks[0], Obj([])), ks[1..])
  }

  /** An entry of a collection lodash maps over, with the key it passes along: an
      object's own properties, an array's elements or a string's characters. */
  datatype Entry = Entry(key: Value, val: Value)

  function Entries(v: Value): seq<Entry> {
    match v
    case Obj(ps) => seq(|ps|, i requires 0 <= i < |ps| => Entry(Str(ps[i].key), ps[i].val))
    case Arr(es) => seq(|es|, i requires 0 <= i < |es| => Entry(Num(i), es[i]))
    case Str(s) => seq(|s|, i requires 0 <= i < |s| => Entry(Num(i), Str([s[i]])))
    case _ => []
  }

  /** `${name}${machines.length > 1 ? index : ''}` */
  function MachineName(key: Value, index: nat, count: nat): string {
    ToStr(key) + (if count > 1 then NatToString(index) else "")
  }

  /** `_.assign({}, config, machine, {name})` */
  function Machine(config: Value, spec: Value, name: string): (r: seq<Prop>)
    requires DistinctKeys(config) && DistinctKeys(spec)
    ensures Lookup(r, "name") == Some(Str(name))
    ensures forall k :: k != "name" ==>
      Lookup(r, k) == if k in Keys(OwnProps(spec)) then Lookup(OwnProps(spec), k) else Lookup(OwnProps(config), k)
  {
    assert Keys([Prop("name", Str(name))]) == ["name"];
    LookupFoundAll(OwnProps(config));
    var c := Overlay([], OwnProps(config));
    assert forall k :: Lookup(c, k) == Lookup(OwnProps(config), k);
    var m := Overlay(c, OwnProps(spec));
    Overlay(m, [Prop("name", Str(name))])
  }

  /** The specs of an entry whose keys may be read as objects without repeated keys. */
  predicate SpecsDistinct(e: Entry) {
    forall s :: s in Wrap(e.val) ==> DistinctKeys(s)
  }

  predicate AllSpecsDistinct(entries: seq<Entry>) {
    forall i :: 0 <= i < |entries| ==> SpecsDistinct(entries[i])
  }

  /** One machine entry: a spec or a list of specs, each overlaid on the config and
      named after the entry's key and, when there are several, its position. */
  function ExpandEntry(config: Value, e: Entry): (r: seq<Value>)
    requires DistinctKeys(config) && SpecsDistinct(e)
    ensures |r| == |Wrap(e.val)|
    ensures forall i :: 0 <= i < |r| ==> r[i].Obj?
  {
    var list := Wrap(e.val);
    seq(|list|, i requires 0 <= i < |list| => Obj(Machine(config, list[i], MachineName(e.key, i, |list|))))
  }

  /** A single spec, or a list of one, gives one machine named by the key; a list of
      several gives one machine per spec named by the key and its position; every
      machine is its spec overlaid on the config. */
  lemma ExpandEntryShape(config: Value, e: Entry, i: nat)
    requires DistinctKeys(config) && SpecsDistinct(e) && i < |Wrap(e.val)|
    ensures var m := ExpandEntry(config, e)[i];
      Lookup(m.props, "name") ==
        Some(Str(if |Wrap(e.val)| == 1 then ToStr(e.key) else ToStr(e.key) + NatToString(i)))
    ensures var m := ExpandEntry(config, e)[i]; var spec := OwnProps(Wrap(e.val)[i]);
      forall k :: k != "name" ==>
        Lookup(m.props, k) == if k in Keys(spec) then Lookup(spec, k) else Lookup(OwnProps(config), k)
  {
    var list := Wrap(e.val);
    assert list[i] in list;
    assert ExpandEntry(config, e)[i] == Obj(Machine(config, list[i], MachineName(e.key, i, |list|)));
    if |list| == 1 {
      assert MachineName(e.key, i, |list|) == ToStr(e.key) + "";
      assert ToStr(e.key) + "" == ToStr(e.key);
    }
  }

  /** An empty list gives no machine. */
  lemma EmptyListNoMachine(config: Value, key: Value)
    requires DistinctKeys(config)
    ensures ExpandEntry(config, Entry(key, Arr([]))) == []
  {
  }

  /** Every entry's machines as one array each. */
  function Lists(config: Value, entries: seq<Entry>): (r: seq<Value>)
    requires DistinctKeys(config) && AllSpecsDistinct(entries)
    ensures |r| == |entries|
    decreases |entries|
  {
    if entries == [] then []
    else Lists(config, entries[..|entries| - 1]) + [Arr(ExpandEntry(config, entries[|entries| - 1]))]
  }

  /** The machines of all entries, entry after entry. */
  function Expand(config: Value, entries: seq<Entry>): (r: seq<Value>)
    requires DistinctKeys(config) && AllSpecsDistinct(entries)
    ensures forall i :: 0 <= i < |r| ==> r[i].Obj?
    decreases |entries|
  {
    if entries == [] then []
    else Expand(config, entries[..|entries| - 1]) + ExpandEntry(config, entries[|entries| - 1])
  }

  /** A template that parsed from JSON: its config and machine specs repeat no key. */
  predicate WellFormed(template: seq<Prop>) {
    DistinctKeys(Get(template, "config")) &&
    AllSpecsDistinct(Entries(Get(template, "machines"))) &&
    forall e :: e in Entries(TaskDefinitionsSource(template)) ==> DistinctKeys(e.val)
  }

  /** The config every machine is overlaid on. */
  function Config(template: seq<Prop>): Value {
    Get(WithDefaults(template), "config")
  }

  /** The machine entries of the defaulted template. */
  function MachineEntries(template: seq<Prop>): seq<Entry> {
    Entries(Get(WithDefaults(template), "machines"))
  }

  /** The defaulted template is as well formed as the template. */
  lemma DefaultsWellFormed(template: seq<Prop>)
    requires WellFormed(template)
    ensures DistinctKeys(Config(template))
    ensures AllSpecsDistinct(MachineEntries(template))
  {
    DefaultConfigDistinct(Get(template, "config"));
    DefaultMachinesDistinct(template);
  }

  lemma DefaultMachinesDistinct(template: seq<Prop>)
    requires AllSpecsDistinct(Entries(Get(template, "machines")))
    ensures AllSpecsDistinct(MachineEntries(template))
  {
    var machines := Get(WithDefaults(template), "machines");
    if Missing(template, "machines") {
      assert machines == Obj([]);
      assert Entries(machines) == [];
    } else {
      assert machines == Get(template, "machines");
    }
  }

  /** `this.machines`: the entries mapped to their machines, flattened and compacted. */
  function Machines(template: seq<Prop>): seq<Value>
    requires WellFormed(template)
  {
    DefaultsWellFormed(template);
    Compact(Flatten(Lists(Config(template), MachineEntries(template))))
  }

  /** Flattening the expanded entries leaves the machines of each entry in entry order. */
  lemma {:induction false} FlattenExpanded(config: Value, entries: seq<Entry>)
    requires DistinctKeys(config) && AllSpecsDistinct(entries)
    ensures Flatten(Lists(config, entries)) == Expand(config, entries)
    decreases |entries|
  {
    if entries != [] {
      var n := |entries| - 1;
      var init := entries[..n];
      assert AllSpecsDistinct(init) by {
        forall i | 0 <= i < n ensures SpecsDistinct(init[i]) {
          assert init[i] == entries[i];
        }
      }
      FlattenExpanded(config, init);
      var ls := Lists(config, entries);
      assert ls == Lists(config, init) + [Arr(ExpandEntry(config, entries[n]))];
      assert ls[..n] == Lists(config, init);
      assert Flatten(ls) == Flatten(ls[..n]) + Wrap(ls[n]);
    }
  }

  /** `this.machines` is every entry's machines, entry after entry, in template order;
      compacting drops none of them. */
  lemma MachinesInOrder(template: seq<Prop>)
    requires WellFormed(template)
    ensures DistinctKeys(Config(template)) && AllSpecsDistinct(MachineEntries(template))
    ensures Machines(template) == Expand(Config(template), MachineEntries(template))
  {
    DefaultsWellFormed(template);
    CompactExpanded(Config(template), MachineEntries(template));
  }

  /** Compacting the flattened machine lists drops nothing: every machine is an object. */
  lemma CompactExpanded(config: Value, entries: seq<Entry>)
    requires DistinctKeys(config) && AllSpecsDistinct(entries)
    ensures Compact(Flatten(Lists(config, entries))) == Expand(config, entries)
  {
    FlattenExpanded(config, entries);
    ObjectsCompact(Expand(config, entries));
  }

  lemma ObjectsCompact(ms: seq<Value>)
    requires forall i :: 0 <= i < |ms| ==> ms[i].Obj?
    ensures Compact(ms) == ms
  {
    CompactAllTruthy(ms);
  }

  /** What `_.chain(template.taskDefinitions || [])` maps over. */
  function TaskDefinitionsSource(template: seq<Prop>): Value {
    var v := Get(template, "taskDefinitions");
    if Truthy(v) then v else Arr([])
  }

  /** `_.assign({family}, value)` */
  function TaskDefinition(e: Entry): Value
    requires DistinctKeys(e.val)
  {
    Obj(Overlay([Prop("family", e.key)], OwnProps(e.val)))
  }

  /** A definition that does not name its own family takes its key as family. */
  lemma DefinitionFamily(e: Entry)
    requires DistinctKeys(e.val) && "family" !in Keys(OwnProps(e.val))
    ensures Dot(TaskDefinition(e), "family") == e.key
  {
    assert Lookup([Prop("family", e.key)], "family") == Some(e.key);
  }

  function Definitions(entries: seq<Entry>): (r: seq<Value>)
    requires forall e :: e in entries ==> DistinctKeys(e.val)
    ensures |r| == |entries| && forall i :: 0 <= i < |r| ==> r[i] == TaskDefinition(entries[i])
  {
    seq(|entries|, i requires 0 <= i < |entries| => TaskDefinition(entries[i]))
  }

  /** `this.taskDefinitions`: every definition with its key as `family`, filed
      under its family. */
  function TaskDefinitions(template: seq<Prop>): (r: seq<Prop>)
    requires WellFormed(template)
    ensures Distinct(Keys(r))
  {
    KeyBy(Definitions(Entries(TaskDefinitionsSource(template))), "family")
  }

  /** Definitions that do not name their own family are filed under their key. */
  lemma TaskDefinitionFiled(template: seq<Prop>, k: string)
    requires WellFormed(template)
    requires TaskDefinitionsSource(template).Obj?
    requires forall e :: e in Entries(TaskDefinitionsSource(template)) ==> "family" !in Keys(OwnProps(e.val))
    ensures Lookup(TaskDefinitions(template), k).Some? <==> k in Keys(TaskDefinitionsSource(template).props)
    ensures Lookup(TaskDefinitions(template), k).Some? ==> Dot(Lookup(TaskDefinitions(template), k).value, "family") == Str(k)
  {
    var props := TaskDefinitionsSource(template).props;
    assert TaskDefinitionsSource(template) == Obj(props);
    FiledUnderKey(props, k);
  }

  lemma FiledUnderKey(props: seq<Prop>, k: string)
    requires forall e :: e in Entries(Obj(props)) ==> DistinctKeys(e.val) && "family" !in Keys(OwnProps(e.val))
    ensures var found := LastWith(Definitions(Entries(Obj(props))), "family", k);
      && (found.Some? <==> k in Keys(props))
      && (found.Some? ==> Dot(found.value, "family") == Str(k))
  {
    FamiliesAreKeys(props);
    LastWithFamily(Definitions(Entries(Obj(props))), props, k);
  }

  lemma LastWithFamily(defs: seq<Value>, props: seq<Prop>, k: string)
    requires |defs| == |props|
    requires forall i :: 0 <= i < |defs| ==> Dot(defs[i], "family") == Str(props[i].key) && KeyOf(defs[i], "family") == props[i].key
    ensures var found := LastWith(defs, "family", k);
      && (found.Some? <==> k in Keys(props))
      && (found.Some? ==> Dot(found.value, "family") == Str(k))
  {
    var found := LastWith(defs, "family", k);
    if found.Some? {
      var i :| 0 <= i < |defs| && defs[i] == found.value;
      assert Keys(props)[i] == k;
    } else {
      assert forall i :: 0 <= i < |props| ==> Keys(props)[i] != k;
    }
  }

  /** Definitions that do not name their own family take their keys as families. */
  lemma FamiliesAreKeys(props: seq<Prop>)
    requires forall e :: e in Entries(Obj(props)) ==> DistinctKeys(e.val) && "family" !in Keys(OwnProps(e.val))
    ensures var defs := Definitions(Entries(Obj(props)));
      |defs| == |props| &&
      forall i :: 0 <= i < |defs| ==> Dot(defs[i], "family") == Str(props[i].key) && KeyOf(defs[i], "family") == props[i].key
  {
    var entries := Entries(Obj(props));
    forall i | 0 <= i < |props|
      ensures Dot(Definitions(entries)[i], "family") == Str(props[i].key)
    {
      assert entries[i] in entries;
      assert entries[i] == Entry(Str(props[i].key), props[i].val);
      DefinitionFamily(entries[i]);
    }
  }

  datatype Formation = Formation(scripts: Value, machines: seq<Value>, taskDefinitions: seq<Prop>, services: Value)

  /** `new Formation(template)` */
  function New(template: seq<Prop>): (f: Formation)
    requires WellFormed(template)
    ensures f.scripts == (if Missing(template, "scripts") then Obj([]) else Get(template, "scripts"))
    ensures f.services == (if Missing(template, "services") then Obj([]) else Get(template, "services"))
    ensures f.machines == Machines(template)
  {
    var t := WithDefaults(template);
    Formation(Get(t, "scripts"), Machines(template), TaskDefinitions(template), Get(t, "services"))
  }

  // ---------------------------------------------------------------------------
  // lint

  const NamesError := "Names length mismatch, do you have duplicate names?"

  function Names(machines: seq<Value>): (r: seq<Value>)
    ensures |r| == |machines| && forall i :: 0 <= i < |r| ==> r[i] == Dot(machines[i], "name")
  {
    seq(|machines|, i requires 0 <= i < |machines| => Dot(machines[i], "name"))
  }

  /** `lintNames` */
  function LintNames(machines: seq<Value>): Result<Value> {
    if |Compact(Uniq(Names(machines)))| == |machines| then Ok(Undefined) else Err(NamesError)
  }

  /** `_.compact` drops nothing exactly when every value is truthy. */
  lemma {:induction false} CompactKeepsAll(vs: seq<Value>)
    ensures |Compact(vs)| == |vs| <==> forall i :: 0 <= i < |vs| ==> Truthy(vs[i])
    decreases |vs|
  {
    if vs != [] {
      CompactKeepsAll(vs[1..]);
      assert forall i :: 1 <= i < |vs| ==> vs[i] == vs[1..][i - 1];
    }
  }

  /** Names pass exactly when they are distinct and none is empty (or otherwise falsy). */
  lemma LintNamesIff(machines: seq<Value>)
    ensures LintNames(machines).Ok? <==>
      Distinct(Names(machines)) && forall i :: 0 <= i < |machines| ==> Truthy(Names(machines)[i])
  {
    var names := Names(machines);
    var u := Uniq(names);
    UniqKeepsAll(names);
    CompactKeepsAll(u);
    if |Compact(u)| == |machines| {
      assert |u| == |names|;
      forall i | 0 <= i < |names| ensures Truthy(names[i]) {
        assert names[i] in u;
        var j :| 0 <= j < |u| && u[j] == names[i];
      }
    } else if Distinct(names) && forall i :: 0 <= i < |machines| ==> Truthy(names[i]) {
      forall j | 0 <= j < |u| ensures Truthy(u[j]) {
        assert u[j] in names;
      }
    }
  }

  /** `machine.__boot__ || []` */
  function BootScripts(machine: Value): Value {
    var b := Dot(machine, "__boot__");
    if Truthy(b) then b else Arr([])
  }

  /** A `__boot__` entry names a script the formation defines. */
  predicate ScriptDefined(scripts: Value, name: Value) {
    Truthy(Dot(scripts, ToStr(name)))
  }

  predicate MachineScriptsOk(machine: Value, scripts: Value) {
    BootScripts(machine).Arr? && forall s :: s in BootScripts(machine).elems ==> ScriptDefined(scripts, s)
  }

  /** The first `__boot__` entry not defined in the scripts. */
  function CheckScripts(names: seq<Value>, scripts: Value): (r: Result<Value>)
    ensures r.Ok? <==> forall s :: s in names ==> ScriptDefined(scripts, s)
    ensures r.Err? ==> exists s :: (s in names && !ScriptDefined(scripts, s) &&
                       r.msg == "Script \"" + ToStr(s) + "\" not found in formation.")
    decreases |names|
  {
    if names == [] then Ok(Undefined)
    else if !ScriptDefined(scripts, names[0]) then Err("Script \"" + ToStr(names[0]) + "\" not found in formation.")
    else
      assert names == [names[0]] + names[1..];
      CheckScripts(names[1..], scripts)
  }

  /** `lintScripts`: machine after machine, a `__boot__` that is not an array or that
      names an undefined script fails. */
  function LintScripts(machines: seq<Value>, scripts: Value): (r: Result<Value>)
    ensures r.Ok? <==> forall i :: 0 <= i < |machines| ==> MachineScriptsOk(machines[i], scripts)
    ensures r.Err? ==> exists i :: (0 <= i < |machines| && !MachineScriptsOk(machines[i], scripts) &&
      (r.msg == "Non-array \"__boot__\" found for " + ToStr(machines[i]) ||
       (BootScripts(machines[i]).Arr? &&
        exists s :: (s in BootScripts(machines[i]).elems && !ScriptDefined(scripts, s) &&
          r.msg == "Script \"" + ToStr(s) + "\" not found in formation."))))
    decreases |machines|
  {
    if machines == [] then Ok(Undefined)
    else
      var boot := BootScripts(machines[0]);
      if !boot.Arr? then Err("Non-array \"__boot__\" found for " + ToStr(machines[0]))
      else
        match CheckScripts(boot.elems, scripts)
        case Err(m) => Err(m)
        case Ok(_) =>
          var rest := LintScripts(machines[1..], scripts);
          assert forall i :: 1 <= i < |machines| ==> machines[i] == machines[1..][i - 1];
          rest
  }

  /** `lint` */
  function Lint(f: Formation): (r: Result<Value>)
    ensures r.Ok? <==>
      Distinct(Names(f.machines)) && (forall i :: 0 <= i < |f.machines| ==> Truthy(Names(f.machines)[i])) &&
      forall i :: 0 <= i < |f.machines| ==> MachineScriptsOk(f.machines[i], f.scripts)
  {
    LintNamesIff(f.machines);
    match LintNames(f.machines)
    case Err(m) => Err(m)
    case Ok(_) => LintScripts(f.machines, f.scripts)
  }

  // ---------------------------------------------------------------------------
  // instances

  const NoIpError := "No ip found for instance"

  /** `namedMachines[name]` is a machine: some declared machine has that name. */
  predicate DeclaredName(machines: seq<Value>, name: string) {
    match Lookup(KeyBy(machines, "name"), name)
    case None => false
    case Some(m) => Truthy(m)
  }

  /** The running instances whose name satisfies `declared`, in load order. */
  function Declared(running: seq<Value>, declared: string -> bool): (r: seq<Value>)
    ensures |r| <= |running|
    decreases |running|
  {
    if running == [] then []
    else
      var init := Declared(running[..|running| - 1], declared);
      var x := running[|running| - 1];
      if declared(KeyOf(x, "name")) then init + [x] else init
  }

  /** An instance is kept exactly when it is running under a declared name. */
  lemma {:induction false} DeclaredMembers(running: seq<Value>, declared: string -> bool, x: Value)
    ensures x in Declared(running, declared) <==> x in running && declared(KeyOf(x, "name"))
    decreases |running|
  {
    if running != [] {
      var n := |running|;
      DeclaredMembers(running[..n - 1], declared, x);
      assert running == running[..n - 1] + [running[n - 1]];
    }
  }

  /** Keeping only declared instances does not change the last instance filed
      under a declared name, and leaves none under an undeclared one. */
  lemma {:induction false} DeclaredLastWith(running: seq<Value>, declared: string -> bool, k: string)
    ensures LastWith(Declared(running, declared), "name", k) ==
      if declared(k) then LastWith(running, "name", k) else None
    decreases |running|
  {
    if running != [] {
      DeclaredLastWith(running[..|running| - 1], declared, k);
      var init := Declared(running[..|running| - 1], declared);
      var x := running[|running| - 1];
      if declared(KeyOf(x, "name")) {
        assert (init + [x])[..|init|] == init;
      }
    }
  }

  /** The name test `instances()` applies: `namedMachines[name]` is a machine. */
  function IsDeclared(machines: seq<Value>): string -> bool {
    name => DeclaredName(machines, name)
  }

  /** One load of `instances()`: every running instance must have an ip; the ones
      with a declared name are filed under it. */
  function LoadOnce(found: Result<seq<Value>>, machines: seq<Value>): (r: Result<seq<Prop>>)
    ensures found.Err? ==> r == Err(found.msg)
    ensures found.Ok? ==>
      (r.Err? <==> exists i :: 0 <= i < |found.value| && !Truthy(Dot(found.value[i], "ip")))
    ensures found.Ok? && r.Err? ==> r.msg == NoIpError
  {
    match found
    case Err(m) => Err(m)
    case Ok(running) =>
      if exists i :: 0 <= i < |running| && !Truthy(Dot(running[i], "ip")) then Err(NoIpError)
      else Ok(KeyBy(Declared(running, IsDeclared(machines)), "name"))
  }

  /** The filter `instances()` hands to `Instance.find`: `{state: 'running'}`. */
  function StateRunning(): seq<Prop> {
    [Prop("state", Str("running"))]
  }

  /** One load of `instances()` from what `Instance.load` settles with. */
  function Registry(load: Result<seq<Value>>, machines: seq<Value>): Result<seq<Prop>> {
    LoadOnce(Instance.Find(load, StateRunning()), machines)
  }

  /** A loaded registry holds, under each declared name, the last running instance
      with that name, and nothing under any other name. */
  lemma RegistryByName(load: Result<seq<Value>>, machines: seq<Value>, k: string)
    requires Registry(load, machines).Ok?
    ensures load.Ok?
    ensures Lookup(Registry(load, machines).value, k) ==
      if DeclaredName(machines, k) then LastWith(Instance.Select(load.value, StateRunning()), "name", k) else None
  {
    DeclaredLastWith(Instance.Select(load.value, StateRunning()), IsDeclared(machines), k);
  }

  /** Everything filed in a loaded registry is a loaded instance that the
      `{state: 'running'}` filter keeps, that has an ip, and whose name is the
      declared name it is filed under. */
  lemma RegistryRunning(load: Result<seq<Value>>, machines: seq<Value>, k: string)
    requires Registry(load, machines).Ok? && Lookup(Registry(load, machines).value, k).Some?
    ensures load.Ok?
    ensures var v := Lookup(Registry(load, machines).value, k).value;
      v in load.value && Instance.Kept(v, StateRunning()) && Truthy(Dot(v, "ip")) &&
      KeyOf(v, "name") == k && DeclaredName(machines, k)
  {
    RegistryByName(load, machines, k);
    var found := Instance.Select(load.value, StateRunning());
    var v := Lookup(Registry(load, machines).value, k).value;
    assert v in found;
    var i :| 0 <= i < |found| && found[i] == v;
    assert Truthy(Dot(found[i], "ip"));
  }

  /** `instances()`: a failed load is retried once, and a second failure is final. */
  function Instances(first: Result<seq<Value>>, second: Result<seq<Value>>, machines: seq<Value>): (r: Result<seq<Prop>>)
    ensures Registry(first, machines).Ok? ==> r == Registry(first, machines)
    ensures Registry(first, machines).Err? ==> r == Registry(second, machines)
  {
    match Registry(first, machines)
    case Ok(reg) => Ok(reg)
    case Err(_) => Registry(second, machines)
  }

  // ---------------------------------------------------------------------------
  // createInstances

  predicate AlphaNum(c: char) {
    'a' <= c <= 'z' || 'A' <= c <= 'Z' || '0' <= c <= '9'
  }

  /** A key that matches /^__[a-zA-Z0-9]+__$/: an option of the formation, not a
      parameter of the cloud. */
  predicate OptionKey(k: string) {
    |k| >= 5 && k[..2] == "__" && k[|k| - 2..] == "__" && forall i :: 2 <= i < |k| - 2 ==> AlphaNum(k[i])
  }

  /** `__boot__` is an option; `name` and `__boot` are not. */
  lemma OptionKeys()
    ensures OptionKey("__boot__")
    ensures !OptionKey("name") && !OptionKey("__boot") && !OptionKey("____")
  {
    assert "__boot__"[..2] == "__" && "__boot__"[6..] == "__";
    assert "__boot"[4..] != "__" by { assert "__boot"[4..][0] == 'o'; }
  }

  /** `_.omitBy(machine, (value, key) => optionRegex.test(key))` */
  function StripOptions(ps: seq<Prop>): seq<Prop>
    decreases |ps|
  {
    if ps == [] then []
    else if OptionKey(ps[0].key) then StripOptions(ps[1..])
    else [ps[0]] + StripOptions(ps[1..])
  }

  /** Stripping drops exactly the option keys and keeps every other property. */
  lemma {:induction false} StripOptionsOmits(ps: seq<Prop>)
    ensures forall k :: Lookup(StripOptions(ps), k) == if OptionKey(k) then None else Lookup(ps, k)
    ensures forall k :: k in Keys(StripOptions(ps)) ==> !OptionKey(k)
    decreases |ps|
  {
    if ps != [] {
      var rest := StripOptions(ps[1..]);
      StripOptionsOmits(ps[1..]);
      KeysCons(ps);
      if !OptionKey(ps[0].key) {
        KeysCons([ps[0]] + rest);
        assert ([ps[0]] + rest)[1..] == rest;
      }
    }
  }

  /** The filter `createInstances` passes to `findOne`. */
  function RunningFilter(machine: Value): seq<Prop> {
    [Prop("name", Dot(machine, "name")), Prop("state", Str("running"))]
  }

  /** `createInstances` as written, machine after machine: `findOne` with the
      name-or-running filter either fails, failing the whole call, or returns an
      instance, which is always truthy; a machine is created only after a falsy
      instance. */
  function CreatedAsWritten(machines: seq<Value>, load: Result<seq<Value>>, create: Value -> Result<Value>): Result<seq<Value>>
    decreases |machines|
  {
    if machines == [] then Ok([])
    else
      var m := machines[|machines| - 1];
      match CreatedAsWritten(machines[..|machines| - 1], load, create)
      case Err(e) => Err(e)
      case Ok(created) =>
        match Instance.FindOne(load, RunningFilter(m))
        case Err(e) => Err(e)
        case Ok(instance) =>
          if Truthy(instance) then Ok(created)
          else
            match create(Params(m))
            case Err(e) => Err(e)
            case Ok(_) => Ok(created + [Dot(m, "name")])
  }

  /** As written, `createInstances` never creates anything. */
  lemma {:induction false} AsWrittenNeverCreates(machines: seq<Value>, load: Result<seq<Value>>, create: Value -> Result<Value>)
    ensures CreatedAsWritten(machines, load, create).Ok? ==> CreatedAsWritten(machines, load, create).value == []
    decreases |machines|
  {
    if machines != [] {
      AsWrittenNeverCreates(machines[..|machines| - 1], load, create);
      var f := Instance.FindOne(load, RunningFilter(machines[|machines| - 1]));
      if f.Ok? {
        assert f.value in Instance.Find(load, RunningFilter(machines[|machines| - 1])).value;
      }
    }
  }

  /** With no instance running, a formation of one machine fails to provision
      instead of creating the machine. */
  lemma AsWrittenFailsOnEmptyAccount(machine: Value, create: Value -> Result<Value>)
    ensures CreatedAsWritten([machine], Ok([]), create) == Err(Instance.FindOneError)
  {
    assert [machine][..0] == [];
    assert Instance.Find(Ok([]), RunningFilter(machine)) == Ok([]);
  }

  /** With no instance running, provisioning creates the one machine. */
  lemma CreatesOnEmptyAccount(machine: Value, create: Value -> Result<Value>)
    requires create(Params(machine)).Ok?
    ensures Created([machine], [], create) == Ok([Dot(machine, "name")])
  {
    assert [machine][..0] == [];
    assert Created([], [], create) == Ok([]);
    assert !HasRunning([], machine);
    assert [] + [Dot(machine, "name")] == [Dot(machine, "name")];
  }

  /** Some loaded instance is running under the machine's name. */
  predicate HasRunning(running: seq<Value>, machine: Value) {
    exists x :: x in running && Dot(x, "name") == Dot(machine, "name") && Dot(x, "state") == Str("running")
  }

  /** The machines that have no running instance, by name, in declared order. */
  function Unprovisioned(machines: seq<Value>, running: seq<Value>): (r: seq<Value>)
    ensures forall n :: n in r <==> exists i :: 0 <= i < |machines| && !HasRunning(running, machines[i]) && n == Dot(machines[i], "name")
    decreases |machines|
  {
    if machines == [] then []
    else
      var init := machines[..|machines| - 1];
      var m := machines[|machines| - 1];
      assert forall i :: 0 <= i < |init| ==> init[i] == machines[i];
      Unprovisioned(init, running) + (if HasRunning(running, m) then [] else [Dot(m, "name")])
  }

  /** `createInstances` as evidently intended, machine after machine: a machine
      with no running instance of its name is created from its spec without the
      formation's options, and its name is pushed. */
  function Created(machines: seq<Value>, running: seq<Value>, create: Value -> Result<Value>): Result<seq<Value>>
    decreases |machines|
  {
    if machines == [] then Ok([])
    else
      var m := machines[|machines| - 1];
      match Created(machines[..|machines| - 1], running, create)
      case Err(e) => Err(e)
      case Ok(created) =>
        if HasRunning(running, m) then Ok(created)
        else
          match create(Params(m))
          case Err(e) => Err(e)
          case Ok(_) => Ok(created + [Dot(m, "name")])
  }

  /** The spec a machine is created from: its own properties without the options. */
  function Params(machine: Value): Value {
    Obj(StripOptions(OwnProps(machine)))
  }

  /** Provisioning creates exactly the machines with no running instance, in
      declared order. */
  lemma {:induction false} CreatedExactlyUnprovisioned(machines: seq<Value>, running: seq<Value>, create: Value -> Result<Value>)
    requires Created(machines, running, create).Ok?
    ensures Created(machines, running, create).value == Unprovisioned(machines, running)
    decreases |machines|
  {
    if machines != [] {
      var init := machines[..|machines| - 1];
      CreatedExactlyUnprovisioned(init, running, create);
    }
  }

  /** Provisioning succeeds exactly when every creation it attempts does. */
  lemma CreatedIffCreationsSucceed(machines: seq<Value>, running: seq<Value>, create: Value -> Result<Value>)
    ensures Created(machines, running, create).Ok? <==>
      forall i :: 0 <= i < |machines| && !HasRunning(running, machines[i]) ==> create(Params(machines[i])).Ok?
  {
    if Created(machines, running, create).Ok? {
      CreatedOkAttemptsOk(machines, running, create);
    } else if forall i :: 0 <= i < |machines| && !HasRunning(running, machines[i]) ==> create(Params(machines[i])).Ok? {
      AttemptsOkCreatedOk(machines, running, create);
    }
  }

  lemma {:induction false} CreatedOkAttemptsOk(machines: seq<Value>, running: seq<Value>, create: Value -> Result<Value>)
    requires Created(machines, running, create).Ok?
    ensures forall i :: 0 <= i < |machines| && !HasRunning(running, machines[i]) ==> create(Params(machines[i])).Ok?
    decreases |machines|
  {
    if machines != [] {
      var n := |machines| - 1;
      var init := machines[..n];
      var last := machines[n];
      assert Created(init, running, create).Ok?;
      assert !HasRunning(running, last) ==> create(Params(last)).Ok?;
      CreatedOkAttemptsOk(init, running, create);
      forall i | 0 <= i < |machines| && !HasRunning(running, machines[i])
        ensures create(Params(machines[i])).Ok?
      {
        if i < n {
          assert init[i] == machines[i];
        }
      }
    }
  }

  lemma {:induction false} AttemptsOkCreatedOk(machines: seq<Value>, running: seq<Value>, create: Value -> Result<Value>)
    requires forall i :: 0 <= i < |machines| && !HasRunning(running, machines[i]) ==> create(Params(machines[i])).Ok?
    ensures Created(machines, running, create).Ok?
    decreases |machines|
  {
    if machines != [] {
      var n := |machines| - 1;
      var init := machines[..n];
      forall i | 0 <= i < n && !HasRunning(running, init[i])
        ensures create(Params(init[i])).Ok?
      {
        assert init[i] == machines[i];
      }
      AttemptsOkCreatedOk(init, running, create);
    }
  }

  /** Once provisioning failed, the machines after that change nothing. */
  lemma {:induction false} CreatedErrStays(machines: seq<Value>, running: seq<Value>, create: Value -> Result<Value>, i: nat)
    requires i <= |machines| && Created(machines[..i], running, create).Err?
    ensures Created(machines, running, create) == Created(machines[..i], running, create)
    decreases |machines|
  {
    if i < |machines| {
      var n := |machines| - 1;
      assert machines[..n][..i] == machines[..i];
      CreatedErrStays(machines[..n], running, create, i);
    } else {
      assert machines[..i] == machines;
    }
  }

  /** The provisioning loop: `createdNames` grows by the name of every machine
      created. */
  method CreateInstances(machines: seq<Value>, running: seq<Value>, create: Value -> Result<Value>)
    returns (createdNames: Result<seq<Value>>)
    ensures createdNames == Created(machines, running, create)
  {
    var names: seq<Value> := [];
    var i := 0;
    while i < |machines|
      invariant i <= |machines|
      invariant Created(machines[..i], running, create) == Ok(names)
    {
      var m := machines[i];
      assert machines[..i + 1][..i] == machines[..i] && machines[..i + 1][i] == m;
      if !HasRunning(running, m) {
        var instance := create(Params(m));
        if instance.Err? {
          CreatedErrStays(machines, running, create, i + 1);
          return Err(instance.msg);
        }
        names := names + [Dot(m, "name")];
      }
      i := i + 1;
    }
    assert machines[..i] == machines;
    createdNames := Ok(names);
  }

  /** `_.findIndex(machines, ['name', name])` */
  function Position(machines: seq<Value>, name: Value): (p: int)
    ensures -1 <= p < |machines|
    decreases |machines|
  {
    if machines == [] then -1
    else if Dot(machines[0], "name") == name then 0
    else
      var p := Position(machines[1..], name);
      if p == -1 then -1 else p + 1
  }

  /** The position of a name is that of the first machine with that name, or -1. */
  lemma {:induction false} PositionFirst(machines: seq<Value>, name: Value)
    ensures var p := Position(machines, name);
      (p >= 0 ==> Dot(machines[p], "name") == name) &&
      (forall j :: 0 <= j < |machines| && (p == -1 || j < p) ==> Dot(machines[j], "name") != name)
    decreases |machines|
  {
    if machines != [] && Dot(machines[0], "name") != name {
      PositionFirst(machines[1..], name);
      assert forall j :: 1 <= j < |machines| ==> machines[j] == machines[1..][j - 1];
    }
  }

  predicate SortedByPosition(names: seq<Value>, machines: seq<Value>) {
    forall i, j :: 0 <= i < j < |names| ==> Position(machines, names[i]) <= Position(machines, names[j])
  }

  /** `name` placed before the first name that does not come before it. */
  function InsertByPosition(name: Value, sorted: seq<Value>, machines: seq<Value>): (r: seq<Value>)
    requires SortedByPosition(sorted, machines)
    ensures SortedByPosition(r, machines)
    ensures multiset(r) == multiset(sorted) + multiset{name}
    decreases |sorted|
  {
    if sorted == [] || Position(machines, name) <= Position(machines, sorted[0]) then
      SortedCons(name, sorted, machines);
      [name] + sorted
    else
      var first := sorted[0];
      var rest := InsertByPosition(name, sorted[1..], machines);
      assert sorted == [first] + sorted[1..];
      FirstBeforeInserted(name, sorted, rest, machines);
      SortedCons(first, rest, machines);
      [first] + rest
  }

  /** A name that comes no later than every name of a sorted list can go in front. */
  lemma SortedCons(name: Value, sorted: seq<Value>, machines: seq<Value>)
    requires SortedByPosition(sorted, machines)
    requires forall x :: x in sorted ==> Position(machines, name) <= Position(machines, x)
    ensures SortedByPosition([name] + sorted, machines)
  {
    var r := [name] + sorted;
    assert forall j :: 0 < j < |r| ==> r[j] == sorted[j - 1] && r[j] in sorted;
  }

  /** The head of a sorted list comes no later than any name of its tail with a
      later name inserted. */
  lemma FirstBeforeInserted(name: Value, sorted: seq<Value>, rest: seq<Value>, machines: seq<Value>)
    requires sorted != [] && SortedByPosition(sorted, machines)
    requires Position(machines, sorted[0]) < Position(machines, name)
    requires multiset(rest) == multiset(sorted[1..]) + multiset{name}
    ensures forall x :: x in rest ==> Position(machines, sorted[0]) <= Position(machines, x)
  {
    forall x | x in rest ensures Position(machines, sorted[0]) <= Position(machines, x) {
      assert x in multiset(rest);
      if x != name {
        var j :| 0 <= j < |sorted[1..]| && sorted[1..][j] == x;
        assert sorted[j + 1] == x;
      }
    }
  }

  /** `_.sortBy(names, name => _.findIndex(machines, ['name', name]))` */
  function SortByPosition(names: seq<Value>, machines: seq<Value>): (r: seq<Value>)
    ensures SortedByPosition(r, machines)
    ensures multiset(r) == multiset(names)
    decreases |names|
  {
    if names == [] then []
    else
      assert names == [names[0]] + names[1..];
      InsertByPosition(names[0], SortByPosition(names[1..], machines), machines)
  }

  // ---------------------------------------------------------------------------
  // exec, run and boot

  /** `instance.command(commands, {i: instances})`, issued for the machine `name`. */
  datatype Call = Call(name: Value, commands: Value)

  /** What running commands on an instance settles with. */
  type Command = (Value, Value) -> Result<Value>

  const NoCommandsError := "No commands supplied to exec"
  const NoNamesError := "No instance names supplied, include them as the first argument"

  /** `if (_.isString(names)) names = [names]`, then what `_.map` visits. */
  function Listed(names: Value): seq<Value> {
    if names.Str? then [names] else Elements(names)
  }

  /** `if (_.isString(commands)) commands = [commands]` */
  function Commands(commands: Value): Value {
    if commands.Str? then Arr([commands]) else commands
  }

  /** The registry holds a (truthy) instance for the name. */
  predicate Resolved(instances: seq<Prop>, name: Value) {
    match Lookup(instances, ToStr(name))
    case None => false
    case Some(x) => Truthy(x)
  }

  function AsArray(q: Queue.Settled<Call, seq<Value>>): (r: Queue.Settled<Call, Value>)
    ensures r.effects == q.effects && (r.outcome.Ok? <==> q.outcome.Ok?)
    ensures q.outcome.Ok? ==> r.outcome.value == Arr(q.outcome.value)
  {
    match q.outcome
    case Err(m) => Queue.Settled(q.effects, Err(m))
    case Ok(rs) => Queue.Settled(q.effects, Ok(Arr(rs)))
  }

  /** One name of `exec`. */
  function ExecStep(instances: seq<Prop>, commands: Value, command: Command): Queue.Step<Value, Call, Value> {
    (name: Value, k: nat, h: seq<Call>) =>
      if Resolved(instances, name) then
        Queue.Settled([Call(name, commands)], command(Lookup(instances, ToStr(name)).value, commands))
      else Queue.Settled([], Err(MissingInstanceError(name)))
  }

  function MissingInstanceError(name: Value): string {
    "Unable to find instance for name \"" + ToStr(name) + "\""
  }

  /** The first name, by position, that the registry does not resolve. */
  function FirstUnresolved(instances: seq<Prop>, names: seq<Value>): (r: Option<nat>)
    ensures r.None? <==> forall i :: 0 <= i < |names| ==> Resolved(instances, names[i])
    ensures r.Some? ==> r.value < |names| && !Resolved(instances, names[r.value])
    ensures r.Some? ==> forall i :: 0 <= i < r.value ==> Resolved(instances, names[i])
    decreases |names|
  {
    if names == [] then None
    else if !Resolved(instances, names[0]) then Some(0)
    else
      match FirstUnresolved(instances, names[1..])
      case None => None
      case Some(j) =>
        assert forall i :: 1 <= i <= j ==> names[i] == names[1..][i - 1];
        Some(j + 1)
  }

  /** `exec(commands, names)`: the commands run on every named instance, one result
      per name.  The `_.map` that starts the commands throws at the first name
      without an instance, after starting the commands of the names before it and
      before any of them settles, so a missing instance decides the outcome. */
  function Exec(commands: Value, names: Value, reg: Result<seq<Prop>>, command: Command): Queue.Settled<Call, Value> {
    var cs := Commands(commands);
    var ns := Listed(names);
    if !Truthy(cs) then Queue.Settled([], Err(NoCommandsError))
    else
      match reg
      case Err(m) => Queue.Settled([], Err(m))
      case Ok(instances) =>
        match FirstUnresolved(instances, ns)
        case Some(j) => Queue.Settled(Calls(ns[..j], cs), Err(MissingInstanceError(ns[j])))
        case None => AsArray(Queue.Serial(ns, ExecStep(instances, cs, command)))
  }

  /** A name without an instance fails `exec` with "Unable to find instance for name",
      whatever the commands started for the names before it settle with. */
  lemma ExecMissingWins(commands: Value, names: seq<Value>, instances: seq<Prop>, command: Command, j: nat)
    requires Truthy(Commands(commands))
    requires j < |names| && !Resolved(instances, names[j])
    requires forall i :: 0 <= i < j ==> Resolved(instances, names[i])
    ensures Exec(commands, Arr(names), Ok(instances), command) ==
      Queue.Settled(Calls(names[..j], Commands(commands)), Err("Unable to find instance for name \"" + ToStr(names[j]) + "\""))
  {
    assert Listed(Arr(names)) == names;
  }

  /** The calls `exec` issues when it succeeds: one per name, in order. */
  function Calls(names: seq<Value>, commands: Value): (r: seq<Call>)
    ensures |r| == |names| && forall i :: 0 <= i < |r| ==> r[i] == Call(names[i], commands)
  {
    seq(|names|, i requires 0 <= i < |names| => Call(names[i], commands))
  }

  function OneCall(commands: Value): Value -> seq<Call> {
    (name: Value) => [Call(name, commands)]
  }

  lemma {:induction false} ConcatOneCall(names: seq<Value>, commands: Value)
    ensures Queue.ConcatMap(names, OneCall(commands)) == Calls(names, commands)
    decreases |names|
  {
    if names != [] {
      ConcatOneCall(names[..|names| - 1], commands);
    }
  }

  /** `exec` succeeds only when there are commands, the registry loaded and every
      name has an instance; it then runs the commands once per name, in order. */
  lemma ExecCalls(commands: Value, names: Value, reg: Result<seq<Prop>>, command: Command)
    requires Exec(commands, names, reg, command).outcome.Ok?
    ensures Truthy(Commands(commands)) && reg.Ok?
    ensures forall n :: n in Listed(names) ==> Resolved(reg.value, n)
    ensures Exec(commands, names, reg, command).effects == Calls(Listed(names), Commands(commands))
  {
    var cs := Commands(commands);
    var ns := Listed(names);
    var step := ExecStep(reg.value, cs, command);
    Queue.SerialMeetsSpec(ns, step);
    forall n | n in ns ensures Resolved(reg.value, n) {
      var i :| 0 <= i < |ns| && ns[i] == n;
      assert Queue.StepAt(ns, step, i).outcome.Ok?;
    }
    Queue.SerialEffects(ns, step, OneCall(cs));
    ConcatOneCall(ns, cs);
  }

  /** `this.scripts[scriptName] || scriptName` */
  function ScriptFor(scripts: Value, scriptName: Value): Value {
    if ScriptDefined(scripts, scriptName) then Dot(scripts, ToStr(scriptName)) else scriptName
  }

  /** `run(scriptName, names)`: the named script, or the name itself taken as an
      inline command, executed on the names. */
  function Run(scriptName: Value, names: Value, scripts: Value, reg: Result<seq<Prop>>, command: Command): Queue.Settled<Call, Value> {
    Exec(ScriptFor(scripts, scriptName), names, reg, command)
  }

  /** The calls a successful `run` issues. */
  function RunCalls(scripts: Value, scriptName: Value, names: Value): seq<Call> {
    Calls(Listed(names), Commands(ScriptFor(scripts, scriptName)))
  }

  /** A successful `run` executes the script's commands when the formation defines
      the script, and the script name itself otherwise, once per name. */
  lemma RunCallsLemma(scriptName: Value, names: Value, scripts: Value, reg: Result<seq<Prop>>, command: Command)
    requires Run(scriptName, names, scripts, reg, command).outcome.Ok?
    ensures Run(scriptName, names, scripts, reg, command).effects ==
      Calls(Listed(names), Commands(if ScriptDefined(scripts, scriptName) then Dot(scripts, ToStr(scriptName)) else scriptName))
  {
    ExecCalls(ScriptFor(scripts, scriptName), names, reg, command);
  }

  /** The machine declared under a name. */
  function MachineOf(machines: seq<Value>, name: Value): Value {
    match Lookup(KeyBy(machines, "name"), ToStr(name))
    case None => Undefined
    case Some(m) => m
  }

  /** The `k`-th `__boot__` script of a name runs as an `exec` of its own, whose
      `instances()` settles with `regs(k)`. */
  function ScriptStep(name: Value, scripts: Value, regs: nat -> Result<seq<Prop>>, command: Command)
    : Queue.Step<Value, Call, Value>
  {
    (scriptName: Value, k: nat, h: seq<Call>) => Run(scriptName, name, scripts, regs(k), command)
  }

  /** One name of `boot`: its instance and machine must exist, then its `__boot__`
      scripts run one after the other. */
  function BootMachine(machines: seq<Value>, scripts: Value, regs: nat -> Result<seq<Prop>>, instances: seq<Prop>,
                       command: Command, name: Value): Queue.Settled<Call, Value>
  {
    if !Resolved(instances, name) then Queue.Settled([], Err("Unable to find instance by name \"" + ToStr(name) + "\""))
    else if !Truthy(MachineOf(machines, name)) then Queue.Settled([], Err("Unable to find machine by name \"" + ToStr(name) + "\""))
    else AsArray(Queue.Serial(Elements(BootScripts(MachineOf(machines, name))), ScriptStep(name, scripts, regs, command)))
  }

  /** The `i`-th name of the queue; its scripts' registries are `regs(i)`. */
  function MachineStep(machines: seq<Value>, scripts: Value, regs: nat -> nat -> Result<seq<Prop>>, instances: seq<Prop>,
                       command: Command)
    : Queue.Step<Value, Call, Value>
  {
    (name: Value, i: nat, h: seq<Call>) => BootMachine(machines, scripts, regs(i), instances, command, name)
  }

  /** `boot(names)`: `default` runs on every name, then, name after name, each of
      the machine's `__boot__` scripts in order.  Every `exec` calls `instances()`
      afresh: `reg` is what it settles with for `default`, `loaded` for the reload
      between `default` and the queue, and `regs(i)(k)` for the `k`-th `__boot__`
      script of the `i`-th name. */
  function Boot(names: Value, machines: seq<Value>, scripts: Value, reg: Result<seq<Prop>>, loaded: Result<seq<Prop>>,
                regs: nat -> nat -> Result<seq<Prop>>, command: Command)
    : Queue.Settled<Call, Value>
  {
    var ns := if names.Undefined? then Arr([]) else names;
    if !Truthy(ns) then Queue.Settled([], Err(NoNamesError))
    else if !((ns.Arr? && ns.elems != []) || ns.Str?) then Queue.Settled([], Ok(Undefined))
    else
      var d := Run(Str("default"), ns, scripts, reg, command);
      match d.outcome
      case Err(m) => d
      case Ok(_) =>
        match loaded
        case Err(m) => Queue.Settled(d.effects, Err(m))
        case Ok(instances) =>
          var q := AsArray(Queue.Serial(Elements(ns), MachineStep(machines, scripts, regs, instances, command)));
          Queue.Settled(d.effects + q.effects, q.outcome)
  }

  /** Booting no names runs nothing; null names are refused. */
  lemma BootNothing(machines: seq<Value>, scripts: Value, reg: Result<seq<Prop>>, loaded: Result<seq<Prop>>,
                   regs: nat -> nat -> Result<seq<Prop>>, command: Command)
    ensures Boot(Undefined, machines, scripts, reg, loaded, regs, command) == Queue.Settled([], Ok(Undefined))
    ensures Boot(Arr([]), machines, scripts, reg, loaded, regs, command) == Queue.Settled([], Ok(Undefined))
    ensures Boot(Null, machines, scripts, reg, loaded, regs, command) == Queue.Settled([], Err(NoNamesError))
  {
  }

  /** The calls the `__boot__` scripts of a name issue. */
  function BootScriptCalls(machines: seq<Value>, scripts: Value, name: Value): seq<Call> {
    Queue.ConcatMap(Elements(BootScripts(MachineOf(machines, name))), ScriptCalls(scripts, name))
  }

  function BootCalls(machines: seq<Value>, scripts: Value): Value -> seq<Call> {
    (name: Value) => BootScriptCalls(machines, scripts, name)
  }

  function ScriptCalls(scripts: Value, name: Value): Value -> seq<Call> {
    (scriptName: Value) => RunCalls(scripts, scriptName, name)
  }

  /** A name whose step succeeded ran its `__boot__` scripts in order. */
  lemma MachineStepCalls(machines: seq<Value>, scripts: Value, regs: nat -> Result<seq<Prop>>, instances: seq<Prop>,
                         command: Command, name: Value)
    requires BootMachine(machines, scripts, regs, instances, command, name).outcome.Ok?
    ensures Resolved(instances, name) && Truthy(MachineOf(machines, name))
    ensures BootMachine(machines, scripts, regs, instances, command, name).effects == BootCalls(machines, scripts)(name)
  {
    var boot := Elements(BootScripts(MachineOf(machines, name)));
    var step := ScriptStep(name, scripts, regs, command);
    Queue.SerialMeetsSpec(boot, step);
    forall i | 0 <= i < |boot| && Queue.StepAt(boot, step, i).outcome.Ok?
      ensures Queue.StepAt(boot, step, i).effects == ScriptCalls(scripts, name)(boot[i])
    {
      RunCallsLemma(boot[i], name, scripts, regs(i), command);
    }
    Queue.SerialEffects(boot, step, ScriptCalls(scripts, name));
  }

  /** How a successful boot of a non-empty list settles: `default`, then the queue over the names. */
  lemma BootUnfold(names: seq<Value>, machines: seq<Value>, scripts: Value, reg: Result<seq<Prop>>,
                   loaded: Result<seq<Prop>>, regs: nat -> nat -> Result<seq<Prop>>, command: Command)
    requires names != [] && Boot(Arr(names), machines, scripts, reg, loaded, regs, command).outcome.Ok?
    ensures loaded.Ok? && Run(Str("default"), Arr(names), scripts, reg, command).outcome.Ok?
    ensures Queue.Serial(names, MachineStep(machines, scripts, regs, loaded.value, command)).outcome.Ok?
    ensures Boot(Arr(names), machines, scripts, reg, loaded, regs, command).effects ==
      Run(Str("default"), Arr(names), scripts, reg, command).effects +
      Queue.Serial(names, MachineStep(machines, scripts, regs, loaded.value, command)).effects
  {
    assert Elements(Arr(names)) == names;
  }

  /** The queue over the names of a successful boot. */
  lemma BootQueue(names: seq<Value>, machines: seq<Value>, scripts: Value, regs: nat -> nat -> Result<seq<Prop>>,
                  instances: seq<Prop>, command: Command)
    requires Queue.Serial(names, MachineStep(machines, scripts, regs, instances, command)).outcome.Ok?
    ensures forall n :: n in names ==> Resolved(instances, n) && Truthy(MachineOf(machines, n))
    ensures Queue.Serial(names, MachineStep(machines, scripts, regs, instances, command)).effects ==
      Queue.ConcatMap(names, BootCalls(machines, scripts))
  {
    var step := MachineStep(machines, scripts, regs, instances, command);
    Queue.SerialOk(names, step);
    forall i | 0 <= i < |names|
      ensures Resolved(instances, names[i]) && Truthy(MachineOf(machines, names[i]))
      ensures Queue.StepAt(names, step, i).effects == BootCalls(machines, scripts)(names[i])
    {
      assert Queue.StepAt(names, step, i) == BootMachine(machines, scripts, regs(i), instances, command, names[i]);
      MachineStepCalls(machines, scripts, regs(i), instances, command, names[i]);
    }
    Queue.SerialEffects(names, step, BootCalls(machines, scripts));
  }

  /** A boot that succeeds ran `default` on every name first, then the `__boot__`
      scripts of each name in turn, each in array order; every name had an instance
      and a declared machine. */
  lemma BootOrder(names: seq<Value>, machines: seq<Value>, scripts: Value, reg: Result<seq<Prop>>,
                  loaded: Result<seq<Prop>>, regs: nat -> nat -> Result<seq<Prop>>, command: Command)
    requires names != [] && Boot(Arr(names), machines, scripts, reg, loaded, regs, command).outcome.Ok?
    ensures loaded.Ok?
    ensures forall n :: n in names ==> Resolved(loaded.value, n) && Truthy(MachineOf(machines, n))
    ensures Boot(Arr(names), machines, scripts, reg, loaded, regs, command).effects ==
      RunCalls(scripts, Str("default"), Arr(names)) + Queue.ConcatMap(names, BootCalls(machines, scripts))
  {
    BootUnfold(names, machines, scripts, reg, loaded, regs, command);
    RunCallsLemma(Str("default"), Arr(names), scripts, reg, command);
    BootQueue(names, machines, scripts, regs, loaded.value, command);
  }

  /** A boot of one name after `default` succeeded and the reload loaded settles as
      that name's own step does, after the `default` calls. */
  lemma BootOne(name: Value, machines: seq<Value>, scripts: Value, reg: Result<seq<Prop>>,
                loaded: Result<seq<Prop>>, regs: nat -> nat -> Result<seq<Prop>>, command: Command)
    requires Run(Str("default"), Arr([name]), scripts, reg, command).outcome.Ok? && loaded.Ok?
    requires BootMachine(machines, scripts, regs(0), loaded.value, command, name).outcome.Err?
    ensures Boot(Arr([name]), machines, scripts, reg, loaded, regs, command) ==
      Queue.Settled(Run(Str("default"), Arr([name]), scripts, reg, command).effects +
                    BootMachine(machines, scripts, regs(0), loaded.value, command, name).effects,
                    BootMachine(machines, scripts, regs(0), loaded.value, command, name).outcome)
  {
    var step := MachineStep(machines, scripts, regs, loaded.value, command);
    assert step(name, 0, []) == BootMachine(machines, scripts, regs(0), loaded.value, command, name);
    Queue.SerialOneFails(name, step);
    assert Elements(Arr([name])) == [name];
  }

  /** A name that `default` ran on but that the reload no longer finds stops the
      boot, before any `__boot__` script runs, with "Unable to find instance by name". */
  lemma BootLostInstance(name: Value, machines: seq<Value>, scripts: Value, reg: Result<seq<Prop>>,
                         loaded: Result<seq<Prop>>, regs: nat -> nat -> Result<seq<Prop>>, command: Command)
    requires Run(Str("default"), Arr([name]), scripts, reg, command).outcome.Ok?
    requires loaded.Ok? && !Resolved(loaded.value, name)
    ensures Boot(Arr([name]), machines, scripts, reg, loaded, regs, command) ==
      Queue.Settled(Run(Str("default"), Arr([name]), scripts, reg, command).effects,
                    Err("Unable to find instance by name \"" + ToStr(name) + "\""))
  {
    BootOne(name, machines, scripts, reg, loaded, regs, command);
  }

  /** `run` on one name whose instance the registry lacks rejects before any command. */
  lemma RunMissing(scriptName: Value, name: Value, scripts: Value, reg: Result<seq<Prop>>, command: Command)
    requires name.Str? && Truthy(Commands(ScriptFor(scripts, scriptName)))
    requires reg.Ok? && !Resolved(reg.value, name)
    ensures Run(scriptName, name, scripts, reg, command) == Queue.Settled([], Err(MissingInstanceError(name)))
  {
    assert FirstUnresolved(reg.value, [name]) == Some(0);
    assert Calls([name][..0], Commands(ScriptFor(scripts, scriptName))) == [];
  }

  /** A name whose first `__boot__` script finds no instance for it stops there. */
  lemma BootMachineMissing(name: Value, machine: Value, scriptName: Value, scripts: Value,
                           regs: nat -> Result<seq<Prop>>, instances: seq<Prop>, command: Command)
    requires name.Str? && Resolved(instances, name)
    requires Truthy(machine) && MachineOf([machine], name) == machine
    requires BootScripts(machine) == Arr([scriptName])
    requires Truthy(Commands(ScriptFor(scripts, scriptName)))
    requires regs(0).Ok? && !Resolved(regs(0).value, name)
    ensures BootMachine([machine], scripts, regs, instances, command, name) ==
      Queue.Settled([], Err(MissingInstanceError(name)))
  {
    assert Elements(Arr([scriptName])) == [scriptName];
    var inner := ScriptStep(name, scripts, regs, command);
    Queue.SerialMeetsSpec([scriptName], inner);
    assert Queue.StepAt([scriptName], inner, 0) == Run(scriptName, name, scripts, regs(0), command);
    RunMissing(scriptName, name, scripts, regs(0), command);
  }

  /** The registry an `__boot__` exec reads is its own: a name the reload found
      but that the first `__boot__` script's `instances()` no longer holds stops
      the boot with the `exec` error "Unable to find instance for name". */
  lemma BootScriptLostInstance(name: Value, machine: Value, scriptName: Value, scripts: Value, reg: Result<seq<Prop>>,
                               loaded: Result<seq<Prop>>, regs: nat -> nat -> Result<seq<Prop>>, command: Command)
    requires name.Str? && Run(Str("default"), Arr([name]), scripts, reg, command).outcome.Ok?
    requires loaded.Ok? && Resolved(loaded.value, name)
    requires Truthy(machine) && MachineOf([machine], name) == machine
    requires BootScripts(machine) == Arr([scriptName])
    requires Truthy(Commands(ScriptFor(scripts, scriptName)))
    requires regs(0)(0).Ok? && !Resolved(regs(0)(0).value, name)
    ensures Boot(Arr([name]), [machine], scripts, reg, loaded, regs, command) ==
      Queue.Settled(Run(Str("default"), Arr([name]), scripts, reg, command).effects,
                    Err("Unable to find instance for name \"" + ToStr(name) + "\""))
  {
    BootMachineMissing(name, machine, scriptName, scripts, regs(0), loaded.value, command);
    BootOne(name, [machine], scripts, reg, loaded, regs, command);
  }
}
