/** The entry points of `DynamicInventory` around the merge: recognising
    SOPS-encrypted files, loading an inventory file, discovering the
    environments, and `get_inventory`, which reads every environment (or the
    one asked for) and merges them. The file system, `sops` and the YAML
    parser are outside the model: what they answer is given as data. */
module Inventory {
  import opened Dicts
  import opened Text
  import opened Values
  import IniParse
  import AnsibleFormat
  import Merge

  // ---------------------------------------------------------------------
  // SOPS detection

  /** `_is_sops_encrypted`: the file's text contains both SOPS markers.
      `content` is `None` when the file cannot be opened or read, which the
      source answers with `False`. */
  function IsSopsEncrypted(content: Option<string>): bool
  {
    content.Some? && ContainsSubstring(content.value, "sops:") && ContainsSubstring(content.value, "enc:")
  }

  /** A file counts as encrypted exactly when it could be read and its text
      holds both markers somewhere. */
  lemma IsSopsEncryptedSpec(content: Option<string>)
    ensures IsSopsEncrypted(content) <==> (content.Some?
      && (exists i :: OccursAt("sops:", content.value, i))
      && (exists j :: OccursAt("enc:", content.value, j)))
  {
    if content.Some? {
      ContainsSubstringSpec(content.value, "sops:");
      ContainsSubstringSpec(content.value, "enc:");
    }
  }

  // ---------------------------------------------------------------------
  // Loading an inventory file

  /** Python truthiness of a value. */
  predicate Truthy(v: Value)
  {
    match v
    case Null => false
    case Bool(b) => b
    case Int(i) => i != 0
    case Str(s) => s != ""
    case List(xs) => xs != []
    case Obj(fs) => fs != []
  }

  /** `v or {}`. */
  function OrEmpty(v: Value): (r: Value)
    ensures Truthy(v) ==> r == v
    ensures !Truthy(v) ==> r == Obj([])
  {
    if Truthy(v) then v else Obj([])
  }

  /** What the file system and the parsers answer for one inventory file:
      its text, what `sops --decrypt` parsed to (`None` when `sops` is
      missing, fails or times out), and what the plain parser gave (`None`
      when it raised). */
  datatype InventoryFile =
    | Missing
    | Present(content: Option<string>, decrypted: Option<Value>, parsed: Option<Value>)

  /** `_load_inventory_file`: `{}` for a missing file or any failure; the
      decrypted data for an encrypted file; otherwise the parsed data, with
      an empty document read as `{}`. */
  function LoadInventoryFile(f: InventoryFile): Value
  {
    match f
    case Missing => Obj([])
    case Present(content, decrypted, parsed) =>
      if IsSopsEncrypted(content) then
        if decrypted.None? then Obj([]) else OrEmpty(decrypted.value)
      else if content.None? || parsed.None? then Obj([])
      else OrEmpty(parsed.value)
  }

  /** A loaded inventory is never falsy except as the empty dict, and an
      encrypted file is read only through `sops`. */
  lemma LoadInventoryFileSpec(f: InventoryFile)
    ensures Truthy(LoadInventoryFile(f)) || LoadInventoryFile(f) == Obj([])
    ensures f.Present? && IsSopsEncrypted(f.content) ==>
      LoadInventoryFile(f) == LoadInventoryFile(f.(parsed := None))
    ensures f.Present? && IsSopsEncrypted(f.content) && f.decrypted.Some? && Truthy(f.decrypted.value) ==>
      LoadInventoryFile(f) == f.decrypted.value
    ensures f.Present? && !IsSopsEncrypted(f.content) && f.content.Some? && f.parsed.Some? && Truthy(f.parsed.value) ==>
      LoadInventoryFile(f) == f.parsed.value
  {
  }

  // ---------------------------------------------------------------------
  // Discovering environments

  /** One entry of the environments directory: its name, whether it is a
      directory, and whether `ansible/inventory/hosts.toml` or `hosts.yaml`
      exists below it. */
  datatype DirEntry = DirEntry(name: string, isDir: bool, hasToml: bool, hasYaml: bool)

  predicate IsEnvironment(e: DirEntry)
  {
    e.isDir && (e.hasToml || e.hasYaml)
  }

  /** The names of the environment entries, in directory order. */
  function EnvironmentNames(entries: seq<DirEntry>): seq<string>
  {
    if entries == [] then []
    else
      var last := entries[|entries| - 1];
      EnvironmentNames(entries[..|entries| - 1]) + (if IsEnvironment(last) then [last.name] else [])
  }

  /** `_discover_environments`. `dir` is `None` when the environments
      directory does not exist. */
  function Discover(dir: Option<seq<DirEntry>>): seq<string>
  {
    if dir.None? then [] else SortStrings(EnvironmentNames(dir.value))
  }

  method DiscoverEnvironments(dir: Option<seq<DirEntry>>) returns (envs: seq<string>)
    ensures envs == Discover(dir)
  {
    if dir.None? {
      return [];
    }
    var entries := dir.value;
    var names: seq<string> := [];
    var i := 0;
    while i < |entries|
      invariant 0 <= i <= |entries|
      invariant names == EnvironmentNames(entries[..i])
    {
      assert entries[..i + 1][..i] == entries[..i];
      if entries[i].isDir && (entries[i].hasToml || entries[i].hasYaml) {
        names := names + [entries[i].name];
      }
      i := i + 1;
    }
    assert entries[..i] == entries;
    envs := SortStrings(names);
  }

  lemma {:induction false} EnvironmentNamesSpec(entries: seq<DirEntry>)
    ensures forall x :: x in EnvironmentNames(entries) <==> exists k :: 0 <= k < |entries| && IsEnvironment(entries[k]) && entries[k].name == x
  {
    if entries != [] {
      var init := entries[..|entries| - 1];
      EnvironmentNamesSpec(init);
      forall x | x in EnvironmentNames(entries)
        ensures exists k :: 0 <= k < |entries| && IsEnvironment(entries[k]) && entries[k].name == x
      {
        if x in EnvironmentNames(init) {
          var k :| 0 <= k < |init| && IsEnvironment(init[k]) && init[k].name == x;
          assert entries[k] == init[k];
        } else {
          assert entries[|entries| - 1].name == x;
        }
      }
      forall x | exists k :: 0 <= k < |entries| && IsEnvironment(entries[k]) && entries[k].name == x
        ensures x in EnvironmentNames(entries)
      {
        var k :| 0 <= k < |entries| && IsEnvironment(entries[k]) && entries[k].name == x;
        if k < |init| {
          assert init[k] == entries[k];
        }
      }
    }
  }

  /** The environments are the directories holding an inventory file, each
      as often as it appears, in sorted order. */
  lemma DiscoverSpec(dir: Option<seq<DirEntry>>)
    ensures Sorted(Discover(dir))
    ensures dir.None? ==> Discover(dir) == []
    ensures dir.Some? ==> multiset(Discover(dir)) == multiset(EnvironmentNames(dir.value))
    ensures dir.Some? ==> forall x :: x in Discover(dir) <==>
      exists k :: 0 <= k < |dir.value| && IsEnvironment(dir.value[k]) && dir.value[k].name == x
  {
    if dir.Some? {
      EnvironmentNamesSpec(dir.value);
      var names := EnvironmentNames(dir.value);
      forall x ensures x in Discover(dir) <==> x in names {
        assert x in Discover(dir) <==> x in multiset(Discover(dir));
        assert x in names <==> x in multiset(names);
      }
    }
  }

  // ---------------------------------------------------------------------
  // get_inventory

  /** Which inventory file an environment has: the INI-style `hosts.toml`
      (its lines, or `None` when it cannot be read), else `hosts.yaml`, else
      neither. */
  datatype Source =
    | Toml(lines: Option<seq<string>>)
    | Yaml(file: InventoryFile)
    | NoInventory

  /** The inventory `get_inventory` returns when there is nothing to merge. */
  const Skeleton: Value :=
    Obj([("all", Obj([("children", Obj([]))])), ("_meta", Obj([("hostvars", Obj([]))]))])

  /** The environments `get_inventory` reads: all of them, or only the one
      named by a non-empty `environment`; `None` when that one is unknown. */
  function Selected(envs: seq<string>, environment: Option<string>): Option<seq<string>>
  {
    if environment.Some? && environment.value != "" then
      if environment.value in envs then Some([environment.value]) else None
    else Some(envs)
  }

  /** One environment's inventory, before merging. */
  function LoadEnvironment(env: string, source: Source): Result<Value>
  {
    match source
    case Toml(lines) =>
      var raw := if lines.None? then [] else IniParse.Parse(lines.value).groups;
      var inv :- AnsibleFormat.Convert(AnsibleFormat.FromIni(raw), env);
      Ok(Obj(inv))
    case Yaml(file) => Ok(LoadInventoryFile(file))
    case NoInventory => Ok(Obj([]))
  }

  /** `inventories[env] = …` for every selected environment, in order. */
  function LoadAll(envs: seq<string>, sources: string -> Source): Result<Dict<string, Value>>
  {
    if envs == [] then Ok([])
    else
      var env := envs[|envs| - 1];
      var invs :- LoadAll(envs[..|envs| - 1], sources);
      var inv :- LoadEnvironment(env, sources(env));
      Ok(Put(invs, env, inv))
  }

  function InfoValue(info: Merge.EnvInfo): Value
  {
    Obj([("source", Str(info.source)), ("hosts_count", Int(info.hostsCount)),
         ("groups_count", Int(info.groupsCount)), ("sops_secrets_count", Int(info.sopsSecretsCount))])
  }

  /** The merged inventory as the dict `_merge_inventories` returns: `_meta`,
      then `all`, then the copied groups. */
  function MergedValue(m: Merge.Merged): Value
  {
    var hostvars := seq(|m.hostvars|, i requires 0 <= i < |m.hostvars| => (m.hostvars[i].0, Obj(m.hostvars[i].1)));
    var info := seq(|m.envInfo|, i requires 0 <= i < |m.envInfo| => (m.envInfo[i].0, InfoValue(m.envInfo[i].1)));
    Obj([("_meta", Obj([("hostvars", Obj(hostvars)), ("environment_info", Obj(info))])),
         ("all", Obj([("children", StrList(m.children)), ("vars", Obj(m.allVars))]))] + m.groups)
  }

  /** `get_inventory(environment)`: `envs` is what discovery found, `sources`
      says which inventory file each environment has, `io` what its
      directories hold. */
  function GetInventory(envs: seq<string>, environment: Option<string>, sources: string -> Source, io: string -> Merge.EnvFiles): Result<Value>
  {
    if envs == [] then Ok(Skeleton)
    else
      var selected := Selected(envs, environment);
      if selected.None? then Ok(Skeleton)
      else
        var inventories :- LoadAll(selected.value, sources);
        var m :- Merge.Merge(inventories, io);
        Ok(MergedValue(m))
  }

  method LoadEnvironmentFile(env: string, source: Source) returns (r: Result<Value>)
    ensures r == LoadEnvironment(env, source)
  {
    match source {
      case Toml(lines) =>
        var raw := IniParse.ParseIniStyleInventory(lines);
        var inv := AnsibleFormat.ConvertToAnsibleFormat(AnsibleFormat.FromIni(raw), env);
        if inv.Err? {
          return Err(inv.error);
        }
        r := Ok(Obj(inv.value));
      case Yaml(file) =>
        r := Ok(LoadInventoryFile(file));
      case NoInventory =>
        r := Ok(Obj([]));
    }
  }

  lemma LoadAllStep(envs: seq<string>, sources: string -> Source, i: nat)
    requires i < |envs|
    ensures LoadAll(envs[..i + 1], sources) ==
      if LoadAll(envs[..i], sources).Err? then LoadAll(envs[..i], sources)
      else if LoadEnvironment(envs[i], sources(envs[i])).Err? then Err(LoadEnvironment(envs[i], sources(envs[i])).error)
      else Ok(Put(LoadAll(envs[..i], sources).value, envs[i], LoadEnvironment(envs[i], sources(envs[i])).value))
  {
    assert envs[..i + 1][..i] == envs[..i];
  }

  lemma {:induction false} LoadAllErrorPersists(envs: seq<string>, sources: string -> Source, i: nat)
    requires i <= |envs| && LoadAll(envs[..i], sources).Err?
    ensures LoadAll(envs, sources) == LoadAll(envs[..i], sources)
    decreases |envs| - i
  {
    if i == |envs| {
      assert envs[..i] == envs;
    } else {
      LoadAllStep(envs, sources, i);
      LoadAllErrorPersists(envs, sources, i + 1);
    }
  }

  method GetInventoryMethod(envs: seq<string>, environment: Option<string>, sources: string -> Source, io: string -> Merge.EnvFiles)
    returns (r: Result<Value>)
    ensures r == GetInventory(envs, environment, sources, io)
  {
    if envs == [] {
      return Ok(Skeleton);
    }
    var selected := envs;
    if environment.Some? && environment.value != "" {
      if environment.value !in envs {
        return Ok(Skeleton);
      }
      selected := [environment.value];
    }
    var inventories: Dict<string, Value> := [];
    var i := 0;
    while i < |selected|
      invariant 0 <= i <= |selected|
      invariant LoadAll(selected[..i], sources) == Ok(inventories)
    {
      LoadAllStep(selected, sources, i);
      var inv := LoadEnvironmentFile(selected[i], sources(selected[i]));
      if inv.Err? {
        LoadAllErrorPersists(selected, sources, i + 1);
        return Err(inv.error);
      }
      inventories := Put(inventories, selected[i], inv.value);
      i := i + 1;
    }
    assert selected[..i] == selected;
    var m := Merge.MergeInventories(inventories, io);
    if m.Err? {
      return Err(m.error);
    }
    r := Ok(MergedValue(m.value));
  }

  /** With no environments, or an unknown one asked for, the answer is the
      empty skeleton whatever the files hold. */
  lemma UnknownEnvironmentGivesSkeleton(envs: seq<string>, environment: Option<string>, sources: string -> Source, io: string -> Merge.EnvFiles)
    requires envs == [] || (environment.Some? && environment.value != "" && environment.value !in envs)
    ensures GetInventory(envs, environment, sources, io) == Ok(Skeleton)
  {
  }

  /** `d` holds exactly the environments `envs`, each with the inventory
      read for it. */
  ghost predicate LoadedAs(d: Dict<string, Value>, envs: seq<string>, sources: string -> Source)
  {
    (forall e :: e in Keys(d) <==> e in envs)
    && forall e :: e in Keys(d) ==> Ok(Get(d, e)) == LoadEnvironment(e, sources(e))
  }

  lemma LoadedAsSnoc(d: Dict<string, Value>, envs: seq<string>, env: string, inv: Value, sources: string -> Source)
    requires LoadedAs(d, envs, sources) && LoadEnvironment(env, sources(env)) == Ok(inv)
    ensures LoadedAs(Put(d, env, inv), envs + [env], sources)
  {
  }

  /** `LoadAll` reads exactly the selected environments, each under its own
      name. */
  lemma {:induction false} LoadAllKeys(envs: seq<string>, sources: string -> Source)
    requires LoadAll(envs, sources).Ok?
    ensures LoadedAs(LoadAll(envs, sources).value, envs, sources)
  {
    if envs != [] {
      LoadAllLast(envs, sources);
      LoadAllKeys(envs[..|envs| - 1], sources);
      LoadedAsLast(envs, sources);
    }
  }

  lemma LoadedAsLast(envs: seq<string>, sources: string -> Source)
    requires envs != [] && LoadAll(envs, sources).Ok? && LoadAll(envs[..|envs| - 1], sources).Ok?
    requires LoadedAs(LoadAll(envs[..|envs| - 1], sources).value, envs[..|envs| - 1], sources)
    ensures LoadedAs(LoadAll(envs, sources).value, envs, sources)
  {
    var init, env := envs[..|envs| - 1], envs[|envs| - 1];
    LoadAllLast(envs, sources);
    LoadedAsSnoc(LoadAll(init, sources).value, init, env, LoadEnvironment(env, sources(env)).value, sources);
    assert envs == init + [env];
  }

  /** One step of `LoadAll`: the earlier environments and the last one were
      all read. */
  lemma LoadAllLast(envs: seq<string>, sources: string -> Source)
    requires envs != [] && LoadAll(envs, sources).Ok?
    ensures LoadAll(envs[..|envs| - 1], sources).Ok?
    ensures LoadEnvironment(envs[|envs| - 1], sources(envs[|envs| - 1])).Ok?
    ensures LoadAll(envs, sources) == Ok(Put(LoadAll(envs[..|envs| - 1], sources).value, envs[|envs| - 1],
                                             LoadEnvironment(envs[|envs| - 1], sources(envs[|envs| - 1])).value))
  {
  }

  /** A non-empty `environment` that discovery found restricts the result to
      that environment: the merge sees exactly one inventory. */
  lemma FilterToOneEnvironment(envs: seq<string>, env: string, sources: string -> Source)
    requires env != "" && env in envs
    ensures Selected(envs, Some(env)) == Some([env])
    ensures LoadAll([env], sources).Ok? ==> Keys(LoadAll([env], sources).value) == [env]
  {
    if LoadAll([env], sources).Ok? {
      assert [env][..0] == [];
    }
  }

  /** Every name under `all.children` of the result is an environment that
      was read or one of its groups, and none appears twice. */
  lemma GetInventoryChildren(envs: seq<string>, environment: Option<string>, sources: string -> Source, io: string -> Merge.EnvFiles)
    requires envs != [] && Selected(envs, environment).Some?
    requires LoadAll(Selected(envs, environment).value, sources).Ok?
    requires Merge.Merge(LoadAll(Selected(envs, environment).value, sources).value, io).Ok?
    ensures var m := Merge.Merge(LoadAll(Selected(envs, environment).value, sources).value, io).value;
      GetInventory(envs, environment, sources, io) == Ok(MergedValue(m))
      && Merge.NoDup(m.children)
      && forall x :: x in m.children <==> x in Merge.AllListed(LoadAll(Selected(envs, environment).value, sources).value)
  {
    Merge.MergeChildren(LoadAll(Selected(envs, environment).value, sources).value, io);
  }
}
