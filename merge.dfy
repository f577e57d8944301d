/** `DynamicInventory._merge_inventories`: folds the inventories of several
    environments into one. Each environment adds itself and its groups to
    `all.children` (once each), copies its groups to the top level, gives
    every host listed in a group a `_meta.hostvars` entry (host_vars first,
    then `environment`, then the host's SOPS secrets), records its counts in
    `_meta.environment_info`, and copies its variables into `all.vars` under
    the prefix `<env>_`. */
module Merge {
  import opened Dicts
  import opened Values

  /** What the merge reads from an environment's directory, given rather than
      read: the inventory path it reports, the decrypted secrets by host, the
      host_vars of each host (a host without any has `{}`), and the
      environment's own group_vars. */
  datatype EnvFiles = EnvFiles(
    source: string,
    secrets: Dict<string, Dict<string, Value>>,
    hostVars: Dict<string, Dict<string, Value>>,
    groupVars: Dict<string, Value>)

  /** One entry of `_meta.environment_info`. */
  datatype EnvInfo = EnvInfo(source: string, hostsCount: nat, groupsCount: nat, sopsSecretsCount: nat)

  /** The merged inventory: `_meta.hostvars`, `_meta.environment_info`,
      `all.children`, `all.vars`, and the top-level groups other than `_meta`
      and `all`, each in insertion order. */
  datatype Merged = Merged(
    hostvars: Dict<string, Dict<string, Value>>,
    envInfo: Dict<string, EnvInfo>,
    children: seq<string>,
    allVars: Dict<string, Value>,
    groups: Dict<string, Value>)

  const Start := Merged([], [], [], [], [])

  predicate NoDup(s: seq<string>)
  {
    forall i, j :: 0 <= i < j < |s| ==> s[i] != s[j]
  }

  /** The two top-level keys that are not groups of an environment. */
  predicate Reserved(name: string)
  {
    name == "all" || name == "_meta"
  }

  /** `if g not in children: children.append(g)`. */
  function AddChild(children: seq<string>, g: string): (r: seq<string>)
    ensures children <= r && g in r
    ensures forall x :: x in r ==> x in children || x == g
    ensures NoDup(children) ==> NoDup(r)
  {
    if g in children then children else children + [g]
  }

  /** `"all" in inventory and key in inventory["all"]`, with the errors of
      Python's `in` and subscript. */
  function HasAllKey(inv: Value, key: string): (r: Result<bool>)
    ensures r == Ok(true) ==> inv.Obj? && "all" in Keys(inv.fields)
    ensures inv.Obj? && "all" !in Keys(inv.fields) ==> r == Ok(false)
    ensures inv.Obj? && "all" in Keys(inv.fields) && Get(inv.fields, "all").Obj? ==>
      r == Ok(key in Keys(Get(inv.fields, "all").fields))
  {
    var hasAll :- In("all", inv);
    if !hasAll then Ok(false)
    else
      var a :- Index(inv, "all");
      In(key, a)
  }

  // ---------------------------------------------------------------------
  // Copying the groups

  /** The keys of an inventory that are groups, in order. */
  function OtherKeys(fs: Dict<string, Value>): (r: seq<string>)
    ensures |r| <= |fs|
    ensures forall g :: g in r <==> g in Keys(fs) && !Reserved(g)
  {
    if fs == [] then []
    else
      var g := fs[|fs| - 1].0;
      assert Keys(fs) == Keys(fs[..|fs| - 1]) + [g];
      OtherKeys(fs[..|fs| - 1]) + (if Reserved(g) then [] else [g])
  }

  /** Copy every group to the top level and list it under `all.children`. */
  function CopyGroups(m: Merged, fs: Dict<string, Value>): (r: Result<Merged>)
    ensures r.Ok? ==> r.value.hostvars == m.hostvars && r.value.envInfo == m.envInfo && r.value.allVars == m.allVars
    ensures r.Ok? ==> m.children <= r.value.children
    ensures r.Ok? ==> forall x :: x in r.value.children ==> x in m.children || x in OtherKeys(fs)
    ensures r.Ok? ==> forall g :: g in OtherKeys(fs) ==> g in r.value.children
    ensures r.Ok? && NoDup(m.children) ==> NoDup(r.value.children)
  {
    if fs == [] then Ok(m)
    else
      var m' :- CopyGroups(m, fs[..|fs| - 1]);
      var g, gd := fs[|fs| - 1].0, fs[|fs| - 1].1;
      if Reserved(g) then Ok(m')
      else
        var c :- Copy(gd);
        Ok(m'.(groups := Put(m'.groups, g, c), children := AddChild(m'.children, g)))
  }

  // ---------------------------------------------------------------------
  // Host variables

  /** The host list of a group: its `hosts`, when the group is a dict and
      that entry is a list. */
  function HostList(gd: Value): Option<seq<Value>>
  {
    if gd.Obj? && "hosts" in Keys(gd.fields) && Get(gd.fields, "hosts").List? then
      Some(Get(gd.fields, "hosts").items)
    else None
  }

  /** `hosts_count`: the lengths of the groups' host lists added up,
      duplicates included. */
  function HostsCount(fs: Dict<string, Value>): nat
  {
    if fs == [] then 0
    else
      var g, gd := fs[|fs| - 1].0, fs[|fs| - 1].1;
      HostsCount(fs[..|fs| - 1])
      + (if !Reserved(g) && HostList(gd).Some? then |HostList(gd).value| else 0)
  }

  /** A host's entry after this environment lists it: its earlier entry,
      updated with its host_vars, then `environment`, then its secrets. */
  function HostEntry(prev: Dict<string, Value>, env: string, files: EnvFiles, h: string): Dict<string, Value>
  {
    var withVars := Update(prev, GetOr(files.hostVars, h, []));
    var withEnv := Put(withVars, "environment", Str(env));
    if h in Keys(files.secrets) then Update(withEnv, Get(files.secrets, h)) else withEnv
  }

  /** One host of a list. A list or dict host cannot be a dict key, so the
      membership test already raises TypeError; any other host that is not a
      string gets its entry but cannot name a host_vars directory, so the
      path join raises TypeError. */
  function ProcessHost(hv: Dict<string, Dict<string, Value>>, env: string, files: EnvFiles, h: Value): (r: Result<Dict<string, Dict<string, Value>>>)
    ensures r.Ok? <==> h.Str?
    ensures r.Ok? ==> Keys(hv) <= Keys(r.value) && h.s in Keys(r.value)
    ensures r.Err? ==> r.error.TypeError?
  {
    if h.Str? then Ok(Put(hv, h.s, HostEntry(GetOr(hv, h.s, []), env, files, h.s)))
    else if h.List? || h.Obj? then Err(TypeError("unhashable type: '" + TypeName(h) + "'"))
    else Err(TypeError("unsupported operand type(s) for /: 'PosixPath' and '" + TypeName(h) + "'"))
  }

  function ProcessHosts(hv: Dict<string, Dict<string, Value>>, env: string, files: EnvFiles, hosts: seq<Value>): Result<Dict<string, Dict<string, Value>>>
  {
    if hosts == [] then Ok(hv)
    else
      var hv' :- ProcessHosts(hv, env, files, hosts[..|hosts| - 1]);
      ProcessHost(hv', env, files, hosts[|hosts| - 1])
  }

  /** `process_hosts_in_group` for every group, in order. */
  function ProcessGroups(hv: Dict<string, Dict<string, Value>>, env: string, files: EnvFiles, fs: Dict<string, Value>): Result<Dict<string, Dict<string, Value>>>
  {
    if fs == [] then Ok(hv)
    else
      var hv' :- ProcessGroups(hv, env, files, fs[..|fs| - 1]);
      var g, gd := fs[|fs| - 1].0, fs[|fs| - 1].1;
      if !Reserved(g) && HostList(gd).Some? then ProcessHosts(hv', env, files, HostList(gd).value)
      else Ok(hv')
  }

  // ---------------------------------------------------------------------
  // Variables

  /** `all.vars[f"{env}_{name}"] = value` for every variable, in order. */
  function PrefixVars(vars: Dict<string, Value>, env: string, o: Dict<string, Value>): Dict<string, Value>
  {
    if o == [] then vars
    else
      var k, v := o[|o| - 1].0, o[|o| - 1].1;
      Put(PrefixVars(vars, env, o[..|o| - 1]), env + "_" + k, v)
  }

  // ---------------------------------------------------------------------
  // One environment

  /** The part of the merge guarded by `"children" in inventory["all"]`. */
  function MergeStructure(m: Merged, env: string, fs: Dict<string, Value>, files: EnvFiles): Result<Merged>
  {
    var children := AddChild(m.children, env);
    var m1 :-
      if env in Keys(fs) then
        var c :- Copy(Get(fs, env));
        Ok(m.(children := children, groups := Put(m.groups, env, c)))
      else Ok(m.(children := children));
    var m2 :- CopyGroups(m1, fs);
    var hv :- ProcessGroups(m2.hostvars, env, files, fs);
    var info := EnvInfo(files.source, HostsCount(fs), |OtherKeys(fs)|, |files.secrets|);
    Ok(m2.(hostvars := hv, envInfo := Put(m2.envInfo, env, info)))
  }

  /** The variables under `inventory["all"]["vars"]`, which must be a dict
      (`.items()`). */
  function InventoryVars(inv: Value): Result<Dict<string, Value>>
  {
    var a :- Index(inv, "all");
    var vs :- Index(a, "vars");
    if vs.Obj? then Ok(vs.fields)
    else Err(AttributeError("'" + TypeName(vs) + "' object has no attribute 'items'"))
  }

  /** One iteration of the merge loop. */
  function MergeEnv(m: Merged, env: string, inv: Value, files: EnvFiles): Result<Merged>
  {
    var info := EnvInfo(files.source, 0, 0, |files.secrets|);
    var m1 := m.(envInfo := Put(m.envInfo, env, info));
    var structured :- HasAllKey(inv, "children");
    var m2 :- if structured then MergeStructure(m1, env, inv.fields, files) else Ok(m1);
    var hasVars :- HasAllKey(inv, "vars");
    var m3 :-
      if hasVars then
        var vs :- InventoryVars(inv);
        Ok(m2.(allVars := PrefixVars(m2.allVars, env, vs)))
      else Ok(m2);
    Ok(m3.(allVars := PrefixVars(m3.allVars, env, files.groupVars)))
  }

  /** The merge of the given inventories, in order; `io` gives what each
      environment's directory holds. */
  function Merge(inventories: Dict<string, Value>, io: string -> EnvFiles): Result<Merged>
  {
    if inventories == [] then Ok(Start)
    else
      var env, inv := inventories[|inventories| - 1].0, inventories[|inventories| - 1].1;
      var m :- Merge(inventories[..|inventories| - 1], io);
      MergeEnv(m, env, inv, io(env))
  }

  // ---------------------------------------------------------------------
  // The loops

  lemma CopyGroupsStep(m: Merged, fs: Dict<string, Value>, i: nat)
    requires i < |fs|
    ensures CopyGroups(m, fs[..i + 1]) ==
      if CopyGroups(m, fs[..i]).Err? then CopyGroups(m, fs[..i])
      else if Reserved(fs[i].0) then CopyGroups(m, fs[..i])
      else if Copy(fs[i].1).Err? then Err(Copy(fs[i].1).error)
      else
        var m' := CopyGroups(m, fs[..i]).value;
        Ok(m'.(groups := Put(m'.groups, fs[i].0, fs[i].1), children := AddChild(m'.children, fs[i].0)))
  {
    assert fs[..i + 1][..i] == fs[..i];
  }

  lemma {:induction false} CopyGroupsErrorPersists(m: Merged, fs: Dict<string, Value>, i: nat)
    requires i <= |fs| && CopyGroups(m, fs[..i]).Err?
    ensures CopyGroups(m, fs) == CopyGroups(m, fs[..i])
    decreases |fs| - i
  {
    if i < |fs| {
      assert fs[..i + 1][..i] == fs[..i];
      CopyGroupsErrorPersists(m, fs, i + 1);
    } else {
      assert fs[..i] == fs;
    }
  }

  /** The loop copying every group to the top level. */
  method CopyGroupsLoop(m: Merged, fs: Dict<string, Value>) returns (r: Result<Merged>)
    ensures r == CopyGroups(m, fs)
  {
    var cur := m;
    var i := 0;
    while i < |fs|
      invariant 0 <= i <= |fs|
      invariant CopyGroups(m, fs[..i]) == Ok(cur)
    {
      CopyGroupsStep(m, fs, i);
      var (name, data) := fs[i];
      if !Reserved(name) {
        var c := Copy(data);
        if c.Err? {
          CopyGroupsErrorPersists(m, fs, i + 1);
          return Err(c.error);
        }
        var children := cur.children;
        if name !in children {
          children := children + [name];
        }
        cur := cur.(groups := Put(cur.groups, name, c.value), children := children);
      }
      i := i + 1;
    }
    assert fs[..i] == fs;
    r := Ok(cur);
  }

  lemma ProcessHostsStep(hv: Dict<string, Dict<string, Value>>, env: string, files: EnvFiles, hosts: seq<Value>, i: nat)
    requires i < |hosts|
    ensures ProcessHosts(hv, env, files, hosts[..i + 1]) ==
      if ProcessHosts(hv, env, files, hosts[..i]).Err? then ProcessHosts(hv, env, files, hosts[..i])
      else ProcessHost(ProcessHosts(hv, env, files, hosts[..i]).value, env, files, hosts[i])
  {
    assert hosts[..i + 1][..i] == hosts[..i];
  }

  lemma {:induction false} ProcessHostsErrorPersists(hv: Dict<string, Dict<string, Value>>, env: string, files: EnvFiles, hosts: seq<Value>, i: nat)
    requires i <= |hosts| && ProcessHosts(hv, env, files, hosts[..i]).Err?
    ensures ProcessHosts(hv, env, files, hosts) == ProcessHosts(hv, env, files, hosts[..i])
    decreases |hosts| - i
  {
    if i < |hosts| {
      assert hosts[..i + 1][..i] == hosts[..i];
      ProcessHostsErrorPersists(hv, env, files, hosts, i + 1);
    } else {
      assert hosts[..i] == hosts;
    }
  }

  /** The loop over one group's hosts. */
  method ProcessHostsLoop(hv: Dict<string, Dict<string, Value>>, env: string, files: EnvFiles, hosts: seq<Value>)
    returns (r: Result<Dict<string, Dict<string, Value>>>)
    ensures r == ProcessHosts(hv, env, files, hosts)
  {
    var cur := hv;
    var i := 0;
    while i < |hosts|
      invariant 0 <= i <= |hosts|
      invariant ProcessHosts(hv, env, files, hosts[..i]) == Ok(cur)
    {
      ProcessHostsStep(hv, env, files, hosts, i);
      var hostname := hosts[i];
      if !hostname.Str? {
        ProcessHostsErrorPersists(hv, env, files, hosts, i + 1);
        return ProcessHost(cur, env, files, hostname);
      }
      var h := hostname.s;
      var entry := if h in Keys(cur) then Get(cur, h) else [];
      entry := Update(entry, GetOr(files.hostVars, h, []));
      entry := Put(entry, "environment", Str(env));
      if h in Keys(files.secrets) {
        entry := Update(entry, Get(files.secrets, h));
      }
      cur := Put(cur, h, entry);
      i := i + 1;
    }
    assert hosts[..i] == hosts;
    r := Ok(cur);
  }

  lemma ProcessGroupsStep(hv: Dict<string, Dict<string, Value>>, env: string, files: EnvFiles, fs: Dict<string, Value>, i: nat)
    requires i < |fs|
    ensures ProcessGroups(hv, env, files, fs[..i + 1]) ==
      if ProcessGroups(hv, env, files, fs[..i]).Err? then ProcessGroups(hv, env, files, fs[..i])
      else if !Reserved(fs[i].0) && HostList(fs[i].1).Some? then
        ProcessHosts(ProcessGroups(hv, env, files, fs[..i]).value, env, files, HostList(fs[i].1).value)
      else ProcessGroups(hv, env, files, fs[..i])
  {
    assert fs[..i + 1][..i] == fs[..i];
  }

  lemma {:induction false} ProcessGroupsErrorPersists(hv: Dict<string, Dict<string, Value>>, env: string, files: EnvFiles, fs: Dict<string, Value>, i: nat)
    requires i <= |fs| && ProcessGroups(hv, env, files, fs[..i]).Err?
    ensures ProcessGroups(hv, env, files, fs) == ProcessGroups(hv, env, files, fs[..i])
    decreases |fs| - i
  {
    if i < |fs| {
      assert fs[..i + 1][..i] == fs[..i];
      ProcessGroupsErrorPersists(hv, env, files, fs, i + 1);
    } else {
      assert fs[..i] == fs;
    }
  }

  lemma HostsCountStep(fs: Dict<string, Value>, i: nat)
    requires i < |fs|
    ensures HostsCount(fs[..i + 1]) == HostsCount(fs[..i])
      + (if !Reserved(fs[i].0) && HostList(fs[i].1).Some? then |HostList(fs[i].1).value| else 0)
  {
    assert fs[..i + 1][..i] == fs[..i];
  }

  /** `process_hosts_in_group` over every group, with the `nonlocal`
      counter it bumps. */
  method ProcessGroupsLoop(hv: Dict<string, Dict<string, Value>>, env: string, files: EnvFiles, fs: Dict<string, Value>)
    returns (r: Result<Dict<string, Dict<string, Value>>>, hostsCount: nat)
    ensures r == ProcessGroups(hv, env, files, fs)
    ensures r.Ok? ==> hostsCount == HostsCount(fs)
  {
    hostsCount := 0;
    var cur := hv;
    var i := 0;
    while i < |fs|
      invariant 0 <= i <= |fs|
      invariant ProcessGroups(hv, env, files, fs[..i]) == Ok(cur)
      invariant hostsCount == HostsCount(fs[..i])
    {
      ProcessGroupsStep(hv, env, files, fs, i);
      HostsCountStep(fs, i);
      var (name, data) := fs[i];
      if !Reserved(name) && data.Obj? && "hosts" in Keys(data.fields) {
        var hostList := Get(data.fields, "hosts");
        if hostList.List? {
          hostsCount := hostsCount + |hostList.items|;
          var next := ProcessHostsLoop(cur, env, files, hostList.items);
          if next.Err? {
            ProcessGroupsErrorPersists(hv, env, files, fs, i + 1);
            return next, hostsCount;
          }
          cur := next.value;
        }
      }
      i := i + 1;
    }
    assert fs[..i] == fs;
    r := Ok(cur);
  }

  lemma PrefixVarsStep(vars: Dict<string, Value>, env: string, o: Dict<string, Value>, i: nat)
    requires i < |o|
    ensures PrefixVars(vars, env, o[..i + 1]) == Put(PrefixVars(vars, env, o[..i]), env + "_" + o[i].0, o[i].1)
  {
    assert o[..i + 1][..i] == o[..i];
  }

  /** `for var_name, var_value in ...items(): all_vars[f"{env}_{var_name}"] = var_value`. */
  method PrefixVarsLoop(vars: Dict<string, Value>, env: string, o: Dict<string, Value>) returns (r: Dict<string, Value>)
    ensures r == PrefixVars(vars, env, o)
  {
    r := vars;
    var i := 0;
    while i < |o|
      invariant 0 <= i <= |o|
      invariant r == PrefixVars(vars, env, o[..i])
    {
      PrefixVarsStep(vars, env, o, i);
      r := Put(r, env + "_" + o[i].0, o[i].1);
      i := i + 1;
    }
    assert o[..i] == o;
  }

  /** The body of `if "all" in inventory and "children" in inventory["all"]`. */
  method MergeStructureBlock(m: Merged, env: string, fs: Dict<string, Value>, files: EnvFiles) returns (r: Result<Merged>)
    ensures r == MergeStructure(m, env, fs, files)
  {
    var m1 := m;
    if env !in m1.children {
      m1 := m1.(children := m1.children + [env]);
    }
    if env in Keys(fs) {
      var c := Copy(Get(fs, env));
      if c.Err? {
        return Err(c.error);
      }
      m1 := m1.(groups := Put(m1.groups, env, c.value));
    }
    var copied := CopyGroupsLoop(m1, fs);
    if copied.Err? {
      return copied;
    }
    var m2 := copied.value;
    var hv, hostsCount := ProcessGroupsLoop(m2.hostvars, env, files, fs);
    if hv.Err? {
      return Err(hv.error);
    }
    var groupsCount := |OtherKeys(fs)|;
    var info := EnvInfo(files.source, hostsCount, groupsCount, |files.secrets|);
    r := Ok(m2.(hostvars := hv.value, envInfo := Put(m2.envInfo, env, info)));
  }

  /** The body of the merge loop, for one environment. */
  method MergeEnvironment(m: Merged, env: string, inv: Value, files: EnvFiles) returns (r: Result<Merged>)
    ensures r == MergeEnv(m, env, inv, files)
  {
    var info := EnvInfo(files.source, 0, 0, |files.secrets|);
    var cur := m.(envInfo := Put(m.envInfo, env, info));
    var structured := HasAllKey(inv, "children");
    if structured.Err? {
      return Err(structured.error);
    }
    if structured.value {
      var merged := MergeStructureBlock(cur, env, inv.fields, files);
      if merged.Err? {
        return merged;
      }
      cur := merged.value;
    }
    var hasVars := HasAllKey(inv, "vars");
    if hasVars.Err? {
      return Err(hasVars.error);
    }
    if hasVars.value {
      var vs := InventoryVars(inv);
      if vs.Err? {
        return Err(vs.error);
      }
      var allVars := PrefixVarsLoop(cur.allVars, env, vs.value);
      cur := cur.(allVars := allVars);
    }
    if files.groupVars != [] {
      var allVars := PrefixVarsLoop(cur.allVars, env, files.groupVars);
      cur := cur.(allVars := allVars);
    }
    r := Ok(cur);
  }

  lemma MergeStep(inventories: Dict<string, Value>, io: string -> EnvFiles, i: nat)
    requires i < |inventories|
    ensures Merge(inventories[..i + 1], io) ==
      if Merge(inventories[..i], io).Err? then Merge(inventories[..i], io)
      else MergeEnv(Merge(inventories[..i], io).value, inventories[i].0, inventories[i].1, io(inventories[i].0))
  {
    assert inventories[..i + 1][..i] == inventories[..i];
  }

  lemma {:induction false} MergeErrorPersists(inventories: Dict<string, Value>, io: string -> EnvFiles, i: nat)
    requires i <= |inventories| && Merge(inventories[..i], io).Err?
    ensures Merge(inventories, io) == Merge(inventories[..i], io)
    decreases |inventories| - i
  {
    if i < |inventories| {
      assert inventories[..i + 1][..i] == inventories[..i];
      MergeErrorPersists(inventories, io, i + 1);
    } else {
      assert inventories[..i] == inventories;
    }
  }

  /** `_merge_inventories`: the loop over the environments. */
  method MergeInventories(inventories: Dict<string, Value>, io: string -> EnvFiles) returns (r: Result<Merged>)
    ensures r == Merge(inventories, io)
  {
    var merged := Start;
    var i := 0;
    while i < |inventories|
      invariant 0 <= i <= |inventories|
      invariant Merge(inventories[..i], io) == Ok(merged)
    {
      MergeStep(inventories, io, i);
      var (env, inv) := inventories[i];
      var next := MergeEnvironment(merged, env, inv, io(env));
      if next.Err? {
        MergeErrorPersists(inventories, io, i + 1);
        return next;
      }
      merged := next.value;
      i := i + 1;
    }
    assert inventories[..i] == inventories;
    r := Ok(merged);
  }

  // ---------------------------------------------------------------------
  // Environment variables

  /** The names `PrefixVars` writes. */
  function PrefixedKeys(env: string, o: Dict<string, Value>): (r: seq<string>)
    ensures |r| == |o|
  {
    seq(|o|, i requires 0 <= i < |o| => env + "_" + o[i].0)
  }

  /** Within one environment, different variables get different names. */
  lemma PrefixInjective(env: string, a: string, b: string)
    requires env + "_" + a == env + "_" + b
    ensures a == b
  {
    assert (env + "_" + a)[|env| + 1..] == a;
    assert (env + "_" + b)[|env| + 1..] == b;
  }

  lemma PrefixedKeysOf(env: string, o: Dict<string, Value>, k: string)
    ensures env + "_" + k in PrefixedKeys(env, o) <==> k in Keys(o)
  {
    if env + "_" + k in PrefixedKeys(env, o) {
      var i :| 0 <= i < |o| && PrefixedKeys(env, o)[i] == env + "_" + k;
      PrefixInjective(env, o[i].0, k);
      assert Keys(o)[i] == k;
    }
    if k in Keys(o) {
      var i :| 0 <= i < |Keys(o)| && Keys(o)[i] == k;
      assert PrefixedKeys(env, o)[i] == env + "_" + k;
    }
  }

  /** `r` holds every variable `v` of `o` under `<env>_v` with its value,
      no other name beyond those of `vars`, and the values of `vars` that no
      prefixed name overwrites. */
  ghost predicate PrefixedAs(r: Dict<string, Value>, vars: Dict<string, Value>, env: string, o: Dict<string, Value>)
  {
    && (forall k :: k in Keys(o) ==> env + "_" + k in Keys(r) && Get(r, env + "_" + k) == Get(o, k))
    && (forall key :: key in Keys(r) <==> key in Keys(vars) || key in PrefixedKeys(env, o))
    && (forall key :: key in Keys(vars) && key !in PrefixedKeys(env, o) ==> Get(r, key) == Get(vars, key))
  }

  /** Every variable `v` of `o` lands under `<env>_v` with its value; no
      other name is added; names not written keep their values. */
  lemma {:induction false} PrefixVarsSpec(vars: Dict<string, Value>, env: string, o: Dict<string, Value>)
    requires Unique(o)
    ensures forall k :: k in Keys(o) ==>
      env + "_" + k in Keys(PrefixVars(vars, env, o)) && Get(PrefixVars(vars, env, o), env + "_" + k) == Get(o, k)
    ensures forall key :: key in Keys(PrefixVars(vars, env, o)) <==> key in Keys(vars) || key in PrefixedKeys(env, o)
    ensures forall key :: key in Keys(vars) && key !in PrefixedKeys(env, o) ==>
      Get(PrefixVars(vars, env, o), key) == Get(vars, key)
  {
    if o != [] {
      PrefixOfUnique(o);
      PrefixVarsSpec(vars, env, o[..|o| - 1]);
      PrefixStep(vars, env, o, PrefixVars(vars, env, o[..|o| - 1]));
    }
  }

  lemma PrefixStep(vars: Dict<string, Value>, env: string, o: Dict<string, Value>, before: Dict<string, Value>)
    requires o != [] && Unique(o) && PrefixedAs(before, vars, env, o[..|o| - 1])
    ensures PrefixedAs(Put(before, env + "_" + o[|o| - 1].0, o[|o| - 1].1), vars, env, o)
  {
    var init, k := o[..|o| - 1], o[|o| - 1].0;
    assert Keys(o) == Keys(init) + [k];
    assert PrefixedKeys(env, o) == PrefixedKeys(env, init) + [env + "_" + k];
    PrefixStepWritten(vars, env, o, before);
    PrefixStepKept(vars, env, o, before);
  }

  lemma PrefixStepWritten(vars: Dict<string, Value>, env: string, o: Dict<string, Value>, before: Dict<string, Value>)
    requires o != [] && Unique(o) && PrefixedAs(before, vars, env, o[..|o| - 1])
    requires Keys(o) == Keys(o[..|o| - 1]) + [o[|o| - 1].0]
    ensures var r := Put(before, env + "_" + o[|o| - 1].0, o[|o| - 1].1);
      forall k :: k in Keys(o) ==> env + "_" + k in Keys(r) && Get(r, env + "_" + k) == Get(o, k)
  {
    var init, k, v := o[..|o| - 1], o[|o| - 1].0, o[|o| - 1].1;
    var r := Put(before, env + "_" + k, v);
    forall k' | k' in Keys(o)
      ensures env + "_" + k' in Keys(r) && Get(r, env + "_" + k') == Get(o, k')
    {
      if k' != k {
        assert k' in Keys(init);
        if env + "_" + k' == env + "_" + k {
          PrefixInjective(env, k', k);
        }
        assert Get(r, env + "_" + k') == Get(before, env + "_" + k');
      }
    }
  }

  lemma PrefixStepKept(vars: Dict<string, Value>, env: string, o: Dict<string, Value>, before: Dict<string, Value>)
    requires o != [] && PrefixedAs(before, vars, env, o[..|o| - 1])
    requires PrefixedKeys(env, o) == PrefixedKeys(env, o[..|o| - 1]) + [env + "_" + o[|o| - 1].0]
    ensures var r := Put(before, env + "_" + o[|o| - 1].0, o[|o| - 1].1);
      && (forall key :: key in Keys(r) <==> key in Keys(vars) || key in PrefixedKeys(env, o))
      && (forall key :: key in Keys(vars) && key !in PrefixedKeys(env, o) ==> Get(r, key) == Get(vars, key))
  {
    var init, k, v := o[..|o| - 1], o[|o| - 1].0, o[|o| - 1].1;
    var r := Put(before, env + "_" + k, v);
    forall key | key in Keys(vars) && key !in PrefixedKeys(env, o)
      ensures Get(r, key) == Get(vars, key)
    {
      assert key != env + "_" + k && key !in PrefixedKeys(env, init);
    }
  }

  /** The environment's variables as the merge writes them: every group_vars
      entry `v` is `all.vars["<env>_v"]`, written after the inventory's own
      `all.vars` and so winning over it; an inventory variable that
      group_vars does not name keeps its value under the prefix. */
  lemma EnvVarsPrefixed(m: Merged, env: string, inv: Value, files: EnvFiles)
    requires MergeEnv(m, env, inv, files).Ok? && Unique(files.groupVars)
    ensures forall k :: k in Keys(files.groupVars) ==>
      env + "_" + k in Keys(MergeEnv(m, env, inv, files).value.allVars)
      && Get(MergeEnv(m, env, inv, files).value.allVars, env + "_" + k) == Get(files.groupVars, k)
    ensures HasAllKey(inv, "vars") == Ok(true) && InventoryVars(inv).Ok? && Unique(InventoryVars(inv).value) ==>
      forall k :: k in Keys(InventoryVars(inv).value) && k !in Keys(files.groupVars) ==>
        env + "_" + k in Keys(MergeEnv(m, env, inv, files).value.allVars)
        && Get(MergeEnv(m, env, inv, files).value.allVars, env + "_" + k) == Get(InventoryVars(inv).value, k)
  {
    var r := MergeEnv(m, env, inv, files).value;
    var info := EnvInfo(files.source, 0, 0, |files.secrets|);
    var m1 := m.(envInfo := Put(m.envInfo, env, info));
    var m2 := if HasAllKey(inv, "children").value then MergeStructure(m1, env, inv.fields, files).value else m1;
    var m3 := if HasAllKey(inv, "vars").value then m2.(allVars := PrefixVars(m2.allVars, env, InventoryVars(inv).value)) else m2;
    assert r.allVars == PrefixVars(m3.allVars, env, files.groupVars);
    PrefixVarsSpec(m3.allVars, env, files.groupVars);
    if HasAllKey(inv, "vars") == Ok(true) && InventoryVars(inv).Ok? && Unique(InventoryVars(inv).value) {
      var vs := InventoryVars(inv).value;
      PrefixVarsSpec(m2.allVars, env, vs);
      forall k | k in Keys(vs) && k !in Keys(files.groupVars)
        ensures env + "_" + k in Keys(r.allVars) && Get(r.allVars, env + "_" + k) == Get(vs, k)
      {
        PrefixedKeysOf(env, files.groupVars, k);
      }
    }
  }

  // ---------------------------------------------------------------------
  // Host variable precedence

  function HostVarsOf(files: EnvFiles, h: string): Dict<string, Value>
  {
    GetOr(files.hostVars, h, [])
  }

  function SecretsOf(files: EnvFiles, h: string): Dict<string, Value>
  {
    GetOr(files.secrets, h, [])
  }

  /** Every dict the merge reads from the environment's files has no
      repeated key, as a Python dict cannot. */
  ghost predicate FilesWellFormed(files: EnvFiles)
  {
    && (forall h :: h in Keys(files.hostVars) ==> Unique(Get(files.hostVars, h)))
    && (forall h :: h in Keys(files.secrets) ==> Unique(Get(files.secrets, h)))
  }

  /** A host's entry: its secrets win over everything, `environment` over
      its host_vars and earlier entry, its host_vars over its earlier entry;
      the entry has exactly the keys of these four. */
  lemma HostEntryPrecedence(prev: Dict<string, Value>, env: string, files: EnvFiles, h: string)
    requires FilesWellFormed(files)
    ensures forall k :: k in Keys(HostEntry(prev, env, files, h)) <==>
      k in Keys(prev) || k in Keys(HostVarsOf(files, h)) || k == "environment" || k in Keys(SecretsOf(files, h))
    ensures forall k :: k in Keys(SecretsOf(files, h)) ==>
      Get(HostEntry(prev, env, files, h), k) == Get(SecretsOf(files, h), k)
    ensures "environment" !in Keys(SecretsOf(files, h)) ==>
      Get(HostEntry(prev, env, files, h), "environment") == Str(env)
    ensures forall k :: k in Keys(HostVarsOf(files, h)) && k != "environment" && k !in Keys(SecretsOf(files, h)) ==>
      Get(HostEntry(prev, env, files, h), k) == Get(HostVarsOf(files, h), k)
    ensures forall k :: k in Keys(prev) && k !in Keys(HostVarsOf(files, h)) && k != "environment" && k !in Keys(SecretsOf(files, h)) ==>
      Get(HostEntry(prev, env, files, h), k) == Get(prev, k)
  {
    var hostVars, secrets := HostVarsOf(files, h), SecretsOf(files, h);
    var withEnv := Put(Update(prev, hostVars), "environment", Str(env));
    if h !in Keys(files.secrets) {
      assert Update(withEnv, secrets) == withEnv;
    }
    assert HostEntry(prev, env, files, h) == Update(withEnv, secrets);
    Layers(prev, hostVars, "environment", Str(env), secrets);
  }

  /** An entry built from layers, later ones winning: `prev`, then
      `hostVars`, then `tag` set to `v`, then `secrets`. */
  lemma Layers(prev: Dict<string, Value>, hostVars: Dict<string, Value>, tag: string, v: Value, secrets: Dict<string, Value>)
    requires Unique(hostVars) && Unique(secrets)
    ensures var r := Update(Put(Update(prev, hostVars), tag, v), secrets);
      && (forall k :: k in Keys(r) <==> k in Keys(prev) || k in Keys(hostVars) || k == tag || k in Keys(secrets))
      && (forall k :: k in Keys(secrets) ==> Get(r, k) == Get(secrets, k))
      && (tag !in Keys(secrets) ==> Get(r, tag) == v)
      && (forall k :: k in Keys(hostVars) && k != tag && k !in Keys(secrets) ==> Get(r, k) == Get(hostVars, k))
      && (forall k :: k in Keys(prev) && k !in Keys(hostVars) && k != tag && k !in Keys(secrets) ==> Get(r, k) == Get(prev, k))
  {
    UpdateSpec(prev, hostVars);
    UpdateSpec(Put(Update(prev, hostVars), tag, v), secrets);
  }

  /** What a host's `environment` ends up as after this environment lists
      it: its secrets' `environment` if they have one, else the
      environment's name. */
  function EnvTag(env: string, files: EnvFiles, h: string): Value
  {
    if "environment" in Keys(SecretsOf(files, h)) then Get(SecretsOf(files, h), "environment") else Str(env)
  }

  ghost predicate Tagged(hv: Dict<string, Dict<string, Value>>, h: string, env: string, files: EnvFiles)
  {
    h in Keys(hv) && "environment" in Keys(Get(hv, h)) && Get(Get(hv, h), "environment") == EnvTag(env, files, h)
  }

  ghost predicate AllTagged(hv: Dict<string, Dict<string, Value>>, hosts: seq<Value>, env: string, files: EnvFiles)
  {
    forall i :: 0 <= i < |hosts| ==> hosts[i].Str? && Tagged(hv, hosts[i].s, env, files)
  }

  lemma ProcessHostTags(hv: Dict<string, Dict<string, Value>>, env: string, files: EnvFiles, h: string)
    requires FilesWellFormed(files)
    ensures ProcessHost(hv, env, files, Str(h)).Ok?
    ensures Tagged(ProcessHost(hv, env, files, Str(h)).value, h, env, files)
    ensures KeepsTags(hv, ProcessHost(hv, env, files, Str(h)).value, env, files)
  {
    HostEntryPrecedence(GetOr(hv, h, []), env, files, h);
  }

  /** `after` keeps every tag `before` has. */
  ghost predicate KeepsTags(before: Dict<string, Dict<string, Value>>, after: Dict<string, Dict<string, Value>>, env: string, files: EnvFiles)
  {
    forall x :: Tagged(before, x, env, files) ==> Tagged(after, x, env, files)
  }

  lemma AllTaggedSnoc(before: Dict<string, Dict<string, Value>>, after: Dict<string, Dict<string, Value>>, hosts: seq<Value>, env: string, files: EnvFiles)
    requires hosts != [] && AllTagged(before, hosts[..|hosts| - 1], env, files) && KeepsTags(before, after, env, files)
    requires hosts[|hosts| - 1].Str? && Tagged(after, hosts[|hosts| - 1].s, env, files)
    ensures AllTagged(after, hosts, env, files)
  {
    forall i | 0 <= i < |hosts| ensures hosts[i].Str? && Tagged(after, hosts[i].s, env, files) {
      if i < |hosts| - 1 {
        assert hosts[i] == hosts[..|hosts| - 1][i];
      }
    }
  }

  lemma AllTaggedKept(before: Dict<string, Dict<string, Value>>, after: Dict<string, Dict<string, Value>>, hosts: seq<Value>, env: string, files: EnvFiles)
    requires AllTagged(before, hosts, env, files) && KeepsTags(before, after, env, files)
    ensures AllTagged(after, hosts, env, files)
  {
  }

  /** Every host of a list that the merge accepts is a string and ends up
      tagged with the environment; hosts tagged before stay tagged. */
  lemma {:induction false} ProcessHostsTags(hv: Dict<string, Dict<string, Value>>, env: string, files: EnvFiles, hosts: seq<Value>)
    requires FilesWellFormed(files) && ProcessHosts(hv, env, files, hosts).Ok?
    ensures AllTagged(ProcessHosts(hv, env, files, hosts).value, hosts, env, files)
    ensures KeepsTags(hv, ProcessHosts(hv, env, files, hosts).value, env, files)
  {
    if hosts != [] {
      var init, h := hosts[..|hosts| - 1], hosts[|hosts| - 1];
      var r0 := ProcessHosts(hv, env, files, init);
      assert ProcessHosts(hv, env, files, hosts) == if r0.Err? then r0 else ProcessHost(r0.value, env, files, h);
      ProcessHostsTags(hv, env, files, init);
      var hv' := r0.value;
      ProcessHostTags(hv', env, files, h.s);
      var r := ProcessHosts(hv, env, files, hosts).value;
      AllTaggedSnoc(hv', r, hosts, env, files);
    }
  }

  predicate AllStr(hosts: seq<Value>)
  {
    forall i :: 0 <= i < |hosts| ==> hosts[i].Str?
  }

  lemma AllStrSnoc(hosts: seq<Value>)
    requires hosts != []
    ensures AllStr(hosts) <==> AllStr(hosts[..|hosts| - 1]) && hosts[|hosts| - 1].Str?
  {
    assert forall i :: 0 <= i < |hosts| - 1 ==> hosts[..|hosts| - 1][i] == hosts[i];
  }

  lemma {:induction false} ProcessHostsSucceeds(hv: Dict<string, Dict<string, Value>>, env: string, files: EnvFiles, hosts: seq<Value>)
    ensures ProcessHosts(hv, env, files, hosts).Ok? <==> AllStr(hosts)
  {
    if hosts != [] {
      var init, h := hosts[..|hosts| - 1], hosts[|hosts| - 1];
      ProcessHostsSucceeds(hv, env, files, init);
      AllStrSnoc(hosts);
      var r0 := ProcessHosts(hv, env, files, init);
      assert ProcessHosts(hv, env, files, hosts) == if r0.Err? then r0 else ProcessHost(r0.value, env, files, h);
    }
  }

  /** Every host of every group's host list is tagged. */
  ghost predicate GroupsTagged(hv: Dict<string, Dict<string, Value>>, fs: Dict<string, Value>, env: string, files: EnvFiles)
  {
    forall i :: 0 <= i < |fs| && !Reserved(fs[i].0) && HostList(fs[i].1).Some? ==>
      AllTagged(hv, HostList(fs[i].1).value, env, files)
  }

  lemma GroupsTaggedSnoc(before: Dict<string, Dict<string, Value>>, after: Dict<string, Dict<string, Value>>, fs: Dict<string, Value>, env: string, files: EnvFiles)
    requires fs != [] && GroupsTagged(before, fs[..|fs| - 1], env, files) && KeepsTags(before, after, env, files)
    requires !Reserved(fs[|fs| - 1].0) && HostList(fs[|fs| - 1].1).Some? ==>
      AllTagged(after, HostList(fs[|fs| - 1].1).value, env, files)
    ensures GroupsTagged(after, fs, env, files)
  {
    forall i | 0 <= i < |fs| && !Reserved(fs[i].0) && HostList(fs[i].1).Some?
      ensures AllTagged(after, HostList(fs[i].1).value, env, files)
    {
      if i < |fs| - 1 {
        assert fs[i] == fs[..|fs| - 1][i];
        AllTaggedKept(before, after, HostList(fs[i].1).value, env, files);
      }
    }
  }

  /** After `process_hosts_in_group` has run over the groups, every host of
      every group's host list is tagged with the environment. */
  lemma {:induction false} ProcessGroupsTags(hv: Dict<string, Dict<string, Value>>, env: string, files: EnvFiles, fs: Dict<string, Value>)
    requires FilesWellFormed(files) && ProcessGroups(hv, env, files, fs).Ok?
    ensures GroupsTagged(ProcessGroups(hv, env, files, fs).value, fs, env, files)
    ensures KeepsTags(hv, ProcessGroups(hv, env, files, fs).value, env, files)
  {
    if fs != [] {
      var init, g, gd := fs[..|fs| - 1], fs[|fs| - 1].0, fs[|fs| - 1].1;
      var r0 := ProcessGroups(hv, env, files, init);
      assert ProcessGroups(hv, env, files, fs) ==
        if r0.Err? then r0
        else if !Reserved(g) && HostList(gd).Some? then ProcessHosts(r0.value, env, files, HostList(gd).value)
        else r0;
      ProcessGroupsTags(hv, env, files, init);
      var hv' := r0.value;
      var r := ProcessGroups(hv, env, files, fs).value;
      if !Reserved(g) && HostList(gd).Some? {
        ProcessHostsTags(hv', env, files, HostList(gd).value);
      }
      GroupsTaggedSnoc(hv', r, fs, env, files);
    }
  }

  // ---------------------------------------------------------------------
  // One environment's contribution

  /** Whether the merge treats `inv` as structured: it has `all.children`. */
  predicate Structured(inv: Value)
  {
    HasAllKey(inv, "children") == Ok(true)
  }

  /** The names an environment adds to `all.children`: itself, then its
      groups, when its inventory is structured. */
  function ListedBy(env: string, inv: Value): seq<string>
  {
    if Structured(inv) then [env] + OtherKeys(inv.fields) else []
  }

  /** The `_meta.environment_info` entry the merge writes for `env`. */
  function ExpectedInfo(inv: Value, files: EnvFiles): EnvInfo
  {
    if Structured(inv) then EnvInfo(files.source, HostsCount(inv.fields), |OtherKeys(inv.fields)|, |files.secrets|)
    else EnvInfo(files.source, 0, 0, |files.secrets|)
  }

  lemma MergeStructureFacts(m: Merged, env: string, fs: Dict<string, Value>, files: EnvFiles)
    requires MergeStructure(m, env, fs, files).Ok?
    ensures ProcessGroups(m.hostvars, env, files, fs).Ok?
    ensures MergeStructure(m, env, fs, files).value.hostvars == ProcessGroups(m.hostvars, env, files, fs).value
    ensures MergeStructure(m, env, fs, files).value.allVars == m.allVars
    ensures MergeStructure(m, env, fs, files).value.envInfo ==
      Put(m.envInfo, env, EnvInfo(files.source, HostsCount(fs), |OtherKeys(fs)|, |files.secrets|))
    ensures m.children <= MergeStructure(m, env, fs, files).value.children
    ensures forall x :: x in MergeStructure(m, env, fs, files).value.children <==> x in m.children || x == env || x in OtherKeys(fs)
    ensures NoDup(m.children) ==> NoDup(MergeStructure(m, env, fs, files).value.children)
  {
    var children := AddChild(m.children, env);
    var m1 := if env in Keys(fs) then m.(children := children, groups := Put(m.groups, env, Copy(Get(fs, env)).value)) else m.(children := children);
    assert CopyGroups(m1, fs).Ok?;
  }

  /** What `MergeEnv` has built before it turns to variables. */
  function StructurePart(m: Merged, env: string, inv: Value, files: EnvFiles): Result<Merged>
  {
    var m1 := m.(envInfo := Put(m.envInfo, env, EnvInfo(files.source, 0, 0, |files.secrets|)));
    if Structured(inv) then MergeStructure(m1, env, inv.fields, files) else Ok(m1)
  }

  /** What `MergeEnv` does after the structure: the inventory's own
      `all.vars`, then the group_vars, written into `all.vars` under the
      environment's prefix. */
  function VarsPart(m2: Merged, env: string, inv: Value, files: EnvFiles): Result<Merged>
  {
    var hasVars :- HasAllKey(inv, "vars");
    var m3 :-
      if hasVars then
        var vs :- InventoryVars(inv);
        Ok(m2.(allVars := PrefixVars(m2.allVars, env, vs)))
      else Ok(m2);
    Ok(m3.(allVars := PrefixVars(m3.allVars, env, files.groupVars)))
  }

  lemma MergeEnvSplit(m: Merged, env: string, inv: Value, files: EnvFiles)
    requires MergeEnv(m, env, inv, files).Ok?
    ensures StructurePart(m, env, inv, files).Ok?
    ensures MergeEnv(m, env, inv, files) == VarsPart(StructurePart(m, env, inv, files).value, env, inv, files)
  {
    assert HasAllKey(inv, "children").Ok?;
  }

  lemma VarsPartKeeps(m2: Merged, env: string, inv: Value, files: EnvFiles)
    requires VarsPart(m2, env, inv, files).Ok?
    ensures VarsPart(m2, env, inv, files).value == m2.(allVars := VarsPart(m2, env, inv, files).value.allVars)
  {
  }

  /** The variable steps of `MergeEnv` touch only `all.vars`. */
  lemma MergeEnvVarsOnly(m: Merged, env: string, inv: Value, files: EnvFiles)
    requires MergeEnv(m, env, inv, files).Ok?
    ensures StructurePart(m, env, inv, files).Ok?
    ensures MergeEnv(m, env, inv, files).value.children == StructurePart(m, env, inv, files).value.children
    ensures MergeEnv(m, env, inv, files).value.envInfo == StructurePart(m, env, inv, files).value.envInfo
    ensures MergeEnv(m, env, inv, files).value.hostvars == StructurePart(m, env, inv, files).value.hostvars
  {
    MergeEnvSplit(m, env, inv, files);
    VarsPartKeeps(StructurePart(m, env, inv, files).value, env, inv, files);
  }

  lemma MergeEnvFacts(m: Merged, env: string, inv: Value, files: EnvFiles)
    requires MergeEnv(m, env, inv, files).Ok?
    ensures m.children <= MergeEnv(m, env, inv, files).value.children
    ensures forall x :: x in MergeEnv(m, env, inv, files).value.children <==> x in m.children || x in ListedBy(env, inv)
    ensures NoDup(m.children) ==> NoDup(MergeEnv(m, env, inv, files).value.children)
    ensures MergeEnv(m, env, inv, files).value.envInfo == Put(m.envInfo, env, ExpectedInfo(inv, files))
    ensures Structured(inv) ==>
      (ProcessGroups(m.hostvars, env, files, inv.fields).Ok?
       && MergeEnv(m, env, inv, files).value.hostvars == ProcessGroups(m.hostvars, env, files, inv.fields).value)
    ensures !Structured(inv) ==> MergeEnv(m, env, inv, files).value.hostvars == m.hostvars
  {
    MergeEnvVarsOnly(m, env, inv, files);
    StructurePartFacts(m, env, inv, files);
  }

  lemma StructurePartFacts(m: Merged, env: string, inv: Value, files: EnvFiles)
    requires StructurePart(m, env, inv, files).Ok?
    ensures m.children <= StructurePart(m, env, inv, files).value.children
    ensures forall x :: x in StructurePart(m, env, inv, files).value.children <==> x in m.children || x in ListedBy(env, inv)
    ensures NoDup(m.children) ==> NoDup(StructurePart(m, env, inv, files).value.children)
    ensures StructurePart(m, env, inv, files).value.envInfo == Put(m.envInfo, env, ExpectedInfo(inv, files))
    ensures Structured(inv) ==>
      (ProcessGroups(m.hostvars, env, files, inv.fields).Ok?
       && StructurePart(m, env, inv, files).value.hostvars == ProcessGroups(m.hostvars, env, files, inv.fields).value)
    ensures !Structured(inv) ==> StructurePart(m, env, inv, files).value.hostvars == m.hostvars
  {
    var info := EnvInfo(files.source, 0, 0, |files.secrets|);
    var m1 := m.(envInfo := Put(m.envInfo, env, info));
    if Structured(inv) {
      MergeStructureFacts(m1, env, inv.fields, files);
      PutTwice(m.envInfo, env, info, ExpectedInfo(inv, files));
    }
  }

  /** Assigning a key twice leaves the second value, as if assigned once. */
  lemma PutTwice<K, V>(d: Dict<K, V>, k: K, v1: V, v2: V)
    ensures Put(Put(d, k, v1), k, v2) == Put(d, k, v2)
  {
    var d1 := Put(d, k, v1);
    if k in Keys(d) {
      SameKeysSameIndex(d, d1, k);
    } else {
      assert IndexOf(d1, k) == |d| by {
        forall j | 0 <= j < |d| ensures d1[j].0 != k {
          assert Keys(d)[j] == d[j].0;
        }
      }
    }
  }

  /** After an environment is merged, every host of every group of its
      inventory has a `_meta.hostvars` entry whose `environment` is the
      environment's name (or its secrets' `environment`, which wins). */
  lemma MergeEnvTagsHosts(m: Merged, env: string, inv: Value, files: EnvFiles)
    requires MergeEnv(m, env, inv, files).Ok? && FilesWellFormed(files) && Structured(inv)
    ensures GroupsTagged(MergeEnv(m, env, inv, files).value.hostvars, inv.fields, env, files)
  {
    MergeEnvFacts(m, env, inv, files);
    ProcessGroupsTags(m.hostvars, env, files, inv.fields);
  }

  // ---------------------------------------------------------------------
  // The whole merge

  /** The names the given inventories put under `all.children`, in order
      and with repeats. */
  function AllListed(inventories: Dict<string, Value>): seq<string>
  {
    if inventories == [] then []
    else
      var env, inv := inventories[|inventories| - 1].0, inventories[|inventories| - 1].1;
      AllListed(inventories[..|inventories| - 1]) + ListedBy(env, inv)
  }

  /** `all.children` holds each environment with `all.children` and each of
      its groups, and nothing else, each name once. */
  lemma {:induction false} MergeChildren(inventories: Dict<string, Value>, io: string -> EnvFiles)
    requires Merge(inventories, io).Ok?
    ensures NoDup(Merge(inventories, io).value.children)
    ensures forall x :: x in Merge(inventories, io).value.children <==> x in AllListed(inventories)
  {
    if inventories != [] {
      var init, env, inv := inventories[..|inventories| - 1], inventories[|inventories| - 1].0, inventories[|inventories| - 1].1;
      var m := Merge(init, io);
      assert Merge(inventories, io) == if m.Err? then m else MergeEnv(m.value, env, inv, io(env));
      MergeChildren(init, io);
      MergeEnvFacts(m.value, env, inv, io(env));
    }
  }

  /** Every environment of `inventories` has its expected entry in `info`. */
  predicate InfoMatches(info: Dict<string, EnvInfo>, inventories: Dict<string, Value>, io: string -> EnvFiles)
  {
    forall e :: e in Keys(inventories) ==> e in Keys(info) && Get(info, e) == ExpectedInfo(Get(inventories, e), io(e))
  }

  lemma InfoMatchesSnoc(info: Dict<string, EnvInfo>, inventories: Dict<string, Value>, io: string -> EnvFiles)
    requires inventories != [] && Unique(inventories)
    requires Keys(info) == Keys(inventories[..|inventories| - 1])
    requires InfoMatches(info, inventories[..|inventories| - 1], io)
    ensures var env, inv := inventories[|inventories| - 1].0, inventories[|inventories| - 1].1;
      var info' := Put(info, env, ExpectedInfo(inv, io(env)));
      Keys(info') == Keys(inventories) && InfoMatches(info', inventories, io)
  {
    PrefixOfUnique(inventories);
  }

  /** Each environment's `_meta.environment_info` entry holds its source,
      its number of groups (keys other than `all` and `_meta`), the sum of
      its groups' host-list lengths, and its number of secrets files; an
      inventory without `all.children` reports zero hosts and groups. */
  lemma {:induction false} MergeEnvInfo(inventories: Dict<string, Value>, io: string -> EnvFiles)
    requires Unique(inventories) && Merge(inventories, io).Ok?
    ensures Keys(Merge(inventories, io).value.envInfo) == Keys(inventories)
    ensures InfoMatches(Merge(inventories, io).value.envInfo, inventories, io)
  {
    if inventories != [] {
      var init, env, inv := inventories[..|inventories| - 1], inventories[|inventories| - 1].0, inventories[|inventories| - 1].1;
      var m := Merge(init, io);
      assert Merge(inventories, io) == if m.Err? then m else MergeEnv(m.value, env, inv, io(env));
      PrefixOfUnique(inventories);
      MergeEnvInfo(init, io);
      MergeEnvFacts(m.value, env, inv, io(env));
      InfoMatchesSnoc(m.value.envInfo, inventories, io);
    }
  }
}
