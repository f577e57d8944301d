/** `DynamicInventory._convert_toml_to_ansible_format`: reshapes the groups
    read from an environment's `hosts.toml` into Ansible's inventory layout.
    `all` gets the environment as its only child; the environment's own group
    gets the headerless hosts and every other group as a child; each other
    group becomes a group of its own with a `hosts` list. */
module AnsibleFormat {
  import opened Dicts
  import opened Values

  /** `all` as the conversion writes it: `{"children": [env], "vars": {}}`. */
  function AllGroup(env: string): Value
  {
    Obj([("children", List([Str(env)])), ("vars", Obj([]))])
  }

  /** The environment's group: `{"children": ..., "hosts": ..., "vars": {}}`. */
  function EnvGroup(children: seq<string>, hosts: seq<Value>): Value
  {
    Obj([("children", StrList(children)), ("hosts", List(hosts)), ("vars", Obj([]))])
  }

  /** The inventory before any group has been read. The environment's group
      is assigned after `all`, so an environment named `all` replaces it. */
  function Initial(env: string): Dict<string, Value>
  {
    if env == "all" then [("all", EnvGroup([], []))]
    else [("all", AllGroup(env)), (env, EnvGroup([], []))]
  }

  /** `inventory[env][field].extend(items)` or, with `op` "append",
      `inventory[env][field].append(item)`: the environment's entry must be a
      dict holding `field`, and that field must be a list; the error names
      the list method `op` that was looked up. */
  function ExtendField(inv: Dict<string, Value>, env: string, field: string, op: string, items: seq<Value>): (r: Result<Dict<string, Value>>)
    ensures r.Ok? ==> Keys(r.value) == Keys(inv)
  {
    var g :- Index(Obj(inv), env);
    var xs :- Index(g, field);
    if xs.List? then Ok(Put(inv, env, Obj(Put(g.fields, field, List(xs.items + items)))))
    else Err(AttributeError("'" + TypeName(xs) + "' object has no attribute '" + op + "'"))
  }

  /** The structure built for a group other than `all`: a list becomes its
      `hosts`; a dict is copied key by key over `{"hosts": []}` (a `hosts`
      key, list or not, replaces the default); anything else gives an empty
      group. */
  function GroupStructure(v: Value): Value
  {
    match v
    case List(_) => Obj([("hosts", v)])
    case Obj(fs) => Obj(Update([("hosts", List([]))], fs))
    case _ => Obj([("hosts", List([]))])
  }

  /** One iteration of the conversion loop over the input groups. */
  function AddGroup(inv: Dict<string, Value>, env: string, name: string, v: Value): Result<Dict<string, Value>>
  {
    if name == "all" then
      if v.List? then ExtendField(inv, env, "hosts", "extend", v.items) else Ok(inv)
    else
      var inv' :- ExtendField(inv, env, "children", "append", [Str(name)]);
      Ok(Put(inv', name, GroupStructure(v)))
  }

  /** The conversion of the given groups, in input order. */
  function Convert(data: Dict<string, Value>, env: string): Result<Dict<string, Value>>
  {
    if data == [] then Ok(Initial(env))
    else
      var inv :- Convert(data[..|data| - 1], env);
      AddGroup(inv, env, data[|data| - 1].0, data[|data| - 1].1)
  }

  /** The parser's groups as the values the conversion receives. */
  function FromIni(groups: Dict<string, seq<string>>): (r: Dict<string, Value>)
    ensures Keys(r) == Keys(groups)
    ensures forall i :: 0 <= i < |r| ==> r[i].1 == StrList(groups[i].1)
  {
    seq(|groups|, i requires 0 <= i < |groups| => (groups[i].0, StrList(groups[i].1)))
  }

  lemma UpdatePrefixStep(d: Dict<string, Value>, fs: Dict<string, Value>, i: nat)
    requires i < |fs|
    ensures Update(d, fs[..i + 1]) == Put(Update(d, fs[..i]), fs[i].0, fs[i].1)
  {
    assert fs[..i + 1] == fs[..i] + [fs[i]];
    UpdateSnoc(d, fs[..i], fs[i].0, fs[i].1);
  }

  method BuildGroupStructure(v: Value) returns (gs: Value)
    ensures gs == GroupStructure(v)
  {
    var structure: Dict<string, Value> := [("hosts", List([]))];
    if v.List? {
      structure := Put(structure, "hosts", v);
    } else if v.Obj? {
      var fs := v.fields;
      var i := 0;
      while i < |fs|
        invariant 0 <= i <= |fs|
        invariant structure == Update([("hosts", List([]))], fs[..i])
      {
        var key, value := fs[i].0, fs[i].1;
        UpdatePrefixStep([("hosts", List([]))], fs, i);
        if key == "hosts" && value.List? {
          structure := Put(structure, "hosts", value);
        } else {
          structure := Put(structure, key, value);
        }
        i := i + 1;
      }
      assert fs[..i] == fs;
    }
    gs := Obj(structure);
  }

  /** The body of the conversion loop, for one input group. */
  method AddGroupToInventory(inv: Dict<string, Value>, env: string, name: string, v: Value)
    returns (r: Result<Dict<string, Value>>)
    ensures r == AddGroup(inv, env, name, v)
  {
    if name == "all" {
      r := Ok(inv);
      if v.List? {
        r := ExtendField(inv, env, "hosts", "extend", v.items);
      }
    } else {
      r := ExtendField(inv, env, "children", "append", [Str(name)]);
      if r.Ok? {
        var gs := BuildGroupStructure(v);
        r := Ok(Put(r.value, name, gs));
      }
    }
  }

  lemma ConvertPrefixStep(data: Dict<string, Value>, env: string, i: nat)
    requires i < |data|
    ensures Convert(data[..i + 1], env) ==
      if Convert(data[..i], env).Err? then Convert(data[..i], env)
      else AddGroup(Convert(data[..i], env).value, env, data[i].0, data[i].1)
  {
    assert data[..i + 1][..i] == data[..i];
  }

  /** The conversion loop. */
  method ConvertToAnsibleFormat(data: Dict<string, Value>, env: string) returns (r: Result<Dict<string, Value>>)
    ensures r == Convert(data, env)
  {
    var inv := Initial(env);
    var i := 0;
    while i < |data|
      invariant 0 <= i <= |data|
      invariant Convert(data[..i], env) == Ok(inv)
    {
      ConvertPrefixStep(data, env, i);
      var step := AddGroupToInventory(inv, env, data[i].0, data[i].1);
      if step.Err? {
        ConvertErrorPersists(data, env, i + 1);
        return step;
      }
      inv := step.value;
      i := i + 1;
    }
    assert data[..i] == data;
    r := Ok(inv);
  }

  // ---------------------------------------------------------------------
  // What the conversion builds

  /** The names of the input groups other than `all`, in input order. */
  function OtherGroups(data: Dict<string, Value>): seq<string>
  {
    if data == [] then []
    else
      var name := data[|data| - 1].0;
      OtherGroups(data[..|data| - 1]) + (if name == "all" then [] else [name])
  }

  /** The hosts of the input's `all` entries that are lists, in order. */
  function AllHosts(data: Dict<string, Value>): seq<Value>
  {
    if data == [] then []
    else
      var (name, v) := data[|data| - 1];
      AllHosts(data[..|data| - 1]) + (if name == "all" && v.List? then v.items else [])
  }

  lemma {:induction false} OtherGroupsAreKeys(data: Dict<string, Value>)
    ensures forall g :: g in OtherGroups(data) ==> g in Keys(data) && g != "all"
  {
    if data != [] {
      var init := data[..|data| - 1];
      OtherGroupsAreKeys(init);
      assert forall j :: 0 <= j < |init| ==> Keys(init)[j] == Keys(data)[j];
      assert Keys(data)[|data| - 1] == data[|data| - 1].0;
    }
  }

  /** What the conversion has built after reading the groups `data`. */
  ghost predicate Shaped(inv: Dict<string, Value>, env: string, data: Dict<string, Value>)
  {
    && Keys(inv) == ["all", env] + OtherGroups(data)
    && Get(inv, "all") == AllGroup(env)
    && Get(inv, env) == EnvGroup(OtherGroups(data), AllHosts(data))
    && forall i :: 0 <= i < |data| && data[i].0 != "all" ==>
         data[i].0 in Keys(inv) && Get(inv, data[i].0) == GroupStructure(data[i].1)
  }

  /** Extending a field of an environment group built by the conversion. */
  lemma ExtendEnvGroup(inv: Dict<string, Value>, env: string, children: seq<string>, hosts: seq<Value>, name: string, items: seq<Value>)
    requires env in Keys(inv) && Get(inv, env) == EnvGroup(children, hosts)
    ensures ExtendField(inv, env, "children", "append", [Str(name)]) == Ok(Put(inv, env, EnvGroup(children + [name], hosts)))
    ensures ExtendField(inv, env, "hosts", "extend", items) == Ok(Put(inv, env, EnvGroup(children, hosts + items)))
  {
    var fs := Get(inv, env).fields;
    assert Keys(fs) == ["children", "hosts", "vars"];
    assert Index(Obj(inv), env) == Ok(Get(inv, env));
    assert IndexOf(fs, "children") == 0 && IndexOf(fs, "hosts") == 1;
    var c := StrList(children + [name]);
    assert c.items == StrList(children).items + [Str(name)];
    assert Put(fs, "children", c) == EnvGroup(children + [name], hosts).fields;
    assert Put(fs, "hosts", List(hosts + items)) == EnvGroup(children, hosts + items).fields;
  }

  /** One group other than `all` read into an inventory whose environment
      group is built and which does not have the group yet. */
  lemma AddOtherGroup(inv: Dict<string, Value>, env: string, children: seq<string>, hosts: seq<Value>, name: string, v: Value)
    returns (r: Dict<string, Value>)
    requires env in Keys(inv) && Get(inv, env) == EnvGroup(children, hosts)
    requires name != "all" && name !in Keys(inv)
    ensures AddGroup(inv, env, name, v) == Ok(r)
    ensures Keys(r) == Keys(inv) + [name]
    ensures Get(r, env) == EnvGroup(children + [name], hosts)
    ensures Get(r, name) == GroupStructure(v)
    ensures forall k :: k in Keys(inv) && k != env ==> Get(r, k) == Get(inv, k)
  {
    ExtendEnvGroup(inv, env, children, hosts, name, []);
    var inv' := Put(inv, env, EnvGroup(children + [name], hosts));
    assert name !in Keys(inv');
    r := Put(inv', name, GroupStructure(v));
  }

  /** After a new group is read, every group read so far maps to its
      structure. */
  lemma GroupsAfterOther(data: Dict<string, Value>, init: Dict<string, Value>, env: string,
                         inv: Dict<string, Value>, r: Dict<string, Value>)
    requires data != [] && init == data[..|data| - 1] && env !in Keys(data)
    requires forall i :: 0 <= i < |init| && init[i].0 != "all" ==>
      init[i].0 in Keys(inv) && Get(inv, init[i].0) == GroupStructure(init[i].1)
    requires Keys(r) == Keys(inv) + [data[|data| - 1].0]
    requires Get(r, data[|data| - 1].0) == GroupStructure(data[|data| - 1].1)
    requires forall k :: k in Keys(inv) && k != env ==> Get(r, k) == Get(inv, k)
    ensures forall i :: 0 <= i < |data| && data[i].0 != "all" ==>
      data[i].0 in Keys(r) && Get(r, data[i].0) == GroupStructure(data[i].1)
  {
    forall i | 0 <= i < |data| && data[i].0 != "all"
      ensures data[i].0 in Keys(r) && Get(r, data[i].0) == GroupStructure(data[i].1)
    {
      if i < |data| - 1 {
        assert data[i] == init[i];
        assert Keys(data)[i] == data[i].0;
      }
    }
  }

  /** The shape after a new group, from what adding it changes. */
  lemma ShapedFromOther(data: Dict<string, Value>, init: Dict<string, Value>, env: string,
                        inv: Dict<string, Value>, r: Dict<string, Value>)
    requires data != [] && init == data[..|data| - 1] && env !in Keys(data)
    requires data[|data| - 1].0 != "all"
    requires Shaped(inv, env, init)
    requires Keys(r) == Keys(inv) + [data[|data| - 1].0]
    requires Get(r, env) == EnvGroup(OtherGroups(init) + [data[|data| - 1].0], AllHosts(init))
    requires Get(r, data[|data| - 1].0) == GroupStructure(data[|data| - 1].1)
    requires forall k :: k in Keys(inv) && k != env ==> Get(r, k) == Get(inv, k)
    ensures Shaped(r, env, data)
  {
    ReadOther(data);
    assert Get(r, "all") == AllGroup(env) by {
      assert Keys(inv)[0] == "all";
    }
    GroupsAfterOther(data, init, env, inv, r);
  }

  /** Reading a new group keeps the shape. */
  lemma ShapedAfterOther(data: Dict<string, Value>, init: Dict<string, Value>, env: string, inv: Dict<string, Value>)
    requires data != [] && init == data[..|data| - 1] && env !in Keys(data)
    requires data[|data| - 1].0 != "all" && env != "all"
    requires data[|data| - 1].0 !in Keys(inv)
    requires Shaped(inv, env, init)
    ensures AddGroup(inv, env, data[|data| - 1].0, data[|data| - 1].1).Ok?
    ensures Shaped(AddGroup(inv, env, data[|data| - 1].0, data[|data| - 1].1).value, env, data)
  {
    assert Keys(inv)[1] == env;
    var r := AddOtherGroup(inv, env, OtherGroups(init), AllHosts(init), data[|data| - 1].0, data[|data| - 1].1);
    ShapedFromOther(data, init, env, inv, r);
  }

  /** A trailing group other than `all` adds its name to the children and no
      hosts. */
  lemma ReadOther(data: Dict<string, Value>)
    requires data != [] && data[|data| - 1].0 != "all"
    ensures OtherGroups(data) == OtherGroups(data[..|data| - 1]) + [data[|data| - 1].0]
    ensures AllHosts(data) == AllHosts(data[..|data| - 1])
  {
  }

  lemma AddOtherGroupKeepsShape(data: Dict<string, Value>, env: string)
    requires data != [] && Unique(data) && env != "all" && env !in Keys(data)
    requires data[|data| - 1].0 != "all"
    requires Convert(data[..|data| - 1], env).Ok?
    requires Shaped(Convert(data[..|data| - 1], env).value, env, data[..|data| - 1])
    ensures Convert(data, env).Ok? && Shaped(Convert(data, env).value, env, data)
  {
    var init := data[..|data| - 1];
    assert data[|data| - 1].0 !in Keys(Convert(init, env).value) by {
      PrefixOfUnique(data);
      OtherGroupsAreKeys(init);
    }
    ShapedAfterOther(data, init, env, Convert(init, env).value);
  }

  /** Reading a trailing `all` entry leaves every other group's structure
      where it was, as long as only the environment's group changes. */
  lemma OtherGroupsKept(data: Dict<string, Value>, init: Dict<string, Value>, env: string, inv: Dict<string, Value>, r: Dict<string, Value>)
    requires data != [] && init == data[..|data| - 1] && data[|data| - 1].0 == "all" && env !in Keys(data)
    requires forall i :: 0 <= i < |init| && init[i].0 != "all" ==>
      init[i].0 in Keys(inv) && Get(inv, init[i].0) == GroupStructure(init[i].1)
    requires Keys(r) == Keys(inv)
    requires forall k :: k != env && k in Keys(inv) ==> Get(r, k) == Get(inv, k)
    ensures forall i :: 0 <= i < |data| && data[i].0 != "all" ==>
      data[i].0 in Keys(r) && Get(r, data[i].0) == GroupStructure(data[i].1)
  {
    forall i | 0 <= i < |data| && data[i].0 != "all"
      ensures data[i].0 in Keys(r) && Get(r, data[i].0) == GroupStructure(data[i].1)
    {
      assert i != |data| - 1;
      assert init[i] == data[i];
      assert Keys(data)[i] == data[i].0;
    }
  }

  /** The shape after a trailing `all` entry, from what reading it changes. */
  lemma ShapedAfterAll(data: Dict<string, Value>, init: Dict<string, Value>, env: string,
                       inv: Dict<string, Value>, r: Dict<string, Value>)
    requires data != [] && init == data[..|data| - 1] && env !in Keys(data)
    requires data[|data| - 1].0 == "all" && env != "all"
    requires Shaped(inv, env, init)
    requires Keys(r) == Keys(inv)
    requires Get(r, env) == EnvGroup(OtherGroups(init), AllHosts(data))
    requires forall k :: k != env && k in Keys(inv) ==> Get(r, k) == Get(inv, k)
    ensures Shaped(r, env, data)
  {
    assert OtherGroups(data) == OtherGroups(init);
    assert Get(r, "all") == AllGroup(env) by {
      assert Keys(inv)[0] == "all";
    }
    OtherGroupsKept(data, init, env, inv, r);
  }

  /** Reading an `all` entry: a list extends the environment's hosts, and
      nothing else changes. */
  lemma AddAllGroup(inv: Dict<string, Value>, env: string, children: seq<string>, hosts: seq<Value>, v: Value)
    requires env in Keys(inv) && Get(inv, env) == EnvGroup(children, hosts)
    ensures var r := if v.List? then Put(inv, env, EnvGroup(children, hosts + v.items)) else inv;
      && AddGroup(inv, env, "all", v) == Ok(r)
      && Keys(r) == Keys(inv)
      && Get(r, env) == EnvGroup(children, hosts + (if v.List? then v.items else []))
      && forall k :: k != env && k in Keys(inv) ==> Get(r, k) == Get(inv, k)
  {
    if v.List? {
      ExtendEnvGroup(inv, env, children, hosts, "", v.items);
    } else {
      assert hosts + [] == hosts;
    }
  }

  lemma AddAllKeepsShape(data: Dict<string, Value>, env: string)
    requires data != [] && Unique(data) && env != "all" && env !in Keys(data)
    requires data[|data| - 1].0 == "all"
    requires Convert(data[..|data| - 1], env).Ok?
    requires Shaped(Convert(data[..|data| - 1], env).value, env, data[..|data| - 1])
    ensures Convert(data, env).Ok? && Shaped(Convert(data, env).value, env, data)
  {
    var init, v := data[..|data| - 1], data[|data| - 1].1;
    var inv := Convert(init, env).value;
    var children, hosts := OtherGroups(init), AllHosts(init);
    var r := if v.List? then Put(inv, env, EnvGroup(children, hosts + v.items)) else inv;
    assert Keys(inv)[1] == env;
    AddAllGroup(inv, env, children, hosts, v);
    assert Convert(data, env) == Ok(r);
    assert AllHosts(data) == hosts + (if v.List? then v.items else []);
    ShapedAfterAll(data, init, env, inv, r);
  }

  /** With no input group named like the environment (and the environment
      not named `all`), the conversion succeeds and builds: `all` with the
      environment as its only child; the environment's group whose `hosts`
      are the input's `all` list and whose `children` are the other groups in
      input order; and one structure per other group, in input order. */
  lemma {:induction false} ConvertShape(data: Dict<string, Value>, env: string)
    requires Unique(data) && env != "all" && env !in Keys(data)
    ensures Convert(data, env).Ok? && Shaped(Convert(data, env).value, env, data)
  {
    if data == [] {
      assert Keys(Initial(env)) == ["all", env];
    } else {
      PrefixOfUnique(data);
      ConvertShape(data[..|data| - 1], env);
      if data[|data| - 1].0 == "all" {
        AddAllKeepsShape(data, env);
      } else {
        AddOtherGroupKeepsShape(data, env);
      }
    }
  }

  /** A failed step ends the conversion: the error is the result. */
  lemma {:induction false} ConvertErrorPersists(data: Dict<string, Value>, env: string, i: nat)
    requires i <= |data| && Convert(data[..i], env).Err?
    ensures Convert(data, env) == Convert(data[..i], env)
    decreases |data| - i
  {
    if i < |data| {
      assert data[..i + 1][..i] == data[..i];
      ConvertErrorPersists(data, env, i + 1);
    } else {
      assert data[..i] == data;
    }
  }

  /** `all.children` is exactly `[env]`, whatever the groups. */
  lemma AllChildrenIsEnv(data: Dict<string, Value>, env: string)
    requires Unique(data) && env != "all" && env !in Keys(data)
    ensures Convert(data, env).Ok? && "all" in Keys(Convert(data, env).value)
    ensures Index(Get(Convert(data, env).value, "all"), "children") == Ok(List([Str(env)]))
  {
    ConvertShape(data, env);
    assert Keys(AllGroup(env).fields) == ["children", "vars"];
  }

  /** A dict group keeps every one of its keys with its value (its `hosts`
      replacing the default), and gains only `hosts`, which comes first. */
  lemma DictGroupCopied(fs: Dict<string, Value>)
    requires Unique(fs)
    ensures GroupStructure(Obj(fs)).Obj?
    ensures |GroupStructure(Obj(fs)).fields| > 0 && GroupStructure(Obj(fs)).fields[0].0 == "hosts"
    ensures forall k :: k in Keys(GroupStructure(Obj(fs)).fields) <==> k == "hosts" || k in Keys(fs)
    ensures forall k :: k in Keys(fs) ==> Get(GroupStructure(Obj(fs)).fields, k) == Get(fs, k)
    ensures "hosts" !in Keys(fs) ==> Get(GroupStructure(Obj(fs)).fields, "hosts") == List([])
  {
    var base: Dict<string, Value> := [("hosts", List([]))];
    UpdateSpec(base, fs);
    assert Keys(base) == ["hosts"];
    var r := Update(base, fs);
    assert Keys(r)[0] == "hosts";
  }

  /** The structure of a group given as a list: the list is its `hosts`. */
  lemma ListGroupHosts(v: Value)
    requires v.List?
    ensures Index(GroupStructure(v), "hosts") == Ok(v)
  {
    assert Keys([("hosts", v)]) == ["hosts"];
  }

  /** The environment's group holds nothing but a `hosts` list: what is
      left of it once a group named like the environment has been read. */
  ghost predicate HostsOnly(inv: Dict<string, Value>, env: string)
  {
    && env in Keys(inv) && Get(inv, env).Obj?
    && Keys(Get(inv, env).fields) == ["hosts"] && Get(Get(inv, env).fields, "hosts").List?
  }

  /** A header named like the environment replaces the environment's group
      with a plain group `{"hosts": list}`, which has no `children`. */
  lemma GroupNamedLikeEnvironmentReplaces(data: Dict<string, Value>, env: string, i: nat)
    requires Unique(data) && env != "all" && i < |data| && data[i].0 == env && data[i].1.List?
    ensures Convert(data[..i + 1], env).Ok?
    ensures env in Keys(Convert(data[..i + 1], env).value)
    ensures Get(Convert(data[..i + 1], env).value, env) == Obj([("hosts", data[i].1)])
  {
    var init := data[..i];
    PrefixOfUnique(data[..i + 1]);
    PrefixOfUnique(data);
    assert data[..i + 1][..i] == init;
    assert env !in Keys(init) by {
      forall j | 0 <= j < |init| ensures Keys(init)[j] != env {
        assert init[j] == data[j];
      }
    }
    ConvertShape(init, env);
    var inv := Convert(init, env).value;
    assert Keys(inv)[1] == env;
    ExtendEnvGroup(inv, env, OtherGroups(init), AllHosts(init), env, []);
    assert Convert(data[..i + 1], env) == AddGroup(inv, env, env, data[i].1);
  }

  /** An `all` entry keeps the environment's group down to a `hosts` list;
      any other group then asks for its `children` and raises KeyError. */
  lemma HostsOnlyStep(inv: Dict<string, Value>, env: string, name: string, v: Value)
    requires HostsOnly(inv, env)
    ensures name == "all" ==> AddGroup(inv, env, name, v).Ok? && HostsOnly(AddGroup(inv, env, name, v).value, env)
    ensures name != "all" ==> AddGroup(inv, env, name, v) == Err(KeyError("children"))
  {
    var g := Get(inv, env);
    assert Index(Obj(inv), env) == Ok(g);
    if name == "all" && v.List? {
      var xs := Get(g.fields, "hosts");
      var fs := Put(g.fields, "hosts", List(xs.items + v.items));
      assert AddGroup(inv, env, name, v) == Ok(Put(inv, env, Obj(fs)));
    }
  }

  /** Once the environment's group has been replaced, every later result is
      either that state or the KeyError, and it is the KeyError from the
      first later group other than `all` on. */
  lemma {:induction false} AfterGroupNamedLikeEnvironment(data: Dict<string, Value>, env: string, i: nat, k: nat)
    requires Unique(data) && env != "all" && i <= k < |data| && data[i].0 == env && data[i].1.List?
    ensures Convert(data[..k + 1], env) == Err(KeyError("children"))
      || (Convert(data[..k + 1], env).Ok? && HostsOnly(Convert(data[..k + 1], env).value, env))
    ensures i < k && data[k].0 != "all" ==> Convert(data[..k + 1], env) == Err(KeyError("children"))
    decreases k
  {
    if k == i {
      GroupNamedLikeEnvironmentReplaces(data, env, i);
      var inv := Convert(data[..i + 1], env).value;
      assert Keys(Get(inv, env).fields) == ["hosts"];
    } else {
      AfterGroupNamedLikeEnvironment(data, env, i, k - 1);
      ConvertPrefixStep(data, env, k);
      if Convert(data[..k], env).Ok? {
        HostsOnlyStep(Convert(data[..k], env).value, env, data[k].0, data[k].1);
      }
    }
  }

  /** A header named like the environment followed by any group other than
      `all` makes the whole conversion raise KeyError('children'). */
  lemma GroupNamedLikeEnvironment(data: Dict<string, Value>, env: string, i: nat, j: nat)
    requires Unique(data) && env != "all" && i < j < |data| && data[i].0 == env && data[i].1.List?
    requires data[j].0 != "all"
    ensures Convert(data, env) == Err(KeyError("children"))
  {
    ChildrenErrorFrom(data, env, i, j, |data|);
    assert data[..|data|] == data;
  }

  /** The KeyError('children') raised at group `j` is the result of every
      longer prefix. */
  lemma {:induction false} ChildrenErrorFrom(data: Dict<string, Value>, env: string, i: nat, j: nat, k: nat)
    requires Unique(data) && env != "all" && i < j < k <= |data| && data[i].0 == env && data[i].1.List?
    requires data[j].0 != "all"
    ensures Convert(data[..k], env) == Err(KeyError("children"))
    decreases k
  {
    if k == j + 1 {
      AfterGroupNamedLikeEnvironment(data, env, i, j);
    } else {
      ChildrenErrorFrom(data, env, i, j, k - 1);
      ConvertPrefixStep(data, env, k - 1);
    }
  }
}
