/** `DynamicInventory.validate_inventory`: for every discovered environment,
    load its `hosts.yaml` and report whether it is usable, which hosts and
    groups it declares under `all.children`, and which hosts lack variables
    the playbooks rely on. Only an empty or unreadable inventory makes an
    environment invalid; everything else is a warning. */
module Validate {
  import opened Dicts
  import opened Values
  import Inventory

  datatype EnvReport = EnvReport(valid: bool, errors: seq<string>, warnings: seq<string>, hosts: seq<string>, groups: seq<string>)

  datatype Report = Report(valid: bool, environments: Dict<string, EnvReport>, errors: seq<string>, warnings: seq<string>)

  const EmptyError := "Empty or invalid inventory file"
  const MissingAllWarning := "Missing 'all' group in inventory"

  /** The variables every host is expected to define. */
  const RequiredFields: seq<string> := ["ansible_host", "environment", "cluster_role"]

  // ---------------------------------------------------------------------
  // extract_hosts_and_groups

  /** Hosts and groups found so far, in the order they are appended. */
  datatype Found = Found(hosts: seq<string>, groups: seq<string>)

  function Prefixed(prefix: string, names: seq<string>): (r: seq<string>)
    ensures |r| == |names| && forall i :: 0 <= i < |names| ==> r[i] == prefix + names[i]
  {
    seq(|names|, i requires 0 <= i < |names| => prefix + names[i])
  }

  /** The walk over the first `n` items of the dict `v`: a `hosts` dict
      contributes its host names, any other dict value is a group, named by
      its path, whose own items are walked below it. */
  function Extract(v: Value, n: nat, prefix: string): Found
    requires v.Obj? && n <= |v.fields|
    decreases v, n
  {
    if n == 0 then Found([], [])
    else
      var f := Extract(v, n - 1, prefix);
      var key, value := v.fields[n - 1].0, v.fields[n - 1].1;
      if key == "hosts" && value.Obj? then Found(f.hosts + Prefixed(prefix, Keys(value.fields)), f.groups)
      else if value.Obj? then
        var name := prefix + key;
        var sub := Extract(value, |value.fields|, name + "/");
        Found(f.hosts + sub.hosts, f.groups + [name] + sub.groups)
      else f
  }

  /** `extract_hosts_and_groups(data, prefix)`: nothing unless `data` is a
      dict. */
  function ExtractAll(data: Value, prefix: string): Found
  {
    if data.Obj? then Extract(data, |data.fields|, prefix) else Found([], [])
  }

  lemma ExtractStep(v: Value, i: nat, prefix: string)
    requires v.Obj? && i < |v.fields|
    ensures Extract(v, i + 1, prefix) ==
      var f := Extract(v, i, prefix);
      var key, value := v.fields[i].0, v.fields[i].1;
      if key == "hosts" && value.Obj? then Found(f.hosts + Prefixed(prefix, Keys(value.fields)), f.groups)
      else if value.Obj? then
        var sub := ExtractAll(value, prefix + key + "/");
        Found(f.hosts + sub.hosts, f.groups + [prefix + key] + sub.groups)
      else f
  {
  }

  method ExtractHostsAndGroups(data: Value, prefix: string) returns (hosts: seq<string>, groups: seq<string>)
    ensures Found(hosts, groups) == ExtractAll(data, prefix)
    decreases data
  {
    hosts, groups := [], [];
    if !data.Obj? {
      return;
    }
    var items := data.fields;
    var i := 0;
    while i < |items|
      invariant 0 <= i <= |items|
      invariant Found(hosts, groups) == Extract(data, i, prefix)
    {
      ExtractStep(data, i, prefix);
      var key, value := items[i].0, items[i].1;
      if key == "hosts" && value.Obj? {
        var names := Keys(value.fields);
        var j := 0;
        var before := hosts;
        while j < |names|
          invariant 0 <= j <= |names|
          invariant hosts == before + Prefixed(prefix, names)[..j]
        {
          assert Prefixed(prefix, names)[..j + 1] == Prefixed(prefix, names)[..j] + [prefix + names[j]];
          hosts := hosts + [prefix + names[j]];
          j := j + 1;
        }
        assert Prefixed(prefix, names)[..j] == Prefixed(prefix, names);
      } else if value.Obj? {
        var name := prefix + key;
        groups := groups + [name];
        var subHosts, subGroups := ExtractHostsAndGroups(value, name + "/");
        hosts := hosts + subHosts;
        groups := groups + subGroups;
      }
      i := i + 1;
    }
  }

  /** Every host and group the walk reports carries the prefix it was
      started with. */
  lemma {:induction false} ExtractCarriesPrefix(v: Value, n: nat, prefix: string)
    requires v.Obj? && n <= |v.fields|
    ensures forall k :: 0 <= k < |Extract(v, n, prefix).hosts| ==> Text.StartsWith(Extract(v, n, prefix).hosts[k], prefix)
    ensures forall k :: 0 <= k < |Extract(v, n, prefix).groups| ==> Text.StartsWith(Extract(v, n, prefix).groups[k], prefix)
    decreases v, n
  {
    if n > 0 {
      ExtractCarriesPrefix(v, n - 1, prefix);
      var key, value := v.fields[n - 1].0, v.fields[n - 1].1;
      var f := Extract(v, n - 1, prefix);
      if key == "hosts" && value.Obj? {
        var p := Prefixed(prefix, Keys(value.fields));
        forall k | 0 <= k < |p| ensures Text.StartsWith(p[k], prefix) {
          assert p[k] == prefix + Keys(value.fields)[k];
        }
        assert Extract(v, n, prefix).hosts == f.hosts + p;
      } else if value.Obj? {
        var name := prefix + key;
        var sub := Extract(value, |value.fields|, name + "/");
        ExtractCarriesPrefix(value, |value.fields|, name + "/");
        forall k | 0 <= k < |sub.hosts| ensures Text.StartsWith(sub.hosts[k], prefix) {
          assert prefix <= name + "/";
        }
        forall k | 0 <= k < |sub.groups| ensures Text.StartsWith(sub.groups[k], prefix) {
          assert prefix <= name + "/";
        }
        assert Extract(v, n, prefix) == Found(f.hosts + sub.hosts, f.groups + [name] + sub.groups);
      }
    }
  }

  /** Every top-level item is reported: the names of a `hosts` dict as
      hosts, any other dict value as a group. */
  lemma {:induction false} ExtractCoversItems(v: Value, n: nat, prefix: string)
    requires v.Obj? && n <= |v.fields|
    ensures forall i :: 0 <= i < n && v.fields[i].1.Obj? && v.fields[i].0 != "hosts" ==>
      prefix + v.fields[i].0 in Extract(v, n, prefix).groups
    ensures forall i, h :: 0 <= i < n && v.fields[i].0 == "hosts" && v.fields[i].1.Obj? && h in Keys(v.fields[i].1.fields) ==>
      prefix + h in Extract(v, n, prefix).hosts
  {
    if n > 0 {
      ExtractCoversItems(v, n - 1, prefix);
      var key, value := v.fields[n - 1].0, v.fields[n - 1].1;
      var f := Extract(v, n - 1, prefix);
      var r := Extract(v, n, prefix);
      assert f.hosts <= r.hosts && f.groups <= r.groups by {
        if key == "hosts" && value.Obj? {
        } else if value.Obj? {
          var sub := Extract(value, |value.fields|, prefix + key + "/");
          assert r.groups == f.groups + ([prefix + key] + sub.groups);
        }
      }
      if key == "hosts" && value.Obj? {
        forall h | h in Keys(value.fields) ensures prefix + h in r.hosts {
          var j :| 0 <= j < |Keys(value.fields)| && Keys(value.fields)[j] == h;
          assert r.hosts[|f.hosts| + j] == prefix + h;
        }
      } else if value.Obj? {
        var sub := Extract(value, |value.fields|, prefix + key + "/");
        assert r.groups[|f.groups|] == prefix + key;
      }
    }
  }

  /** Every dict item not named `hosts` is reported as a group under its
      path, and so is every group reported inside it, at any depth. */
  lemma {:induction false} ExtractReportsGroups(v: Value, n: nat, prefix: string)
    requires v.Obj? && n <= |v.fields|
    ensures forall i :: 0 <= i < n && v.fields[i].0 != "hosts" && v.fields[i].1.Obj? ==>
      prefix + v.fields[i].0 in Extract(v, n, prefix).groups
    ensures forall i, g :: (0 <= i < n && v.fields[i].0 != "hosts" && v.fields[i].1.Obj?
      && g in ExtractAll(v.fields[i].1, prefix + v.fields[i].0 + "/").groups) ==> g in Extract(v, n, prefix).groups
  {
    if n > 0 {
      ExtractReportsGroups(v, n - 1, prefix);
      var key, value := v.fields[n - 1].0, v.fields[n - 1].1;
      var before := Extract(v, n - 1, prefix).groups;
      ExtractStep(v, n - 1, prefix);
      if key != "hosts" && value.Obj? {
        var sub := ExtractAll(value, prefix + key + "/").groups;
        assert Extract(v, n, prefix).groups == before + ([prefix + key] + sub);
      } else {
        assert Extract(v, n, prefix).groups == before;
      }
    }
  }

  /** Nothing else is reported as a group: each reported group is a dict
      item not named `hosts`, under its path, or a group reported inside one. */
  lemma {:induction false} ExtractGroupsOnly(v: Value, n: nat, prefix: string)
    requires v.Obj? && n <= |v.fields|
    ensures forall g :: g in Extract(v, n, prefix).groups ==>
      (exists i :: (0 <= i < n && v.fields[i].0 != "hosts" && v.fields[i].1.Obj? &&
        (g == prefix + v.fields[i].0 || g in ExtractAll(v.fields[i].1, prefix + v.fields[i].0 + "/").groups)))
  {
    if n > 0 {
      ExtractGroupsOnly(v, n - 1, prefix);
      var key, value := v.fields[n - 1].0, v.fields[n - 1].1;
      var before := Extract(v, n - 1, prefix).groups;
      ExtractStep(v, n - 1, prefix);
      if key != "hosts" && value.Obj? {
        var sub := ExtractAll(value, prefix + key + "/").groups;
        assert Extract(v, n, prefix).groups == before + ([prefix + key] + sub);
        forall g | g in Extract(v, n, prefix).groups
          ensures (exists i :: (0 <= i < n && v.fields[i].0 != "hosts" && v.fields[i].1.Obj? &&
            (g == prefix + v.fields[i].0 || g in ExtractAll(v.fields[i].1, prefix + v.fields[i].0 + "/").groups)))
        {
          if g !in before {
            assert g == prefix + key || g in sub;
          }
        }
      } else {
        assert Extract(v, n, prefix).groups == before;
      }
    }
  }

  // ---------------------------------------------------------------------
  // check_host_vars

  function NoVariablesWarning(h: string): string
  {
    "Host " + h + " has no variables"
  }

  function MissingFieldWarning(h: string, field: string): string
  {
    "Host " + h + " missing required field: " + field
  }

  /** The warnings for the listed fields the host's variables lack, in
      order. */
  function MissingFields(h: string, vars: Dict<string, Value>, fields: seq<string>): seq<string>
  {
    if fields == [] then []
    else
      var f := fields[|fields| - 1];
      MissingFields(h, vars, fields[..|fields| - 1]) + (if f in Keys(vars) then [] else [MissingFieldWarning(h, f)])
  }

  /** The warnings for one host: its variables must be a dict holding every
      required field. */
  function HostWarnings(h: string, vars: Value): seq<string>
  {
    if vars.Obj? then MissingFields(h, vars.fields, RequiredFields) else [NoVariablesWarning(h)]
  }

  /** Every missing-field warning starts with "Host ". */
  lemma {:induction false} MissingFieldsAboutHost(h: string, vars: Dict<string, Value>, fields: seq<string>)
    ensures AllAboutHosts(MissingFields(h, vars, fields))
    decreases |fields|
  {
    if fields != [] {
      var f := fields[|fields| - 1];
      MissingFieldsAboutHost(h, vars, fields[..|fields| - 1]);
      assert AboutHost(MissingFieldWarning(h, f));
    }
  }

  /** Every warning about one host starts with "Host ". */
  lemma HostWarningsAboutHost(h: string, vars: Value)
    ensures AllAboutHosts(HostWarnings(h, vars))
  {
    if vars.Obj? {
      MissingFieldsAboutHost(h, vars.fields, RequiredFields);
    }
  }

  /** The warnings for the hosts of one `hosts` dict, in order. */
  function HostsWarnings(hosts: Dict<string, Value>): seq<string>
  {
    if hosts == [] then []
    else HostsWarnings(hosts[..|hosts| - 1]) + HostWarnings(hosts[|hosts| - 1].0, hosts[|hosts| - 1].1)
  }

  /** The walk of `check_host_vars` over the first `n` items of `v`. */
  function Check(v: Value, n: nat): seq<string>
    requires v.Obj? && n <= |v.fields|
    decreases v, n
  {
    if n == 0 then [] else Check(v, n - 1) + ItemCheck(v, n - 1)
  }

  /** What the item at `i` adds to the walk: the warnings of a `hosts` dict,
      or those of the walk into any other dict. */
  function ItemCheck(v: Value, i: nat): seq<string>
    requires v.Obj? && i < |v.fields|
    decreases v, 0
  {
    var key, value := v.fields[i].0, v.fields[i].1;
    if key == "hosts" && value.Obj? then HostsWarnings(value.fields)
    else if value.Obj? then Check(value, |value.fields|)
    else []
  }
  /** Every warning for a run of hosts starts with "Host ". */
  lemma {:induction false} HostsWarningsAboutHost(hosts: Dict<string, Value>)
    ensures AllAboutHosts(HostsWarnings(hosts))
    decreases |hosts|
  {
    if hosts != [] {
      HostsWarningsAboutHost(hosts[..|hosts| - 1]);
      HostWarningsAboutHost(hosts[|hosts| - 1].0, hosts[|hosts| - 1].1);
      AllAboutHostsConcat(HostsWarnings(hosts[..|hosts| - 1]), HostWarnings(hosts[|hosts| - 1].0, hosts[|hosts| - 1].1));
    }
  }

  /** Every warning of the walk starts with "Host ". */
  lemma {:induction false} CheckAboutHost(v: Value, n: nat)
    requires v.Obj? && n <= |v.fields|
    ensures AllAboutHosts(Check(v, n))
    decreases v, n
  {
    if n > 0 {
      CheckAboutHost(v, n - 1);
      ItemCheckAboutHost(v, n - 1);
      AllAboutHostsConcat(Check(v, n - 1), ItemCheck(v, n - 1));
    }
  }

  lemma {:induction false} ItemCheckAboutHost(v: Value, i: nat)
    requires v.Obj? && i < |v.fields|
    ensures AllAboutHosts(ItemCheck(v, i))
    decreases v, 0
  {
    var key, value := v.fields[i].0, v.fields[i].1;
    if key == "hosts" && value.Obj? {
      HostsWarningsAboutHost(value.fields);
    } else if value.Obj? {
      CheckAboutHost(value, |value.fields|);
    }
  }


  function CheckAll(data: Value): seq<string>
  {
    if data.Obj? then Check(data, |data.fields|) else []
  }

  method CheckRequiredFields(h: string, vars: Dict<string, Value>) returns (warnings: seq<string>)
    ensures warnings == MissingFields(h, vars, RequiredFields)
  {
    warnings := [];
    var i := 0;
    while i < |RequiredFields|
      invariant 0 <= i <= |RequiredFields|
      invariant warnings == MissingFields(h, vars, RequiredFields[..i])
    {
      assert RequiredFields[..i + 1][..i] == RequiredFields[..i];
      var field := RequiredFields[i];
      if field !in Keys(vars) {
        warnings := warnings + [MissingFieldWarning(h, field)];
      }
      i := i + 1;
    }
    assert RequiredFields[..i] == RequiredFields;
  }

  method CheckHosts(hosts: Dict<string, Value>) returns (warnings: seq<string>)
    ensures warnings == HostsWarnings(hosts)
  {
    warnings := [];
    var i := 0;
    while i < |hosts|
      invariant 0 <= i <= |hosts|
      invariant warnings == HostsWarnings(hosts[..i])
    {
      assert hosts[..i + 1][..i] == hosts[..i];
      var h, vars := hosts[i].0, hosts[i].1;
      if !vars.Obj? {
        warnings := warnings + [NoVariablesWarning(h)];
      } else {
        var missing := CheckRequiredFields(h, vars.fields);
        warnings := warnings + missing;
      }
      i := i + 1;
    }
    assert hosts[..i] == hosts;
  }

  /** One step of the walk: the item at `i` extends the warnings. */
  lemma CheckStep(v: Value, i: nat)
    requires v.Obj? && i < |v.fields|
    ensures Check(v, i + 1) == Check(v, i) +
      (if v.fields[i].0 == "hosts" && v.fields[i].1.Obj? then HostsWarnings(v.fields[i].1.fields)
       else if v.fields[i].1.Obj? then Check(v.fields[i].1, |v.fields[i].1.fields|)
       else [])
  {
  }

  method CheckHostVars(data: Value) returns (warnings: seq<string>)
    ensures warnings == CheckAll(data)
    decreases data
  {
    warnings := [];
    if !data.Obj? {
      return;
    }
    var items := data.fields;
    var i := 0;
    while i < |items|
      invariant 0 <= i <= |items|
      invariant warnings == Check(data, i)
    {
      var key, value := items[i].0, items[i].1;
      CheckStep(data, i);
      if key == "hosts" && value.Obj? {
        var more := CheckHosts(value.fields);
        warnings := warnings + more;
      } else if value.Obj? {
        var more := CheckHostVars(value);
        warnings := warnings + more;
      }
      i := i + 1;
    }
  }

  // ---------------------------------------------------------------------
  // Which hosts `check_host_vars` checks

  /** The `(host, variables)` entries of every `hosts` dict the walk reaches
      under the first `n` items of `v`, at any depth, in walk order. */
  function HostEntries(v: Value, n: nat): Dict<string, Value>
    requires v.Obj? && n <= |v.fields|
    decreases v, n
  {
    if n == 0 then [] else HostEntries(v, n - 1) + ItemEntries(v, n - 1)
  }

  /** The warnings for a run of hosts are those of its parts, in order. */
  lemma {:induction false} HostsWarningsConcat(a: Dict<string, Value>, b: Dict<string, Value>)
    ensures HostsWarnings(a + b) == HostsWarnings(a) + HostsWarnings(b)
    decreases |b|
  {
    if b == [] {
      assert a + b == a;
    } else {
      HostsWarningsConcat(a, b[..|b| - 1]);
      DropLastOfConcat(a, b);
    }
  }

  lemma DropLastOfConcat<T>(a: seq<T>, b: seq<T>)
    requires b != []
    ensures (a + b)[..|a + b| - 1] == a + b[..|b| - 1]
    ensures (a + b)[|a + b| - 1] == b[|b| - 1]
  {
    assert (a + b)[..|a + b| - 1] == a + b[..|b| - 1];
  }

  /** The check warns host by host: its output is the warnings of each host
      entry it reaches, in walk order, and nothing else. */
  lemma CheckPerHost(v: Value, n: nat)
    requires v.Obj? && n <= |v.fields|
    ensures Check(v, n) == HostsWarnings(HostEntries(v, n))
  {
    PerHostUpTo(v, n);
  }

  /** `Check` of the first `n` items of `v` is the warnings of the hosts
      those items reach. */
  ghost predicate PerHost(v: Value, n: nat)
    requires v.Obj? && n <= |v.fields|
  {
    Check(v, n) == HostsWarnings(HostEntries(v, n))
  }

  lemma {:induction false} PerHostUpTo(v: Value, n: nat)
    requires v.Obj? && n <= |v.fields|
    ensures PerHost(v, n)
    decreases v, n, 2
  {
    if n > 0 {
      PerHostUpTo(v, n - 1);
    }
    PerHostStep(v, n);
  }

  /** The step of `PerHostUpTo`: the equation for the items before `n - 1`
      extends over the item at `n - 1`. */
  lemma PerHostStep(v: Value, n: nat)
    requires v.Obj? && n <= |v.fields|
    requires n > 0 ==> PerHost(v, n - 1)
    ensures PerHost(v, n)
    decreases v, n, 1
  {
    if n > 0 {
      ItemCheckPerHost(v, n - 1);
      HostsWarningsConcat(HostEntries(v, n - 1), ItemEntries(v, n - 1));
    }
  }

  /** What the item at `i` adds to the check is the warnings of the host
      entries it contributes. */
  lemma ItemCheckPerHost(v: Value, i: nat)
    requires v.Obj? && i < |v.fields|
    ensures ItemCheck(v, i) == HostsWarnings(ItemEntries(v, i))
    decreases v, 0
  {
    var value := v.fields[i].1;
    if v.fields[i].0 != "hosts" && value.Obj? {
      PerHostUpTo(value, |value.fields|);
    }
  }

  /** The host entries the item at `i` contributes. */
  function ItemEntries(v: Value, i: nat): Dict<string, Value>
    requires v.Obj? && i < |v.fields|
    decreases v, 0
  {
    var key, value := v.fields[i].0, v.fields[i].1;
    if key == "hosts" && value.Obj? then value.fields
    else if value.Obj? then HostEntries(value, |value.fields|)
    else []
  }

  /** The entries reached are those of a `hosts` dict among the items, or
      those reached inside any other dict item, and no others. */
  lemma {:induction false} HostEntriesSpec(v: Value, n: nat)
    requires v.Obj? && n <= |v.fields|
    ensures forall i, e :: 0 <= i < n && v.fields[i].0 == "hosts" && v.fields[i].1.Obj? && e in v.fields[i].1.fields ==>
      e in HostEntries(v, n)
    ensures forall i, e :: (0 <= i < n && v.fields[i].0 != "hosts" && v.fields[i].1.Obj?
      && e in HostEntries(v.fields[i].1, |v.fields[i].1.fields|)) ==> e in HostEntries(v, n)
    ensures forall e :: e in HostEntries(v, n) ==>
      (exists i :: (0 <= i < n && v.fields[i].1.Obj? &&
        (if v.fields[i].0 == "hosts" then e in v.fields[i].1.fields
         else e in HostEntries(v.fields[i].1, |v.fields[i].1.fields|))))
  {
    if n > 0 {
      HostEntriesSpec(v, n - 1);
      var key, value := v.fields[n - 1].0, v.fields[n - 1].1;
      var before := HostEntries(v, n - 1);
      var added := if key == "hosts" && value.Obj? then value.fields
        else if value.Obj? then HostEntries(value, |value.fields|) else [];
      assert HostEntries(v, n) == before + added;
      forall e | e in HostEntries(v, n)
        ensures (exists i :: (0 <= i < n && v.fields[i].1.Obj? &&
          (if v.fields[i].0 == "hosts" then e in v.fields[i].1.fields
           else e in HostEntries(v.fields[i].1, |v.fields[i].1.fields|))))
      {
        if e !in before {
          assert e in added;
          assert v.fields[n - 1].1.Obj?;
        }
      }
    }
  }

  /** `check_host_vars` checks exactly the hosts `extract_hosts_and_groups`
      reports, in the same order: the k-th reported name is the k-th checked
      host's name under its group path. */
  lemma {:induction false} CheckedHostsAreExtracted(v: Value, n: nat, prefix: string)
    requires v.Obj? && n <= |v.fields|
    ensures |Extract(v, n, prefix).hosts| == |HostEntries(v, n)|
    ensures forall k :: 0 <= k < |HostEntries(v, n)| ==>
      Text.EndsWith(Extract(v, n, prefix).hosts[k], HostEntries(v, n)[k].0)
    decreases v, n
  {
    if n > 0 {
      CheckedHostsAreExtracted(v, n - 1, prefix);
      var key, value := v.fields[n - 1].0, v.fields[n - 1].1;
      var f, before := Extract(v, n - 1, prefix), HostEntries(v, n - 1);
      assert HostEntries(v, n) == before + ItemEntries(v, n - 1);
      if key == "hosts" && value.Obj? {
        PrefixedNamesEnd(prefix, value.fields);
        NamesEndConcat(f.hosts, before, Prefixed(prefix, Keys(value.fields)), value.fields);
      } else if value.Obj? {
        var sub := Extract(value, |value.fields|, prefix + key + "/");
        CheckedHostsAreExtracted(value, |value.fields|, prefix + key + "/");
        NamesEndConcat(f.hosts, before, sub.hosts, HostEntries(value, |value.fields|));
      } else {
        assert HostEntries(v, n) == before;
      }
    }
  }

  /** Each name of `hosts` ends with the host name of the entry at the same
      position. */
  ghost predicate NamesEnd(hosts: seq<string>, entries: Dict<string, Value>)
  {
    |hosts| == |entries| && forall k :: 0 <= k < |entries| ==> Text.EndsWith(hosts[k], entries[k].0)
  }

  lemma NamesEndConcat(a: seq<string>, x: Dict<string, Value>, b: seq<string>, y: Dict<string, Value>)
    requires NamesEnd(a, x) && NamesEnd(b, y)
    ensures NamesEnd(a + b, x + y)
  {
    forall k | 0 <= k < |x + y|
      ensures Text.EndsWith((a + b)[k], (x + y)[k].0)
    {
      if k < |x| {
        assert (a + b)[k] == a[k] && (x + y)[k] == x[k];
      } else {
        assert (a + b)[k] == b[k - |x|] && (x + y)[k] == y[k - |x|];
      }
    }
  }

  lemma PrefixedNamesEnd(prefix: string, d: Dict<string, Value>)
    ensures NamesEnd(Prefixed(prefix, Keys(d)), d)
  {
    forall k | 0 <= k < |d|
      ensures Text.EndsWith(Prefixed(prefix, Keys(d))[k], d[k].0)
    {
      var name := d[k].0;
      assert Prefixed(prefix, Keys(d))[k] == prefix + name;
      assert (prefix + name)[|prefix|..] == name;
    }
  }

  lemma MissingFieldWarningInjective(h: string, a: string, b: string)
    requires MissingFieldWarning(h, a) == MissingFieldWarning(h, b)
    ensures a == b
  {
    var p := "Host " + h + " missing required field: ";
    assert a == MissingFieldWarning(h, a)[|p|..];
    assert b == MissingFieldWarning(h, b)[|p|..];
  }

  lemma {:induction false} MissingFieldsSpec(h: string, vars: Dict<string, Value>, fields: seq<string>)
    ensures forall f :: MissingFieldWarning(h, f) in MissingFields(h, vars, fields) <==> f in fields && f !in Keys(vars)
  {
    if fields != [] {
      var init, last := fields[..|fields| - 1], fields[|fields| - 1];
      MissingFieldsSpec(h, vars, init);
      assert fields == init + [last];
      forall f | MissingFieldWarning(h, f) == MissingFieldWarning(h, last) ensures f == last {
        MissingFieldWarningInjective(h, f, last);
      }
    }
  }

  /** A host is warned about exactly when its variables are not a dict (one
      warning) or lack required fields (one warning naming each missing
      field); a host with all three fields gets none. */
  lemma HostWarningsSpec(h: string, vars: Value)
    ensures !vars.Obj? ==> HostWarnings(h, vars) == [NoVariablesWarning(h)]
    ensures vars.Obj? ==> forall f :: MissingFieldWarning(h, f) in HostWarnings(h, vars) <==>
      f in RequiredFields && f !in Keys(vars.fields)
    ensures HostWarnings(h, vars) == [] <==> vars.Obj? && forall f :: f in RequiredFields ==> f in Keys(vars.fields)
  {
    if vars.Obj? {
      MissingFieldsSpec(h, vars.fields, RequiredFields);
      if HostWarnings(h, vars) != [] {
        var w := HostWarnings(h, vars)[0];
        MissingFieldsShape(h, vars.fields, RequiredFields, w);
      }
    }
  }

  /** Every warning about missing fields names one of them. */
  lemma {:induction false} MissingFieldsShape(h: string, vars: Dict<string, Value>, fields: seq<string>, w: string)
    requires w in MissingFields(h, vars, fields)
    ensures exists f :: f in fields && w == MissingFieldWarning(h, f)
  {
    var init, last := fields[..|fields| - 1], fields[|fields| - 1];
    assert fields == init + [last];
    if w in MissingFields(h, vars, init) {
      MissingFieldsShape(h, vars, init, w);
    }
  }

  // ---------------------------------------------------------------------
  // One environment

  /** The report for one loaded inventory; the membership tests and
      subscripts raise on data of the wrong shape. */
  function ValidateEnv(inv: Value): Result<EnvReport>
  {
    if !Inventory.Truthy(inv) then Ok(EnvReport(false, [EmptyError], [], [], []))
    else
      var hasAll :- In("all", inv);
      if !hasAll then Ok(EnvReport(true, [], [MissingAllWarning], [], []))
      else
        var all :- Index(inv, "all");
        var hasChildren :- In("children", all);
        if !hasChildren then Ok(EnvReport(true, [], [], [], []))
        else
          var children :- Index(all, "children");
          var found := ExtractAll(children, "");
          Ok(EnvReport(true, [], CheckAll(children), found.hosts, found.groups))
  }

  method ValidateEnvironment(inv: Value) returns (r: Result<EnvReport>)
    ensures r == ValidateEnv(inv)
  {
    if !Inventory.Truthy(inv) {
      return Ok(EnvReport(false, [EmptyError], [], [], []));
    }
    var hasAll := In("all", inv);
    if hasAll.Err? {
      return Err(hasAll.error);
    }
    if !hasAll.value {
      return Ok(EnvReport(true, [], [MissingAllWarning], [], []));
    }
    var all := Index(inv, "all");
    if all.Err? {
      return Err(all.error);
    }
    var hasChildren := In("children", all.value);
    if hasChildren.Err? {
      return Err(hasChildren.error);
    }
    if !hasChildren.value {
      return Ok(EnvReport(true, [], [], [], []));
    }
    var children := Index(all.value, "children");
    if children.Err? {
      return Err(children.error);
    }
    var hosts, groups := ExtractHostsAndGroups(children.value, "");
    var warnings := CheckHostVars(children.value);
    r := Ok(EnvReport(true, [], warnings, hosts, groups));
  }

  /** An environment is invalid exactly when its inventory is empty, and
      then it carries the one error and nothing else; a valid environment
      has no errors, whatever warnings it collects. */
  lemma EnvValidity(inv: Value)
    requires ValidateEnv(inv).Ok?
    ensures ValidateEnv(inv).value.valid <==> Inventory.Truthy(inv)
    ensures ValidateEnv(inv).value.valid ==> ValidateEnv(inv).value.errors == []
    ensures !ValidateEnv(inv).value.valid ==> ValidateEnv(inv) == Ok(EnvReport(false, [EmptyError], [], [], []))
  {
  }

  /** A dict inventory never raises, and it is warned about a missing `all`
      group exactly when it has none. */
  lemma DictInventory(fs: Dict<string, Value>)
    requires fs != []
    ensures ValidateEnv(Obj(fs)).Ok? || ("all" in Keys(fs) && Get(fs, "all").Obj? == false)
    ensures ValidateEnv(Obj(fs)).Ok? ==> (MissingAllWarning in ValidateEnv(Obj(fs)).value.warnings <==> "all" !in Keys(fs))
  {
    if "all" in Keys(fs) && Get(fs, "all").Obj? {
      var all := Get(fs, "all");
      if "children" in Keys(all.fields) {
        var children := Get(all.fields, "children");
        CheckAllWarnsAboutHosts(children);
      }
    }
  }

  /** The host check's warnings all start with "Host ", so none of them is
      the missing-`all` warning. */
  lemma CheckAllWarnsAboutHosts(data: Value)
    ensures MissingAllWarning !in CheckAll(data)
  {
    if data.Obj? {
      CheckAboutHost(data, |data.fields|);
    }
    assert !AboutHost(MissingAllWarning) by {
      assert MissingAllWarning[0] == 'M';
    }
  }

  /** A warning about a host starts with "Host ". */
  predicate AboutHost(w: string)
  {
    Text.StartsWith(w, "Host ")
  }

  ghost predicate AllAboutHosts(ws: seq<string>)
  {
    forall k :: 0 <= k < |ws| ==> AboutHost(ws[k])
  }

  lemma AllAboutHostsConcat(a: seq<string>, b: seq<string>)
    requires AllAboutHosts(a) && AllAboutHosts(b)
    ensures AllAboutHosts(a + b)
  {
    forall k | 0 <= k < |a + b|
      ensures AboutHost((a + b)[k])
    {
      if k < |a| {
        assert (a + b)[k] == a[k];
      } else {
        assert (a + b)[k] == b[k - |a|];
      }
    }
  }

  // ---------------------------------------------------------------------
  // All environments

  /** Each environment's inventory as `_load_inventory_file` reads its
      `hosts.yaml`. */
  function Loaded(files: string -> Inventory.InventoryFile): string -> Value
  {
    e => Inventory.LoadInventoryFile(files(e))
  }

  /** `validate_inventory` over the discovered environments, given the
      inventory loaded for each. */
  function ValidateAll(envs: seq<string>, inventories: string -> Value): Result<Report>
  {
    if envs == [] then Ok(Report(true, [], [], []))
    else
      var env := envs[|envs| - 1];
      var r :- ValidateAll(envs[..|envs| - 1], inventories);
      var er :- ValidateEnv(inventories(env));
      Ok(Report(r.valid && er.valid, Put(r.environments, env, er), [], []))
  }

  lemma ValidateAllStep(envs: seq<string>, inventories: string -> Value, i: nat)
    requires i < |envs|
    ensures ValidateAll(envs[..i + 1], inventories) ==
      var r := ValidateAll(envs[..i], inventories);
      var er := ValidateEnv(inventories(envs[i]));
      if r.Err? then r
      else if er.Err? then Err(er.error)
      else Ok(Report(r.value.valid && er.value.valid, Put(r.value.environments, envs[i], er.value), [], []))
  {
    assert envs[..i + 1][..i] == envs[..i];
  }

  lemma {:induction false} ValidateAllErrorPersists(envs: seq<string>, inventories: string -> Value, i: nat)
    requires i <= |envs| && ValidateAll(envs[..i], inventories).Err?
    ensures ValidateAll(envs, inventories) == ValidateAll(envs[..i], inventories)
    decreases |envs| - i
  {
    if i == |envs| {
      assert envs[..i] == envs;
    } else {
      ValidateAllStep(envs, inventories, i);
      ValidateAllErrorPersists(envs, inventories, i + 1);
    }
  }

  method ValidateInventory(envs: seq<string>, files: string -> Inventory.InventoryFile) returns (r: Result<Report>)
    ensures r == ValidateAll(envs, Loaded(files))
  {
    ghost var inventories := Loaded(files);
    var valid := true;
    var environments: Dict<string, EnvReport> := [];
    var i := 0;
    while i < |envs|
      invariant 0 <= i <= |envs|
      invariant ValidateAll(envs[..i], inventories) == Ok(Report(valid, environments, [], []))
    {
      ValidateAllStep(envs, inventories, i);
      var inventory := Inventory.LoadInventoryFile(files(envs[i]));
      assert inventory == inventories(envs[i]);
      var er := ValidateEnvironment(inventory);
      if er.Err? {
        ValidateAllErrorPersists(envs, inventories, i + 1);
        return Err(er.error);
      }
      environments := Put(environments, envs[i], er.value);
      if !er.value.valid {
        valid := false;
      }
      i := i + 1;
    }
    assert envs[..i] == envs;
    r := Ok(Report(valid, environments, [], []));
  }

  /** The inventories are valid exactly when every environment's loaded
      inventory is non-empty; the top-level error and warning lists stay
      empty, and every environment has its report. */
  lemma {:induction false} ValidateAllSpec(envs: seq<string>, inventories: string -> Value)
    requires ValidateAll(envs, inventories).Ok?
    ensures ValidateAll(envs, inventories).value.valid <==>
      forall k :: 0 <= k < |envs| ==> Inventory.Truthy(inventories(envs[k]))
    ensures ValidateAll(envs, inventories).value.errors == [] && ValidateAll(envs, inventories).value.warnings == []
    ensures forall e :: e in Keys(ValidateAll(envs, inventories).value.environments) <==> e in envs
  {
    if envs != [] {
      var init, env := envs[..|envs| - 1], envs[|envs| - 1];
      ValidateAllStep(envs, inventories, |envs| - 1);
      assert envs[..|envs| - 1 + 1] == envs;
      ValidateAllSpec(init, inventories);
      var inv := inventories(env);
      EnvValidity(inv);
      ReportStep(init, env, inventories, ValidateAll(init, inventories).value, ValidateEnv(inv).value);
      assert envs == init + [env];
    }
  }

  /** Adding one environment's report keeps the summary exact. */
  lemma ReportStep(init: seq<string>, env: string, inventories: string -> Value, r: Report, er: EnvReport)
    requires r.errors == [] && r.warnings == []
    requires r.valid <==> forall k :: 0 <= k < |init| ==> Inventory.Truthy(inventories(init[k]))
    requires forall e :: e in Keys(r.environments) <==> e in init
    requires er.valid <==> Inventory.Truthy(inventories(env))
    ensures var envs, rep := init + [env], Report(r.valid && er.valid, Put(r.environments, env, er), [], []);
      && (rep.valid <==> forall k :: 0 <= k < |envs| ==> Inventory.Truthy(inventories(envs[k])))
      && forall e :: e in Keys(rep.environments) <==> e in envs
  {
    var envs := init + [env];
    forall k | 0 <= k < |init| ensures envs[k] == init[k] {}
    assert envs[|init|] == env;
  }
}
