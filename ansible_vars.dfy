/** `get-ansible-vars.py`: the script that hands an environment's Ansible
    variables to Terraform. It reads which group each host of an INI-style
    inventory belongs to, layers the `group_vars` files under the host's
    `host_vars` files, keeps the variables Terraform knows (adding the
    Proxmox node and storage pool with defaults), and prints them as JSON or
    as Terraform assignments. */
module AnsibleVars {
  import opened Dicts
  import opened Text
  import opened Values
  import Json
  import IniParse
  import Inventory

  // ---------------------------------------------------------------------
  // get_inventory_hosts

  /** What the host reader knows after some lines: each host's group (the
      text of the last header, or `None` before any), and that group. */
  datatype HostsState = HostsState(hosts: Dict<string, Option<string>>, current: Option<string>)

  /** A stripped line that names a host: non-empty, not a comment, with an
      `=` in it, and not a header. */
  predicate IsHostEntry(line: string)
  {
    var l := Strip(line);
    !IniParse.IsHeader(l) && l != [] && !StartsWith(l, "#") && '=' in l
  }

  /** `line.split('=')[0].strip()` of the stripped line. */
  function HostName(line: string): string
  {
    Strip(BeforeFirst(Strip(line), '='))
  }

  function HostsStep(st: HostsState, line: string): HostsState
  {
    var l := Strip(line);
    if IniParse.IsHeader(l) then st.(current := Some(l[1..|l| - 1]))
    else if l != [] && !StartsWith(l, "#") && '=' in l then
      st.(hosts := Put(st.hosts, Strip(BeforeFirst(l, '=')), st.current))
    else st
  }

  function ReadHosts(lines: seq<string>): HostsState
  {
    if lines == [] then HostsState([], None)
    else HostsStep(ReadHosts(lines[..|lines| - 1]), lines[|lines| - 1])
  }

  /** `get_inventory_hosts(path)`: `content` is `None` when the file does
      not exist, which yields no hosts. */
  function InventoryHosts(content: Option<string>): Dict<string, Option<string>>
  {
    if content.None? then [] else ReadHosts(Split(content.value, '\n')).hosts
  }

  method GetInventoryHosts(content: Option<string>) returns (hosts: Dict<string, Option<string>>)
    ensures hosts == InventoryHosts(content)
  {
    hosts := [];
    if content.None? {
      return;
    }
    hosts := ReadHostsLoop(Split(content.value, '\n'));
  }

  /** The reader's loop over the lines of the file. */
  method ReadHostsLoop(lines: seq<string>) returns (hosts: Dict<string, Option<string>>)
    ensures hosts == ReadHosts(lines).hosts
  {
    hosts := [];
    var current: Option<string> := None;
    var i := 0;
    while i < |lines|
      invariant 0 <= i <= |lines|
      invariant HostsState(hosts, current) == ReadHosts(lines[..i])
    {
      ReadHostsPrefixStep(lines, i);
      hosts, current := HostsLine(hosts, current, lines[i]);
      i := i + 1;
    }
    assert lines[..i] == lines;
  }

  /** The body of the reader's loop, for one line. */
  method HostsLine(hosts: Dict<string, Option<string>>, current: Option<string>, raw: string)
    returns (hosts': Dict<string, Option<string>>, current': Option<string>)
    ensures HostsState(hosts', current') == HostsStep(HostsState(hosts, current), raw)
  {
    hosts', current' := hosts, current;
    var line := Strip(raw);
    if |line| >= 2 && line[0] == '[' && line[|line| - 1] == ']' {
      HeaderSetsGroup(HostsState(hosts, current), raw);
      current' := Some(line[1..|line| - 1]);
    } else if line != [] && !StartsWith(line, "#") && '=' in line {
      EntryAddsHost(HostsState(hosts, current), raw);
      var hostname := Strip(BeforeFirst(line, '='));
      hosts' := Put(hosts, hostname, current);
    } else {
      OtherLineIgnored(HostsState(hosts, current), raw);
    }
  }

  lemma HeaderSetsGroup(st: HostsState, line: string)
    requires IniParse.IsHeader(Strip(line))
    ensures HostsStep(st, line) == st.(current := Some(IniParse.HeaderName(Strip(line))))
  {
  }

  lemma EntryAddsHost(st: HostsState, line: string)
    requires IsHostEntry(line)
    ensures HostsStep(st, line) == st.(hosts := Put(st.hosts, HostName(line), st.current))
  {
  }

  lemma OtherLineIgnored(st: HostsState, line: string)
    requires !IniParse.IsHeader(Strip(line)) && !IsHostEntry(line)
    ensures HostsStep(st, line) == st
  {
  }

  lemma ReadHostsPrefixStep(lines: seq<string>, i: nat)
    requires i < |lines|
    ensures ReadHosts(lines[..i + 1]) == HostsStep(ReadHosts(lines[..i]), lines[i])
  {
    assert lines[..i + 1][..i] == lines[..i];
  }

  /** The group of the last header among the lines. */
  function GroupAfter(lines: seq<string>): Option<string>
  {
    if lines == [] then None
    else
      var l := Strip(lines[|lines| - 1]);
      if IniParse.IsHeader(l) then Some(l[1..|l| - 1]) else GroupAfter(lines[..|lines| - 1])
  }

  lemma {:induction false} ReadHostsCurrent(lines: seq<string>)
    ensures ReadHosts(lines).current == GroupAfter(lines)
  {
    if lines != [] {
      ReadHostsCurrent(lines[..|lines| - 1]);
    }
  }

  /** A line is a host entry or a header or neither, never both; a header
      never adds a host. */
  lemma HeaderAddsNoHost(st: HostsState, line: string)
    requires IniParse.IsHeader(Strip(line))
    ensures !IsHostEntry(line)
    ensures HostsStep(st, line).hosts == st.hosts
  {
  }

  /** A host entry assigns its host the group in force, overwriting what an
      earlier line gave that host, and leaves every other host as it was. */
  lemma HostEntryOverwrites(lines: seq<string>, line: string)
    requires IsHostEntry(line)
    ensures HostName(line) in Keys(ReadHosts(lines + [line]).hosts)
    ensures Get(ReadHosts(lines + [line]).hosts, HostName(line)) == GroupAfter(lines)
    ensures forall h :: h != HostName(line) && h in Keys(ReadHosts(lines).hosts) ==>
      Get(ReadHosts(lines + [line]).hosts, h) == Get(ReadHosts(lines).hosts, h)
  {
    var all := lines + [line];
    assert all[..|all| - 1] == lines;
    ReadHostsCurrent(lines);
  }

  /** Line `line` is a host entry naming `h`. */
  predicate Names(line: string, h: string)
  {
    IsHostEntry(line) && HostName(line) == h
  }

  /** Some line among `lines` is a host entry naming `h`. */
  predicate NamedAmong(lines: seq<string>, h: string)
  {
    exists k :: 0 <= k < |lines| && Names(lines[k], h)
  }

  /** The hosts read are exactly the names of the host entries among the
      lines; no header, blank line, comment or line without `=` creates one. */
  lemma {:induction false} ReadHostsKeys(lines: seq<string>)
    ensures forall h :: h in Keys(ReadHosts(lines).hosts) <==> NamedAmong(lines, h)
  {
    if lines != [] {
      var init, last := lines[..|lines| - 1], lines[|lines| - 1];
      ReadHostsKeys(init);
      HostsStepKeys(ReadHosts(init), last);
      forall h ensures h in Keys(ReadHosts(lines).hosts) <==> NamedAmong(lines, h) {
        NamedAmongSnoc(lines, h);
      }
    }
  }

  /** One line adds its own host name, if it is a host entry, and no other. */
  lemma HostsStepKeys(st: HostsState, line: string)
    ensures forall h :: h in Keys(HostsStep(st, line).hosts) <==> h in Keys(st.hosts) || Names(line, h)
  {
    if IniParse.IsHeader(Strip(line)) {
      HeaderSetsGroup(st, line);
    } else if IsHostEntry(line) {
      EntryAddsHost(st, line);
    } else {
      OtherLineIgnored(st, line);
    }
  }

  /** A host entry among the lines is one among all but the last, or the last. */
  lemma NamedAmongSnoc(lines: seq<string>, h: string)
    requires lines != []
    ensures NamedAmong(lines, h) <==> NamedAmong(lines[..|lines| - 1], h) || Names(lines[|lines| - 1], h)
  {
    var init := lines[..|lines| - 1];
    if NamedAmong(lines, h) {
      var k :| 0 <= k < |lines| && Names(lines[k], h);
      if k < |init| {
        assert init[k] == lines[k];
      }
    }
    if NamedAmong(init, h) {
      var k :| 0 <= k < |init| && Names(init[k], h);
      assert lines[k] == init[k];
    }
  }

  /** A host name never holds an `=`: it is the text before the first one. */
  lemma HostNameHasNoEquals(line: string)
    requires IsHostEntry(line)
    ensures '=' !in HostName(line)
    ensures HostName(line) == Strip(Split(Strip(line), '=')[0])
  {
    var b := BeforeFirst(Strip(line), '=');
    StripSpec(b);
    var lo :| StrippedAt(b, lo, Strip(b));
  }

  // ---------------------------------------------------------------------
  // collect_group_vars

  /** `load_yaml_file`: `None` when the file is missing or not valid YAML,
      both of which read as `{}`; an empty document reads as `{}` too. */
  function LoadYaml(file: Option<Value>): (r: Value)
    ensures r == Obj([]) || Inventory.Truthy(r)
    ensures file.Some? && Inventory.Truthy(file.value) ==> r == file.value
  {
    if file.None? then Obj([]) else Inventory.OrEmpty(file.value)
  }

  /** `vars_data.update(...)` with each loaded file in turn; `update` needs
      a dict. */
  function UpdateAll(vars: Dict<string, Value>, files: seq<Option<Value>>): Result<Dict<string, Value>>
  {
    if files == [] then Ok(vars)
    else
      var acc :- UpdateAll(vars, files[..|files| - 1]);
      var v := LoadYaml(files[|files| - 1]);
      if v.Obj? then Ok(Update(acc, v.fields))
      else Err(TypeError("cannot convert '" + TypeName(v) + "' object to a dict"))
  }

  /** `collect_group_vars`: the `group_vars` files, then the host's
      `host_vars` files, in the order the directory walk yields them. */
  function CollectVars(groupFiles: seq<Option<Value>>, hostFiles: seq<Option<Value>>): Result<Dict<string, Value>>
  {
    var g :- UpdateAll([], groupFiles);
    UpdateAll(g, hostFiles)
  }

  lemma UpdateAllStep(vars: Dict<string, Value>, files: seq<Option<Value>>, i: nat)
    requires i < |files|
    ensures UpdateAll(vars, files[..i + 1]) ==
      var v := LoadYaml(files[i]);
      if UpdateAll(vars, files[..i]).Err? then UpdateAll(vars, files[..i])
      else if v.Obj? then Ok(Update(UpdateAll(vars, files[..i]).value, v.fields))
      else Err(TypeError("cannot convert '" + TypeName(v) + "' object to a dict"))
  {
    assert files[..i + 1][..i] == files[..i];
  }

  lemma {:induction false} UpdateAllErrorPersists(vars: Dict<string, Value>, files: seq<Option<Value>>, i: nat)
    requires i <= |files| && UpdateAll(vars, files[..i]).Err?
    ensures UpdateAll(vars, files) == UpdateAll(vars, files[..i])
    decreases |files| - i
  {
    if i == |files| {
      assert files[..i] == files;
    } else {
      UpdateAllStep(vars, files, i);
      UpdateAllErrorPersists(vars, files, i + 1);
    }
  }

  method UpdateWithFiles(vars: Dict<string, Value>, files: seq<Option<Value>>) returns (r: Result<Dict<string, Value>>)
    ensures r == UpdateAll(vars, files)
  {
    var acc := vars;
    var i := 0;
    while i < |files|
      invariant 0 <= i <= |files|
      invariant UpdateAll(vars, files[..i]) == Ok(acc)
    {
      UpdateAllStep(vars, files, i);
      var v := LoadYaml(files[i]);
      if !v.Obj? {
        UpdateAllErrorPersists(vars, files, i + 1);
        return Err(TypeError("cannot convert '" + TypeName(v) + "' object to a dict"));
      }
      acc := Update(acc, v.fields);
      i := i + 1;
    }
    assert files[..i] == files;
    r := Ok(acc);
  }

  method CollectGroupVars(groupFiles: seq<Option<Value>>, hostFiles: seq<Option<Value>>) returns (r: Result<Dict<string, Value>>)
    ensures r == CollectVars(groupFiles, hostFiles)
  {
    var g := UpdateWithFiles([], groupFiles);
    if g.Err? {
      return g;
    }
    r := UpdateWithFiles(g.value, hostFiles);
  }

  /** A loaded file whose dict has no repeated key, as the YAML loader
      guarantees. */
  predicate WellFormedFile(file: Option<Value>)
  {
    LoadYaml(file).Obj? ==> Unique(LoadYaml(file).fields)
  }

  /** The variable `k` as the file gives it, if it has it. */
  function FileVar(file: Option<Value>, k: string): Option<Value>
  {
    var v := LoadYaml(file);
    if v.Obj? && k in Keys(v.fields) then Some(Get(v.fields, k)) else None
  }

  /** The value the last of the files that define `k` gives it, if any. */
  function LastDefinition(files: seq<Option<Value>>, k: string): Option<Value>
  {
    if files == [] then None
    else
      var here := FileVar(files[|files| - 1], k);
      if here.Some? then here else LastDefinition(files[..|files| - 1], k)
  }

  /** After the updates, a variable holds the value of the last file that
      defines it, and the starting value when none does. */
  lemma {:induction false} UpdateAllLastWins(vars: Dict<string, Value>, files: seq<Option<Value>>, k: string)
    requires UpdateAll(vars, files).Ok?
    requires forall i :: 0 <= i < |files| ==> WellFormedFile(files[i])
    ensures LastDefinition(files, k).Some? ==>
      k in Keys(UpdateAll(vars, files).value) && Get(UpdateAll(vars, files).value, k) == LastDefinition(files, k).value
    ensures LastDefinition(files, k).None? ==>
      (k in Keys(UpdateAll(vars, files).value) <==> k in Keys(vars))
      && (k in Keys(vars) ==> Get(UpdateAll(vars, files).value, k) == Get(vars, k))
  {
    if files != [] {
      var init := files[..|files| - 1];
      UpdateAllLastWins(vars, init, k);
      var acc := UpdateAll(vars, init).value;
      var v := LoadYaml(files[|files| - 1]);
      assert v.Obj? && UpdateAll(vars, files).value == Update(acc, v.fields);
      UpdateSpec(acc, v.fields);
    }
  }

  /** A host's own variables win over every group's: a variable any
      `host_vars` file defines has the value of the last such file. */
  lemma HostVarsWin(groupFiles: seq<Option<Value>>, hostFiles: seq<Option<Value>>, k: string)
    requires CollectVars(groupFiles, hostFiles).Ok?
    requires forall i :: 0 <= i < |groupFiles| ==> WellFormedFile(groupFiles[i])
    requires forall i :: 0 <= i < |hostFiles| ==> WellFormedFile(hostFiles[i])
    ensures LastDefinition(hostFiles, k).Some? ==>
      k in Keys(CollectVars(groupFiles, hostFiles).value)
      && Get(CollectVars(groupFiles, hostFiles).value, k) == LastDefinition(hostFiles, k).value
    ensures LastDefinition(hostFiles, k).None? && LastDefinition(groupFiles, k).Some? ==>
      k in Keys(CollectVars(groupFiles, hostFiles).value)
      && Get(CollectVars(groupFiles, hostFiles).value, k) == LastDefinition(groupFiles, k).value
    ensures LastDefinition(hostFiles, k).None? && LastDefinition(groupFiles, k).None? ==>
      k !in Keys(CollectVars(groupFiles, hostFiles).value)
  {
    var g := UpdateAll([], groupFiles);
    UpdateAllLastWins([], groupFiles, k);
    UpdateAllLastWins(g.value, hostFiles, k);
  }

  // ---------------------------------------------------------------------
  // convert_ansible_to_terraform_vars

  /** The variables Terraform takes under the same name, in mapping order. */
  const DirectKeys: seq<string> := [
    "cluster_name", "talos_version", "control_plane_count", "worker_count",
    "control_plane_vm_ids", "control_plane_ips", "control_plane_cores",
    "control_plane_memory", "control_plane_disk_size", "worker_vm_ids",
    "worker_ips", "worker_cores", "worker_memory", "worker_disk_size",
    "bridge_name", "talos_network_cidr", "talos_network_gateway",
    "management_network_cidr", "management_gateway", "enable_nat_gateway",
    "nat_gateway_vm_id", "nat_gateway_management_ip", "nat_gateway_cluster_ip",
    "openwrt_version", "enable_firewall", "ssh_public_keys"]

  /** The copy loop over the first mapped keys. */
  function CopyMapped(vars: Dict<string, Value>, keys: seq<string>): Dict<string, Value>
  {
    if keys == [] then []
    else
      var tf := CopyMapped(vars, keys[..|keys| - 1]);
      var k := keys[|keys| - 1];
      if k in Keys(vars) then Put(tf, k, Get(vars, k)) else tf
  }

  function ToTerraform(vars: Dict<string, Value>): Dict<string, Value>
  {
    var tf := CopyMapped(vars, DirectKeys);
    var tf' := Put(tf, "proxmox_node", GetOr(vars, "inventory_hostname", Str("pve02")));
    Put(tf', "storage_pool", GetOr(vars, "proxmox_default_storage_pool", Str("storage-vms")))
  }

  method ConvertAnsibleToTerraformVars(vars: Dict<string, Value>) returns (tf: Dict<string, Value>)
    ensures tf == ToTerraform(vars)
  {
    tf := CopyMappedLoop(vars, DirectKeys);
    tf := Put(tf, "proxmox_node", GetOr(vars, "inventory_hostname", Str("pve02")));
    tf := Put(tf, "storage_pool", GetOr(vars, "proxmox_default_storage_pool", Str("storage-vms")));
  }

  /** The copy loop: each key the variables have is copied, in key order. */
  method CopyMappedLoop(vars: Dict<string, Value>, keys: seq<string>) returns (tf: Dict<string, Value>)
    ensures tf == CopyMapped(vars, keys)
  {
    tf := [];
    var i := 0;
    while i < |keys|
      invariant 0 <= i <= |keys|
      invariant tf == CopyMapped(vars, keys[..i])
    {
      assert keys[..i + 1][..i] == keys[..i];
      var k := keys[i];
      if k in Keys(vars) {
        tf := Put(tf, k, Get(vars, k));
      }
      i := i + 1;
    }
    assert keys[..i] == keys;
  }

  lemma {:induction false} CopyMappedSpec(vars: Dict<string, Value>, keys: seq<string>)
    ensures forall k :: k in Keys(CopyMapped(vars, keys)) <==> k in keys && k in Keys(vars)
    ensures forall k :: k in Keys(CopyMapped(vars, keys)) ==> Get(CopyMapped(vars, keys), k) == Get(vars, k)
  {
    if keys != [] {
      CopyMappedSpec(vars, keys[..|keys| - 1]);
      assert keys == keys[..|keys| - 1] + [keys[|keys| - 1]];
    }
  }

  /** Every mapped variable the host has is passed on unchanged and no
      other is; the node and the storage pool are always there, with their
      defaults when the variables do not set them. */
  lemma ToTerraformSpec(vars: Dict<string, Value>)
    ensures forall k :: k in DirectKeys ==> (k in Keys(ToTerraform(vars)) <==> k in Keys(vars))
    ensures forall k :: k in DirectKeys && k in Keys(vars) ==> k in Keys(ToTerraform(vars)) && Get(ToTerraform(vars), k) == Get(vars, k)
    ensures forall k :: k in Keys(ToTerraform(vars)) ==> k in DirectKeys || k == "proxmox_node" || k == "storage_pool"
    ensures "proxmox_node" in Keys(ToTerraform(vars)) && "storage_pool" in Keys(ToTerraform(vars))
    ensures Get(ToTerraform(vars), "proxmox_node") == GetOr(vars, "inventory_hostname", Str("pve02"))
    ensures Get(ToTerraform(vars), "storage_pool") == GetOr(vars, "proxmox_default_storage_pool", Str("storage-vms"))
  {
    NodeNotMapped();
    PoolNotMapped();
    ComputedAfterCopy(vars, DirectKeys);
  }

  /** The two computed entries written after copying `keys`, which name
      neither of them. */
  lemma ComputedAfterCopy(vars: Dict<string, Value>, keys: seq<string>)
    requires "proxmox_node" !in keys && "storage_pool" !in keys
    ensures var node, pool := GetOr(vars, "inventory_hostname", Str("pve02")), GetOr(vars, "proxmox_default_storage_pool", Str("storage-vms"));
      var tf := Put(Put(CopyMapped(vars, keys), "proxmox_node", node), "storage_pool", pool);
      && (forall k :: k in keys ==> (k in Keys(tf) <==> k in Keys(vars)))
      && (forall k :: k in keys && k in Keys(vars) ==> k in Keys(tf) && Get(tf, k) == Get(vars, k))
      && (forall k :: k in Keys(tf) ==> k in keys || k == "proxmox_node" || k == "storage_pool")
      && "proxmox_node" in Keys(tf) && "storage_pool" in Keys(tf)
      && Get(tf, "proxmox_node") == node && Get(tf, "storage_pool") == pool
  {
    var node, pool := GetOr(vars, "inventory_hostname", Str("pve02")), GetOr(vars, "proxmox_default_storage_pool", Str("storage-vms"));
    var copied := CopyMapped(vars, keys);
    var withNode := Put(copied, "proxmox_node", node);
    var tf := Put(withNode, "storage_pool", pool);
    CopyMappedSpec(vars, keys);
    forall k | k in keys
      ensures (k in Keys(tf) <==> k in Keys(vars)) && (k in Keys(vars) ==> Get(tf, k) == Get(vars, k))
    {
      assert k in Keys(tf) <==> k in Keys(copied);
    }
    forall k | k in Keys(tf) ensures k in keys || k == "proxmox_node" || k == "storage_pool" {
      assert k in Keys(copied) || k == "proxmox_node" || k == "storage_pool";
    }
  }

  /** `proxmox_node` is computed, not one of the direct keys. */
  lemma NodeNotMapped()
    ensures "proxmox_node" !in DirectKeys
  {
  }

  /** `storage_pool` is computed, not one of the direct keys. */
  lemma PoolNotMapped()
    ensures "storage_pool" !in DirectKeys
  {
  }

  // ---------------------------------------------------------------------
  // Terraform output

  /** The right-hand side `main` prints for a value: strings in double
      quotes (not escaped), booleans in lower case, lists and dicts as
      JSON, anything else as `str()` writes it. */
  function RenderValue(v: Value): string
  {
    match v
    case Str(s) => "\"" + s + "\""
    case Bool(b) => if b then "true" else "false"
    case List(_) => Json.Dumps(v)
    case Obj(_) => Json.Dumps(v)
    case Int(i) => IntToString(i)
    case Null => "None"
  }

  function RenderLine(key: string, v: Value): string
  {
    key + " = " + RenderValue(v)
  }

  method RenderTerraform(tf: Dict<string, Value>) returns (lines: seq<string>)
    ensures |lines| == |tf|
    ensures forall i :: 0 <= i < |tf| ==> lines[i] == RenderLine(tf[i].0, tf[i].1)
  {
    lines := [];
    var i := 0;
    while i < |tf|
      invariant 0 <= i <= |tf|
      invariant |lines| == i
      invariant forall k :: 0 <= k < i ==> lines[k] == RenderLine(tf[k].0, tf[k].1)
    {
      var key, value := tf[i].0, tf[i].1;
      var line: string;
      if value.Str? {
        line := key + " = \"" + value.s + "\"";
      } else if value.Bool? {
        line := key + " = " + (if value.b then "true" else "false");
      } else if value.List? || value.Obj? {
        line := key + " = " + Json.Dumps(value);
      } else if value.Int? {
        line := key + " = " + IntToString(value.i);
      } else {
        line := key + " = None";
      }
      lines := lines + [line];
      i := i + 1;
    }
  }

  /** Reading a rendered line back: the key before " = ", the text after. */
  function RenderedText(line: string, key: string): string
    requires |line| >= |key| + 3
  {
    line[|key| + 3..]
  }

  /** Each line starts with its key and " = "; a string value comes back
      from between the quotes, a boolean from its spelling, and lists and
      dicts are written in printable ASCII. */
  lemma RenderLineSpec(key: string, v: Value)
    ensures StartsWith(RenderLine(key, v), key + " = ")
    ensures RenderedText(RenderLine(key, v), key) == RenderValue(v)
    ensures v.Str? ==> var t := RenderValue(v); |t| >= 2 && t[1..|t| - 1] == v.s
    ensures v.Bool? ==> (RenderValue(v) == "true" <==> v.b)
    ensures v.List? || v.Obj? ==> Json.Printable(RenderValue(v))
  {
    var l := RenderLine(key, v);
    assert l == (key + " = ") + RenderValue(v);
    if v.List? || v.Obj? {
      Json.DumpsPrintable(v);
    }
  }
}
