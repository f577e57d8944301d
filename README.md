# Ansible inventory scripts, modelled in Dafny

This project models the two scripts that turn the homelab repository's
per-environment Ansible inventories into something other tools consume:

- `DynamicInventory` in `shared/ansible/inventory/dynamic_inventory.py`.
  - It discovers the environments under `environments/`.
  - It loads each environment's `hosts.toml` (an INI-style file, read line by line) or its `hosts.yaml`.
  - It converts the INI groups into Ansible's group structure.
  - It merges all environments into one inventory. That inventory has `all.children`, `all.vars` with `<env>_` prefixes, and `_meta.hostvars` holding host_vars, `environment` and SOPS secrets. It also has `_meta.environment_info`.
  - It validates the YAML inventories, reporting hosts, groups and missing required host fields.
- `shared/scripts/get-ansible-vars.py`.
  - It reads host names from an inventory.
  - It collects `group_vars` and `host_vars` with `dict.update` semantics.
  - It maps the result onto Terraform variable names with two computed defaults.
  - It renders those variables as `key = value` lines.

Python's values are a `Value` datatype (`Null`, `Bool`, `Int`, `Str`, `List`, `Obj`).
A Python dict is a `Dict<K, V>`, which is a sequence of pairs.
- Assigning to an existing key keeps its position.
- A new key is appended, as Python's insertion order does.

Exceptions that the data can provoke become `Err(TypeError | AttributeError | KeyError)` in a `Result`. Examples:
- `.copy()` on a string;
- `.items()` on a list;
- a non-string host name joined to a path;
- a missing `children` key.

Every loop in the source is a `method` with a `while` loop. Each is proved equal to a prefix-recursive specification function. The properties the scripts promise are lemmas about those functions.

What the scripts read from disk is given to the model as parameters. This covers:
- file contents and the parsed YAML documents;
- what `sops --decrypt` returned;
- the directory entries;
- each environment's host_vars, group_vars and secrets.

Modules:

- `Dicts`: Python dict semantics (`Put`, `Update`, lookups).
- `Text`: `strip`, `split`, `join`, substring tests, number formatting and `sorted`.
- `Values`: the value type and Python's `in`, subscript and `.copy()`.
- `Json`: `json.dumps`.
- `IniParse`: `_parse_ini_style_inventory`.
- `AnsibleFormat`: `_convert_toml_to_ansible_format`.
- `Merge`: `_merge_inventories`.
- `Inventory`: `_is_sops_encrypted`, `_load_inventory_file`, `_discover_environments` and `get_inventory`.
- `Validate`: `validate_inventory`.
- `AnsibleVars`: the functions of `get-ansible-vars.py`.

## Model

| member | source | states |
|---|---|---|
| Text.SortStrings | shared/ansible/inventory/dynamic_inventory.py:243 | `sorted(...)` on names: the result is ordered and is a permutation of its input |
| Text.StripSpec | shared/ansible/inventory/dynamic_inventory.py:349 | `strip()` removes exactly the leading and trailing whitespace and keeps the inside unchanged |
| Text.ContainsSubstringSpec | shared/ansible/inventory/dynamic_inventory.py:135 | Python's `p in s` on strings is true iff `p` occurs in `s` at some position |
| IniParse.ParseIniStyleInventory | shared/ansible/inventory/dynamic_inventory.py:334-375 | an unreadable file gives `{}`; otherwise the loop over stripped lines yields exactly the groups of the line-by-line parse |
| IniParse.ParseCharacterised | shared/ansible/inventory/dynamic_inventory.py:343-369 | group keys are unique and are exactly the `[name]` headers seen, plus `all` when a host line comes before any header or after an empty `[]` header; each group holds exactly the stripped host lines under it, in file order; the current group is the last header |
| IniParse.ParseKeys | shared/ansible/inventory/dynamic_inventory.py:355-369 | a group exists after the lines iff a header named it or a host line fell into it |
| IniParse.ParseMembers | shared/ansible/inventory/dynamic_inventory.py:364-369 | each group's list is exactly the stripped host lines that fell into it, in file order |
| IniParse.ParseIgnoresSkipped | shared/ansible/inventory/dynamic_inventory.py:349-353 | removing every blank and `#` line leaves the parse unchanged |
| IniParse.SkippedLineAnywhere | shared/ansible/inventory/dynamic_inventory.py:352-353 | inserting a blank or comment line anywhere leaves the parse unchanged |
| IniParse.StepExtends | shared/ansible/inventory/dynamic_inventory.py:355-369 | one line never removes a group or a host already recorded |
| IniParse.ParseOnlyGrows | shared/ansible/inventory/dynamic_inventory.py:355-369 | appending lines never removes a group, and every group's hosts so far stay a prefix of its later hosts |
| IniParse.HeaderlessLineGoesToAll | shared/ansible/inventory/dynamic_inventory.py:365-369 | a host line read while no group is current is appended to `all`, which is created if missing |
| AnsibleFormat.ExtendField | shared/ansible/inventory/dynamic_inventory.py:406-410 | `extend` on the environment group's `hosts` or `append` on its `children` changes no top-level key; a missing group or field is a KeyError and a non-list field an AttributeError naming the method |
| AnsibleFormat.BuildGroupStructure | shared/ansible/inventory/dynamic_inventory.py:413-424 | the loop over a dict group's items builds exactly the group structure |
| AnsibleFormat.AddGroupToInventory | shared/ansible/inventory/dynamic_inventory.py:402-426 | one iteration over a group: `all` lists extend the environment's hosts; any other group becomes a child with its own structure |
| AnsibleFormat.ConvertToAnsibleFormat | shared/ansible/inventory/dynamic_inventory.py:377-428 | the conversion loop returns the specification's result, including its KeyError |
| AnsibleFormat.ConvertShape | shared/ansible/inventory/dynamic_inventory.py:387-428 | for unique group names that do not include the environment, the conversion succeeds with keys `all`, then env, then every other group in order; `all.children == [env]`; the env group's children are the other groups and its hosts are the `all` lists' hosts; every other group maps to its structure |
| AnsibleFormat.AddOtherGroupKeepsShape | shared/ansible/inventory/dynamic_inventory.py:409-426 | adding a group other than `all` keeps that shape |
| AnsibleFormat.AddAllKeepsShape | shared/ansible/inventory/dynamic_inventory.py:403-407 | an `all` entry adds only hosts (when it is a list) and keeps that shape |
| AnsibleFormat.AllChildrenIsEnv | shared/ansible/inventory/dynamic_inventory.py:387-392 | the converted `all` group's children are exactly `[env]` |
| AnsibleFormat.DictGroupCopied | shared/ansible/inventory/dynamic_inventory.py:413-424 | a dict group keeps every key and value; it gets `hosts` first, which is `[]` unless it had its own |
| AnsibleFormat.ListGroupHosts | shared/ansible/inventory/dynamic_inventory.py:415-417 | a list group becomes `{"hosts": list}` |
| AnsibleFormat.GroupNamedLikeEnvironmentReplaces | shared/ansible/inventory/dynamic_inventory.py:409-424 | for unique group names and an environment other than `all`, reading a list group named like the environment succeeds and replaces the environment group with `{"hosts": list}`, dropping its `children` |
| AnsibleFormat.GroupNamedLikeEnvironment | shared/ansible/inventory/dynamic_inventory.py:395-426 | once a list group named like the environment has been read, any later group other than `all` makes the whole conversion raise KeyError('children') |
| AnsibleFormat.AfterGroupNamedLikeEnvironment | shared/ansible/inventory/dynamic_inventory.py:402-410 | after that group, `all` entries only extend the replaced group's `hosts`, and every later group other than `all` gives KeyError('children') |
| Merge.AddChild | shared/ansible/inventory/dynamic_inventory.py:474-475 | append-if-absent keeps the old list as a prefix, adds the name and keeps the list free of duplicates |
| Merge.HasAllKey | shared/ansible/inventory/dynamic_inventory.py:472 | an inventory dict without `all` gives False; one whose `all` is a dict gives whether `key` is among its keys; True only when `all` is present |
| Merge.OtherKeys | shared/ansible/inventory/dynamic_inventory.py:490 | the keys other than `all`/`_meta`, no more than there are keys |
| Merge.CopyGroups | shared/ansible/inventory/dynamic_inventory.py:482-486 | copying groups changes only the groups and `all.children`; the children gain exactly the inventory's groups, without duplicates |
| Merge.ProcessHost | shared/ansible/inventory/dynamic_inventory.py:499-512 | a host succeeds exactly when its name is a string; it then has a hostvars entry and no entry is lost; any other host raises TypeError |
| Merge.CopyGroupsLoop | shared/ansible/inventory/dynamic_inventory.py:482-486 | the copy loop equals its specification, errors included |
| Merge.ProcessHostsLoop | shared/ansible/inventory/dynamic_inventory.py:499-512 | the per-host loop equals its specification |
| Merge.ProcessGroupsLoop | shared/ansible/inventory/dynamic_inventory.py:489-519 | the loop over groups builds the hostvars and counts `hosts_count` as the sum of the host-list lengths |
| Merge.PrefixVarsLoop | shared/ansible/inventory/dynamic_inventory.py:527-529 | the variable-copy loop equals its specification |
| Merge.MergeStructureBlock | shared/ansible/inventory/dynamic_inventory.py:472-522 | the `children` block equals its specification |
| Merge.MergeEnvironment | shared/ansible/inventory/dynamic_inventory.py:455-536 | one environment's iteration equals its specification |
| Merge.MergeInventories | shared/ansible/inventory/dynamic_inventory.py:430-538 | the whole merge loop equals its specification |
| Merge.PrefixInjective | shared/ansible/inventory/dynamic_inventory.py:528 | `f"{env}_{name}"` is injective in the name |
| Merge.PrefixVarsSpec | shared/ansible/inventory/dynamic_inventory.py:527-529 | every variable appears as `<env>_<name>` with its value; nothing else is added; untouched variables keep their value |
| Merge.EnvVarsPrefixed | shared/ansible/inventory/dynamic_inventory.py:524-536 | after an environment, each group_vars variable is under `<env>_<name>`; an inventory variable is too unless group_vars redefines it, in which case group_vars wins |
| Merge.HostEntryPrecedence | shared/ansible/inventory/dynamic_inventory.py:500-512 | a host's entry has exactly its old keys, its host_vars, `environment` and its secrets; secrets win over `environment`, which wins over host_vars, which win over earlier values |
| Merge.Layers | shared/ansible/inventory/dynamic_inventory.py:505-512 | `update(host_vars)`, then the `environment` tag, then `update(secrets)`: the keys of all four and the value of the latest layer that has the key |
| Merge.ProcessHostTags | shared/ansible/inventory/dynamic_inventory.py:505-512 | a processed host carries its environment (or its secret's) and no other host's tag changes |
| Merge.ProcessHostsSucceeds | shared/ansible/inventory/dynamic_inventory.py:499-512 | processing a host list succeeds if and only if every host is a string |
| Merge.ProcessHostsTags | shared/ansible/inventory/dynamic_inventory.py:499-512 | after a host list, every host in it carries the environment tag, and earlier tags of other hosts are kept |
| Merge.ProcessGroupsTags | shared/ansible/inventory/dynamic_inventory.py:516-519 | after all groups, every host of every group's host list carries the environment tag |
| Merge.MergeStructureFacts | shared/ansible/inventory/dynamic_inventory.py:472-522 | the `children` block sets hostvars to the processed groups, records the counts and leaves `all.vars` alone; children gain exactly the environment and its groups, without duplicates |
| Merge.MergeEnvFacts | shared/ansible/inventory/dynamic_inventory.py:462-522 | per environment: children gain exactly the names it lists; its info entry is recorded (counts 0 when there is no `all.children`); hostvars change only through its groups |
| Merge.MergeEnvTagsHosts | shared/ansible/inventory/dynamic_inventory.py:472-519 | after an environment with `all.children`, every host it lists carries that environment |
| Merge.MergeChildren | shared/ansible/inventory/dynamic_inventory.py:472-486 | the merged `all.children` has no duplicates and holds exactly the environments with `all.children` and their groups |
| Merge.MergeEnvInfo | shared/ansible/inventory/dynamic_inventory.py:462-522 | `environment_info` has exactly one entry per environment: source, host count, group count and secrets count |
| Inventory.IsSopsEncryptedSpec | shared/ansible/inventory/dynamic_inventory.py:131-137 | a file counts as encrypted iff it can be read and `sops:` and `enc:` each occur somewhere in its text |
| Inventory.LoadInventoryFileSpec | shared/ansible/inventory/dynamic_inventory.py:189-219 | a loaded inventory is truthy or `{}`; an encrypted file is read only through its decryption, and truthy decrypted data is returned as is; a plain file's truthy parse is returned as is |
| Inventory.DiscoverEnvironments | shared/ansible/inventory/dynamic_inventory.py:221-243 | the directory loop returns the specified names |
| Inventory.EnvironmentNamesSpec | shared/ansible/inventory/dynamic_inventory.py:233-239 | a name is collected iff some entry is a directory holding `hosts.toml` or `hosts.yaml` |
| Inventory.DiscoverSpec | shared/ansible/inventory/dynamic_inventory.py:227-243 | a missing directory gives `[]`; otherwise the result is sorted and is a permutation of the environment entries' names |
| Inventory.LoadEnvironmentFile | shared/ansible/inventory/dynamic_inventory.py:570-582 | per environment, `hosts.toml` wins over `hosts.yaml`; TOML is parsed and converted; no file gives `{}` |
| Inventory.GetInventoryMethod | shared/ansible/inventory/dynamic_inventory.py:540-590 | the method equals its specification: discovery, filter, load loop, then merge |
| Inventory.UnknownEnvironmentGivesSkeleton | shared/ansible/inventory/dynamic_inventory.py:555-563 | no environments, or an unknown requested one, gives `{"all": {"children": {}}, "_meta": {"hostvars": {}}}` |
| Inventory.LoadAllKeys | shared/ansible/inventory/dynamic_inventory.py:567-582 | the loaded inventories have exactly the selected environments as keys, each with its own loaded inventory |
| Inventory.FilterToOneEnvironment | shared/ansible/inventory/dynamic_inventory.py:560-564 | a known requested environment is the only one loaded |
| Inventory.GetInventoryChildren | shared/ansible/inventory/dynamic_inventory.py:540-590 | a successful inventory is the merged value, with `all.children` free of duplicates and listing exactly the structured environments and their groups |
| Validate.ExtractHostsAndGroups | shared/ansible/inventory/dynamic_inventory.py:652-663 | the recursive walk reports exactly the hosts and groups of the specification, in walk order |
| Validate.ExtractCarriesPrefix | shared/ansible/inventory/dynamic_inventory.py:652-661 | every reported host and group starts with the walk's prefix |
| Validate.ExtractCoversItems | shared/ansible/inventory/dynamic_inventory.py:654-661 | every dict-valued key other than `hosts` is reported as a group, and every key of a `hosts` dict as a host |
| Validate.ExtractReportsGroups | shared/ansible/inventory/dynamic_inventory.py:654-661 | every dict-valued key other than `hosts` is reported as the group `<path><key>`, and so is every group found inside it, at any depth |
| Validate.ExtractGroupsOnly | shared/ansible/inventory/dynamic_inventory.py:654-661 | every reported group is a dict-valued key other than `hosts` under its path, or a group found inside one; nothing else is reported as a group |
| Validate.CheckRequiredFields | shared/ansible/inventory/dynamic_inventory.py:677-680 | the field loop warns as specified |
| Validate.CheckHosts | shared/ansible/inventory/dynamic_inventory.py:670-680 | the host loop warns as specified |
| Validate.CheckHostVars | shared/ansible/inventory/dynamic_inventory.py:667-685 | the recursive check warns as specified, in walk order |
| Validate.MissingFieldWarningInjective | shared/ansible/inventory/dynamic_inventory.py:680 | distinct fields give distinct warnings for the same host |
| Validate.MissingFieldsSpec | shared/ansible/inventory/dynamic_inventory.py:677-680 | a missing-field warning is issued iff the field is required and absent |
| Validate.HostWarningsSpec | shared/ansible/inventory/dynamic_inventory.py:671-680 | a host whose variables are not a dict gets exactly "has no variables"; otherwise one warning per absent required field; no warnings iff all three fields are present |
| Validate.MissingFieldsShape | shared/ansible/inventory/dynamic_inventory.py:678-680 | every warning names a field of the list |
| Validate.MissingFieldsAboutHost | shared/ansible/inventory/dynamic_inventory.py:678-680 | every missing-field warning starts with `Host ` |
| Validate.HostWarningsAboutHost | shared/ansible/inventory/dynamic_inventory.py:671-680 | every warning about one host starts with `Host ` |
| Validate.HostsWarningsAboutHost | shared/ansible/inventory/dynamic_inventory.py:670-680 | every warning about a `hosts` dict starts with `Host ` |
| Validate.CheckAboutHost | shared/ansible/inventory/dynamic_inventory.py:667-683 | every warning of the recursive host-variable check starts with `Host ` |
| Validate.HostsWarningsConcat | shared/ansible/inventory/dynamic_inventory.py:670-680 | the warnings for a run of hosts are those of its parts, in order, so a `hosts` dict yields each host's warnings in turn |
| Validate.CheckPerHost | shared/ansible/inventory/dynamic_inventory.py:664-683 | the recursive check's warnings are exactly the warnings of each host entry it reaches, in walk order, and nothing else |
| Validate.ItemCheckPerHost | shared/ansible/inventory/dynamic_inventory.py:668-683 | one item's check warns exactly about the host entries that item reaches: a `hosts` dict's own entries, a nested dict's entries at any depth, nothing for any other value |
| Validate.HostEntriesSpec | shared/ansible/inventory/dynamic_inventory.py:668-683 | the entries reached are those of every `hosts` dict among the items and those reached inside every other dict item, at any depth, and no others |
| Validate.CheckedHostsAreExtracted | shared/ansible/inventory/dynamic_inventory.py:652-683 | the check visits exactly as many hosts as `extract_hosts_and_groups` reports, in the same order, each reported name ending with the checked host's name |
| Validate.ValidateEnvironment | shared/ansible/inventory/dynamic_inventory.py:628-687 | one environment's validation equals its specification |
| Validate.EnvValidity | shared/ansible/inventory/dynamic_inventory.py:640-645 | an environment is valid iff its inventory is truthy; an invalid one reports only the empty-file error |
| Validate.DictInventory | shared/ansible/inventory/dynamic_inventory.py:647-650 | a non-empty dict inventory can fail to validate only when its `all` entry is not a dict; when it validates, it warns about a missing `all` iff there is none |
| Validate.CheckAllWarnsAboutHosts | shared/ansible/inventory/dynamic_inventory.py:664-685 | the host-variable check never produces the missing-`all` warning |
| Validate.ValidateInventory | shared/ansible/inventory/dynamic_inventory.py:612-692 | the loop over environments equals its specification |
| Validate.ValidateAllSpec | shared/ansible/inventory/dynamic_inventory.py:618-692 | the result is valid iff every environment's `hosts.yaml` loads to a truthy inventory; top-level errors and warnings stay empty; there is one report per environment |
| AnsibleVars.GetInventoryHosts | shared/scripts/get-ansible-vars.py:28-45 | the line loop returns the specified hosts; a missing file gives `{}` |
| AnsibleVars.ReadHostsCurrent | shared/scripts/get-ansible-vars.py:38-39 | the current group is the last `[name]` header read |
| AnsibleVars.HeaderAddsNoHost | shared/scripts/get-ansible-vars.py:38-40 | a header line is never a host, even with `=` in it |
| AnsibleVars.HostEntryOverwrites | shared/scripts/get-ansible-vars.py:40-42 | a host line records its host under the current group, overwriting an earlier entry, and leaves other hosts alone |
| AnsibleVars.ReadHostsKeys | shared/scripts/get-ansible-vars.py:36-42 | the hosts are exactly the names of the host lines |
| AnsibleVars.HostNameHasNoEquals | shared/scripts/get-ansible-vars.py:41 | a host name is the stripped text before the first `=` and contains no `=` |
| AnsibleVars.LoadYaml | shared/scripts/get-ansible-vars.py:16-25 | a loaded file is truthy or `{}`; a truthy document is returned as is |
| AnsibleVars.UpdateWithFiles | shared/scripts/get-ansible-vars.py:55-57 | `update` with each file in turn equals its specification, with a TypeError for a non-dict document |
| AnsibleVars.CollectGroupVars | shared/scripts/get-ansible-vars.py:48-66 | group_vars, then host_vars, as specified |
| AnsibleVars.UpdateAllLastWins | shared/scripts/get-ansible-vars.py:55-57 | a variable takes its value from the last file defining it; a variable no file defines keeps its old state |
| Dicts.UpdateSpec | shared/scripts/get-ansible-vars.py:57 | `d.update(o)` has the keys of both, the old ones first in their old order; values come from `o` where it has the key and from `d` elsewhere |
| AnsibleVars.HostVarsWin | shared/scripts/get-ansible-vars.py:48-66 | host_vars win over group_vars; a variable defined by neither is absent |
| AnsibleVars.ConvertAnsibleToTerraformVars | shared/scripts/get-ansible-vars.py:69-111 | the conversion equals its specification |
| AnsibleVars.CopyMappedSpec | shared/scripts/get-ansible-vars.py:103-105 | exactly the mapped keys present in the input are copied, with their values |
| AnsibleVars.ToTerraformSpec | shared/scripts/get-ansible-vars.py:69-111 | each of the 26 direct keys is present iff it is in the input, with the same value; `proxmox_node` and `storage_pool` are always present, with defaults `pve02` and `storage-vms`; no other key appears |
| AnsibleVars.ComputedAfterCopy | shared/scripts/get-ansible-vars.py:103-109 | after copying keys that exclude the computed ones, the two computed keys are set to their lookups with defaults and every copied key keeps its input value |
| AnsibleVars.RenderTerraform | shared/scripts/get-ansible-vars.py:138-147 | one line per variable, in order, each rendered as specified |
| AnsibleVars.RenderLineSpec | shared/scripts/get-ansible-vars.py:139-147 | each line is `key = value`; strings are quoted verbatim; booleans are `true`/`false`; lists and dicts are printable JSON |

## Left out

- Reading files, walking directories and running `sops --decrypt` (a subprocess with a timeout) are not modelled; their outcomes are parameters.
- YAML and TOML parsing, `_discover_sops_secrets`, `_load_host_vars` and `_load_group_vars` are not modelled; their results are parameters.
- Logging and the `debug` dumps are not modelled.
- `argparse`, exit codes, `main` of `dynamic_inventory.py`, `get_host_vars` and `list_environments` are not modelled; the last two only wrap `get_inventory` and `_discover_environments`.
- `shared/scripts/terraform/ansible_data_source.py` is not part of this model.
- Exception messages follow CPython 3.11 wording; a caller can rely only on the exception class, and the detail texts are indicative.
- Floating-point values and non-string dict keys are not modelled; YAML gives `Value` with string keys only.
- Inventory.LoadInventoryFile: the `.toml` branch of `_load_inventory_file` is not modelled; both callers only pass `hosts.yaml`.
- AnsibleFormat.GroupNamedLikeEnvironment: stated for a group named like the environment whose value is a list, the only kind `FromIni` produces; a dict value holding its own `children` would escape the KeyError.
- Merge.Merge: environment names `all` and `_meta` are not modelled. The source would then share and mutate the dicts it is iterating, and the model's `Merged` record keeps those keys apart.
- Merge.MergeEnv: the variables are copied under the name `<env>_<var>`. A collision between two environments' prefixed names (for example `a_b` + `c` and `a` + `b_c`) overwrites the earlier value, as in the source. No lemma states anything about which value survives across environments.
- Merge.HostEntry: secrets for a host must be a dict; any other value would make `update` raise, and that is not modelled.
- AnsibleVars.UpdateAll: any non-dict YAML document is an error with a single TypeError message. Python's `dict.update` accepts a list of key-value pairs, and its error type and message depend on the value.
- AnsibleVars.RenderValue: a string is printed between quotes without escaping, as the source does. Numbers other than integers are not modelled.
- The JSON output (`json.dumps(..., indent=2)`) is not modelled; `Json.Dumps` models only the single-line form with default separators used in the terraform lines.
