# Chef node attributes and ChefFS REST directories, modelled in Dafny

This project models three small pieces of Chef:

- `Chef::Node::Attribute` (`lib/chef/node/attribute.rb`): the ten precedence
  levels that the constructor lays out, lowest first: `default`,
  `env_default`, `role_default`, `force_default`, `normal`, `override`,
  `role_override`, `env_override`, `force_override`, `automatic`. It also
  models `debug_value`, which walks a key path through each level's raw root
  on its own and never creates anything. Each level yields a
  `[level_name, value]` pair, with the symbol `:not_present` for a miss. The
  nine `rm*` / `*!` entry points are stubs that always raise.
- `Chef::ChefFS::FileSystem::RestListDir`
  (`lib/chef/chef_fs/file_system/rest_list_dir.rb`): a virtual directory
  backed by one REST endpoint. The model covers the `api_path` rule, the
  `.json` test in `can_have_child?`, how `children` (memoised in
  `@children`) builds `KEY.json` names from the server's listing,
  `create_child`, which clears the memo, and how server failures become
  `NotFoundError`, `AlreadyExistsError` or `OperationFailedError`.
- `Chef::ChefFS::FileSystem::PoliciesDir`
  (`lib/chef/chef_fs/file_system/policies_dir.rb`): the `/policies`
  directory. Its children are `POLICY-REVISION.json`: policies are visited
  in sorted order and revisions in listing order, built by a nested loop and
  memoised the same way.

Files and modules:

| file | module | what it holds |
|---|---|---|
| `wrappers.dfy` | `Wrappers` | `Option`, `Result`, `Outcome` |
| `string_order.dfy` | `StringOrder` | the order Ruby sorts strings in, and an insertion sort proved to produce the unique ascending arrangement |
| `ruby_hash.dfy` | `RubyHash` | a decoded JSON object: an ordered `Hash` with distinct keys |
| `node_attribute.dfy` | `NodeAttribute` | levels, the constructor, `debug_value`, the stubs |
| `rest_list_dir.dfy` | `ChefFsRestListDir` | error mapping, `api_path`, `can_have_child?`, child names, classes `RestListEntry` and `RestListDir` |
| `policies_dir.dfy` | `ChefFsPoliciesDir` | policy child names, their count and order, classes `PolicyRevisionEntry` and `PoliciesDir` |

Modelling choices:

- **Attribute values.** A value is a scalar, an array or a string-keyed hash
  (`Value`). The attribute object is a record of ten roots. `debug_value`
  only reads, so it is a function that returns the pairs and no new record.
- **The walk.** The `inject` fold is `Probe`. It ends in `Found(v)`, in
  `Missing` (the sentinel), or in `Raised`. `Raised` covers `has_key?` being
  sent to something that is not a hash, which in Ruby raises
  `NoMethodError`. If any level raises, the whole call fails.
- **The sentinel.** A stored value equal to `:not_present` is treated as a
  miss on the next step, as the `==` test does. `SentinelIndistinguishable`
  shows that a level whose hash holds `:not_present` under a key cannot be
  told apart from any level whose hash lacks that key.
- **Server calls.** The server's answer to a GET, POST or write is an input
  of the operation (`Response`, `Reply`). Whether the file contents parse
  as JSON is an input (`parses`). So is the data handler's integrity
  complaint (`integrity`).
- **Entries and memo.** Entries are objects with constant fields, created
  fresh by `MakeChildEntry`. The `@children` memo is a field
  `cache: Option<seq<...>>`, where `None` stands for `nil`.
  `PoliciesDir < RestListDir` becomes a second class that repeats the
  inherited constructor's `api_path` rule. It drops the `data_handler`
  argument that `RestListDir#initialize` records (rest_list_dir.rb:27, 30),
  because the `PoliciesDir` code never reads it.
- **Sorting.** `keys.sort` is `StringOrder.Sort`. Strings are compared
  character by character by code point, and a proper prefix comes first.
  For UTF-8 this agrees with Ruby's byte order.

Behaviour of the code that the model follows:

- The `debug_value` comment (attribute.rb:95-97) promises a leading
  `["set_unless_enabled?", Boolean]` pair. The code (attribute.rb:103-115)
  produces none, and the model follows the code.
- Every one of the nine `rm*` / `*!` entry points raises `"unimplemented"`.
  None returns a path builder, not even when called with no arguments
  (attribute.rb:153-202).
- A miss is reported as the symbol `:not_present`, and a stored
  `:not_present` looks the same.

The level order is the constructor's listing (attribute.rb:22-31). The
constant `COMPONENTS_AS_SYMBOLS`, which supplies the order at run time, is
not part of this model and is assumed to list the levels the same way.

## Model

| member | source | states |
|---|---|---|
| `NodeAttribute.New` | lib/chef/node/attribute.rb:20-33 | after construction, `normal`, `default`, `override` and `automatic` hold the four arguments (in the constructor's argument order) and the other six levels are empty hashes |
| `NodeAttribute.ComponentsEnumerateLevels` | lib/chef/node/attribute.rb:21-31 | the level list has ten entries, every level occurs in it, and no two levels share a name |
| `NodeAttribute.DebugValue` | lib/chef/node/attribute.rb:102-116 | one pair per level, in level order. Each pair is labelled with that level's name and holds what the walk through that level's own root reports. The call fails (`NoMethodError`) exactly when some level's walk sends `has_key?` to a non-hash |
| `NodeAttribute.DebugValueEmptyPath` | lib/chef/node/attribute.rb:104-105 | with an empty key path, every level reports its own root, and the call never fails |
| `NodeAttribute.ProbeFoundIffLookup` | lib/chef/node/attribute.rb:105-113 | `Probe`, the fold of `Step` over the path, reaches a value exactly when the nested lookup `root[k1]...[kn]` through hashes succeeds, and the value is the same |
| `NodeAttribute.ProbeRaisedIff` | lib/chef/node/attribute.rb:108 | the walk raises exactly when some proper prefix of the path leads to a value that is neither a hash nor `:not_present`, that is, a value the walk would send `has_key?` to next |
| `NodeAttribute.MissingPersists` | lib/chef/node/attribute.rb:106-107 | once a walk has missed, it stays a miss for every extension of the path |
| `NodeAttribute.RaisedPersists` | lib/chef/node/attribute.rb:108-112 | once a walk has raised, every extension of the path raises too |
| `NodeAttribute.DebugValueReportsLookup` | lib/chef/node/attribute.rb:105-114 | when the call succeeds, a level whose keys are all present reports the nested lookup, and any other level reports `:not_present` |
| `NodeAttribute.DebugValueMissStaysMissing` | lib/chef/node/attribute.rb:106-111 | a level that misses on a path reports `:not_present` for every longer path extending it |
| `NodeAttribute.DebugValueLevelIndependent` | lib/chef/node/attribute.rb:103-105 | two attribute objects with the same root at a level get the same entry for that level, whatever their other levels hold |
| `NodeAttribute.SentinelIndistinguishable` | lib/chef/node/attribute.rb:106-111 | for any hash holding `:not_present` under `k` and any hash without `k`, neither walk raises on `[k]` or on any longer path, and both report `:not_present` |
| `NodeAttribute.CallStub` | lib/chef/node/attribute.rb:153-202 | each of `rm`, `rm_default`, `rm_normal`, `rm_override`, `default!`, `normal!`, `override!`, `force_default!` and `force_override!` raises `"unimplemented"` for every argument list, including none, and never returns an attribute object |
| `StringOrder.Sort` | lib/chef/chef_fs/file_system/rest_list_dir.rb:53 | `keys.sort` gives an ascending rearrangement of the keys (the same multiset) |
| `StringOrder.SortedArrangementUnique` | lib/chef/chef_fs/file_system/rest_list_dir.rb:53 | two ascending arrangements of the same strings are equal, so the sorted order does not depend on the algorithm |
| `StringOrder.SortDistinctStrict` | lib/chef/chef_fs/file_system/policies_dir.rb:73 | sorting distinct keys gives a strictly ascending order |
| `ChefFsRestListDir.ChildrenError` | lib/chef/chef_fs/file_system/rest_list_dir.rb:56-65 | a failure while listing gives `NotFound` exactly for HTTP 404. Otherwise it gives `OperationFailed` for `:children`: a timeout keeps its cause, and any other code is recorded as the cause |
| `ChefFsRestListDir.CreateError` | lib/chef/chef_fs/file_system/rest_list_dir.rb:94-106 | a failed creation gives `NotFound` exactly for 404 and `AlreadyExists` exactly for 409. Any other code or a timeout gives `OperationFailed` for `:create_child` |
| `ChefFsRestListDir.ErrorMappingsAgree` | lib/chef/chef_fs/file_system/rest_list_dir.rb:56-65 | listing and creating map a failure the same way, except that only creating turns 409 into `AlreadyExists` |
| `ChefFsRestListDir.ApiPathRule` | lib/chef/chef_fs/file_system/rest_list_dir.rb:29 | `ApiPath`: an explicit `api_path` wins. Otherwise the path is the parent's path with the name appended as one more `/`-separated segment, and the parent path `""` has no segments, so only `name` remains |
| `ChefFsRestListDir.CanHaveChildIsSuffixTest` | lib/chef/chef_fs/file_system/rest_list_dir.rb:36-38 | `CanHaveChild` models the regex test. For a name without newlines, `can_have_child?(name, is_dir)` holds exactly when `is_dir` is false and the name ends with `.json` |
| `ChefFsRestListDir.CanHaveChildAcceptsLineEnd` | lib/chef/chef_fs/file_system/rest_list_dir.rb:37 | because `$` also matches before a newline, `"a.json\nb"` is accepted although it does not end with `.json` |
| `ChefFsRestListDir.ChildNamesFromKeys` | lib/chef/chef_fs/file_system/rest_list_dir.rb:53-55 | `ChildNames` gives one child per listing key. Every child name ends with `.json` and passes `can_have_child?`, and with the suffix removed the names are the keys in ascending order |
| `ChefFsRestListDir.ChildOrderIsCanonical` | lib/chef/chef_fs/file_system/rest_list_dir.rb:53-55 | with the suffix removed, the child names equal any ascending arrangement of the keys |
| `ChefFsRestListDir.ChildNamesDistinct` | lib/chef/chef_fs/file_system/rest_list_dir.rb:53-55 | for a listing (distinct keys) the keys come strictly ascending and no two children share a name |
| `ChefFsRestListDir.FirstNamed` | lib/chef/chef_fs/file_system/rest_list_dir.rb:129 | `select { ... }.first` returns the first memoised entry with that name (no earlier entry has it), or nothing when no entry has it |
| `ChefFsRestListDir.RestListDir.constructor` | lib/chef/chef_fs/file_system/rest_list_dir.rb:27-31 | the directory's `api_path` follows the rule above, the data handler is recorded, and nothing is memoised |
| `ChefFsRestListDir.RestListDir.MakeChildEntry` | lib/chef/chef_fs/file_system/rest_list_dir.rb:128-131 | always a fresh entry with the given name, this parent and the given `exists` flag. The cache lookup is discarded and nothing changes |
| `ChefFsRestListDir.RestListDir.Children` | lib/chef/chef_fs/file_system/rest_list_dir.rb:50-67 | with a memo, returns it unchanged without using the server's answer. Otherwise, on success it returns fresh entries named like the listing's child names and memoises them; on failure it returns the mapped error and memoises nothing |
| `ChefFsRestListDir.RestListDir.CreateChild` | lib/chef/chef_fs/file_system/rest_list_dir.rb:72-114 | a parse failure, or an integrity complaint when a data handler is present, fails before the POST and leaves the memo alone. A failed POST gives the mapped error and leaves the memo alone. A successful POST clears the memo and returns a fresh entry with the requested name |
| `ChefFsRestListDir.CacheScenario` | lib/chef/chef_fs/file_system/rest_list_dir.rb:53 | a client of the contracts: a second listing equals the first whatever the server says, and after a creation the listing is fetched again |
| `ChefFsPoliciesDir.ChildCount` | lib/chef/chef_fs/file_system/policies_dir.rb:71-79 | the number of `PolicyChildNames` (the flattened child names) is the total number of revisions across all listed policies, counted in listing order. A policy with no revisions contributes nothing |
| `ChefFsPoliciesDir.RevisionCountPermutation` | lib/chef/chef_fs/file_system/policies_dir.rb:73 | the revision total does not depend on the order in which policies are visited |
| `ChefFsPoliciesDir.ChildOrder` | lib/chef/chef_fs/file_system/policies_dir.rb:73-78 | policies are visited in ascending name order. The children of one policy form one run, in its revisions' listing order, that ends before the run of any policy with a greater name; this holds for every policy, the last one included |
| `ChefFsPoliciesDir.ChildMembership` | lib/chef/chef_fs/file_system/policies_dir.rb:73-76 | a name is a child exactly when it is `policy + "-" + revision + ".json"` for a listed policy and one of its revisions |
| `ChefFsPoliciesDir.ChildNamesAccepted` | lib/chef/chef_fs/file_system/policies_dir.rb:75 | every child name ends with `.json`, so the inherited `can_have_child?` accepts it |
| `ChefFsPoliciesDir.FileNamesCollide` | lib/chef/chef_fs/file_system/policies_dir.rb:75 | names do not identify the policy: `a-b` revision `c` and `a` revision `b-c` give the same file |
| `ChefFsPoliciesDir.ListingExample` | lib/chef/chef_fs/file_system/policies_dir.rb:53-79 | for `foo` with revisions `1.0.1`, `1.0.0` and `bar` with none, the children are `foo-1.0.1.json` then `foo-1.0.0.json` |
| `ChefFsPoliciesDir.FirstEntryNamed` | lib/chef/chef_fs/file_system/policies_dir.rb:49 | `select { ... }.first` returns the first memoised entry with that name (no earlier entry has it), or nothing when no entry has it |
| `ChefFsPoliciesDir.PoliciesDir.constructor` | lib/chef/chef_fs/file_system/rest_list_dir.rb:27-31 | the inherited constructor: `api_path` by the same rule, nothing memoised |
| `ChefFsPoliciesDir.PoliciesDir.MakeChildEntry` | lib/chef/chef_fs/file_system/policies_dir.rb:48-51 | always a fresh `PolicyRevisionEntry` with the given name and flag. The cache lookup is discarded |
| `ChefFsPoliciesDir.PoliciesDir.Children` | lib/chef/chef_fs/file_system/policies_dir.rb:67-92 | with a memo, returns it unchanged. Otherwise the nested loop builds fresh entries whose names are exactly the flattened `POLICY-REVISION.json` names and memoises them. A server failure gives the mapped error and memoises nothing |
| `ChefFsPoliciesDir.PoliciesDir.CreateChild` | lib/chef/chef_fs/file_system/policies_dir.rb:97-128 | a parse failure fails before any write and leaves the memo alone. A failed write gives `NotFound` for 404, `AlreadyExists` for 409 and `OperationFailed` otherwise, memo untouched. A successful write clears the memo |

## Left out

- Deep merge, combined views, writes, force writes and set-unless writes
  live in `AttributeCell`, `SetUnless` and the `AttributeTrait` modules,
  which are not part of this model. For the same reason
  `combined_default`, `combined_override`, `normal_unless`,
  `default_unless`, `override_unless` and the aliases
  (attribute.rb:47-77) are not modelled.
- The per-level writers `component=` (attribute.rb:35-45) are not modelled:
  they hand the value to `AttributeCell`, whose assignment semantics are
  not part of this model. The readers are modelled as `Root`, which assumes
  `AttributeCell` returns what it was given.
- `has_key?`, `each_attribute`, `to_s`, `inspect`, `eql?`, `==`, `===`,
  `kind_of?` and `is_a?` (attribute.rb:79-148) only delegate to the wrapped
  `AttributeCell`.
- `NodeAttribute.DebugValue`: path keys are strings, and `has_key?` and
  `[]` are taken to behave as on a plain hash. Any key conversion or
  default values the unseen attribute containers apply are not modelled.
- Errors: for the errors that `RestListDir` and `PoliciesDir` raise, the
  model keeps the error class and, for `OperationFailed`, the operation
  plus an abstract reason (`Cause`). That reason is a timeout, the HTTP
  code, a parse failure or the integrity complaint's text. Ruby carries
  the complaint only in the message, with no cause (rest_list_dir.rb:87).
  The Ruby exception passed as the cause (`e` or `$!`) is not modelled.
  `NotFound` and `AlreadyExists` keep no cause at all, although Ruby gives
  them one (rest_list_dir.rb:61, 99, 102; policies_dir.rb:86, 115, 117).
  The rest of the message text is not modelled. The stubs'
  `RuntimeError` and its `"unimplemented"` message are modelled.
  Backtraces are not.
- `Chef::JSONCompat.parse`, `data_handler.normalize_for_post`,
  `data_handler.verify_integrity`, `root.get_json`, `rest.post` and
  `entry.write` are foreign calls. Their results are inputs of the
  operations. What the normalised object contains is not modelled.
- `ChefFsRestListDir.RestListDir.Children`: any other exception raised
  while fetching propagates in Ruby and is not modelled. The same holds for
  `CreateChild` and the `PoliciesDir` methods.
- `ChefFsPoliciesDir.PoliciesDir.Children`: the listing is assumed to have
  the documented shape, with every policy carrying a `revisions` hash. A
  malformed listing raises `NoMethodError` in Ruby and is not modelled.
- `ChefFsPoliciesDir.PoliciesDir.CreateChild`: models its effects and
  errors only, and assumes the call completes after a successful write.
  Its last line (policies_dir.rb:127) names `result`, which the method
  never assigns; the new entry is held in `entry` (line 106). Ruby then
  reads `result` as a method call. Unless some ancestor class, which is
  not part of this model, defines `result`, a successful write clears
  `@children` (line 125) and then raises `NameError`. The model returns
  `Pass` there instead, and what the call returns is not modelled.
- `org`, `environment`, `rest` (rest_list_dir.rb:116-126) delegate to the
  parent directory.
- `lib/chef/chef_fs/file_system/policy_revision_entry.rb`: its `api_path`
  depends on `data_handler.name_and_revision`, which is not part of this
  model.
- Object identity beyond freshness, and concurrency, are not modelled.
