# Finroc parameters: configuration files and static parameters, in Dafny

This project models the core of Finroc's `parameters` plugin and proves
properties of the model. It covers two parts.

**Configuration files.** A configuration file (`tConfigFile`) is an XML tree.
Branch elements are named `node` and leaf elements `value`; each carries a
`name` attribute. An entry such as `a/b/c` is found by walking down the tree.
At each level the children are tried in document order, and the first child
whose name is a prefix of the rest of the entry is taken. The walk backtracks
when a branch does not lead to a match. A config node (`tConfigNode`) is a
path fragment attached to a framework element; the fragments of an element
and its ancestors combine into the scope that relative config entries are
resolved against. `tParameterInfo` is the annotation of a parameter port. It
holds a config entry, a command line option and a finstruct default, and
loads the port's value from them in that precedence.

**Static parameters.** A static parameter (`tStaticParameterImplementationBase`)
holds a buffer. Through `use_value_of` it may use another parameter's buffer,
and the parameters attached to it are recorded in `attached_parameters`.
Parameters belong to a `tStaticParameterList` annotated to a framework
element. A parameter may name an outer parameter in the enclosing
finstructable group and be attached to it, or have a proxy created for it
there. Evaluating the static parameters of an element loads their values,
resets the change flags, notifies the element, and then recurses into
sub-elements and into the elements of attached parameters. Parameters and
lists travel as binary streams and as XML.

## How the model is built

- `config_tree.dfy` (module `ConfigTree`) holds the XML tree as a value
  (`XmlNode`). Nodes are addressed by index paths from the root.
  - `Lookup`, `SearchChildren` and `ChildMatch` are the recursive search.
  - The method `GetEntryImplementation` runs the source's loop over the
    children and is proved equal to `Lookup`.
  - `Lookup` is characterised by `LookupSpec`: it returns the first path in
    document order whose names spell the entry.
- `config_file.dfy` (module `ConfigFiles`) has the class `ConfigFile`, whose
  methods `CreateEntry`, `GetEntry` and `SetText` change `tree` in place.
  `Find` is the search for the nearest active configuration file.
- `config_node.dfy` (module `ConfigNodes`) holds the scope computation:
  `GetConfigNode` is a loop proved equal to the recursive `ConfigNodeOf`.
- `parameter_info.dfy` (module `ParameterInfos`) has the class
  `ParameterInfo` with its loading, saving and (de)serialisation.
- `static_parameters.dfy` (module `StaticParameters`) has the class `Registry`.
  It is an arena holding every static parameter and every list: a
  parameter's identity is its id, and references between objects become ids.
  - The attachment fields live in `links` (module `Attachment`, in
    `attachment.dfy`).
  - A ghost `rank` witnesses that `use_value_of` chains have no cycles, and
    `Owner` follows a chain to the parameter whose buffer is used
    (`GetParameterWithBuffer`).
  - The framework elements, the configuration files, the config node
    annotations and the command line are fields of the registry.
- `typed_parameters.dfy` (module `TypedParameters`) holds the typed wrappers
  of `tStaticParameterImplementation`. `numeric.dfy` (module `Numeric`) holds
  their bounds handling.
- `evaluation.dfy` (module `Evaluation`) holds
  `DoStaticParameterEvaluation` and `tConfigNode::SetConfigNode`.
  - The framework callbacks (`EvaluateStaticParameters`, `Init`,
    `LoadParameterValues`) are recorded as events appended to the registry's
    `log`.
- `parameter_codec.dfy` and `parameter_io.dfy` (modules `ParameterCodec` and
  `ParameterIO`) hold the stream and XML forms of parameters and lists.
- Foreign pieces are parameters of the model, not code in it:
  - value codecs: `StringCodec` and `XmlCodec`, the functions the registry
    is given;
  - the data contents of buffers: the datatype `Data`.

Where the documentation and the code disagree, the model follows the code:

- `tParameterInfo::SaveValue` writes the value only when the entry already
  exists and the value differs from the default
  (internal/tParameterInfo.cpp:266-308). The comment in
  internal/tParameterInfo.h:152-155 also allows a write when the entry is
  missing.
- `GetEntry(entry, true)` on an existing entry removes the node and appends a
  fresh leaf at the end of its parent (tConfigFile.cpp:164-172). When an
  earlier sibling of that parent has the same name, the fresh leaf lands
  behind it, and later lookups find the sibling; `RecreateBehindTwin` shows
  such a tree. `RecreateUnique` proves that the lookup finds the new leaf
  when the entry had a single match.

## Model

| member | source | states |
|---|---|---|
| Common.LastSlash | tConfigFile.cpp:125 | the position of the last '/' in the string, or none when there is no '/' |
| Common.RemoveAll | internal/tStaticParameterImplementationBase.cpp:106-109 | the erase/remove idiom: the element no longer occurs, every other element is kept, nothing new appears |
| Common.RemoveAllKeepsDistinct | internal/tStaticParameterImplementationBase.cpp:106-109 | removing an element from a list without duplicates leaves a list without duplicates |
| Elements.ParentGroup | internal/tStaticParameterImplementationBase.cpp:461 | `GetParentWithFlags(FINSTRUCTABLE_GROUP)`: a strict ancestor that is a finstructable group with no finstructable group between it and the element; none when there is no such ancestor |
| ConfigTree.Lookup | tConfigFile.cpp:179-236 | a found entry is a non-empty valid path below the node |
| ConfigTree.GetEntryImplementation | tConfigFile.cpp:179-236 | the loop over the children returns exactly what the recursive search `Lookup` returns |
| ConfigTree.LookupSpec | tConfigFile.cpp:179-236 | the result spells the entry; there is no result exactly when no path spells it; no path that spells it comes before the result in document order |
| ConfigTree.SearchChildrenSpec | tConfigFile.cpp:198-235 | scanning the children from index k finds the first spelling path that starts at a child at k or later, and none when no such path exists |
| ConfigTree.ChildMatchSpec | tConfigFile.cpp:201-225 | one child matches when its name is a prefix of the rest, followed by the end of the entry or by '/' and a match below it; a match below is the first one through that child |
| ConfigTree.LookupUnique | tConfigFile.cpp:179-236 | when exactly one path spells the entry, the lookup finds it |
| ConfigTree.LookupShift | tConfigFile.cpp:179-236 | the search depends only on the entry from the start index on |
| ConfigTree.LeadingSlashIgnored | tConfigFile.cpp:188-196 | one leading '/' does not change the result |
| ConfigTree.ProperPrefixDoesNotResolve | tConfigFile.cpp:206-224 | a path that spells the entry has no shorter prefix that also spells it |
| ConfigTree.ReplaceOutside | tConfigFile.cpp:164-172 | replacing one node leaves every path outside its subtree and its names as they were |
| ConfigTree.ReplaceInside | tConfigFile.cpp:164-172 | after replacing a node, the path leads to the new node and the paths below it are those of the new node |
| ConfigTree.AddChildGrows | tConfigFile.cpp:127 | `AddChildNode` keeps every existing path and its names |
| ConfigTree.AddChildKeepsNode | tConfigFile.cpp:127 | `AddChildNode` leaves the element, name and text of every existing node as they were |
| ConfigTree.AddChildKeepsNodes | tConfigFile.cpp:127 | after `AddChildNode` every node of the old tree is still there with its element, name and text |
| ConfigTree.AddChildKeepsBelow | tConfigFile.cpp:127 | a path strictly below the node that gets the child stays valid and spells the same names after the child is added |
| ConfigTree.AddChildNew | tConfigFile.cpp:127-128 | the new child sits at the next index below its parent, with its own name appended |
| ConfigTree.AddChildOnlyNew | tConfigFile.cpp:127 | every path that is new after `AddChildNode` runs through the new child |
| ConfigFiles.LookupIsFirstMatch | tConfigFile.cpp:179-236 | the lookup from the root returns p exactly when p is the first path in document order that spells the entry |
| ConfigFiles.FirstMatchUnique | tConfigFile.cpp:179-236 | there is at most one first match |
| ConfigFiles.CreatedIsOnlyMatch | tConfigFile.cpp:113-130 | if the entry was missing and every new path leads to the created node, which spells the entry, the lookup now finds it |
| ConfigFiles.RecreatedLeafShape | tConfigFile.cpp:164-172 | the recreated leaf is a fresh `value` element with the old name, appended as the last child of the old parent |
| ConfigFiles.RecreateUnique | tConfigFile.cpp:164-172 | when the entry had a single match, the lookup after recreating it finds the new leaf |
| ConfigFiles.RecreateBehindTwin | tConfigFile.cpp:164-172 | a concrete tree in which the lookup finds a same-named sibling, not the recreated leaf |
| ConfigFiles.Find | tConfigFile.cpp:132-145 | the nearest ancestor-or-self with an active configuration file; none when there is none |
| ConfigFiles.ConfigFile.constructor | tConfigFile.cpp:84-90 | an empty root `node`, no file name, active |
| ConfigFiles.ConfigFile.HasEntry | tConfigFile.cpp:255-259 | true exactly when the entry's first match exists and is a `value` leaf |
| ConfigFiles.ConfigFile.GetStringEntry | tConfigFile.cpp:238-253 | the text of the first match; "" when nothing spells the entry |
| ConfigFiles.ConfigFile.CreateEntry | tConfigFile.cpp:113-130 | when a branch is asked for and the entry already has a match, that match is returned, whether it is a leaf or a branch, and the tree is unchanged; otherwise a new element named after the last segment (a leaf when asked for, else a branch) is appended under the parent, which is created first as a branch when missing; the tree only grows: every existing node stays at its path with its element, name and text; every new path is a prefix of the result, every new node other than the result is a `node` branch, and a well-formed entry resolves to the result |
| ConfigFiles.ConfigFile.GetEntry | tConfigFile.cpp:147-177 | without `create`: the first match when it is a leaf, else the error "Config node not found: " or "Config node is no leaf: " followed by the entry, with the tree unchanged; with `create`: an existing match is replaced by a fresh leaf at the end of its parent, and a missing one is created as a leaf, every existing node keeping its element, name and text, every new path being a prefix of the result and every new node above it a `node` branch; a well-formed entry is then found as a leaf |
| ConfigFiles.ConfigFile.LeafNode | tConfigFile.cpp:255-259 | the leaf of the first match, present exactly when `HasEntry` holds |
| ConfigFiles.ConfigFile.SetText | internal/tParameterInfo.cpp:296-299 | only the text of the node at the path changes; its element and name stay |
| ConfigNodes.Fragment | tConfigNode.cpp:92 | the fragment ends with '/'; it is the node followed by one '/' exactly when the node does not end with one, and the node itself otherwise; an absolute node stays absolute |
| ConfigNodes.GetConfigNode | tConfigNode.cpp:76-106 | the upward loop over the annotated ancestors computes `ConfigNodeOf`: the fragments from the element up to the first absolute node, or up to the element holding the configuration file |
| ConfigNodes.ScopeEndsWithSlash | tConfigNode.cpp:76-106 | a non-empty scope ends with '/' |
| ConfigNodes.ConfigNodeEndsWithSlash | tConfigNode.cpp:76-106 | the scope of any element is empty or ends with '/', so `GetFullConfigEntry` never adds a second '/' |
| ConfigNodes.ScopeAbsolute | tConfigNode.cpp:76-106 | when the walk meets an absolute node, the scope is absolute |
| ConfigNodes.ScopeIgnoresOutside | tConfigNode.cpp:76-106 | the scope depends only on the annotations of the elements on the walk |
| ConfigNodes.GetFullConfigEntry | tConfigNode.cpp:108-116 | an absolute entry is returned as is; a relative one is the scope of the parent, with a '/' appended when the scope does not end with one, followed by the entry; with a non-empty scope that is the scope plus the entry; the result is absolute when the entry or the scope is |
| ConfigNodes.FullEntryExample | tConfigNode.cpp:108-116 | node "/root" above node "a/b" makes entry "x" resolve to "/root/a/b/x" |
| ParameterInfos.OutermostGroup | internal/tParameterInfo.cpp:121-142 | climbing finstructable groups ends at a group above which there is none |
| ParameterInfos.IsFinstructableGroupResponsibleForConfigFileConnections | internal/tParameterInfo.cpp:121-142 | the loop that climbs finstructable groups computes `Responsible`: the group in charge of the port's configuration file, or else the outermost group, is the given one |
| ParameterInfos.ResponsibleWithoutConfigGroup | internal/tParameterInfo.cpp:121-142 | without a configuration file or a group in charge of it, a group is responsible exactly when no finstructable group is above it |
| ParameterInfos.EmitAttributes | internal/tParameterInfo.cpp:311-329 | "config" is written when there is an entry and it came from finstruct or the context is not finstruct; "cmdline" when asked for and set; "default" when set; nothing else |
| ParameterInfos.HasNonDefaultInfo | internal/tParameterInfo.h:115-118 | true exactly when serialising in finstruct context with the command line writes some attribute |
| ParameterInfos.ReadInfo | internal/tParameterInfo.cpp:359-384 | reading consumes exactly four stream items |
| ParameterInfos.StreamRoundTrip | internal/tParameterInfo.cpp:350-384 | reading what `operator<<` wrote gives the four fields back and leaves the rest of the stream |
| ParameterInfos.ParameterInfo.constructor | internal/tParameterInfo.cpp:80-85 | every string empty; the entry is not from finstruct |
| ParameterInfos.ParameterInfo.HasNonDefaultFinstructInfo | internal/tParameterInfo.h:115-118 | true exactly when serialising in finstruct context with the command line writes some attribute |
| ParameterInfos.ParameterInfo.LoadValue | internal/tParameterInfo.cpp:144-252 | the outcome is `LoadOutcome` of the info's fields; nothing else changes |
| ParameterInfos.LoadOutcome | internal/tParameterInfo.cpp:144-252 | an error is only "Port Type not supported as a parameter" for a port that is not data flow; a publication needs a data-flow port that is ready (unless readiness is ignored); a value published from the command line or the finstruct default is what that string decodes to; a command line argument that is set and decodes is always the one published |
| ParameterInfos.ParameterInfo.SaveValue | internal/tParameterInfo.cpp:266-308 | nothing for a missing or not-ready port; the error for a non-data-flow port; otherwise the current value is written into a recreated leaf exactly when the entry exists as a leaf and the value is not the default; other files are unchanged |
| ParameterInfos.ParameterInfo.Serialize | internal/tParameterInfo.cpp:311-329 | reading the attributes back gives the fields, except that an entry not set by finstruct is dropped in finstruct context and one set by finstruct is re-marked outside it |
| ParameterInfos.ParameterInfo.Deserialize | internal/tParameterInfo.cpp:88-118 | the fields become what the attributes say; a missing "config" clears the entry and keeps the finstruct flag |
| ParameterInfos.ParameterInfo.SetConfigEntry | internal/tParameterInfo.cpp:332-347 | an unchanged entry does nothing; a new one is stored with its finstruct flag, and the load that follows has the outcome `LoadOutcome` gives for the new fields of a ready port |
| ParameterInfos.ParameterInfo.SetCommandLineOption | internal/tParameterInfo.h:166-169 | only the option changes |
| ParameterInfos.ParameterInfo.SetFinstructDefault | internal/tParameterInfo.h:183-186 | only the default changes |
| ParameterInfos.ParameterInfo.Write | internal/tParameterInfo.cpp:350-357 | the stream form reads back as the four fields |
| ParameterInfos.ParameterInfo.Read | internal/tParameterInfo.cpp:359-384 | a stream without the four items is an error with nothing changed; otherwise all four fields are taken over, the value is reloaded exactly when one of the strings differs, and the reload has the outcome `LoadOutcome` gives for the new fields |
| Numeric.ToBounds | internal/tStaticParameterImplementation.h:149 | the result lies within sound bounds, and a value within them is kept |
| Numeric.Enforce | internal/tStaticParameterImplementation.h:139-157 | the value is dropped exactly when the bounds are a range it lies outside and the action is to discard; a value within the bounds is kept; an outside value is moved to the nearer end or replaced by the out-of-bounds default according to the action; with sound bounds every stored value lies within them |
| Numeric.EnforceInBounds | internal/tStaticParameterImplementation.h:139-157 | with sound bounds a stored value lies within them, and storing it again changes nothing |
| Attachment.Owner | internal/tStaticParameterImplementationBase.h:295-302 | following `use_value_of` ends at a parameter that uses its own buffer, on the chain of the start |
| Attachment.ChainSharesOwner | internal/tStaticParameterImplementationBase.h:295-302 | all parameters on one chain use the same buffer |
| Attachment.Relinked | internal/tStaticParameterImplementationBase.cpp:103-131 | re-linking keeps the set of parameters |
| Attachment.RelinkPreservesGraph | internal/tStaticParameterImplementationBase.cpp:103-131 | re-linking to a target whose chain avoids the parameter keeps the links acyclic, closed and consistent with the back-edges |
| Attachment.RelinkedOwner | internal/tStaticParameterImplementationBase.cpp:103-131 | after `AttachTo(other)` the parameter uses the buffer of other's owner, or its own when detached |
| Attachment.RelinkedBackEdges | internal/tStaticParameterImplementationBase.cpp:105-114 | after re-linking, the parameter is in the attached list of its new target only, and in none when detached |
| Attachment.RelinkKeepsOtherChains | internal/tStaticParameterImplementationBase.cpp:103-131 | a chain that does not pass through the re-linked parameter keeps its owner |
| Attachment.AddedOwners | internal/tStaticParameterImplementationBase.cpp:76-97 | a new parameter owns its buffer, and every existing owner stays |
| Attachment.ClosedListHoldsChain | internal/tStaticParameterImplementationBase.cpp:232-253 | a list that contains the start and is closed under attached lists holds every parameter whose chain reaches the start |
| StaticParameters.DecideOutcome | internal/tStaticParameterImplementationBase.cpp:269-324 | only a parameter that owns its buffer and does not enforce its value loads; a command line argument that decodes wins; a load from the config entry needs the entry to be permitted and its leaf, and with a buffer of the declared type holds what the leaf decodes to; otherwise the buffer is kept, or renewed after a failed `Set` |
| StaticParameters.FirstNamed | internal/tStaticParameterImplementationBase.cpp:469-477 | the first position whose parameter has the name; none when none has it |
| StaticParameters.FilledSees | internal/tStaticParameterImplementationBase.cpp:116-130 | after attaching, only the parameter and the buffer owner change; an owner without a buffer takes over the old buffer, or a fresh one of the type |
| StaticParameters.FilledKeepsSettings | internal/tStaticParameterImplementationBase.cpp:116-130 | attaching keeps every parameter's name, list, index, flags, command line option, outer attachment and config entry |
| StaticParameters.Registry.constructor | internal/tStaticParameterImplementationBase.cpp:76-97 | an empty registry over the given elements, files, nodes and command line |
| StaticParameters.Registry.OwnerOf | internal/tStaticParameterImplementationBase.h:295-302 | `GetParameterWithBuffer`: a registered parameter that uses its own buffer, reached along the chain |
| StaticParameters.Registry.SharedBuffer | internal/tStaticParameterImplementationBase.h:209-212 | parameters on one chain see the same `ValuePointer` |
| StaticParameters.Registry.NewParameter | internal/tStaticParameterImplementationBase.cpp:76-97 | a fresh id with the given fields, its own buffer of the type unless it is a constructor prototype, detached; nothing else changes |
| StaticParameters.Registry.CreateBuffer | internal/tStaticParameterImplementationBase.cpp:133-139 | the owner's buffer becomes a fresh instance of the type, seen by the parameter |
| StaticParameters.Registry.AttachTo | internal/tStaticParameterImplementationBase.cpp:103-131 | the links are re-linked to the target (itself when detaching), the parameter uses the target's owner's buffer, and the buffer owner is filled in as the source does |
| StaticParameters.Registry.GetAllAttachedParameters | internal/tStaticParameterImplementationBase.cpp:232-253 | the result starts with the parameter, has no duplicates, and holds exactly the parameters whose chain reaches it, all sharing its buffer |
| StaticParameters.Registry.HasChanged | internal/tStaticParameterImplementationBase.cpp:255-267 | true exactly when the current buffer differs from the last value |
| StaticParameters.Registry.ResetChanged | internal/tStaticParameterImplementationBase.cpp:326-341 | the last value becomes the current buffer, after which `HasChanged` is false |
| StaticParameters.Registry.SetFromString | internal/tStaticParameterImplementationBase.cpp:391-404 | success exactly when the string decodes; the owner's buffer holds the decoded value, or after failure a buffer of the declared type |
| StaticParameters.Registry.LoadValue | internal/tStaticParameterImplementationBase.cpp:269-324 | only the parameter's buffer changes, to what `Decide` says for the parameter's inputs |
| StaticParameters.Registry.SetConfigEntry | internal/tStaticParameterImplementationBase.cpp:406-417 | the entry is stored and marked as not from finstruct; a load follows exactly when it changed and the parent element is ready |
| StaticParameters.Registry.UpdateAndPossiblyLoad | internal/tStaticParameterImplementationBase.cpp:427-438 | both strings are stored; a parameter that owns its buffer loads exactly when one of them changed |
| StaticParameters.Registry.NewList | internal/tStaticParameterList.cpp:77-80 | a fresh empty list without a create action |
| StaticParameters.Registry.GetOrCreate | internal/tStaticParameterList.cpp:185-194 | the element's list, created empty and annotated to it when missing |
| StaticParameters.Registry.Add | internal/tStaticParameterList.cpp:87-92 | the parameter is appended and learns its list and index |
| StaticParameters.Registry.Clear | internal/tStaticParameterList.cpp:99-106 | the list becomes empty; its parameters are released last first |
| StaticParameters.Registry.SetCreateAction | internal/tStaticParameterList.h:146-150 | the action is set once, on a list that had none |
| StaticParameters.Registry.ListDistinct | internal/tStaticParameterList.cpp:87-92 | a parameter occurs at most once in a list, since each knows its one index |
| StaticParameters.Registry.ChainReaches | internal/tStaticParameterImplementationBase.h:295-302 | the loop along `use_value_of` decides whether one chain passes through a parameter |
| StaticParameters.Registry.FindNamed | internal/tStaticParameterImplementationBase.cpp:469-477 | the loop over the group's list finds `FirstNamed` |
| StaticParameters.Registry.Resolution | internal/tStaticParameterImplementationBase.cpp:440-492 | what the update does: unlisted, kept when the owner already has the name, detached for an empty name, ignored without a group, attached to the first parameter with the name, a proxy created, not found, and the cases the source leaves undefined (no annotated element, a cycle) |
| StaticParameters.Registry.UpdateOuterParameterAttachment | internal/tStaticParameterImplementationBase.cpp:440-492 | the outcome is `Resolution` in the old state; attaching re-links and refills the buffer; a proxy is appended to the group's list and becomes the owner; the other lists are unchanged |
| StaticParameters.Registry.SearchGroup | internal/tStaticParameterImplementationBase.cpp:468-489 | the group's list is got or created, and the first parameter with the name is attached to, or a proxy is created when allowed |
| StaticParameters.Registry.CreateProxy | internal/tStaticParameterImplementationBase.cpp:479-485 | a new proxy parameter of the type, appended to the group's list, becomes the parameter's buffer owner |
| StaticParameters.Registry.SetOuterParameterAttachment | internal/tStaticParameterImplementationBase.cpp:419-425 | both fields are stored and the attachment is updated |
| TypedParameters.Set | internal/tStaticParameterImplementation.h:93-96 | the shared buffer holds the new data, seen by every parameter on the chain |
| TypedParameters.SetNumber | internal/tStaticParameterImplementation.h:139-157 | stored exactly when `Enforce` keeps a value, which every parameter on the chain then sees and which lies within sound bounds; nothing changes otherwise |
| TypedParameters.NewTyped | internal/tStaticParameterImplementation.h:78-86 | a new parameter whose buffer holds the default when one is given |
| TypedParameters.NewNumeric | internal/tStaticParameterImplementation.h:122-131 | a new `tNumber` parameter with the bounds; a default is stored through the bounds check |
| TypedParameters.DeepCopyBase | internal/tStaticParameterImplementationBase.h:99-102 | a fresh parameter with the name, type and config entry, its own fresh buffer; the original is unchanged |
| TypedParameters.DeepCopyTyped | internal/tStaticParameterImplementation.h:103-106 | a fresh parameter with the name and type only |
| TypedParameters.DeepCopyNumeric | internal/tStaticParameterImplementation.h:174-177 | a fresh numeric parameter with the name and bounds, holding zero |
| ParameterCodec.WriteParameter | internal/tStaticParameterImplementationBase.cpp:343-361 | eight header items, the name and type first, then the value part |
| ParameterCodec.ReadHeader | internal/tStaticParameterImplementationBase.cpp:141-156 | the header is read exactly when the eight items have the right kinds, and the rest follows them |
| ParameterCodec.StreamRoundTrip | internal/tStaticParameterImplementationBase.cpp:141-165 | reading what was written gives the header and the buffer back, and leaves the rest of the stream |
| ParameterCodec.EmitAttributes | internal/tStaticParameterImplementationBase.cpp:363-389 | "type" exactly when the buffer's type differs or the parameter is a proxy; "enforce", "cmdline" and "attachouter" exactly when set; "config" when set and allowed in the context; never "name" |
| ParameterIO.Serialize | internal/tStaticParameterImplementationBase.cpp:343-361 | the stream form of a parameter, 11 items with a buffer and 9 without |
| ParameterIO.SerializeRoundTrip | internal/tStaticParameterImplementationBase.cpp:141-165 | reading a parameter's stream form gives its settings and its buffer back |
| ParameterIO.ReceiveValue | internal/tStaticParameterImplementationBase.cpp:216-230 | the owner's buffer becomes the value read (a buffer of another type is replaced first); nothing else changes |
| ParameterIO.DeserializeStream | internal/tStaticParameterImplementationBase.cpp:141-165 | a bad header changes nothing; otherwise the six settings are taken from the stream, the value read lands in the buffer, and the rest of the stream is what a reader skips |
| ParameterIO.SerializeXml | internal/tStaticParameterImplementationBase.cpp:363-389 | the content is the buffer; reading the attributes back gives the buffer type and the settings, with the config entry dropped as in the source |
| ParameterIO.DeserializeXml | internal/tStaticParameterImplementationBase.cpp:167-214 | the five settings become what the attributes say for the old type and flag; no other parameter's settings change; unless the parameter was re-attached, got a proxy, or reloads because a string changed, its buffer holds the node's content with the type the attributes name |
| ParameterIO.Reattach | internal/tStaticParameterImplementationBase.cpp:440-492 | the attachment is updated for the parameter without touching any other parameter's settings; when no link changes, its buffer and every link stay |
| ParameterIO.DeserializeNext | internal/tStaticParameterList.cpp:117-122 | reading child i into parameter i keeps every earlier parameter configured by its child and every parameter outside the first i+1 unchanged in its settings |
| ParameterIO.ConfiguredStep | internal/tStaticParameterList.cpp:117-122 | one more configured parameter extends the configured prefix, given that the reader changed no other parameter's settings |
| ParameterIO.XmlContentRoundTrip | internal/tStaticParameterImplementationBase.cpp:167-214 | the buffer read back from a parameter's XML is its buffer |
| ParameterIO.ConcatRoundTrip | internal/tStaticParameterList.cpp:218-239 | reading n parameters from n written parameters leaves exactly the rest |
| ParameterIO.WriteList | internal/tStaticParameterList.cpp:207-216 | the loop writes the create action, the size and each parameter's form, in list order |
| ParameterIO.ListRoundTrip | internal/tStaticParameterList.cpp:207-239 | a written list has a readable head, and its parameters read back to the rest of the stream |
| ParameterIO.ReadList | internal/tStaticParameterList.cpp:218-239 | an unannotated list is the error "List needs to be attached…"; a wrong action or size is "Invalid action id or parameter number"; otherwise each parameter is read in turn: success exactly when all of them can be skipped, returning what is left; on success every parameter holds the settings of its header in the stream and the evaluation has run |
| ParameterIO.ReadNext | internal/tStaticParameterList.cpp:232-235 | reading parameter i leaves the stream after parameter i+1, and on success the first i+1 parameters hold the settings of their headers |
| ParameterIO.HeaderStep | internal/tStaticParameterList.cpp:232-235 | the header just read joins the prefix of parameters holding their headers |
| ParameterIO.ListHeadersRoundTrip | internal/tStaticParameterList.cpp:207-239 | the k-th header of a written list holds the settings of the list's k-th parameter |
| ParameterIO.ConcatSkip | internal/tStaticParameterList.cpp:232-235 | skipping k parameters of n written ones leaves the last n-k and the rest |
| ParameterIO.FormHeaderAt | internal/tStaticParameterList.cpp:207-239 | the header after k written parameters is the header of parameter k |
| ParameterIO.NamedNode | internal/tStaticParameterList.cpp:196-205 | a parameter's XML node carries its name besides its own attributes |
| ParameterIO.SerializeListXml | internal/tStaticParameterList.cpp:196-205 | one named node per parameter, in list order |
| ParameterIO.DeserializeListXml | internal/tStaticParameterList.cpp:108-123 | as many parameters are read as there are both children and parameters; parameter k takes the settings child k gives it; every other parameter keeps its settings; the list itself is unchanged |
| Evaluation.EvaluationsCompose | internal/tStaticParameterList.cpp:125-183 | two runs of evaluation events in a row form one run |
| Evaluation.LoadList | internal/tStaticParameterList.cpp:137-145 | only buffers change, each list member's buffer to what `Decide` gives for its inputs before the loop; `changed` holds exactly when some member reports a change right after its load; the parameters collected are exactly those whose chain reaches a list member |
| Evaluation.LoadOne | internal/tStaticParameterList.cpp:141-144 | one member is loaded as `Decide` says; `changed` is whether it reports a change, and the parameters collected are those attached to it |
| Evaluation.LoadNext | internal/tStaticParameterList.cpp:139-145 | one turn of the loop extends the loads, the change flag and the collected parameters from the first i members to the first i+1 |
| Evaluation.LoadEach | internal/tStaticParameterList.cpp:139-145 | the loop over all members gives the loaded buffers, the change flag and the attached parameters for the whole list |
| Evaluation.LoadedBuffersOnly | internal/tStaticParameterList.cpp:139-145 | loading members changes buffers only |
| Evaluation.ChangedByExists | internal/tStaticParameterList.cpp:142 | the accumulated flag is true exactly when some member reported a change right after its own load |
| Evaluation.OnSomeChainExists | internal/tStaticParameterList.cpp:143-144 | a parameter is collected exactly when its chain reaches one of the members |
| Evaluation.DecideIdempotent | internal/tStaticParameterImplementationBase.cpp:269-324 | loading a value a second time with the same inputs keeps it |
| Evaluation.ReloadKeepsBuffers | internal/tStaticParameterList.cpp:139-145 | loading the whole list again with the same inputs changes no buffer |
| Evaluation.ResetList | internal/tStaticParameterList.cpp:151-155 | only last values change, only for list members, and every list member with a buffer reports no change afterwards |
| Evaluation.EvaluateOwn | internal/tStaticParameterList.cpp:133-162 | an element without a list is untouched; otherwise `changed` is whether the load reports a change, buffers become what the load gives, and after a change the events `EvaluateStaticParameters` (then `Init` when ready) are appended and every member with a buffer reports no change; the parameters collected are those attached to members |
| Evaluation.AnnounceChange | internal/tStaticParameterList.cpp:147-162 | the element is notified, then initialised when ready, and every member with a buffer reports no change |
| Evaluation.OwnLogOk | internal/tStaticParameterList.cpp:147-162 | the events of one element's evaluation form a valid run |
| Evaluation.Evaluate | internal/tStaticParameterList.cpp:125-183 | only buffers and last values change, the structure and the environment stay, every event appended is an evaluation of an element with a list or an initialisation following one, and the run starts with the element's own events |
| Evaluation.EvaluateChildren | internal/tStaticParameterList.cpp:165-173 | the same for the recursion into sub-elements; with no primary, not deleted child nothing changes, and otherwise the run starts with the events of the first such child |
| Evaluation.FirstWalked | internal/tStaticParameterList.cpp:166-172 | the first child the walk follows is a primary, not deleted child, and none of the children is one when there is none |
| Evaluation.FirstWalkedNext | internal/tStaticParameterList.cpp:166-172 | the first walked child of one more child is the earlier one, or the new child when it is walked |
| Evaluation.EvaluateAttached | internal/tStaticParameterList.cpp:175-182 | the same for the recursion into the elements of attached parameters; nothing changes when no attached parameter reports a change, and otherwise the run starts with the events of the first reporting one's element |
| Evaluation.Reports | internal/tStaticParameterList.cpp:178-180 | an attached parameter reports exactly when it is registered, has changed, and lies in a list annotated to an element; that element is the one evaluated |
| Evaluation.EvaluateIfReporting | internal/tStaticParameterList.cpp:178-180 | a parameter that does not report changes nothing; one that does starts the run with its element's events |
| Evaluation.EvaluateReported | internal/tStaticParameterList.cpp:180 | the run starts with the events of the reported element |
| Evaluation.LastIsNoLoad | internal/tStaticParameterList.cpp:125-183 | an evaluation never ends with a `LoadParameterValues` event |
| Evaluation.SetConfigNode | tConfigNode.cpp:118-148 | the node is recorded; an unchanged node does nothing else; after a change, the last event is `LoadParameterValues` of the element exactly when it is ready and has a configuration file |

## Left out

- I/O: reading and writing files (`tConfigFile(filename)`, `SaveFile`), and the binary stream operators of `tConfigFile`. A configuration file is a tree in memory.
- Locks (`GetStructureMutex`), logging, and units of numeric parameters. Units convert on both sides of a `tNumber`, and the model stores plain integers.
- `tConfigFile::LoadParameterValues`, `Init` and `EvaluateStaticParameters` are framework callbacks; they appear only as events in the registry's log.
- Evaluate: the recursion carries a `fuel` bound, because the element tree and the attachment graph are not modelled as finite structures the evaluation walks down; with too little fuel the deeper elements are not evaluated.
- ReceiveValue: the source dereferences a missing buffer (undefined behaviour); the model gives the parameter a fresh buffer.
- Resolution: the source dereferences a list's annotated element without a check and may attach in a cycle; the model reports `Unattached` and `Cyclic` and changes nothing.
- ResetList: a parameter without a buffer is skipped; the source dereferences it.
- EvaluateAttached: attached parameters without a list or an annotated element are skipped; the source dereferences them.
- DeserializeStream: a stream whose header is malformed changes nothing, while the source keeps what it read before the failure.
- ReadList: a parameter header that cannot be read (the source throws at tStaticParameterImplementationBase.cpp:144-153, out of the list reader) ends the reader with "Malformed parameter stream" and no evaluation, as in the source. A value part that cannot be read does the same in the model, while the source catches that exception (tStaticParameterImplementationBase.cpp:157-164) and goes on with the next parameter from wherever the stream then stands, which the token model cannot say.
- DeserializeStream, DeserializeXml and StaticParameters.Registry.LoadValue require the parameter's list to be annotated to an element, since the source dereferences it.
- DeserializeListXml requires the list to be annotated when there is something to read, for the same reason.
- SerializeListXml requires every parameter to have a buffer; the source dereferences it.
- StaticParameters.Registry.Clear: the released parameters stay in the arena (the source deletes them through the address of a vector slot, which is undefined behaviour).
- NumberOf: a buffer that does not hold a number reads as 0.
- StaticParameters.Registry.SetOuterParameterAttachment: the contract states the two fields; the outcome of the update is stated by UpdateOuterParameterAttachment.
- Exceptions that the source catches around foreign code (codecs, the XML library) are modelled as decoding failures (`None`); their messages are not. Exceptions it does not catch are named per member in this section.
- ParameterIO.DeserializeXml: the buffer takes the node's content as is, so the exception `val->Deserialize(node)` may throw (tStaticParameterImplementationBase.cpp:181) is not modelled; nothing catches it in the source, and it would end the loop of `tStaticParameterList::Deserialize` (tStaticParameterList.cpp:117-122) early.
- ParameterIO.DeserializeXml: after an attachment to an outer parameter, a proxy, a detachment, or a reload because a string changed, the contract does not state what the buffer holds.
- ConfigNodes.Fragment: the source reads the last character of an empty node (tConfigNode.cpp:92), which is undefined behaviour; the model gives an empty node the fragment "/".
- ConfigNodes.GetFullConfigEntry: an empty entry is relative in the model as in the source (`config_entry[0]` of an empty string is its terminating '\0', tConfigNode.cpp:110). The source reads the last character of an empty scope (tConfigNode.cpp:115), which is undefined behaviour; the model puts "/" in front of a relative entry when the scope is empty.
- ParameterInfos.ParameterInfo.Read: a stream that is too short leaves all fields unchanged, while the source has already assigned `entry_set_from_finstruct` from the first item (internal/tParameterInfo.cpp:361) when reading a string fails.
- StaticParameters.Registry.SetFromString: a parameter without a buffer gets a fresh buffer of the declared type; the source dereferences the missing buffer (tStaticParameterImplementationBase.cpp:395-396), which is undefined behaviour.
- StaticParameters.DecideOutcome: a config entry loads only into an existing buffer; the source dereferences a missing one (tStaticParameterImplementationBase.cpp:314), which is undefined behaviour.
- Evaluation.Evaluate: the contracts of Evaluate, EvaluateChildren and EvaluateAttached state the first element evaluated and the case with nothing to do, not the whole order of the recursion.
- Evaluation.EvaluateOwn: the contract states the buffers of list members and of parameters sharing them; it does not restate that every other parameter keeps its last value beyond `ValuesOnly`.
- The accessors (`GetName`, `GetType`, `GetConfigEntry`, `GetParentList`, `IsStaticParameterProxy`) are field reads of the registry.
- ParameterInfos.ParameterInfo.SaveValue: the source calls `HasEntry` with the raw entry, and the model does the same; the file must be found, since the source dereferences it.
