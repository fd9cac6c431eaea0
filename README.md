# Sling POST servlet: the create operation's core, in Dafny

This project models the core of `AbstractCreateOperation` in Apache Sling's POST servlet, and proves what it guarantees. The core has three parts.

- **The directive parser** (`collectContent`, `toPropertyPath`, `getOrCreateRequestProperty`).
  - It reads the request parameters in order and skips the servlet's own control parameters, the `_charset_` parameter, and names without the item-path prefix when that prefix is required.
  - It resolves every other name to an absolute property path.
  - It recognises the `@…` suffix directives in the order of `collectContent`'s if-chain.
  - It upserts a descriptor (`RequestProperty`) keyed by the path without the suffix into an insertion-ordered map.
- **Deep get-or-create** (`deepGetOrCreateNode` with `getPrimaryType` and `getMixinTypes`).
  - It rejects a relative path.
  - It walks up to the deepest existing ancestor.
  - It then walks forward one segment at a time, creating each missing node. Each new node is typed from the descriptors at its own cumulative path.
  - It logs one `Created` modification per new node.
- **`processCreate`.**
  - It deep-creates a missing target, which makes the request a create request.
  - Otherwise it reconciles the existing node's mixins with the `jcr:mixinTypes` descriptor. Adding `mix:versionable` under the check-in-on-new-versionable policy counts as an implicit checkout.

Module layout:

- `Strings`: `startsWith`, `endsWith`, `indexOf` and `lastIndexOf` over `seq<char>`.
- `Descriptors`: the descriptor record and the insertion-ordered map. The map is both the `PropertyMap` class the parser mutates and its value `Descriptors`.
- `DirectiveParser`: `collectContent`.
- `Repository`: the in-memory stand-in for the JCR session.
  - `Session` is a class. `items` maps an absolute path to a node with a primary type and a mixin set. `versionLocked` holds the nodes under which `addNode` throws a `VersionException`.
  - `ChangeLog` is the modification list.
- `NodeMaterializer`: `deepGetOrCreateNode` and its two loops.
- `WalkProperties`: what the walk guarantees.
- `CreateOperation`: `processCreate`.

The imperative code stays imperative:

- `collectContent` is a loop over a `PropertyMap` object.
- `deepGetOrCreateNode` runs its two loops over a `Session` and a `ChangeLog`.
- The mixin reconciliation runs its two loops over sets.

Each method is proved equal to a specification function: `Collect`, `Ascend`, `Forward` (built on the one-step `Advance`), `DeepGetOrCreate`, `Reconciled` and `ProcessCreate`. The properties are then proved about those functions.

## Model

| member | source | states |
|---|---|---|
| Descriptors.StripSuffix | src/main/java/org/apache/sling/servlets/post/impl/operations/AbstractCreateOperation.java:303-306 | When the path ends with the suffix, the key followed by the suffix gives back the path; otherwise the key is the path |
| Descriptors.GetOrCreateUpsert | src/main/java/org/apache/sling/servlets/post/impl/operations/AbstractCreateOperation.java:308-312 | The upsert keeps the map valid and makes the key present. It reuses an existing descriptor, leaving the map unchanged, or appends the key at the end of the order with a new descriptor. Every existing entry is kept |
| Descriptors.PropertyMap.constructor | src/main/java/org/apache/sling/servlets/post/impl/operations/AbstractCreateOperation.java:113 | The new map is empty |
| Descriptors.PropertyMap.GetOrCreateRequestProperty | src/main/java/org/apache/sling/servlets/post/impl/operations/AbstractCreateOperation.java:301-315 | Returns the suffix-stripped key, which is then present. The map's new value is the get-or-create upsert of the old one |
| Descriptors.PropertyMap.Update | src/main/java/org/apache/sling/servlets/post/impl/operations/AbstractCreateOperation.java:142-145 | A setter changes only the descriptor at its key and never the key order |
| DirectiveParser.Classify | src/main/java/org/apache/sling/servlets/post/impl/operations/AbstractCreateOperation.java:137-265 | The chosen directive's suffix ends the path, and no directive earlier in the if-chain matches. A path with no directive suffix is plain |
| DirectiveParser.FirstMatch | src/main/java/org/apache/sling/servlets/post/impl/operations/AbstractCreateOperation.java:137-265 | Run from its i-th test, the if-chain picks the first directive from there whose suffix ends the path, or plain when none does |
| DirectiveParser.RequestParameters | src/main/java/org/apache/sling/servlets/post/impl/operations/AbstractCreateOperation.java:175 | Null (None) exactly when no parameter has that name; otherwise the values of a parameter with that name |
| DirectiveParser.Skipped | src/main/java/org/apache/sling/servlets/post/impl/operations/AbstractCreateOperation.java:117-128 | A parameter is skipped exactly when its name starts with the reserved `:` prefix, is `_charset_`, or lacks the item-path prefix while that prefix is required. The three tests are those of the loop's three `continue`s |
| DirectiveParser.KeyOf | src/main/java/org/apache/sling/servlets/post/impl/operations/AbstractCreateOperation.java:131 | A parameter's key is its property path with the suffix of the directive the if-chain picks removed, as `getOrCreateRequestProperty` (lines 303-306) removes it |
| DirectiveParser.Apply | src/main/java/org/apache/sling/servlets/post/impl/operations/AbstractCreateOperation.java:142-270 | The setters of each if-chain branch applied to one descriptor: @TypeHint the first value, @DefaultValue all values, @ValueFrom the referenced parameter's values, @Delete the flag, @MoveFrom and @CopyFrom the repository source with its move flag, @IgnoreBlanks and @UseDefaultWhenMissing their flags, a plain name the values. The five single-value directives act only on exactly one value. The descriptor keeps its path |
| DirectiveParser.Upsert | src/main/java/org/apache/sling/servlets/post/impl/operations/AbstractCreateOperation.java:301-315 | Get or create the descriptor under the key, then run the directive's setters on it; no other descriptor changes |
| DirectiveParser.Step | src/main/java/org/apache/sling/servlets/post/impl/operations/AbstractCreateOperation.java:114-271 | One pass of the loop body: a skipped parameter leaves the map as it is; any other is classified by the if-chain and upserted under its stripped key |
| DirectiveParser.Collect | src/main/java/org/apache/sling/servlets/post/impl/operations/AbstractCreateOperation.java:113-273 | The map after the first n parameters, in request order, starting from the empty LinkedHashMap of line 113 |
| DirectiveParser.ToPropertyPath | src/main/java/org/apache/sling/servlets/post/impl/operations/AbstractCreateOperation.java:281-287 | An absolute name is kept as is; a relative one is normalised against the response path |
| DirectiveParser.CollectContent | src/main/java/org/apache/sling/servlets/post/impl/operations/AbstractCreateOperation.java:107-274 | Returns a fresh map whose value is `Collect` over all parameters in request order |
| DirectiveParser.CollectParameter | src/main/java/org/apache/sling/servlets/post/impl/operations/AbstractCreateOperation.java:114-271 | One pass of the loop body changes the map exactly as `Step` says: skip, classify, upsert under the stripped key, apply that directive's setter |
| DirectiveParser.ApplyDirective | src/main/java/org/apache/sling/servlets/post/impl/operations/AbstractCreateOperation.java:137-270 | Each branch of the if-chain looks up the descriptor under the path stripped of that branch's suffix and calls that directive's setter, changing the map as `Upsert` says |
| DirectiveParser.UpsertShape | src/main/java/org/apache/sling/servlets/post/impl/operations/AbstractCreateOperation.java:301-315 | An upsert adds at most its key, at the end of the order, keeps every other descriptor and the map valid, and applies the directive to the descriptor found or to a new one |
| DirectiveParser.StepGrows | src/main/java/org/apache/sling/servlets/post/impl/operations/AbstractCreateOperation.java:114-271 | One parameter keeps every key seen so far, in its order |
| DirectiveParser.StepNewKey | src/main/java/org/apache/sling/servlets/post/impl/operations/AbstractCreateOperation.java:117-131 | A key one parameter adds is that parameter's stripped property path, and the parameter was not skipped |
| DirectiveParser.SuffixesExclusive | src/main/java/org/apache/sling/servlets/post/impl/operations/AbstractCreateOperation.java:137-265 | A property path ends with at most one directive suffix, so the order of the if-chain never decides between two |
| DirectiveParser.DirectiveKey | src/main/java/org/apache/sling/servlets/post/impl/operations/AbstractCreateOperation.java:301-306 | A directive written on an absolute base path is recognised as that directive, and its descriptor is keyed by the base path |
| DirectiveParser.PlainKey | src/main/java/org/apache/sling/servlets/post/impl/operations/AbstractCreateOperation.java:267-270 | A plain absolute name is used unchanged as its own key |
| DirectiveParser.StepUpsert | src/main/java/org/apache/sling/servlets/post/impl/operations/AbstractCreateOperation.java:117-128 | A reserved, charset or unprefixed parameter changes nothing. Any other parameter adds at most its own key at the end of the order, keeps every other descriptor and the key order, and keeps the map valid |
| DirectiveParser.DirectiveEffect | src/main/java/org/apache/sling/servlets/post/impl/operations/AbstractCreateOperation.java:137-270 | Each directive sets only its own field of the base descriptor. @TypeHint sets the first value if there is one. @DefaultValue sets all the values. @Delete always sets delete. @ValueFrom, @MoveFrom, @CopyFrom, @IgnoreBlanks and @UseDefaultWhenMissing act only on exactly one value; @ValueFrom also needs the referenced parameter. A plain parameter sets the values to exactly the submitted ones |
| DirectiveParser.CollectValid | src/main/java/org/apache/sling/servlets/post/impl/operations/AbstractCreateOperation.java:113-273 | After any number of parameters the map is a valid insertion-ordered map |
| DirectiveParser.CollectOrderStable | src/main/java/org/apache/sling/servlets/post/impl/operations/AbstractCreateOperation.java:114-271 | Later parameters never drop or reorder keys collected earlier |
| DirectiveParser.CollectKeyOrigin | src/main/java/org/apache/sling/servlets/post/impl/operations/AbstractCreateOperation.java:117-131 | Every collected key is the stripped property path of some parameter that was not skipped |
| DirectiveParser.CollectKeyPresent | src/main/java/org/apache/sling/servlets/post/impl/operations/AbstractCreateOperation.java:114-271 | Every parameter that is not skipped leaves a descriptor under its key in the final map; with CollectKeyOrigin, the collected keys are exactly the keys of the parameters not skipped |
| Repository.Session.HasNode | src/main/java/org/apache/sling/servlets/post/impl/operations/AbstractCreateOperation.java:372 | Fails exactly on an empty name; otherwise true exactly when the child exists |
| Repository.Session.ItemExists | src/main/java/org/apache/sling/servlets/post/impl/operations/AbstractCreateOperation.java:58 | `session.itemExists(path)`: true exactly when the store holds a node at that absolute path. The same test decides the upward walk at line 345 |
| Repository.Session.AddNode | src/main/java/org/apache/sling/servlets/post/impl/operations/AbstractCreateOperation.java:380-390 | Under a version-locked parent it fails with a VersionException and changes nothing. Otherwise it adds the child with the given type and no mixins. It makes no mixin call |
| Repository.Session.AddMixin | src/main/java/org/apache/sling/servlets/post/impl/operations/AbstractCreateOperation.java:87 | Adds one mixin to one node and records one addMixin call for that node and mixin |
| Repository.Session.RemoveMixin | src/main/java/org/apache/sling/servlets/post/impl/operations/AbstractCreateOperation.java:81 | Removes one mixin from one node and records one removeMixin call for that node and mixin |
| Repository.CheckoutIfNecessary | src/main/java/org/apache/sling/servlets/post/impl/operations/AbstractCreateOperation.java:378 | Appends one Checkout record per node the configuration checks out, in order |
| NodeMaterializer.PrimaryType | src/main/java/org/apache/sling/servlets/post/impl/operations/AbstractCreateOperation.java:413-417 | The first value of `<path>/jcr:primaryType`, or none without that descriptor |
| NodeMaterializer.MixinTypes | src/main/java/org/apache/sling/servlets/post/impl/operations/AbstractCreateOperation.java:426-430 | The values of `<path>/jcr:mixinTypes`, or none when that descriptor is absent or has no values |
| NodeMaterializer.Ascend | src/main/java/org/apache/sling/servlets/post/impl/operations/AbstractCreateOperation.java:340-355 | The starting node is `/` or an existing segment prefix of the path, and no longer segment prefix exists |
| NodeMaterializer.StartingNodePath | src/main/java/org/apache/sling/servlets/post/impl/operations/AbstractCreateOperation.java:340-355 | The upward loop ends at `Ascend` |
| NodeMaterializer.StartFits | src/main/java/org/apache/sling/servlets/post/impl/operations/AbstractCreateOperation.java:361-364 | When the target is missing, the forward walk starts just after a slash of the path and stands on the starting node |
| NodeMaterializer.Advance | src/main/java/org/apache/sling/servlets/post/impl/operations/AbstractCreateOperation.java:365-402 | One iteration either stops, or goes on at a later index or at 0 for the last segment |
| NodeMaterializer.Forward | src/main/java/org/apache/sling/servlets/post/impl/operations/AbstractCreateOperation.java:365-402 | The forward loop as a recursion: from index 0 the walk returns the node it stands on; otherwise it takes one `Advance` step and stops or goes on from the step's index and child |
| NodeMaterializer.CreateChild | src/main/java/org/apache/sling/servlets/post/impl/operations/AbstractCreateOperation.java:375-399 | The else-branch of the forward loop: the primary type of the cumulative path (an error stops the walk), the parent's checkouts, then a VersionException under a locked parent, or the new child typed and mixed from its own path's descriptors with one Created record |
| NodeMaterializer.FirstSegment | src/main/java/org/apache/sling/servlets/post/impl/operations/AbstractCreateOperation.java:361-363 | The walk starts reading at index 1 after the root and just past the starting node's path after any other node |
| NodeMaterializer.DeepGetOrCreate | src/main/java/org/apache/sling/servlets/post/impl/operations/AbstractCreateOperation.java:329-404 | deepGetOrCreateNode as a function: a relative path fails with IllegalArgument; an existing path is returned unchanged; otherwise the forward walk from the deepest existing ancestor |
| NodeMaterializer.DeepGetOrCreateNode | src/main/java/org/apache/sling/servlets/post/impl/operations/AbstractCreateOperation.java:329-404 | The new store, log and result are those of `DeepGetOrCreate`; the version locks are untouched |
| NodeMaterializer.ForwardStep | src/main/java/org/apache/sling/servlets/post/impl/operations/AbstractCreateOperation.java:366-401 | One iteration of the forward loop does what `Advance` says |
| NodeMaterializer.CreateChildNode | src/main/java/org/apache/sling/servlets/post/impl/operations/AbstractCreateOperation.java:375-399 | The else-branch does what `CreateChild` says. That is: the type lookup, the parent checkout, addNode with the rethrown VersionException, the mixins, then the Created record |
| NodeMaterializer.AddMixins | src/main/java/org/apache/sling/servlets/post/impl/operations/AbstractCreateOperation.java:394-398 | The node gains exactly the listed mixins, through one addMixin call per listed entry, in list order |
| Repository.AddedCalls | src/main/java/org/apache/sling/servlets/post/impl/operations/AbstractCreateOperation.java:394-398 | One addMixin call per listed mixin, on the given node, in list order |
| WalkProperties.SegmentChild | src/main/java/org/apache/sling/servlets/post/impl/operations/AbstractCreateOperation.java:366-375 | The segment name has no slash, and the child's path is the cumulative `tmpPath`, a segment prefix of the target. The next iteration stands on that child |
| WalkProperties.AddChildClosed | src/main/java/org/apache/sling/servlets/post/impl/operations/AbstractCreateOperation.java:382-384 | Adding a named child under an existing node keeps every ancestor of every node present |
| WalkProperties.ForwardKeepsNodes | src/main/java/org/apache/sling/servlets/post/impl/operations/AbstractCreateOperation.java:365-402 | The walk never changes or removes an existing node and only appends to the log, also when it fails |
| WalkProperties.ForwardGrows | src/main/java/org/apache/sling/servlets/post/impl/operations/AbstractCreateOperation.java:375-398 | Every node the walk creates is a segment prefix of the target that ends after the walk's index. Its type and mixins come from the descriptors at its own path |
| WalkProperties.ForwardLogs | src/main/java/org/apache/sling/servlets/post/impl/operations/AbstractCreateOperation.java:399 | The Created records the walk appends name exactly the nodes it created |
| WalkProperties.ForwardLogsInOrder | src/main/java/org/apache/sling/servlets/post/impl/operations/AbstractCreateOperation.java:365-402 | The Created paths grow strictly longer, so parents come before children and each path appears once |
| WalkProperties.ForwardSucceeds | src/main/java/org/apache/sling/servlets/post/impl/operations/AbstractCreateOperation.java:401-403 | A successful walk returns the target path, which then exists |
| WalkProperties.ForwardClosed | src/main/java/org/apache/sling/servlets/post/impl/operations/AbstractCreateOperation.java:365-402 | A walk from an existing node keeps the store prefix-closed |
| WalkProperties.DeepGetOrCreateExisting | src/main/java/org/apache/sling/servlets/post/impl/operations/AbstractCreateOperation.java:356-359 | An existing absolute path is returned as is, with no change and no record |
| WalkProperties.DeepGetOrCreateKeeps | src/main/java/org/apache/sling/servlets/post/impl/operations/AbstractCreateOperation.java:336-338 | A relative path fails with IllegalArgument and changes nothing. In every case existing nodes are kept and the log only grows |
| WalkProperties.DeepGetOrCreateGrows | src/main/java/org/apache/sling/servlets/post/impl/operations/AbstractCreateOperation.java:360-403 | The created nodes are segment prefixes of the target below its deepest existing ancestor. Each is typed from `<its path>/jcr:primaryType`, with the default type when absent, and `<its path>/jcr:mixinTypes` |
| WalkProperties.DeepGetOrCreateLogs | src/main/java/org/apache/sling/servlets/post/impl/operations/AbstractCreateOperation.java:360-403 | The log gains exactly one Created record per created node, shallowest first |
| WalkProperties.DeepGetOrCreateSucceeds | src/main/java/org/apache/sling/servlets/post/impl/operations/AbstractCreateOperation.java:329-404 | In a prefix-closed store the store stays prefix-closed. On success the result is the target, and every prefix of the target exists |
| WalkProperties.DeepCreateLeaf | src/main/java/org/apache/sling/servlets/post/impl/operations/AbstractCreateOperation.java:329-404 | When only the leaf is missing (its parent exists, which is the root for a top-level path), at most the leaf is created, with exactly one Created record when it is |
| CreateOperation.ReconcileMixins | src/main/java/org/apache/sling/servlets/post/impl/operations/AbstractCreateOperation.java:71-94 | Removes exactly the mixins not requested and adds exactly the requested ones missing; mixins in both sets are left alone. The calls it makes on the session are exactly one removeMixin per removed mixin and then one addMixin per added one, all on that node, none repeated. The node ends with exactly the requested set. A Checkout record is appended only for an added mix:versionable under the check-in policy |
| CreateOperation.ClearMixins | src/main/java/org/apache/sling/servlets/post/impl/operations/AbstractCreateOperation.java:78-83 | The first loop: the mixins still to add are the requested ones the node lacks; it removes exactly the present ones not requested, with one removeMixin call each and no addMixin call |
| CreateOperation.AddNewMixins | src/main/java/org/apache/sling/servlets/post/impl/operations/AbstractCreateOperation.java:85-94 | The second loop: adds exactly the mixins left to add, with one addMixin call each and no removeMixin call, and logs the implicit checkout for mix:versionable under the check-in policy |
| CreateOperation.Reconciled | src/main/java/org/apache/sling/servlets/post/impl/operations/AbstractCreateOperation.java:71-94 | The mixin reconciliation as a function: the node's checkouts are logged, its mixins become exactly the requested set, and an added mix:versionable under the check-in policy logs one more Checkout |
| CreateOperation.ProcessCreate | src/main/java/org/apache/sling/servlets/post/impl/operations/AbstractCreateOperation.java:56-97 | processCreate as a function: a missing path is deep-created and makes a create request; an existing one has its mixins reconciled when the mixin descriptor has values, and is otherwise left alone |
| CreateOperation.ProcessCreateNode | src/main/java/org/apache/sling/servlets/post/impl/operations/AbstractCreateOperation.java:50-98 | The new store, log and create-request flag are those of `ProcessCreate` |
| CreateOperation.ReconciledIdempotent | src/main/java/org/apache/sling/servlets/post/impl/operations/AbstractCreateOperation.java:71-94 | Reconciling again with the same mixins changes no node and logs no second implicit checkout; the second pass logs only the node's checkouts again |
| CreateOperation.ReconciledOnlyMixins | src/main/java/org/apache/sling/servlets/post/impl/operations/AbstractCreateOperation.java:63-97 | Reconciliation adds or removes no node and changes no other node. It sets the node's mixins to exactly the requested set and logs no Created record |
| CreateOperation.ProcessCreateExisting | src/main/java/org/apache/sling/servlets/post/impl/operations/AbstractCreateOperation.java:63-97 | On an existing path it is not a create request and creates nothing. It touches at most that node's mixins, and changes nothing at all without a mixin descriptor with values |
| CreateOperation.ProcessCreateMissing | src/main/java/org/apache/sling/servlets/post/impl/operations/AbstractCreateOperation.java:58-61 | On a missing path the request is a create request. Existing nodes are kept and the store stays prefix-closed. On success the path and all its ancestors exist, and a relative path fails unchanged |

## Left out

- `ResourceUtil.normalize`, `requireItemPathPrefix`, `hasItemPathPrefix` and `checkoutIfNecessary` are not part of this model. They become parameters:
  - `Request.normalize` and `Request.hasItemPathPrefix` are functions supplied with the request;
  - `Request.requireItemPrefix` is a flag;
  - `VersioningConfiguration.checkoutIfNecessary` gives, for a node path, the nodes it checks out. Each of them gets one Checkout record.
- `normalize` returning null for paths that climb above the root is not modelled; the function always returns a path.
- The suffix literals and `RP_PREFIX` are defined in `SlingPostConstants`, which is not part of this model. The model uses Sling's published values (`@TypeHint` … `@UseDefaultWhenMissing`, and `:`). `DirectiveParser.SuffixesExclusive` and `DirectiveParser.DirectiveKey` depend on these literals: none is a suffix of another.
- `RequestProperty` keeps only the fields the parser's setters touch. Values are plain strings, not `RequestParameter` objects.
- JCR node types are not validated. Primary types are optional strings, and `None` stands for the default type `addNode(name)` picks.
- The `(Node)` cast on an item that is a property is not modelled. Every item in the store is a node, so `item.isNode()` always holds.
- Java's `HashSet` iteration order is not modelled. The mixin loops pick elements with `:|`, and their contracts hold for every order.
- `DirectiveParser.RequestParameters` returns the first parameter with a name. A request's parameter map has each name once, so this is the only one.
- `NodeMaterializer.PrimaryType`: indexing `[0]` into a `jcr:primaryType` descriptor with no values is modelled as the error `NoPrimaryTypeValue`. It propagates like the exception `getPrimaryType` would throw. The model assumes `getStringValues` then returns an empty array.
- `NodeMaterializer.PrimaryType`: reads the descriptor's submitted values raw. `RequestProperty.getStringValues` is not part of this model, so `ignoreBlanks`, `defaultValues` and `useDefaultWhenMissing` do not change the primary type a created node gets.
- `NodeMaterializer.MixinTypes`: reads the descriptor's submitted values raw, and `hasValues` is "at least one submitted value". `RequestProperty.getStringValues` and `hasValues` are not part of this model, so `ignoreBlanks`, `defaultValues` and `useDefaultWhenMissing` do not change the mixins a created or reconciled node gets. For example, `jcr:mixinTypes` values `["mix:a", ""]` with `@IgnoreBlanks` give the mixins `{"mix:a", ""}` here.
- An empty segment name (`/a//b`, or a trailing slash) makes the store refuse `hasNode` with `InvalidName`. JCR rejects empty names, so the walk stops there.
- A checkout does not unlock a version-locked parent in the model. `Session.versionLocked` stays fixed during the operation.
- The checkout stand-in keeps no checked-out state: `checkoutIfNecessary` logs its Checkout records every time it is called, so reconciling the same node twice logs its checkouts twice. `CreateOperation.ReconciledIdempotent` is therefore about the nodes and the implicit mix:versionable checkout only.
- `Session.mixinCalls` is a ghost record of the addMixin and removeMixin calls, kept so that contracts can say which calls an operation makes. The other session calls are not recorded; their effect on the store and the log is stated instead.
- The `HtmlResponse` and servlet plumbing are reduced to inputs: the response path and the parameters. `setCreateRequest(true)` is the `Ok(true)` result. Logging is left out.
