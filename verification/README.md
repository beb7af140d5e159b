# A verified model of the JavaScript Aggregator's combo loader core

The JavaScript Aggregator (jaggr) is a server that bundles AMD modules into
combined responses, paired with a browser-side extension of the Dojo loader.
This project models four pieces of it in Dafny and proves properties of them:

- **Cache-key generator combination** (`cache_key_generator.dfy`). A
  collection-based cache-key generator combines with another one. Equal
  generators, provisional generators, a generator with no collection and a
  superset each settle the result without building a new object. Otherwise a
  new generator of the receiver's class is built, holding the union of the two
  collections.
- **The combo loader extension** (`module_ids.dfy`, `request_split.dfy`,
  `pending_loads.dfy`, `combo_loader.dfy`). This covers:
  - which module ids the aggregator may serve;
  - which modules are i18n resources;
  - how `combo.add` collects modules;
  - how `sendRequest` splits a request into an i18n and a non-i18n part, and
    halves a request whose URL is too long;
  - how requests join the exclude list and the pending-load queue;
  - how `combo.reg`, `addBootLayerDeps` and `resetExcludeList` update the
    module-id map and the exclude list;
  - how `defineModules` releases responses in request order, whatever order
    they arrive in.

  The module-level variables of the extension are the fields of the class
  `ComboLoader.Loader`.
- **The export-module-name compiler pass** (`export_module_name.dfy`). Each
  anonymous `define(...)` call gets the module's name as a new first argument,
  at any depth of the syntax tree.
- **The module-id list decoder** of the loader-extension tests
  (`module_id_list.dfy`). It turns an encoded list of module ids back into
  module names by position. An encoder of the same format is modelled
  alongside it, and the two are proved to round-trip.

The URL a request would get is not built. It is a parameter: a function from
a module list and an exclude list to a length. The same holds for the loader's
`load` callback, which is modelled by a log of the requests it would receive.
The callbacks of `defineModules` are modelled by the sequence of callbacks it
runs. The user-supplied `isSupportedModule` and `isI18nResource` hooks are
function parameters.

Two points where the model follows the code rather than the design
description:

- A collection that contains the other's is returned only when it is
  strictly larger. Two generators of different classes with equal
  collections therefore give a new generator of the receiver's class.
- A settled generator without a collection means "every determinant". It is
  returned as the combination, whatever the other generator's collection.

## Model

| member | source | states |
|---|---|---|
| CacheKeyGenerator.Equals | jaggr-core/src/main/java/com/ibm/jaggr/core/cachekeygenerator/AbstractCollectionCacheKeyGenerator.java:98-109 | two generators are equal exactly when their variant, provisional flag and collection (or its absence) are equal |
| CacheKeyGenerator.Combine | jaggr-core/src/main/java/com/ibm/jaggr/core/cachekeygenerator/AbstractCollectionCacheKeyGenerator.java:56-93 | the combination throws the illegal-state exception exactly when the two differ and both are provisional; a new generator is built only from two settled collections, and it is settled, has the receiver's variant and holds their union |
| CacheKeyGenerator.Combined | jaggr-core/src/main/java/com/ibm/jaggr/core/cachekeygenerator/AbstractCollectionCacheKeyGenerator.java:56-93 | the generator returned fails exactly in the illegal state; a provisional generator survives a combination only with an equal one, and is then returned itself |
| CacheKeyGenerator.CombineEqual | jaggr-core/src/main/java/com/ibm/jaggr/core/cachekeygenerator/AbstractCollectionCacheKeyGenerator.java:56-58 | combining equal generators returns the receiver itself |
| CacheKeyGenerator.ProvisionalDiscarded | jaggr-core/src/main/java/com/ibm/jaggr/core/cachekeygenerator/AbstractCollectionCacheKeyGenerator.java:66-71 | when exactly one generator is provisional, the other one is returned |
| CacheKeyGenerator.NullAbsorbs | jaggr-core/src/main/java/com/ibm/jaggr/core/cachekeygenerator/AbstractCollectionCacheKeyGenerator.java:72-77 | between non-provisional generators, one without a collection is returned (the receiver first) |
| CacheKeyGenerator.StrictSupersetWins | jaggr-core/src/main/java/com/ibm/jaggr/core/cachekeygenerator/AbstractCollectionCacheKeyGenerator.java:78-86 | between settled generators, a collection that strictly contains the other's is returned unchanged, receiver or argument |
| CacheKeyGenerator.FreshIsStrictUnion | jaggr-core/src/main/java/com/ibm/jaggr/core/cachekeygenerator/AbstractCollectionCacheKeyGenerator.java:87-92 | a new generator is built only from two non-provisional collections; it holds their union with the receiver's variant, and for inputs of one variant that union is strictly larger than either |
| CacheKeyGenerator.SettledNormalForm | jaggr-core/src/main/java/com/ibm/jaggr/core/cachekeygenerator/AbstractCollectionCacheKeyGenerator.java:56-93 | the combination of non-provisional generators of one variant is, as a value, the non-provisional generator of that variant whose collection is the union, or none when either has none |
| CacheKeyGenerator.CombinedCovers | jaggr-core/src/main/java/com/ibm/jaggr/core/cachekeygenerator/AbstractCollectionCacheKeyGenerator.java:56-93 | every successful combination of non-provisional generators of one variant, both holding a collection, covers both inputs' collections |
| CacheKeyGenerator.CombineCommutes | jaggr-core/src/main/java/com/ibm/jaggr/core/cachekeygenerator/AbstractCollectionCacheKeyGenerator.java:56-93 | for one variant, combining in either order gives equal values, the illegal state included |
| CacheKeyGenerator.CombineAssociates | jaggr-core/src/main/java/com/ibm/jaggr/core/cachekeygenerator/AbstractCollectionCacheKeyGenerator.java:56-93 | for one variant, combining three generators in either grouping gives equal values whenever both inner combinations succeed |
| ModuleIds.Mids | jaggr-core/WebContent/dojo/_loaderExt.js:154-156 | each module's id is its name, prefixed by its plugin and "!" when it has one, position by position |
| ModuleIds.HasSchemeIff | jaggr-core/WebContent/dojo/_loaderExt.js:243 | the scanning test for a "scheme://" part agrees with the existential definition at every position |
| ModuleIds.IsNotAbsoluteOrServerRelative | jaggr-core/WebContent/dojo/_loaderExt.js:242-244 | an id is relative exactly when it does not start with "/" and contains no "scheme://" part |
| ModuleIds.IsSupportedModule | jaggr-core/WebContent/dojo/_loaderExt.js:248-251 | absolute and server-relative ids are never supported; otherwise the user's hook decides |
| ModuleIds.HasNlsSegmentIff | jaggr-core/WebContent/dojo/_loaderExt.js:295 | the scanning test for an "/nls/" segment agrees with the existential definition |
| ModuleIds.DefaultIsI18nResource | jaggr-core/WebContent/dojo/_loaderExt.js:289-297 | with the combo/i18n plugin, exactly its modules are i18n; without it, exactly unprefixed modules with an "/nls/" segment |
| RequestSplit.Part | jaggr-core/WebContent/dojo/_loaderExt.js:138-143 | each part of the partition loop holds only modules of its own kind, and is no longer than the list |
| RequestSplit.PartitionExact | jaggr-core/WebContent/dojo/_loaderExt.js:138-143 | the i18n and non-i18n parts together hold every module exactly once, and each part holds only its own kind |
| RequestSplit.AsWrittenHalvingMakesNoProgress | jaggr-core/WebContent/dojo/_loaderExt.js:172-178 | as written, a too-long request of fewer than two modules is "halved" into an empty part and the whole list |
| RequestSplit.DecideAsWritten | jaggr-core/WebContent/dojo/_loaderExt.js:137-178 | as written, a mixed list under the i18n split is split into exactly its non-i18n and i18n parts, and any other list whose URL is too long is split into halves that concatenate back to it, whatever its size |
| RequestSplit.Decide | jaggr-core/WebContent/dojo/_loaderExt.js:138-193 | (corrected, see Findings) a list is split by kind exactly when the i18n split applies and it holds both kinds, into its two exact parts; it is halved exactly when otherwise its URL is too long and it holds two or more modules, into halves that concatenate back to it; every part is non-empty and strictly shorter |
| RequestSplit.Plan | jaggr-core/WebContent/dojo/_loaderExt.js:133-194 | at least one request is sent, and for a non-empty list no more requests than modules, none of them empty |
| RequestSplit.FlattenAppend | jaggr-core/WebContent/dojo/_loaderExt.js:148-149 | the modules of two plans in sequence are the modules of each, in sequence |
| RequestSplit.PlanKeepsModules | jaggr-core/WebContent/dojo/_loaderExt.js:133-194 | the requests sent for a module list hold exactly its modules, each as often as in the list |
| RequestSplit.PlanKeepsOrder | jaggr-core/WebContent/dojo/_loaderExt.js:172-178 | for a list of one kind, or without the i18n split, the requests hold the module list in its original order |
| RequestSplit.PlanOrder | jaggr-core/WebContent/dojo/_loaderExt.js:133-194 | the requests, concatenated, are a mixed list's non-i18n modules followed by its i18n modules, each in list order, and any other list in its own order |
| RequestSplit.Unmixed | jaggr-core/WebContent/dojo/_loaderExt.js:144 | when one part is empty, the whole list is of one kind |
| RequestSplit.PlanRequestsFit | jaggr-core/WebContent/dojo/_loaderExt.js:133-194 | every request sent fits the URL limit or holds fewer than two modules, and is unmixed when the i18n split applies |
| PendingLoads.IndexOf | jaggr-core/WebContent/dojo/_loaderExt.js:334-350 | the first queue entry whose ids equal the response's, or -1 when there is none |
| PendingLoads.Drain | jaggr-core/WebContent/dojo/_loaderExt.js:368-385 | the leading entries whose responses came are removed, their callbacks collected in order and their ids concatenated; the new head is still waiting |
| PendingLoads.Respond | jaggr-core/WebContent/dojo/_loaderExt.js:331-395 | a response never lengthens the queue; it runs nothing exactly when it matches a later entry, otherwise its own callback runs first; an unexpected response leaves the queue alone |
| PendingLoads.RespondUnexpected | jaggr-core/WebContent/dojo/_loaderExt.js:351-360 | a response no entry expects runs its own callback at once and leaves the queue alone |
| PendingLoads.RespondHead | jaggr-core/WebContent/dojo/_loaderExt.js:361-386 | a response for the head runs its callback, then those of the adjacent arrived entries, and removes them all |
| PendingLoads.RespondLater | jaggr-core/WebContent/dojo/_loaderExt.js:387-394 | a response for a later entry runs nothing and parks its callback in that entry only |
| PendingLoads.RespondKeepsHeadPending | jaggr-core/WebContent/dojo/_loaderExt.js:331-395 | after any response the head entry holds no parked callback |
| PendingLoads.InOrderRelease | jaggr-core/WebContent/dojo/_loaderExt.js:331-395 | when each of n requests, with distinct id lists, gets one response, in any order, all callbacks run in request order, the modules are defined in request order and the queue ends empty |
| ComboLoader.PlanStep | jaggr-core/WebContent/dojo/_loaderExt.js:144-193 | a split request's plan is its first part's plan followed by its second's; an unsplit one is itself |
| ComboLoader.MixedStep | jaggr-core/WebContent/dojo/_loaderExt.js:143-149 | a mixed list is split into its non-i18n and i18n parts, which together are as long as it, and its plan is the first part's plan followed by the second's |
| ComboLoader.HalvesStep | jaggr-core/WebContent/dojo/_loaderExt.js:171-178 | a list of two or more modules that is not mixed and whose URL is too long is split into its halves, and its plan is the first half's plan followed by the second's |
| ComboLoader.PendingIsEnqueued | jaggr-core/WebContent/dojo/_loaderExt.js:184 | the entries queued for a plan are one waiting entry per request, holding that request's module ids, in request order |
| ComboLoader.PlanReleasesInOrder | jaggr-core/WebContent/dojo/_loaderExt.js:179-395 | the queue built for a plan, when each request (with distinct id lists) gets one response in any order, runs the callbacks and defines the modules in the order the requests were sent, and ends empty |
| ComboLoader.ArraysEqual | jaggr-core/WebContent/dojo/_loaderExt.js:334-340 | the element loop answers exactly whether the two id lists are equal |
| ComboLoader.FindPending | jaggr-core/WebContent/dojo/_loaderExt.js:342-350 | the search loop finds the first matching entry, or -1 |
| ComboLoader.Partition | jaggr-core/WebContent/dojo/_loaderExt.js:139-143 | the loop builds exactly the i18n and non-i18n parts, in order |
| ComboLoader.ModuleIdsOf | jaggr-core/WebContent/dojo/_loaderExt.js:154-156 | the loop builds the module ids of the list |
| ComboLoader.DrainLoop | jaggr-core/WebContent/dojo/_loaderExt.js:368-385 | the gathering loop computes the drained queue, the callbacks run and the ids defined |
| ComboLoader.Loader.constructor | jaggr-core/WebContent/dojo/_loaderExt.js:26-62 | the loader starts with nothing collected, an empty id map, exclude list, queue and request log |
| ComboLoader.Loader.Add | jaggr-core/WebContent/dojo/_loaderExt.js:224-240 | cached or unsupported modules are refused and change nothing; otherwise a new module with no prefix or a known plugin is recorded once, and the answer is whether the name is recorded |
| ComboLoader.Loader.RegHash | jaggr-core/WebContent/dojo/_loaderExt.js:257-266 | a hash can be set only on an empty id map, which then holds just the hash; otherwise the error leaves the map unchanged |
| ComboLoader.Loader.AddBootLayerDeps | jaggr-core/WebContent/dojo/_loaderExt.js:299-301 | the modules are appended to the exclude list |
| ComboLoader.Loader.ResetExcludeList | jaggr-core/WebContent/dojo/_loaderExt.js:303-306 | the exclude list becomes empty |
| ComboLoader.Loader.Dispatch | jaggr-core/WebContent/dojo/_loaderExt.js:179-193 | an unsplit request is sent; with server-expanded layers the collected modules join the exclude list and the request is queued; the collected modules are cleared only when they were the list sent |
| ComboLoader.Loader.SendParts | jaggr-core/WebContent/dojo/_loaderExt.js:146-149 | the two parts of a split are sent in order, giving their plans' requests and queue entries, with the exclude list unchanged |
| ComboLoader.Loader.SendRequest | jaggr-core/WebContent/dojo/_loaderExt.js:133-194 | (corrected, see Findings) the requests sent are the plan of the list (the given one, else the collected one), queued exactly with server-expanded layers; the exclude list and collected modules change as the list is split or sent |
| ComboLoader.Loader.SendMixed | jaggr-core/WebContent/dojo/_loaderExt.js:138-151 | a list holding both i18n and other modules is sent as its two parts, non-i18n first, giving exactly the plan's requests, with the queue and exclude list unchanged |
| ComboLoader.Loader.SendHalves | jaggr-core/WebContent/dojo/_loaderExt.js:172-178 | (corrected, see Findings) a list too long for one URL is sent as its two halves, in order, giving exactly the plan's requests and queue entries; the exclude list is unchanged, because the collected modules are cleared before the halves are sent, so with server-expanded layers the halves' modules never join it |
| ComboLoader.Loader.SendUnmixed | jaggr-core/WebContent/dojo/_loaderExt.js:154-193 | (corrected, see Findings) a list the i18n split leaves whole is halved when too long and of two or more modules, else sent, with the same effects as the plan |
| ComboLoader.Loader.DefineModules | jaggr-core/WebContent/dojo/_loaderExt.js:331-395 | the new queue, callbacks run and ids defined are those of the response semantics, and the queue invariant is kept |
| ExportModuleName.Rewrite | jaggr-core/src/main/java/com/ibm/jaggr/core/impl/modulebuilder/javascript/ExportModuleNameCompilerPass.java:51-80 | a node keeps its kind and text; an anonymous define call gains the callee's source name as a string argument right after the callee; no call in the result is an anonymous define |
| ExportModuleName.Process | jaggr-core/src/main/java/com/ibm/jaggr/core/impl/modulebuilder/javascript/ExportModuleNameCompilerPass.java:38-40 | the root itself is untouched, every child is rewritten, and no anonymous define is left in any child |
| ExportModuleName.RewriteNamesAll | jaggr-core/src/main/java/com/ibm/jaggr/core/impl/modulebuilder/javascript/ExportModuleNameCompilerPass.java:50-81 | after the pass no anonymous define call is left at any depth |
| ExportModuleName.RewriteFixesNamed | jaggr-core/src/main/java/com/ibm/jaggr/core/impl/modulebuilder/javascript/ExportModuleNameCompilerPass.java:55-58 | a tree without anonymous define calls is left unchanged |
| ExportModuleName.ProcessIdempotent | jaggr-core/src/main/java/com/ibm/jaggr/core/impl/modulebuilder/javascript/ExportModuleNameCompilerPass.java:38-40 | running the pass twice gives the same tree as running it once |
| ExportModuleName.RewriteSize | jaggr-core/src/main/java/com/ibm/jaggr/core/impl/modulebuilder/javascript/ExportModuleNameCompilerPass.java:73 | the pass adds exactly one node per anonymous define call |
| ExportModuleName.ProcessChildren | jaggr-core/src/main/java/com/ibm/jaggr/core/impl/modulebuilder/javascript/ExportModuleNameCompilerPass.java:50-81 | the child loop with its recursive calls computes the rewritten tree |
| ExportModuleName.Named | jaggr-core/src/main/java/com/ibm/jaggr/core/impl/modulebuilder/javascript/ExportModuleNameCompilerPass.java:59-73 | the define call keeps its kind and text; the module name is inserted right after the callee and the arguments follow it unchanged |
| ExportModuleName.VisitChild | jaggr-core/src/main/java/com/ibm/jaggr/core/impl/modulebuilder/javascript/ExportModuleNameCompilerPass.java:52-79 | one turn of the child loop, naming the child when it is an anonymous define and then processing its children, computes the rewritten child |
| ModuleIdList.Inverse | jaggr-core/src/test/javascript/testLoaderExtCommon.js:19-24 | the inverted map has exactly the ids as keys |
| ModuleIdList.Entry | jaggr-core/src/test/javascript/testLoaderExtCommon.js:32-45 | a plain entry takes one number and gives the name of its id, or "undefined"; an escaped entry takes three numbers (its names are stated by EntryRoundTrip) |
| ModuleIdList.EntryRoundTrip | jaggr-core/src/test/javascript/testLoaderExtCommon.js:32-45 | the entry read where a module's encoding sits gives that module's name, plugin-prefixed when it has a plugin, and the index after the encoding |
| ModuleIdList.InvertIdMap | jaggr-core/src/test/javascript/testLoaderExtCommon.js:19-24 | the first loop builds exactly the inverse id map |
| ModuleIdList.ReadEntry | jaggr-core/src/test/javascript/testLoaderExtCommon.js:32-42 | the body of the inner loop reads exactly the entry at the index and returns the name and the index after it |
| ModuleIdList.DecodeGroup | jaggr-core/src/test/javascript/testLoaderExtCommon.js:31-46 | the inner loop applies the writes of the group's entries in order, and keeps the expectation flag equal to "no slot written twice so far" |
| ModuleIdList.DecodeModuleIdList | jaggr-core/src/test/javascript/testLoaderExtCommon.js:18-50 | (corrected, see Findings) the result is the slot writes of the list applied in order, and the not-yet-defined expectation holds exactly when no slot is written twice |
| ModuleIdList.InverseIdOf | jaggr-core/src/test/javascript/testLoaderExtCommon.js:19-24 | with distinct non-zero ids, inverting the map gives back each name's id |
| ModuleIdList.DecodeEncode | jaggr-core/src/test/javascript/testLoaderExtCommon.js:110-125 | decoding an encoded list gives back exactly the position and name of every encoded module |
| ModuleIdList.DecodeEncodeResult | jaggr-core/src/test/javascript/testLoaderExtCommon.js:122-123 | with non-overlapping groups, the decoded result holds every encoded module at its slot and nothing else, and every expectation holds |
| ModuleIdList.AsWrittenLosesEscapedModule | jaggr-core/src/test/javascript/testLoaderExtCommon.js:39 | as written, an escaped entry decodes to the plugin followed by "![object Object]", not to the module |

## Left out

- CacheKeyGenerator.Combine: the `ClassCastException` for a generator that is not collection-based is not modelled; both arguments have one type.
- CacheKeyGenerator.CombineCommutes: stated only for generators of one variant. The Java code builds the new generator with the receiver's class, so different variants do not commute.
- `hashCode`, `toString` and serialization of the cache-key generator are not modelled; collections are modelled as sets.
- ComboLoader.Loader.SendRequest: URL assembly is not modelled. This covers `addModulesToUrl`, URL processors, the has-argument, cache busting, the locale, the feature cookie and base64 encoding. Their effect on splitting is captured only through the URL-length parameter. That length function is fixed when the loader is built, although in the source the URL also depends on the has-argument, computed at each `combo.done`, and on the module-id map, which `combo.reg` can change.
- The default URL limit depends on the browser's user agent and is not modelled; the limit is a parameter.
- Trace and console logging are not modelled. Neither is the rejection message of `combo.add`.
- The `load` callback and the `defineModules` callbacks are not run. They are modelled as the request log and as the sequence of callbacks run.
- `combo.reg` with an id array (`registerModuleNameIds`) is not modelled, nor is the numbering of module ids. `getIdMap`, `decodeUrl` and `isDefined` are not modelled either.
- The `combo.done` wrapper and its loader configuration are not modelled. This covers query-argument parsing, feature detection, the plugin and alias setup, and the timer-driven and user-config dependencies.
- ExportModuleName.ProcessChildren: the tree is rebuilt, not changed in place. The text edit of the original source (lines 60-72 of the pass) is not modelled. Neither is the null pointer error for a call without a source name.
- ModuleIdList.DecodeModuleIdList:
  - The result array is modelled as a map from slot to name, so JavaScript array length and holes are not modelled.
  - The id map holds only numeric ids, so a hash entry in it is not modelled.
  - The expectations at lines 37 and 43 of the test file compare against `null`, which an undefined name never equals, so they are not modelled.
- The test suites around the decoder and the Dojo loader itself are not modelled.

## Findings

| source | as written | input that shows it | evidently intended | confidence | as-written member | corrected member |
|---|---|---|---|---|---|---|
| jaggr-core/WebContent/dojo/_loaderExt.js:172-178 | a too-long request is halved with `slice(0, length/2)` | one module whose URL alone exceeds the limit: the first half is empty and the second is the same one-module list, so `sendRequest` recurses forever | send a request of fewer than two modules unsplit | not executed | RequestSplit.AsWrittenHalvingMakesNoProgress | RequestSplit.Decide |
| jaggr-core/src/test/javascript/testLoaderExtCommon.js:39 | `moduleName = id !== 0 ? idModuleMap : ""` | id map {"p": 7, "m": 3} and encoded entry [0, 7, 3] decode to "p![object Object]" | `idModuleMap[id]`, giving "p!m" | not executed | ModuleIdList.AsWrittenLosesEscapedModule | ModuleIdList.DecodeEncode |
