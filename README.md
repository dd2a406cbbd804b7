# Nexo platform core, modelled in Dafny

Nexo is a micro-frontend platform. A host shell keeps a registry of apps: it
validates each app's manifest, tracks its status (pending, loading, loaded, error),
stores its loader, and merges the menus, routes and permissions of the loaded apps.
A permission manager holds the signed-in user and filters menus and routes for them.
A server scans a modules directory and derives menus and routes from each module's
page tree. It also serves the modules' built files.

Around these sit small helpers, each modelled here:
- the client manifest loader;
- the `defineApp` helper and the app builder;
- the standalone helpers: menus from pages, routes from pages, and the breadcrumb;
- the React runtime bootstrap;
- the admin shell's bootstrap.

## Project layout

One Dafny module per source file of the core, plus shared modules:

| file | module | models |
|---|---|---|
| `wrappers.dfy` | `Wrappers` | `Option`, `Result` and `Outcome` (a settled promise: pass, or fail with an error) |
| `strings.dfy` | `Strings` | prefix/suffix tests, first-occurrence replace, collapsing runs of `/`, splitting, ASCII case and character replacement |
| `seqs.dfy` | `Seqs` | distinct sequences, insert-or-keep-position (`Map.set` order), flatten, filter and subsequence, last-write-wins assignment into a map |
| `sorting.dfy` | `Sorting` | the stable sort JavaScript's `Array.prototype.sort` performs, proved to be the unique stable sort |
| `app_types.dfy` | `AppTypes` | the manifest, page, menu, route, user and registered-app records of `packages/core/src/types/app.ts` |
| `app_registry.dfy` | `Registry` | `AppRegistry` as a class over an app map, a key-order sequence, a loader map, listener lists and an event/delivery log |
| `permission_manager.dfy` | `Permissions` | the permission checks, `filterMenus`/`filterRoutes` and the `PermissionManager` class |
| `module_loader.dfy` | `ModuleScanner` | the server's `ModuleLoader`: path joining, menu and route extraction, dist-file checks and the module table |
| `static_server.dfy` | `StaticServer` | the server's file serving: content type, file paths, proxy URL, dev-proxy gate, legacy route |
| `app_loader.dfy` | `AppLoading` | `extractAppId`, `resolveIcon`, `transformManifest`, `createAppLoader`, `registerApps` |
| `define_app.dfy` | `AppBuilding` | `defineApp` and the `createAppBuilder` builder as a class |
| `standalone_provider.dfy` | `StandaloneMenus` | `transformPagesToMenus` and the sidebar state |
| `standalone_app.dfy` | `StandaloneRouting` | `generateRoutes`/`processPages` and `createStandaloneApp`'s configuration |
| `standalone_layout.dfy` | `StandaloneBreadcrumb` | `findMenuItem` and `generateBreadcrumb` |
| `runtime_bootstrap.dfy` | `RuntimeBootstrap` | the runtime's `generateRoutes`, id sanitising, mode choice, the mount/unmount root, the route-change guard |
| `admin_bootstrap.dfy` | `AdminBootstrap` | icon-name conversion, `transformMenus`, per-module menu selection and the registration loop |

Modelling conventions:
- **Asynchronous calls become inputs.** A loader, `setup` or `teardown` is the
  outcome it settles with. The listing and files of the modules directory are a
  `FileSystem` value. Whether a dev server answers, and which files exist, form an
  `Environment`.
- **`Map` iteration order is kept.** A `seq` of keys sits beside each `map`. A new key
  goes last; overwriting a key keeps its position.
- **Listeners are values.** A listener is `Listener(id, throws)`. Every call is
  recorded in a delivery log, so "a throwing listener does not stop the others" is a
  statement about that log.
- **Icon elements are values.** React elements appear as `Icon` values: a resolved
  component name, or a raw icon name.

## Model

| member | source | states |
|---|---|---|
| `Registry.Notify` | packages/core/src/registry/app-registry.ts:330-338 | emitting calls every listener of the event type once, in subscription order, recording whether each call threw |
| `Registry.NotifyAllAppend` | packages/core/src/registry/app-registry.ts:330-338 | the deliveries of two event runs are the deliveries of the first followed by the second's |
| `Registry.NotifyReachesAll` | packages/core/src/registry/app-registry.ts:331-337 | a throwing listener is still called, and every later listener is called too |
| `Registry.LoggedTrans` | packages/core/src/registry/app-registry.ts:330-338 | two consecutive logged emissions are one logged emission of both event lists |
| `Registry.Merge` | packages/core/src/registry/app-registry.ts:54-56 | every key the partial configuration gives wins; every other key keeps its value |
| `Registry.MergeIdempotent` | packages/core/src/registry/app-registry.ts:54-56 | configuring twice with the same keys equals configuring once |
| `Registry.MenuIdsAppend` | packages/core/src/registry/app-registry.ts:362-372 | the validator's pre-order id walk over two forests is the walk over the first, then the second |
| `Registry.MenuIdsAt` | packages/core/src/registry/app-registry.ts:363-370 | item i's subtree sits, in the walk, right after the items before it and right before the items after it |
| `Registry.ThreadAppend` | packages/core/src/registry/app-registry.ts:361-373 | threading the shared id set through two walks equals threading it through the first and continuing with the set it built |
| `Registry.ThreadSuccess` | packages/core/src/registry/app-registry.ts:361-373 | the shared-set walk succeeds exactly when no id repeats and none was seen before; the final set is the union of both |
| `Registry.ThreadFailure` | packages/core/src/registry/app-registry.ts:364-366 | the reported duplicate occurs in the walk |
| `Registry.ValidateManifestPass` | packages/core/src/registry/app-registry.ts:343-374 | a manifest passes exactly when id, name and version are non-empty, menus and routes are present, and no menu id repeats anywhere in the tree |
| `Registry.ValidateManifestDuplicate` | packages/core/src/registry/app-registry.ts:360-373 | a duplicate-id rejection names the first repeated id of the pre-order walk |
| `Registry.AfterLoad` | packages/core/src/registry/app-registry.ts:144-171 | after a failed load or registration the id's entry is in error with that error; after success the registered entry is stored; other ids are untouched |
| `Registry.AttemptLogFail` | packages/core/src/registry/app-registry.ts:123-138 | the update events are emitted only on success, so a failed load's `try` block logs the same whatever the table |
| `Registry.AttemptLogQuiet` | packages/core/src/registry/app-registry.ts:123-138 | `register` emits no status change to loading and no app:loaded |
| `Registry.LoadLogSpec` | packages/core/src/registry/app-registry.ts:151-170 | a load changes exactly one status to loading, its own id's, whatever the loader and manifest do |
| `Registry.LoadLogLoaded` | packages/core/src/registry/app-registry.ts:157-161 | app:loaded for the id is emitted exactly when the load resolves |
| `Registry.AfterLoadSettles` | packages/core/src/registry/app-registry.ts:144-171 | a load leaves its id loading, loaded or in error, and makes no entry pending |
| `Registry.LoadAllSettles` | packages/core/src/registry/app-registry.ts:176-190 | after the loop every tried id that has a loader has left pending, and an entry still pending is unchanged |
| `Registry.LoadAllPendingSettles` | packages/core/src/registry/app-registry.ts:176-190 | every entry pending at the start that has a loader is no longer pending at the end; no other entry is made pending |
| `Registry.TriedStep` | packages/core/src/registry/app-registry.ts:184-188 | one more turn of the loop extends the table fold, the key-order fold and the loading ids by that turn |
| `Registry.Registered` | packages/core/src/registry/app-registry.ts:157-160 | the `try` block of `loadAndRegister` only adds or overwrites entries |
| `Registry.SortEachChildren` | packages/core/src/registry/app-registry.ts:380-384 | the `map` step keeps the length, and each item has its children sorted |
| `Registry.SortMenusDeepSorted` | packages/core/src/registry/app-registry.ts:379-386 | `sortMenus` output is sorted by `order ?? 100` at every level of the tree |
| `Registry.SortChildrenDeepSorted` | packages/core/src/registry/app-registry.ts:381-384 | one item with its children sorted is sorted at every level below it |
| `Registry.SortMenusSpec` | packages/core/src/registry/app-registry.ts:379-386 | `sortMenus` at one level is a permutation of its input, sorted by `order ?? 100`, with equal keys kept in input order |
| `Registry.InOrder` | packages/core/src/registry/app-registry.ts:226-228 | the table's entries listed in key order |
| `Registry.AllRoutesMember` | packages/core/src/registry/app-registry.ts:258-268 | a route is listed exactly when some active, loaded entry declares it |
| `Registry.AllPermissionsMember` | packages/core/src/registry/app-registry.ts:273-283 | a permission is listed exactly when some loaded entry, active or not, declares it |
| `Registry.AllMenusSpec` | packages/core/src/registry/app-registry.ts:242-253 | the merged menus are a permutation of the active, loaded entries' menus (children sorted), sorted at every level |
| `Registry.SortEachChildrenAppend` | packages/core/src/registry/app-registry.ts:380-384 | sorting children commutes with concatenation |
| `Registry.PendingEntriesMember` | packages/core/src/registry/app-registry.ts:177-178 | an id is among the pending entries exactly when it is a key whose status is pending |
| `Registry.PendingOrderSpec` | packages/core/src/registry/app-registry.ts:176-190 | `loadAllPending` tries exactly the entries pending at its start, in non-decreasing `priority ?? 100` |
| `Registry.LoaderAppsSpec` | packages/core/src/registry/app-registry.ts:68-95 | after registering loaders an existing entry is untouched, and a new id gets the pending placeholder |
| `Registry.LoaderTableSpec` | packages/core/src/registry/app-registry.ts:68-95 | every given loader is stored; the last one given for an id wins |
| `Registry.AppRegistry.constructor` | packages/core/src/registry/app-registry.ts:29-39 | a new registry has empty tables, no listeners and the default platform configuration |
| `Registry.AppRegistry.Configure` | packages/core/src/registry/app-registry.ts:54-56 | the configuration becomes the merge of the old one with the given keys |
| `Registry.AppRegistry.GetConfig` | packages/core/src/registry/app-registry.ts:61-63 | returns the current configuration |
| `Registry.AppRegistry.Emit` | packages/core/src/registry/app-registry.ts:330-338 | the event is logged and every listener of its type is called, throwing ones included |
| `Registry.AppRegistry.EmitCatalog` | packages/core/src/registry/app-registry.ts:136-138 | logs menu:updated, route:updated and permission:updated with the current views, in that order |
| `Registry.AppRegistry.EmitChanges` | packages/core/src/registry/app-registry.ts:294-295 | logs menu:updated and route:updated with the current views |
| `Registry.AppRegistry.GetAllMenus` | packages/core/src/registry/app-registry.ts:242-253 | the loop equals the merged-and-sorted menus of the entries in key order |
| `Registry.AppRegistry.GetAllRoutes` | packages/core/src/registry/app-registry.ts:258-268 | the loop equals the concatenated routes of the active, loaded entries in key order |
| `Registry.AppRegistry.GetAllPermissions` | packages/core/src/registry/app-registry.ts:273-283 | the loop equals the concatenated permissions of the loaded entries in key order |
| `Registry.AppRegistry.GetApp` | packages/core/src/registry/app-registry.ts:219-221 | the entry of the id, or none |
| `Registry.AppRegistry.GetAllApps` | packages/core/src/registry/app-registry.ts:226-228 | the entries in key order |
| `Registry.AppRegistry.GetLoadedApps` | packages/core/src/registry/app-registry.ts:233-237 | the loop equals the entries in key order filtered to status loaded; so exactly the loaded entries, in key order |
| `Registry.AppRegistry.RegisterLoader` | packages/core/src/registry/app-registry.ts:68-86 | the loader is always stored; a pending, inactive placeholder is added only for an unknown id, and an existing entry stays as it was |
| `Registry.AppRegistry.RegisterLoaders` | packages/core/src/registry/app-registry.ts:91-95 | the loader table, app table and key order after `registerLoader` for each entry in turn |
| `Registry.AppRegistry.Register` | packages/core/src/registry/app-registry.ts:100-139 | an invalid manifest changes nothing; otherwise the entry is stored (overwriting, keeping its position); a rejecting setup leaves it in error and logs app:error; success logs the five events in order |
| `Registry.AppRegistry.Store` | packages/core/src/registry/app-registry.ts:120 | `apps.set`: the entry is stored and the key order gains the id only if it is new |
| `Registry.AppRegistry.Validate` | packages/core/src/registry/app-registry.ts:343-374 | the checks run in source order and settle with the validation outcome |
| `Registry.AppRegistry.ValidateMenuIds` | packages/core/src/registry/app-registry.ts:362-372 | the recursive closure threads one shared set through the pre-order id walk, failing at the first repeat |
| `Registry.AppRegistry.LoadAndRegister` | packages/core/src/registry/app-registry.ts:144-171 | without a loader it fails and changes nothing; otherwise the events and listener calls are `LoadLog`: status loading, exactly what `register` emits, then app:loaded on success or status error and app:error with the rejected error; the outcome is `LoadOutcome` and the table ends as `AfterLoad` says |
| `Registry.AppRegistry.LoadWith` | packages/core/src/registry/app-registry.ts:151-170 | once the loader is found: the same outcome, table and log as `loadAndRegister` |
| `Registry.AppRegistry.MarkLoading` | packages/core/src/registry/app-registry.ts:151-155 | the entry becomes loading and one status change is emitted |
| `Registry.AppRegistry.Settle` | packages/core/src/registry/app-registry.ts:161-169 | app:loaded when the `try` block passed, leaving the table; otherwise the entry is in error with the caught error and the two `catch` events follow |
| `Registry.AppRegistry.MarkFailed` | packages/core/src/registry/app-registry.ts:163-168 | the entry is in error with the error, then app:status-changed and app:error are emitted |
| `Registry.AppRegistry.Attempt` | packages/core/src/registry/app-registry.ts:157-161 | the `try` block: the loader's outcome, then `register`'s, with the table as registering leaves it; the events and listener calls are `AttemptLog`: none when the loader rejects or the manifest fails validation, app:error when setup rejects, the five success events otherwise |
| `Registry.AppRegistry.LoadAllPending` | packages/core/src/registry/app-registry.ts:176-190 | the table and key order are those of `loadAndRegister` applied in turn to the entries pending at the start, by non-decreasing priority (`LoadAll` over `PendingOrder`); a failure does not escape and does not stop later ones; the log is exactly `LoadAllLog`, each tried id's `loadAndRegister` events with the update events of the table it leaves, and its status changes to loading are the tried ids that have a loader, in that order |
| `Registry.LoadAllCovers` | packages/core/src/registry/app-registry.ts:176-190 | while the pending entries are tried, every listed key keeps an entry and so does every id with a stored loader |
| `Registry.LoadAllLogLoading` | packages/core/src/registry/app-registry.ts:176-190 | the ids `loadAllPending`'s log sets loading are, in order, the tried ids that have a stored loader |
| `Registry.AppRegistry.LoadCaught` | packages/core/src/registry/app-registry.ts:183-188 | one turn: with a stored loader, what `loadAndRegister` does, its log being `LoadLog`; without one, nothing changes; the rejection does not escape |
| `Registry.AppRegistry.Unregister` | packages/core/src/registry/app-registry.ts:195-214 | an unknown id changes nothing; a rejecting teardown propagates and changes nothing; otherwise the entry, its loader and its key go, then the four events |
| `Registry.AppRegistry.Withdraw` | packages/core/src/registry/app-registry.ts:207-213 | removes entry, loader and key, then logs app:unregistered and the three update events |
| `Registry.AppRegistry.Drop` | packages/core/src/registry/app-registry.ts:207-208 | removes the entry, the loader and the key, nothing else |
| `Registry.AppRegistry.Update` | packages/core/src/registry/app-registry.ts:291-292 | replaces a known entry in place; the key order is unchanged |
| `Registry.AppRegistry.SetAppStatus` | packages/core/src/registry/app-registry.ts:288-297 | an unknown id changes nothing; otherwise the status is set, active becomes "status is loaded", and three events follow |
| `Registry.AppRegistry.SetAppActive` | packages/core/src/registry/app-registry.ts:302-310 | changes nothing unless the entry is loaded; then only its active flag changes and three events follow |
| `Registry.AppRegistry.On` | packages/core/src/registry/app-registry.ts:315-320 | adds the listener to the event's set, once |
| `Registry.AppRegistry.Off` | packages/core/src/registry/app-registry.ts:322-324 | the returned unsubscribe removes the listener from that event's set only |
| `Registry.AppRegistry.Reset` | packages/core/src/registry/app-registry.ts:391-395 | apps, loaders and listeners are emptied; the configuration stays |
| `Permissions.NoUser` | packages/core/src/registry/permission-manager.ts:31-45 | with no user every permission is denied, yet the empty lists pass both checks |
| `Permissions.AdminBypass` | packages/core/src/registry/permission-manager.ts:31-35 | the admin role grants everything; otherwise it is membership in the user's permissions |
| `Permissions.CheckPermissionsAll` | packages/core/src/registry/permission-manager.ts:37-40 | `checkPermissions` is the conjunction of `checkPermission` over the list |
| `Permissions.CheckAnyPermissionSome` | packages/core/src/registry/permission-manager.ts:42-45 | on a non-empty list `checkAnyPermission` is the disjunction |
| `Permissions.AllImpliesAny` | packages/core/src/registry/permission-manager.ts:37-45 | having all of a list implies having any of it |
| `Permissions.FilterMenusSpec` | packages/core/src/registry/permission-manager.ts:47-63 | the filtered menus are input items in order, each keeping every field but its children and permitted, with no unpermitted item and no empty children list at any depth |
| `Permissions.FilterMenusAt` | packages/core/src/registry/permission-manager.ts:47-63 | each item's fate in its own place: an unpermitted item is dropped, a permitted leaf is kept unchanged, a permitted item with children is kept with its children filtered exactly when some child survives |
| `Permissions.FilterMenusAppend` | packages/core/src/registry/permission-manager.ts:47-63 | filtering a concatenation filters each part |
| `Permissions.FilterItemSpec` | packages/core/src/registry/permission-manager.ts:49-61 | a kept item is permitted, agrees with the input in every field but children, and has no empty children list |
| `Permissions.FilterMenusClean` | packages/core/src/registry/permission-manager.ts:47-63 | an already clean tree passes through unchanged |
| `Permissions.FilterItemClean` | packages/core/src/registry/permission-manager.ts:49-61 | a clean item is kept unchanged |
| `Permissions.FilterMenusIdempotent` | packages/core/src/registry/permission-manager.ts:47-63 | for a fixed user, filtering twice equals filtering once |
| `Permissions.FilterRoutes` | packages/core/src/registry/permission-manager.ts:65-72 | keeps, in order and with every copy, exactly the routes whose own meta permissions are absent, empty or granted |
| `Permissions.NotifyUser` | packages/core/src/registry/permission-manager.ts:89-97 | every subscriber is called once with the user, in order, whether or not an earlier one threw |
| `Permissions.NotifyUserCalls` | packages/core/src/registry/permission-manager.ts:89-97 | a subscriber is called exactly when it is subscribed |
| `Permissions.PermissionManager.constructor` | packages/core/src/registry/permission-manager.ts:10-13 | no user and no subscribers |
| `Permissions.PermissionManager.SetUser` | packages/core/src/registry/permission-manager.ts:22-25 | the user is replaced and the calls log grows by one call per current subscriber |
| `Permissions.PermissionManager.GetUser` | packages/core/src/registry/permission-manager.ts:27-29 | returns the user last set |
| `Permissions.PermissionManager.Subscribe` | packages/core/src/registry/permission-manager.ts:82-83 | adds the callback to the set, once |
| `Permissions.PermissionManager.Unsubscribe` | packages/core/src/registry/permission-manager.ts:84-86 | removes the callback, so later notifications skip it |
| `ModuleScanner.JoinPathsRoot` | apps/server/src/services/module-loader.ts:363 | joining `/` or the empty path gives the base itself |
| `ModuleScanner.JoinPathsShape` | apps/server/src/services/module-loader.ts:362-367 | otherwise the base less one trailing `/`, one `/`, and the path less one leading `/`; the result ends with the path |
| `ModuleScanner.JoinPathsPrefix` | apps/server/src/services/module-loader.ts:362-367 | a base without a trailing `/` prefixes every joined path |
| `ModuleScanner.VisibleWalkSpec` | apps/server/src/services/module-loader.ts:302-321 | the walk the menus follow is a subsequence of the full walk and never reaches a hidden page |
| `ModuleScanner.ExtractMenusWalk` | apps/server/src/services/module-loader.ts:298-322 | at every depth and in order, the menus are exactly the pages not hidden and not below a hidden page, each at the path joined onto its parent's full path |
| `ModuleScanner.PageMenuShape` | apps/server/src/services/module-loader.ts:304-320 | a menu has children exactly when its page has, sits at the joined path and copies id and caption |
| `ModuleScanner.WalkRoutesMember` | apps/server/src/services/module-loader.ts:334-353 | a route exists exactly for each walked page with a component: path the full path, component `moduleId:component` |
| `ModuleScanner.ExtractRoutes` | apps/server/src/services/module-loader.ts:327-357 | the loop emits, in pre-order, the route of every page at any depth that declares a component, hidden pages included, descending into pages without one |
| `ModuleScanner.PageRoutes` | apps/server/src/services/module-loader.ts:335-353 | one turn: the page's own route first, then its children's under its full path |
| `ModuleScanner.ModuleMenu` | apps/server/src/services/module-loader.ts:245-272 | a menu exists exactly when the module has pages and a non-empty base path; its id is the module's, its path the base path |
| `ModuleScanner.ModuleMenuShape` | apps/server/src/services/module-loader.ts:252-271 | one page at `/` gives a childless entry named after the page (or module); otherwise a parent holding the extracted menus |
| `ModuleScanner.ContributingModules` | apps/server/src/services/module-loader.ts:229-236 | only modules with pages and a non-empty base path contribute menus and routes |
| `ModuleScanner.CheckDistFiles` | apps/server/src/services/module-loader.ts:175-204 | with an entry, whether it exists; else false for absent or empty `assets.js`; else whether every listed file exists |
| `ModuleScanner.DistReadyEntry` | apps/server/src/services/module-loader.ts:180-188 | with an entry, the legacy asset list is irrelevant |
| `ModuleScanner.ModuleAt` | apps/server/src/services/module-loader.ts:141-170 | a directory yields a module stored under its manifest's id, or nothing when the manifest cannot be read |
| `ModuleScanner.ScanTableSpec` | apps/server/src/services/module-loader.ts:120-136 | after a scan an id is present exactly when some directory yields it, holding the module of a directory after which none yields it, the last such |
| `ModuleScanner.ScanTableMember` | apps/server/src/services/module-loader.ts:120-136 | an id is in the scanned table exactly when some directory yields a module with it |
| `ModuleScanner.ScanTableLast` | apps/server/src/services/module-loader.ts:120-136 | a scanned entry holds what the last directory yielding its id yielded |
| `ModuleScanner.ModuleLoader.constructor` | apps/server/src/services/module-loader.ts:113-115 | the given path and an empty table |
| `ModuleScanner.ModuleLoader.ScanModules` | apps/server/src/services/module-loader.ts:120-136 | clears the table, then loads every directory of the listing in order; an unreadable directory leaves it empty |
| `ModuleScanner.ModuleLoader.LoadModule` | apps/server/src/services/module-loader.ts:141-170 | a readable manifest is stored under its id (keeping the key's position); otherwise nothing changes |
| `ModuleScanner.ModuleLoader.GetModules` | apps/server/src/services/module-loader.ts:209-213 | the modules in key order, stably sorted by `priority ?? 100` |
| `ModuleScanner.ModuleLoader.GetModule` | apps/server/src/services/module-loader.ts:218-220 | the module of the id, or none |
| `ModuleScanner.ModuleLoader.GetModulePath` | apps/server/src/services/module-loader.ts:372-375 | the module's path, or none |
| `ModuleScanner.ModuleLoader.GetAllMenus` | apps/server/src/services/module-loader.ts:226-239 | one entry per contributing module in priority order, then stably sorted by `order ?? 100` |
| `ModuleScanner.ModuleLoader.GetAllRoutes` | apps/server/src/services/module-loader.ts:277-293 | the routes of every contributing module, in priority order |
| `StaticServer.ContentTypeTable` | apps/server/src/index.ts:98-113 | the if/else ladder is the suffix table read top down |
| `StaticServer.DotWordsExclusive` | apps/server/src/index.ts:99-112 | no path ends with two different table suffixes |
| `StaticServer.ContentTypeBySuffix` | apps/server/src/index.ts:98-113 | a path with one of the seven suffixes gets that suffix's type, whatever the ladder's order |
| `StaticServer.ContentTypeOther` | apps/server/src/index.ts:98 | any other path gets `application/octet-stream` |
| `StaticServer.MountedFilePath` | apps/server/src/index.ts:138 | the file path is never empty |
| `StaticServer.MountedFilePathBelow` | apps/server/src/index.ts:138 | for a request below the base path, the rest less one leading `/`, or `index.html` when that is empty |
| `StaticServer.HandleBelowBase` | apps/server/src/index.ts:137-144 | the module's answer for the mounted file path when it has one, else a 404 carrying that path |
| `StaticServer.HandleBelowBaseRest` | apps/server/src/index.ts:137-144 | a request `<basePath><rest>` is served the file `rest`, less one leading `/`, or `index.html` |
| `StaticServer.HandleBase` | apps/server/src/index.ts:147-152 | the base path itself gets the answer the handler below it gives for the base path or `<basePath>/`, that is `index.html` |
| `StaticServer.LegacyFilePath` | apps/server/src/index.ts:158 | the legacy file path is never empty |
| `StaticServer.LegacyBasePath` | apps/server/src/index.ts:165 | the module's base path, or `/modules/<moduleId>` with the route's own parameter when it has none |
| `StaticServer.ProxyUrlSpec` | apps/server/src/index.ts:70 | the proxy URL has no `//` left, not even after `http:`, and keeps every other character in order |
| `StaticServer.CollapseHost` | apps/server/src/index.ts:70 | the `//` after `http:` becomes a single `/` |
| `StaticServer.ServeModuleFile` | apps/server/src/index.ts:59-128 | proxied exactly when in development, the id is in the port table and the dev server answers; else the `dist` file with its content type and cache header when it exists; else nothing |
| `StaticServer.HandleLegacy` | apps/server/src/index.ts:156-170 | an unknown id gets 404 "Module not found" and nothing else does; a known module gets its `serveModuleFile` answer for the legacy file path and `basePath || /modules/<id>`, or a 404 "File not found" carrying that path exactly when it has none |
| `StaticServer.ProductionServesDist` | apps/server/src/index.ts:92-127 | outside development every answer is a `dist` file cached for a year, or a 404 |
| `StaticServer.LegacyProxyFallback` | apps/server/src/index.ts:165-166 | a module without a base path is proxied under `/modules/<id>` on the legacy route |
| `StaticServer.MountModules` | apps/server/src/index.ts:132-153 | two routes for each module with a base path, in module order, none for the others |
| `StaticServer.MountsSpec` | apps/server/src/index.ts:132-153 | every mounted route belongs to a module with a base path, under that base path |
| `AppLoading.ResolveIcon` | packages/core/src/registry/app-loader.ts:41-47 | nothing for an absent or empty name or with no resolver set; otherwise the resolver's result |
| `AppLoading.IconSlot.constructor` | packages/core/src/registry/app-loader.ts:29 | no resolver is set at first |
| `AppLoading.IconSlot.SetIconResolver` | packages/core/src/registry/app-loader.ts:34-36 | the resolver becomes the given one |
| `AppLoading.IconSlot.Resolve` | packages/core/src/registry/app-loader.ts:41-47 | resolving uses the resolver set at that moment |
| `AppLoading.TransformMenus` | packages/core/src/registry/app-loader.ts:57-63 | as many items as the configuration, item `i` being the translation of configured item `i` |
| `AppLoading.TransformMenusTransformed` | packages/core/src/registry/app-loader.ts:57-63 | at every depth each translated item has its icon resolved, its caption, path, order, hidden flag, badge, permissions, external flag and target copied, and children exactly when configured, translated item by item |
| `AppLoading.TransformMenuTransformed` | packages/core/src/registry/app-loader.ts:58-62 | one translated item and its whole subtree are so related to the configured item |
| `AppLoading.TransformMenusShape` | packages/core/src/registry/app-loader.ts:57-63 | the menu tree keeps its shape: ids, paths and order at every level, and which items have children |
| `AppLoading.TransformMenuShape` | packages/core/src/registry/app-loader.ts:57-63 | one translated menu item has the configured item's shape at every depth |
| `AppLoading.TransformMenusIds` | packages/core/src/registry/app-loader.ts:57-63 | the ids the registry validates are the configuration's, in the same walk |
| `AppLoading.FirstContaining` | packages/core/src/registry/app-loader.ts:73-75 | the first key containing the needle, or none when no key does |
| `AppLoading.LazyComponentSpec` | packages/core/src/registry/app-loader.ts:66-83 | loaded from key k exactly when there is an entry and loaders, and k is the first key containing the entry less its first `./`; otherwise the placeholder |
| `AppLoading.TransformRoutes` | packages/core/src/registry/app-loader.ts:86-95 | one route per configured route, in order |
| `AppLoading.TransformRouteSpec` | packages/core/src/registry/app-loader.ts:86-95 | path and meta copied, the component chosen lazily, one level of children mapped with their paths copied and no grandchildren |
| `AppLoading.TransformManifest` | packages/core/src/registry/app-loader.ts:52-113 | menus and routes always present; the runtime manifest carries no lifecycle hooks |
| `AppLoading.TransformManifestSpec` | packages/core/src/registry/app-loader.ts:97-112 | id, name, version, description, author, base path, priority, permissions and tags copied, the icon resolved, absent menus and routes become empty lists, each configured menu item translated at every depth with the tree's shape kept, one route per configured route |
| `AppLoading.RegisterTransformed` | packages/core/src/registry/app-loader.ts:208-214 | registering a translated manifest fails exactly when its id, name or version is empty or a configured menu id repeats |
| `AppLoading.Segment` | packages/core/src/registry/app-loader.ts:163 | the characters up to the first `/`, which contain no `/` |
| `AppLoading.SegmentOf` | packages/core/src/registry/app-loader.ts:163 | the segment of `a/b` is `a` when `a` has no `/` |
| `AppLoading.FirstMatch` | packages/core/src/registry/app-loader.ts:163 | the leftmost position where `user-apps/<segment>/` matches, or none |
| `AppLoading.LastNamed` | packages/core/src/registry/app-loader.ts:168-174 | the last part that is not empty, `.` or `..`, or none if there is none |
| `AppLoading.ScanParts` | packages/core/src/registry/app-loader.ts:168-174 | the backward loop finds the last named part among all parts but the final one |
| `AppLoading.ExtractAppId` | packages/core/src/registry/app-loader.ts:160-177 | the method returns the regular-expression capture, else the last named directory part, else the sanitised path |
| `AppLoading.NoMatchAt` | packages/core/src/registry/app-loader.ts:163 | no match starts where the tenth character on is not `/` |
| `AppLoading.MatchAfter` | packages/core/src/registry/app-loader.ts:163 | right after any prefix, `user-apps/<dir>/` matches and captures `<dir>` |
| `AppLoading.ExtractAppIdExample` | packages/core/src/registry/app-loader.ts:162 | `../../../user-apps/todo-app/nexo.manifest.json` yields `todo-app` |
| `AppLoading.AppIdFallback` | packages/core/src/registry/app-loader.ts:176 | the fallback is as long as the path and uses only `[A-Za-z0-9_-]` |
| `AppLoading.LoaderWrites` | packages/core/src/registry/app-loader.ts:125-132 | one write per manifest source, in order, keyed by its extracted app id |
| `AppLoading.Entries` | packages/core/src/registry/app-loader.ts:134 | `Object.entries` of the record, in key order |
| `AppLoading.BuildLoaders` | packages/core/src/registry/app-loader.ts:123-132 | the `forEach` fills the record as last-write-wins assignment, with keys in first-write order |
| `AppLoading.LoaderTableFromSources` | packages/core/src/registry/app-loader.ts:125-132 | an id is in the record exactly when some source yields it, and holds the last such source's loader |
| `AppLoading.CreateAppLoader` | packages/core/src/registry/app-loader.ts:118-155 | the loaders are handed to `registerLoaders`, so the loader table, app table and key order are those `registerLoaders` gives for the record's entries; the app ids are the record's keys; auto-loading defaults to true |
| `AppLoading.Init` | packages/core/src/registry/app-loader.ts:149-153 | with auto-loading, the table, key order and log are what `loadAllPending` leaves, the log being `LoadAllLog` over the pending order; without it nothing changes |
| `AppLoading.RegisterApps` | packages/core/src/registry/app-loader.ts:219-233 | registers a copy of the list stably sorted by `priority ?? 100`, one at a time, each failure caught; the events and listener calls appended are `RegisterAllLog` of that order, each registration's log followed by the update events of the table it leaves |
| `AppLoading.RegisterAllKeys` | packages/core/src/registry/app-loader.ts:226-232 | afterwards an id has an entry exactly when it had one or some valid manifest of the list carries it |
| `AppLoading.RegisterTurn` | packages/core/src/registry/app-loader.ts:228 | one registration of a series: `register`'s outcome, the table folds one step further, and that registration's log appended to the series' |
| `AppLoading.RegisterLogAnnounced` | packages/core/src/registry/app-registry.ts:100-138 | one registration emits app:registered for its own manifest exactly when it succeeds |
| `AppLoading.RegisterAllLogAnnounced` | packages/core/src/registry/app-loader.ts:226-232 | the log of a series of registrations announces a manifest exactly when some registration of it succeeds |
| `AppLoading.RegisterAppsOrder` | packages/core/src/registry/app-loader.ts:222-224 | the registrations run in non-decreasing priority, a permutation of the list, ties in list order |
| `AppLoading.RegisterAppFromConfig` | packages/core/src/registry/app-loader.ts:208-214 | translates, then registers: the outcome is the translated manifest's validation; a pass stores it and upserts its id; a rejection changes nothing; the events and listener calls appended are `register`'s log for the translated manifest |
| `AppBuilding.DefineApp` | packages/core/src/helpers/define-app.ts:7-13 | menus and routes become empty lists only when absent; every other field is unchanged |
| `AppBuilding.DefineAppFixed` | packages/core/src/helpers/define-app.ts:7-13 | `defineApp` leaves a manifest unchanged exactly when it already has both lists |
| `AppBuilding.DefineAppIdempotent` | packages/core/src/helpers/define-app.ts:7-13 | applying `defineApp` twice equals applying it once |
| `AppBuilding.AppBuilder.constructor` | packages/core/src/helpers/define-app.ts:19-24 | a new builder holds the id and empty menus and routes, nothing else |
| `AppBuilding.AppBuilder.Manifest` | packages/core/src/helpers/define-app.ts:20-24 | the shared object read as a manifest: id, version, menus and routes as held |
| `AppBuilding.AppBuilder.Name` | packages/core/src/helpers/define-app.ts:27-30 | sets the name; every other field is unchanged |
| `AppBuilding.AppBuilder.Version` | packages/core/src/helpers/define-app.ts:31-34 | sets the version; every other field is unchanged |
| `AppBuilding.AppBuilder.Description` | packages/core/src/helpers/define-app.ts:35-38 | sets the description; every other field is unchanged |
| `AppBuilding.AppBuilder.Author` | packages/core/src/helpers/define-app.ts:39-42 | sets the author; every other field is unchanged |
| `AppBuilding.AppBuilder.SetIcon` | packages/core/src/helpers/define-app.ts:43-46 | sets the icon; every other field is unchanged |
| `AppBuilding.AppBuilder.Menu` | packages/core/src/helpers/define-app.ts:47-50 | appends the menu at the end; every other field is unchanged |
| `AppBuilding.AppBuilder.Menus` | packages/core/src/helpers/define-app.ts:51-54 | replaces the menus wholesale |
| `AppBuilding.AppBuilder.AddRoute` | packages/core/src/helpers/define-app.ts:55-58 | appends the route at the end; every other field is unchanged |
| `AppBuilding.AppBuilder.Routes` | packages/core/src/helpers/define-app.ts:59-62 | replaces the routes wholesale |
| `AppBuilding.AppBuilder.Setup` | packages/core/src/helpers/define-app.ts:63-66 | sets the setup hook; every other field is unchanged |
| `AppBuilding.AppBuilder.Teardown` | packages/core/src/helpers/define-app.ts:67-70 | sets the teardown hook; every other field is unchanged |
| `AppBuilding.AppBuilder.Tags` | packages/core/src/helpers/define-app.ts:71-74 | sets the tags; every other field is unchanged |
| `AppBuilding.AppBuilder.Build` | packages/core/src/helpers/define-app.ts:75-83 | fails on a missing name before looking at the version, then on a missing version; otherwise returns the builder's own object, not a copy |
| `AppBuilding.BuiltManifestNamed` | packages/core/src/helpers/define-app.ts:75-83 | a built manifest passes the registry's name and version checks |
| `AppBuilding.BuiltManifestDefined` | packages/core/src/helpers/define-app.ts:20-24 | the builder's manifest is already in `defineApp`'s normal form |
| `StandaloneMenus.PageIcon` | packages/core/src/standalone/StandaloneProvider.tsx:42 | no icon without a page icon; the resolver's result when it is non-nullish; the raw icon name otherwise |
| `StandaloneMenus.PagesToMenus` | packages/core/src/standalone/StandaloneProvider.tsx:32-52 | never more menus than pages |
| `StandaloneMenus.PageToMenu` | packages/core/src/standalone/StandaloneProvider.tsx:38-51 | id, caption, order, badge, permissions, external flag and target copied, the path verbatim, no hidden flag, the icon rule applied, children exactly when the page has children |
| `StandaloneMenus.MapPages` | packages/core/src/standalone/StandaloneProvider.tsx:38-51 | each page mapped in place |
| `StandaloneMenus.PagesToMenusTop` | packages/core/src/standalone/StandaloneProvider.tsx:36-51 | the top-level menus are the shown pages, in order, each mapped |
| `StandaloneMenus.PagesToMenusEntries` | packages/core/src/standalone/StandaloneProvider.tsx:32-52 | at every depth a hidden page and its subtree are gone, the rest keep their order, and each path is the page's own with no parent prefix |
| `StandaloneMenus.Sidebar.constructor` | packages/core/src/standalone/StandaloneProvider.tsx:62 | the sidebar starts open unless the default is `false` |
| `StandaloneMenus.Sidebar.ToggleSidebar` | packages/core/src/standalone/StandaloneProvider.tsx:76-78 | flips the sidebar |
| `StandaloneMenus.Sidebar.SetSidebarOpen` | packages/core/src/standalone/StandaloneProvider.tsx:62 | sets the sidebar state |
| `StandaloneMenus.ProviderMenus` | packages/core/src/standalone/StandaloneProvider.tsx:64-67 | no menus without pages; otherwise the pages' menus |
| `StandaloneRouting.FullPathSpec` | packages/core/src/standalone/create-standalone-app.tsx:42-44 | verbatim under the empty parent; otherwise no `//`, non-empty, and every other character of the concatenation kept in order |
| `StandaloneRouting.WalkRoutesMember` | packages/core/src/standalone/create-standalone-app.tsx:46-51 | a route exists exactly for each walked page whose component is known, at its full path |
| `StandaloneRouting.ProcessPages` | packages/core/src/standalone/create-standalone-app.tsx:40-57 | the loop yields, in pre-order, the route of every page at any depth with a known component, visiting children whether or not the parent had a route |
| `StandaloneRouting.ProcessPage` | packages/core/src/standalone/create-standalone-app.tsx:41-56 | one turn: the page's route, then its children's under its full path |
| `StandaloneRouting.WalkCollapsed` | packages/core/src/standalone/create-standalone-app.tsx:42-44 | under a non-empty parent every walked path has no `//` |
| `StandaloneRouting.WalkTopLevel` | packages/core/src/standalone/create-standalone-app.tsx:44 | top-level pages are walked at their own paths: each heads its own walk and appears, with its own path, in the whole walk |
| `StandaloneRouting.CatchAll` | packages/core/src/standalone/create-standalone-app.tsx:62-76 | the not-found route if given; else a redirect to the first page if there is one; else none |
| `StandaloneRouting.WalkRoutesPlain` | packages/core/src/standalone/create-standalone-app.tsx:40-57 | the pages yield no catch-all of their own |
| `StandaloneRouting.GenerateRoutes` | packages/core/src/standalone/create-standalone-app.tsx:33-79 | the pages' routes, then the catch-all |
| `StandaloneRouting.GeneratedCatchAll` | packages/core/src/standalone/create-standalone-app.tsx:61-76 | there is a catch-all exactly when a not-found page is given or there are pages; it is last, and no other route is one |
| `StandaloneRouting.CreateStandaloneApp` | packages/core/src/standalone/create-standalone-app.tsx:99-118 | the configuration copies id, name, icon, pages and resolver; the routes are generated from the pages, none when absent |
| `StandaloneBreadcrumb.FirstAt` | packages/core/src/standalone/StandaloneLayout.tsx:105-119 | a caption is found exactly when some item of the walk has the path |
| `StandaloneBreadcrumb.FirstAtSpec` | packages/core/src/standalone/StandaloneLayout.tsx:109-112 | the caption found is that of the first item with the path |
| `StandaloneBreadcrumb.FindMenuItem` | packages/core/src/standalone/StandaloneLayout.tsx:105-119 | the loop with early return finds the first item, in pre-order, whose path is the current path |
| `StandaloneBreadcrumb.FindInItem` | packages/core/src/standalone/StandaloneLayout.tsx:110-116 | one turn: the item itself, then its children |
| `StandaloneBreadcrumb.GenerateBreadcrumb` | packages/core/src/standalone/StandaloneLayout.tsx:99-127 | caller-supplied items unchanged; otherwise the default breadcrumb |
| `StandaloneBreadcrumb.DefaultBreadcrumbSpec` | packages/core/src/standalone/StandaloneLayout.tsx:102-126 | starts with the app name, has length 1 or 2, has a second item exactly when some item at any depth has the path, and that item is the first such in pre-order |
| `StandaloneBreadcrumb.PreorderChildren` | packages/core/src/standalone/StandaloneLayout.tsx:113-116 | the walk reaches nested items |
| `RuntimeBootstrap.OwnRoute` | packages/react-runtime/src/bootstrap.tsx:88-93 | at most one route per page |
| `RuntimeBootstrap.GenerateRoutes` | packages/react-runtime/src/bootstrap.tsx:80-117 | the nested loops yield the routes of the pages and their direct children, then the fallback |
| `RuntimeBootstrap.PageLoop` | packages/react-runtime/src/bootstrap.tsx:88-105 | one outer turn: the page's route, then its direct children's, never deeper |
| `RuntimeBootstrap.PageRoutesMember` | packages/react-runtime/src/bootstrap.tsx:86-107 | a route comes exactly from a top-level page or a direct child with a known component, at that page's own path |
| `RuntimeBootstrap.FallbackSpec` | packages/react-runtime/src/bootstrap.tsx:110-114 | a fallback to the first page's path is last exactly when there are pages, whether or not any page matched |
| `RuntimeBootstrap.SanitizeId` | packages/react-runtime/src/bootstrap.tsx:126 | same length, alphanumerics kept, every other character replaced by `-` |
| `RuntimeBootstrap.SanitizeIdIdempotent` | packages/react-runtime/src/bootstrap.tsx:126 | a sanitised id is left as it is |
| `RuntimeBootstrap.ChooseMode` | packages/react-runtime/src/bootstrap.tsx:125-157 | standalone exactly when `standalone.enabled` is true and the app is not embedded |
| `RuntimeBootstrap.RouteChangeTarget` | packages/react-runtime/src/bootstrap.tsx:30-34 | navigates exactly when the path is non-empty, to that path |
| `RuntimeBootstrap.RouteChangeEvent` | packages/react-runtime/src/bootstrap.tsx:36 | the event name is the app id followed by `-route-change` |
| `RuntimeBootstrap.RuntimeRoot.constructor` | packages/react-runtime/src/bootstrap.tsx:159-181 | embedded, nothing is mounted; otherwise it mounts at once when the container exists |
| `RuntimeBootstrap.RuntimeRoot.Mount` | packages/react-runtime/src/bootstrap.tsx:161-167 | creates a root only when the container exists and none is held |
| `RuntimeBootstrap.RuntimeRoot.Unmount` | packages/react-runtime/src/bootstrap.tsx:169-174 | clears the root; no root is created |
| `RuntimeBootstrap.MountTwice` | packages/react-runtime/src/bootstrap.tsx:161-167 | a second mount creates nothing |
| `AdminBootstrap.Capitalize` | apps/admin/src/bootstrap.ts:29 | same length, first character upper-cased, the rest unchanged |
| `AdminBootstrap.ConcatSplit` | apps/admin/src/bootstrap.ts:27-30 | joining the parts of a split with nothing removes the separators |
| `AdminBootstrap.PascalCaseSpec` | apps/admin/src/bootstrap.ts:27-30 | the name has no `-`, one character per non-`-` character of the input, and a name without `-` is just capitalised |
| `AdminBootstrap.CreateIconElement` | apps/admin/src/bootstrap.ts:26-37 | no icon exactly when the icon set has no component of that name |
| `AdminBootstrap.TransformServerMenu` | apps/admin/src/bootstrap.ts:85-96 | no icon without an icon name; otherwise the icon element of that name |
| `AdminBootstrap.TransformServerMenus` | apps/admin/src/bootstrap.ts:84-97 | one client menu per server menu, item i being the translation of server menu i |
| `AdminBootstrap.TransformServerMenusTranslated` | apps/admin/src/bootstrap.ts:84-97 | at every depth: no icon without an icon name, otherwise `createIconElement` of the name; id, caption, path, order, badge, permissions, external and target copied; children exactly when the server menu has them, translated item by item |
| `AdminBootstrap.TransformServerMenuTranslated` | apps/admin/src/bootstrap.ts:85-96 | one menu's whole subtree is translated as above |
| `AdminBootstrap.TransformKeepsMenus` | apps/admin/src/bootstrap.ts:84-97 | apart from icons the translation keeps ids, captions, paths, order, badges, permissions and the tree shape |
| `AdminBootstrap.ModuleMenus` | apps/admin/src/bootstrap.ts:140-142 | exactly the server menus whose path starts with the module's base path, each with all its copies |
| `AdminBootstrap.ModuleMenusSpec` | apps/admin/src/bootstrap.ts:140-142 | those menus keep server order and every copy of a kept menu |
| `AdminBootstrap.ModuleManifest` | apps/admin/src/bootstrap.ts:139-152 | a module is registered with its id, name, version and base path, the last two possibly absent, its translated menus and no routes; the menus are those whose path starts with the base path, or with `undefined` when it is absent |
| `AdminBootstrap.NoBasePathNoMenus` | apps/admin/src/bootstrap.ts:139-150 | a module listed without a base path is registered with none, and gets no menus when every server menu path is absolute |
| `AdminBootstrap.Manifests` | apps/admin/src/bootstrap.ts:138-152 | one manifest per fetched module, in order, each built from the whole server menu list |
| `AdminBootstrap.FirstFailure` | apps/admin/src/bootstrap.ts:138-155 | the position of the first registration that throws, or none |
| `AdminBootstrap.RegisterModules` | apps/admin/src/bootstrap.ts:138-155 | registers modules in order up to and including the first that throws; it passes exactly when none throws; the events and listener calls appended are `RegisterAllLog` of the attempted modules |
| `AdminBootstrap.Bootstrap` | apps/admin/src/bootstrap.ts:99-167 | installs the icon resolver, configures the registry, signs in the administrator (one call per subscriber logged), then registers the fetched modules with their log; a failed fetch registers and emits nothing |
| `AdminBootstrap.RegisterAllPrefix` | apps/admin/src/bootstrap.ts:138-161 | registering modules none of which carries an id leaves that id's presence as it was |
| `AdminBootstrap.AttemptedRegistered` | apps/admin/src/bootstrap.ts:145-152 | every module the loop reaches is registered when it validates |
| `Strings.CollapseSlashesSpec` | packages/core/src/standalone/create-standalone-app.tsx:43 | collapsing leaves no `//` and keeps every other character in order |
| `Strings.CollapseSlashesIdempotent` | apps/server/src/index.ts:70 | collapsing twice equals collapsing once |
| `Strings.ReplaceOthers` | packages/react-runtime/src/bootstrap.tsx:126 | same length; kept characters stay, others become `-` |
| `Strings.Split` | apps/admin/src/bootstrap.ts:28 | `split('-')` yields at least one part, and no part holds the separator |
| `Strings.JoinSplit` | apps/admin/src/bootstrap.ts:28 | joining the parts with the separator gives back the input |
| `Sorting.SortBy` | packages/core/src/registry/app-registry.ts:385 | the sort returns a permutation, sorted by the key |
| `Sorting.SortByStable` | packages/core/src/registry/app-registry.ts:385 | elements with equal keys keep their relative order |
| `Sorting.StableSortIsSortBy` | apps/server/src/services/module-loader.ts:210-212 | any sorted permutation that keeps equal keys in order equals this sort |
| `Seqs.AssignLast` | packages/core/src/registry/app-loader.ts:127 | in last-write-wins assignment each key holds its last written value |
| `Seqs.Upsert` | packages/core/src/registry/app-registry.ts:120 | the key order after `Map.set` holds the old keys and the new one, and stays free of repeats |

## Left out

- Timestamps (`registeredAt`) and console logging: they carry no behaviour.
- Filesystem and network I/O: `readdir`, `readFile`, `stat`, `fetch` and `Bun.file` are modelled by their results, which are given as inputs.
- Asynchronous scheduling: each `await` is taken to settle before the next statement, and interleaved `loadAndRegister` calls are not modelled.
- React rendering, context values, hooks and route elements: routes are data, and elements are `Icon` values.
- The wujie container and bus, `window` globals and `createRoot`: the runtime's root is a value, and being embedded is an input.
- `PermissionManager.getContext`: it only bundles the current user with two bound methods, both of which are modelled.
- `path.join` normalisation of `..` and `.`: `PathJoin` joins with one `/`, which is what it does for the relative names the server passes.
- Module manifest fields the server does not read are not kept.
- `StaticServer.ProxyGate`, `StandaloneRouting.Routed` and `RuntimeBootstrap.HasComponent`: a JavaScript record lookup (the dev-port table, and the `components` / `pageComponents` records) is modelled as map or set membership. A key inherited from `Object.prototype`, such as `constructor`, finds a value in the source but not here: a page whose component is `"constructor"` gets a route in the source and none in the model. The model describes the source for component names and module ids that are not `Object.prototype` keys.
- `AppLoading.CreateAppLoader` and `Seqs.KeyOrder`: JavaScript lists integer-like record keys (such as `"42"`) first, in numeric order, and the other keys in insertion order. `Object.keys(loaders)` is modelled in insertion order only, so for app ids that are integer-like the key order given to `registerLoaders` differs.
- `AppLoading.ResolveIcon`: the source reads the module-level resolver when a loader runs. The model fixes `res` when the loaders are built (`LoaderFor`, `CreateAppLoader`), so `res` stands for the resolver current when the loader runs; a `setIconResolver` call between building and running is not modelled. The captured `framework` and `_raw` fields are dropped. A non-string icon passed to `resolveIcon` is not modelled.
- `AppTypes.KeyOr100`, `AppLoading.PriorityKey`, `ModuleScanner.PriorityKey`, `Registry.OrderKey` and `Registry.PendingKey`: JavaScript numbers are modelled as `int`, so `priority`, `order` and `BadgeNumber` hold integers only. A fractional priority such as 1.5, `NaN` and `Infinity` are not modelled, nor is the engine-dependent order a `NaN` comparator result gives.
- `RuntimeBootstrap.SanitizeId`, `AppLoading.AppIdOf`, `AppLoading.AppIdFallback` and `Strings.ReplaceOthers`: strings are sequences of Unicode scalar values, while JavaScript strings are sequences of UTF-16 code units. A character outside the Basic Multilingual Plane is one character here and two code units there, so the source's `replace(/[^a-zA-Z0-9]/g, "-")` turns it into two `-` and the model into one. The same-length ensures describe the source only for ids within that plane.
- `AdminBootstrap.Capitalize`: only ASCII letters are upper-cased. `String.prototype.toUpperCase` also maps non-ASCII letters.
- `withStandalone` and the StandaloneContext value are left out: they are React wrappers. The runtime `StandaloneLayout`'s fixed guest user is also left out: it is rendering only.
- The chaining return value of the builder setters is left out: each returns the builder itself.
- `setup` is not part of the TypeScript `AppManifest` type, although the builder sets it and the registry calls it. The model includes it in the manifest.
- The structured permission object `{kv, mspbots, http}` is declared but never used, so permissions are lists of strings.
- `Registry.Merge`: a key the partial gives as `undefined` overwrites in the spread, but here an absent key (`None`) keeps the old value. An explicit `undefined` is not modelled.
- `AppBuilding.AppBuilder.Menus` and `AppBuilding.AppBuilder.Routes`: the builder stores the caller's own array, so a later `menu(m)` or `route(r)` pushes into the caller's array too. The model stores a copied sequence, so this aliasing is not modelled.
- Apps created with `createViteAppLoader` use `createAppLoader` with the same defaults, so it has no separate model.
- `registerApp` has no separate model: it is `register` on the shared registry, so it is `Registry.AppRegistry.Register`.
- The singletons (`getInstance`, `getRegistry`, `getPermissionManager`) become explicit objects passed by the caller.
- The event payloads with the merged views (`menus`, `routes`, `permissions`) are logged as event tags. Their contents are the views stated by `AllMenus`, `AllRoutes` and `AllPermissions`.
