# SamsonPHP framework core, modelled in Dafny

This project models the `Core` object of the SamsonPHP framework
(`src/Core.php`). The core keeps the registry of loaded modules
(`module_stack`), the merged resource lists of each PHP namespace
(`load_stack`), the resource lists of each module (`load_module_stack`), a
per-path cache of discovered resources (`load_path_stack`), the active
module and the rendering settings. Its operations load and unload modules,
bootstrap the application from its dependency list (`composer`), select and
render view templates, and run one request through its lifecycle (`start`).

Layout:

- `Values.dfy`: module records, resource maps, scalar parameters, and the
  outside world as data and oracles. The world covers the filesystem, the
  resource indexer, class reflection, the locale, the compressor's view
  table and the template engine. `Handlers` holds what the event
  subscribers decide.
- `Strings.dfy`: PHP's `str_replace` (left to right, non-overlapping) and
  `basename` with a suffix.
- `ModuleRegistry.dfy`: the registry as a value. `load`, `unload` and the
  composer sweep are functions on it.
- `RegistryProperties.dfy`: lemmas about those functions.
- `PathCache.dfy`: the `resources()` cache.
- `Rendering.dfy`: view selection under the three rendering modes and the
  locale, and the renderer-stack fold.
- `Lifecycle.dfy`: the gating inside `start`.
- `Core.dfy`: `class Core`. It has the source's fields, and each method is
  proved against the functions above. `moduleOrder` and `moduleStack`
  together stand for the ordered PHP array `module_stack`.

## Model

| member | source | states |
|---|---|---|
| ModuleRegistry.Registered | src/Core.php:557-558 | putting a module under its id overwrites that slot only; a new id goes last in iteration order, a known id keeps its place; the load stacks are untouched; the order still lists every id once |
| ModuleRegistry.Merge | src/Core.php:212 | `array_merge_recursive` of two load stacks: every category list is the old list followed by the new one |
| ModuleRegistry.LastMatch | src/Core.php:218-223 | the parent scan yields the last module in iteration order whose class is the parent class, or none if no module has that class |
| ModuleRegistry.ParentLink | src/Core.php:214-224 | no parent when the class has none or extends ExternalModule or CompressableExternalModule; otherwise the last module in iteration order whose class is the parent class, or none |
| ModuleRegistry.Compressable | src/Core.php:226 | the package flag counts only when the key is present (its value compared loosely with 1) |
| ModuleRegistry.Recorded | src/Core.php:176-212 | the module is put under its id with its class, path and parameters and no parent; a new id goes last, a known id keeps its place; its load stack is stored under its id; the namespace gets that load stack, or the merge of its old one with it |
| ModuleRegistry.Linked | src/Core.php:215-224 | only the new module's parent link may change; order, both load stacks and every other module stay as they were |
| ModuleRegistry.PackageRecorded | src/Core.php:226-243 | the compressable-package branch keeps the registry valid |
| ModuleRegistry.LoadStep | src/Core.php:140-251 | every branch of `load` keeps the registry valid |
| ModuleRegistry.Without | src/Core.php:441 | `unset` on the ordered array removes exactly that id and keeps the other ids distinct; an id that is not there changes nothing |
| ModuleRegistry.WithoutSnoc | src/Core.php:441 | `unset` keeps the order of the remaining ids: the last id survives as the last one unless it is the one removed |
| ModuleRegistry.UnloadStep | src/Core.php:429-443 | `unload` keeps the registry valid |
| ModuleRegistry.RequirementParams | src/Core.php:603-606 | the composer's parameters always carry `module_id` set to the requirement name; every other key of an array entry is kept and no other key is added; a scalar entry becomes the list holding it, plus `module_id` |
| ModuleRegistry.LoadAll | src/Core.php:597-608 | loading the requirements one after another keeps the registry valid |
| ModuleRegistry.RegisterAll | src/Core.php:628-634 | registering a list of modules keeps the registry valid |
| ModuleRegistry.ControllerModules | src/Core.php:628-634 | one local module per controller file, named by the file's basename without `.php`, at the application path |
| ModuleRegistry.WithLocal | src/Core.php:610-634 | the local part of `composer` keeps the registry valid |
| RegistryProperties.LoadMissingPath | src/Core.php:143-145 | a path that does not exist is reported and changes nothing |
| RegistryProperties.LoadModuleBookkeeping | src/Core.php:176-212 | loading a module registers it under its id with its class, path and parameters; a new id goes last in iteration order and a known id keeps its position; stores its load stack under that id; stores it under its namespace, or appends it category by category; no other namespace changes |
| RegistryProperties.LastMatchSameClasses | src/Core.php:218-223 | the parent scan depends only on the registered class names |
| RegistryProperties.LoadParentLink | src/Core.php:214-224 | no parent when the class has none or extends ExternalModule or CompressableExternalModule; otherwise the last registered module of the parent class, or none; a module is never its own parent unless its class is its own parent class |
| RegistryProperties.LoadPackageBookkeeping | src/Core.php:226-243 | a compressable package is registered as CompressableExternalModule with its load stack under its id; a new id goes last in iteration order and a known id keeps its position; no namespace stack changes and no parent is linked |
| RegistryProperties.CompressableFlag | src/Core.php:226 | 1, true and "1" set the package flag; 0, false, "yes" and a missing key do not |
| RegistryProperties.LoadNothingLoadable | src/Core.php:244-247 | a path with neither a module controller nor the compressable flag records nothing |
| RegistryProperties.LoadKeepsOtherModules | src/Core.php:140-251 | loading never changes another id's module record or its load stack |
| RegistryProperties.LoadTwiceAppendsAgain | src/Core.php:207-212 | there is no duplicate check: loading a path twice keeps one entry but appends its load stack to the namespace a second time |
| RegistryProperties.UnloadLoaded | src/Core.php:429-443 | unloading a loaded id removes it and its namespace's whole merged load stack; per-module load stacks and other ids stay, in their order; the next parent scan for any class lands where it would have without that module, so a scan that did not land on it is unchanged |
| RegistryProperties.LastMatchWithout | src/Core.php:218-223 | dropping an unregistered id from the iteration order does not change where the parent scan lands |
| RegistryProperties.LastMatchDropOther | src/Core.php:218-223 | unregistering a module the parent scan does not land on leaves the scan's answer unchanged |
| RegistryProperties.UnloadUnknown | src/Core.php:432 | unloading an unknown id changes nothing |
| RegistryProperties.UnloadDropsSharedNamespace | src/Core.php:436-437 | after loading A and B of one namespace, unloading A keeps B registered but drops the namespace's load stack, B's share included |
| RegistryProperties.LoadKeepsIds | src/Core.php:140-251 | loading never drops a registered id |
| RegistryProperties.LoadAllAppend | src/Core.php:597-608 | the sweep over `a + b` is the sweep over `a` followed by the sweep over `b` |
| RegistryProperties.LoadAllKeepsIds | src/Core.php:597-608 | the composer sweep never drops a registered id |
| RegistryProperties.RegisterAllEffect | src/Core.php:628-634 | registering a list of modules adds exactly their ids and leaves both load stacks alone |
| RegistryProperties.LocalEntries | src/Core.php:610-634 | the application's load stack replaces any earlier 'local' entry in both stacks; 'local' and every controller basename end up registered |
| PathCache.ResourcesFirstCall | src/Core.php:118-131 | the first call for a path returns true, fills the five groups from the indexer, keeps the caller's other keys, and caches the array under the path |
| PathCache.ResourcesLaterCall | src/Core.php:132-136 | a later call returns false and hands back exactly the cached array, whatever the caller passed and whatever the indexer would say now |
| PathCache.ResourcesHitAfterMiss | src/Core.php:116-137 | discovery happens once per path: the second call returns what the first one stored |
| PathCache.ResourcesKeepsEntries | src/Core.php:116-137 | the cache only grows |
| PathCache.Resources | src/Core.php:116-137 | the call reports discovery exactly when the path was not cached; afterwards the path is cached and the caller's array equals the cached entry |
| Strings.ReplaceAll | src/Core.php:273 | `str_replace` leaves a subject in which the needle does not occur unchanged |
| Strings.ReplaceLeading | src/Core.php:273 | a leading needle that does not occur again is replaced once |
| Strings.ReplaceAfterPrefix | src/Core.php:273 | `str_replace` copies a prefix in which no occurrence starts and carries on after it |
| Strings.ReplaceOnce | src/Core.php:273 | a needle occurring once after such a prefix is replaced exactly there |
| Strings.TrimSlashes | src/Core.php:633 | only trailing slashes are removed: the result is a prefix of the input, does not end with a slash, and everything cut off is a slash |
| Strings.LastSegment | src/Core.php:633 | the whole part after the last slash: a slash-free suffix of the input that is the whole input or is preceded by a slash |
| Strings.Basename | src/Core.php:633 | `basename` is the last segment of the path without trailing slashes, with the suffix cut off when it ends the segment and something remains |
| Strings.BasenameOfFile | src/Core.php:633 | the basename of `dir/name.php` with suffix `.php` is `name` |
| Rendering.SelectView | src/Core.php:276-311 | in each mode the locale view is preferred over the plain view, and the plain view is used when only it resolves; "cannot render view" is reported exactly when neither resolves; a chosen file exists; an unknown mode selects nothing and reports nothing |
| Rendering.TemplateView | src/Core.php:269-274 | under the default locale, or for a view outside the view root, the view path is used as given |
| Rendering.Resolve | src/Core.php:281-309 | standard mode resolves exactly the existing files; array mode resolves a key exactly when the compressor table maps it to an existing file, and to that file; variable mode resolves exactly the keys of the table, to the source the table holds; any other mode resolves nothing |
| Rendering.DefaultLocaleKeepsView | src/Core.php:271-274 | under the default locale the view path is used as given |
| Rendering.LocaleViewPath | src/Core.php:271-274 | under another locale, a view whose view root follows a prefix (the module path `start` puts in front) moves into the locale's directory, prefix kept, when the root occurs there only |
| Rendering.LocaleFallbackExample | src/Core.php:279-284 | with locale "fr", `/app/views/page.tpl` falls back to itself until `/app/views/fr/page.tpl` exists, which is then preferred |
| Rendering.PostProcessAppend | src/Core.php:322-326 | running the renderer stack `a + b` is running `a`, then `b` on its output |
| Rendering.PostProcessOrderExample | src/Core.php:322-326 | renderers appending "-A" then "-B" turn "X" into "X-A-B" |
| Rendering.PostProcess | src/Core.php:322-326 | a stack of renderers that all leave their input alone leaves the html unchanged |
| Rendering.RenderOutput | src/Core.php:255-330 | "cannot render view" is reported exactly when selection finds nothing in a known mode; when nothing is evaluated the core.render handlers see empty output and decide the active module left behind |
| Lifecycle.Decide | src/Core.php:504-538 | routing runs iff security passed; e404 runs iff no accepted routing result; the final result is e404's when it ran; rendering happens iff not async and the result is not strictly A_FAILED |
| Lifecycle.AsyncNeverRenders | src/Core.php:526 | an asynchronous request is never rendered |
| Lifecycle.SecurityFailureFallsBack | src/Core.php:510-520 | a failed security check skips routing and falls back to e404 |
| Lifecycle.AcceptedRouteRenders | src/Core.php:510-528 | an accepted route on a synchronous request renders without fallback |
| Lifecycle.FallbackWithoutResultStillRenders | src/Core.php:517-528 | when e404 leaves null or a loosely-failed value, a synchronous request is still rendered |
| Lifecycle.NeedsFallback | src/Core.php:517 | the e404 chain runs exactly when the result is not an accepted one (null and loose A_FAILED included) |
| Lifecycle.RendersPage | src/Core.php:526 | rendering needs a synchronous request and a result other than A_FAILED itself; null and loosely-failed results still render |
| Lifecycle.Apply | src/Core.php:394-406 | a handler that calls neither `active()` nor `async()` leaves the core as it was; an active module stays present |
| Lifecycle.Respond | src/Core.php:496-538 | the trace is `Decide` of the security flag, the routing and e404 results and the asynchronous flag the handlers left; routing runs iff security passed; the gate reads the asynchronous flag the security and routing handlers left; no page means empty output |
| Lifecycle.RouteSwitchingToAsyncSuppressesPage | src/Core.php:513-526 | a route that calls `async(true)` on the core suppresses the page even when its action was accepted |
| Lifecycle.SecurityFailureIgnoresRoute | src/Core.php:508-520 | when security fails the routing chain never runs, so the flag stays and e404's result is final |
| Lifecycle.AcceptedRouteOutput | src/Core.php:526-536 | an accepted synchronous route echoes the main template rendered with the active module's view data, after core.render, the renderers and core.rendered |
| CoreSystem.Core.constructor | src/Core.php:45-79 | every field starts at its declared default |
| CoreSystem.Core.Resources | src/Core.php:116-137 | the returned flag, array and new cache equal `PathCache.Resources` of the old cache |
| CoreSystem.Core.Register | src/Core.php:557-558 | the registry becomes `Registered` of the old one |
| CoreSystem.Core.Record | src/Core.php:176-212 | the registry becomes `Recorded` of the old one |
| CoreSystem.Core.FindParent | src/Core.php:218-223 | the loop returns `LastMatch` over the whole iteration order |
| CoreSystem.Core.Link | src/Core.php:214-224 | the registry becomes `Linked` of the old one |
| CoreSystem.Core.Load | src/Core.php:140-251 | the new registry and the outcome equal `LoadStep` of the old registry |
| CoreSystem.Core.Unload | src/Core.php:429-443 | the new registry equals `UnloadStep` of the old one |
| CoreSystem.Core.Active | src/Core.php:394-406 | returns the previous active module; a given module becomes active, otherwise nothing changes |
| CoreSystem.Core.ModuleFor | src/Core.php:409-426 | no argument gives the active module, an object gives itself, an id gives its registered module; the error (None) happens exactly when none of these applies |
| CoreSystem.Core.SetAsync | src/Core.php:352-360 | the asynchronous flag takes the given value |
| CoreSystem.Core.SetPath | src/Core.php:375-386 | the application path becomes `p`; the main template path is prefixed with `p` |
| CoreSystem.Core.SetTemplate | src/Core.php:363-372 | the main template path becomes the active module's path followed by `t` and is returned; with no active module the call is the fatal error (None) and nothing changes |
| CoreSystem.Core.Render | src/Core.php:255-330 | the output, the not-found report and the active module left by the core.render handlers equal `RenderOutput` under the current mode and renderer stack |
| CoreSystem.Core.ApplyEffect | src/Core.php:505-513 | the active module and asynchronous flag become what `Apply` gives for the handler's effect |
| CoreSystem.Core.Start | src/Core.php:492-545 | with no active module the call is the fatal error (None) and nothing changes; otherwise the template is re-rooted under the active module and the response, active module and asynchronous flag equal `Respond` |
| CoreSystem.Core.LoadRequirements | src/Core.php:597-608 | the loop leaves the registry equal to `LoadAll` of the old one over the requirements |
| CoreSystem.Core.RegisterControllers | src/Core.php:628-634 | the loop leaves the registry equal to `RegisterAll` of the old one over `ControllerModules` |
| CoreSystem.Core.Composer | src/Core.php:578-637 | the registry becomes `WithLocal(LoadAll(old registry, requirements), application load stack, application path)` and the 'local' module is active |
| CoreSystem.Core.Sleep | src/Core.php:648-651 | the snapshot holds exactly module_stack, render_mode and view_path |
| CoreSystem.Core.Wakeup | src/Core.php:642-645 | the module registered as 'local' becomes active |
| CoreSystem.Core.Restore | src/Core.php:642-651 | unserialising a snapshot gives back the kept fields, so sleeping again yields the same snapshot, and the 'local' module is active |

## Left out

- Code execution is not modelled: `require`, `include`, `eval`, `extract` and output buffering. The template engine is the oracle `World.eval`, and the locals that `extract` could overwrite are out of scope.
- Events are oracles: `Event::fire`, `Event::signal` and `Event::subscribe`, including `core.started`, `core.ended`, `core.module_loaded`, `core.module.configure` and `core.created`. `Handlers` carries only the values the security, routing, e404, render and rendered subscribers leave behind.
- `echo $output` is not modelled; `Start` returns the text instead.
- CoreSystem.Core.Start: the core.security and core.routing handlers receive the core object; the model lets them change only the active module and the asynchronous flag (`Effect`). Other changes they could make through it (template path, render mode, renderer stack, registry) are not modelled, and the routing result depends only on the default route.
- CoreSystem.Core.Render: the core.render and core.rendered handlers are functions of the html, the data and the active module they receive by reference (`Frame`); they cannot reach other core state.
- `ResourceMap::get`, `toLoadStackFormat`, `AutoLoader::getOnlyNameSpace` and `AutoLoader::className` are uninterpreted fields of `World`.
- `get_class` and `get_parent_class` become the module's `className` and `World.parentOf`.
- The module id is the oracle `World.instanceId`. It stands for what the class constructor and `id()` produce, so the `module_id` argument of `load` is not a parameter: `id()` overwrites it.
- `prepare()` is not modelled; its result is discarded by the source.
- `cached`, `environment`, `subscribe`, `e404` and `generate_template` are not modelled. They are caching, configuration and event plumbing outside the registry.
- The real constructor (`__construct`) is not modelled. It reads the filesystem and fires events; `CoreSystem.Core.constructor` only sets the field defaults, with the path and resource map as arguments.
- The composer's event that builds the dependency list is not modelled; `Composer` takes the list as an argument. The `require_once` of local model files is code execution.
- `src/deprecated/CompressableService.php` is not part of this model: its hooks are empty.
- CoreSystem.Core.Active: `active` is a PHP reference to the module object; the model stores a copy, so a later change through one alias is not seen through the other.
- CoreSystem.Core.Resources: the caller's `ls` is taken and filled by reference and the cache holds the array; the model returns the array and caches a copy, so a later change to the caller's array is not seen in the cache.
- ModuleRegistry.Linked: `parent` is stored as the id of the parent's `module_stack` slot, so an overwrite of that slot is seen through it, as with PHP's reference. After `unload` of the parent, PHP's reference still holds the module while the model's id no longer resolves.
- CoreSystem.Core.Wakeup: when no 'local' module is registered, PHP's reference assignment creates a null 'local' slot in `module_stack`. The model leaves `module_stack` unchanged and makes no module active.
- CoreSystem.Core.SetAsync: takes a boolean; PHP stores any value and tests its truthiness.
- The getter forms of `async()`, `path()` and `template()` are plain reads of `async`, `systemPath` and `templatePath`. They are not separate members.
- ModuleRegistry.Merge: treats every category as a list. `array_merge_recursive` on non-list values (string keys, scalars) is not modelled.
- ModuleRegistry.RequirementParams: array entries are modelled as string-keyed maps. The renumbering that `array_merge` applies to integer keys is not modelled.
- Values.LooselyOne: covers integers, booleans and the string "1". Other numeric strings such as "1.0" or " 1" are not modelled.
- ModuleRegistry.LoadStep: when the path is missing, the source returns the result of `e()` instead of `$this`. The model records this as the outcome `PathMissing`; error reporting (`e()`) is otherwise not modelled.
- Rendering.RenderOutput: when no template is found, `e()` is assumed to return. The raw output is then empty and the `core.render` handlers and renderer stack still run, as the code does.
