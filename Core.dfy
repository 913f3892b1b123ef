/** The framework core object: the registry fields it updates in place,
    the path cache, the render settings, and the operations on them, each
    proved against the functions of ModuleRegistry, PathCache, Rendering
    and Lifecycle. */
module CoreSystem {
  import opened Values
  import opened Strings
  import opened ModuleRegistry
  import opened PathCache
  import opened Rendering
  import opened Lifecycle

  /** The fields `__sleep` keeps across serialisation. */
  datatype Snapshot = Snapshot(order: seq<ModuleId>, modules: map<ModuleId, Module>, renderMode: int, viewPath: string)

  /** The argument of `module()`: none, a module object, a module id, or
      anything else. */
  datatype ModuleRef = NoArg | Object(m: Module) | Name(id: string) | Other

  class Core {
    var loadPathStack: map<Path, FileGroups>
    var loadStack: map<Namespace, FileGroups>
    var loadModuleStack: map<ModuleId, FileGroups>
    var renderStack: seq<Renderer>
    var appMap: ResourceMap
    var moduleOrder: seq<ModuleId>
    var moduleStack: map<ModuleId, Module>
    var active: Option<Module>
    var async: bool
    var templatePath: Path
    var systemPath: Path
    var viewPath: string
    var renderMode: int

    /** The registry fields as one value. */
    ghost function Reg(): Registry
      reads this
    {
      Registry(moduleOrder, moduleStack, loadStack, loadModuleStack)
    }

    ghost predicate Valid()
      reads this
    {
      ModuleRegistry.Valid(Reg())
    }

    /** The property defaults, with the application path and resource map
        the real constructor computes. */
    constructor (systemPath: Path, templatePath: Path, appMap: ResourceMap)
      ensures Valid() && Reg() == Registry([], map[], map[], map[])
      ensures this.systemPath == systemPath && this.templatePath == templatePath && this.appMap == appMap
      ensures loadPathStack == map[] && renderStack == [] && active == None && !async
      ensures viewPath == "" && renderMode == RENDER_STANDART
    {
      loadPathStack, loadStack, loadModuleStack := map[], map[], map[];
      renderStack := [];
      this.appMap := appMap;
      moduleOrder, moduleStack := [], map[];
      active, async := None, false;
      this.templatePath, this.systemPath := templatePath, systemPath;
      viewPath, renderMode := "", RENDER_STANDART;
    }

    /** `resources(path, ls)`: the first call for a path fills the caller's
        array from the resource indexer and caches it; later calls copy the
        cached array out. */
    method Resources(path: Path, ls: FileGroups, w: World) returns (discovered: bool, groups: FileGroups)
      modifies this`loadPathStack
      ensures PathCache.Lookup(discovered, groups, loadPathStack) == PathCache.Resources(old(loadPathStack), w, path, ls)
    {
      if path !in loadPathStack {
        groups := Filled(ls, w.discover(path));
        loadPathStack := loadPathStack[path := groups];
        discovered := true;
      } else {
        groups := loadPathStack[path];
        discovered := false;
      }
    }

    /** What constructing a module does to the core: the module puts
        itself into module_stack under its id. */
    method Register(m: Module)
      requires Valid()
      modifies this`moduleOrder, this`moduleStack
      ensures Valid() && Reg() == Registered(old(Reg()), m)
    {
      if m.id !in moduleStack {
        moduleOrder := moduleOrder + [m.id];
      }
      moduleStack := moduleStack[m.id := m];
    }

    /** The first half of the module-object branch of `load`: construct
        the module and merge its file groups into the load stacks. */
    method Record(path: Path, params: Params, cls: ClassName, ls: FileGroups, w: World)
      requires Valid()
      modifies this`moduleOrder, this`moduleStack, this`loadStack, this`loadModuleStack
      ensures Valid() && Reg() == Recorded(old(Reg()), w, path, params, cls, ls)
    {
      var id := w.instanceId(cls, path);
      Register(Module(id, cls, path, params, None));
      var ns := w.namespaceOf(cls);
      loadModuleStack := loadModuleStack[id := ls];
      if ns !in loadStack {
        loadStack := loadStack[ns := ls];
      } else {
        loadStack := loadStack[ns := Merge(loadStack[ns], ls)];
      }
    }

    /** The parent scan of `load`: every registered module of class `pc`
        in registration order; no early exit, so the last one is kept. */
    method FindParent(pc: ClassName) returns (parent: Option<ModuleId>)
      requires Valid()
      ensures parent == LastMatch(moduleOrder, moduleStack, pc)
    {
      parent := None;
      var i := 0;
      while i < |moduleOrder|
        invariant 0 <= i <= |moduleOrder|
        invariant parent == LastMatch(moduleOrder[..i], moduleStack, pc)
      {
        var candidate := moduleOrder[i];
        if moduleStack[candidate].className == pc {
          parent := Some(candidate);
        }
        assert moduleOrder[..i + 1][..i] == moduleOrder[..i];
        i := i + 1;
      }
      assert moduleOrder[..i] == moduleOrder;
    }

    /** The second half of the module-object branch of `load`: link the
        new module to its parent module unless the parent class is one of
        the framework's base classes. */
    method Link(cls: ClassName, id: ModuleId, w: World)
      requires Valid() && id in moduleStack
      modifies this`moduleStack
      ensures Valid() && Reg() == Linked(old(Reg()), w, cls, id)
    {
      var pc := w.parentOf(cls);
      var parent: Option<ModuleId> := None;
      if pc.Some? && !IsBaseClass(w, pc.value) {
        parent := FindParent(pc.value);
      }
      if parent.Some? {
        moduleStack := moduleStack[id := moduleStack[id].(parent := parent)];
      }
    }

    /** `load(path, _, params)`. */
    method Load(path: Path, params: Params, w: World) returns (outcome: LoadOutcome)
      requires Valid()
      modifies this`moduleOrder, this`moduleStack, this`loadStack, this`loadModuleStack
      ensures Valid()
      ensures (Reg(), outcome) == LoadStep(old(Reg()), w, path, params)
    {
      if path !in w.files {
        return PathMissing;
      }
      var rm := w.discover(path);
      if rm.descriptor.Some? {
        var cls := rm.descriptor.value.className;
        var id := w.instanceId(cls, path);
        Record(path, params, cls, rm.loadStack, w);
        Link(cls, id, w);
        outcome := Loaded(id);
      } else if Compressable(params) {
        var id := w.instanceId(COMPRESSABLE_MODULE, path);
        Register(Module(id, COMPRESSABLE_MODULE, path, params, None));
        loadModuleStack := loadModuleStack[id := rm.loadStack];
        assert Reg() == PackageRecorded(old(Reg()), w, path, params, rm.loadStack);
        outcome := PackageLoaded(id);
      } else {
        outcome := NotLoadable;
      }
    }

    /** `unload(id)`. */
    method Unload(id: ModuleId, w: World)
      requires Valid()
      modifies this`moduleOrder, this`moduleStack, this`loadStack
      ensures Valid() && Reg() == UnloadStep(old(Reg()), w, id)
    {
      if id in moduleStack {
        var ns := w.namespaceOf(moduleStack[id].className);
        if ns in loadStack {
          loadStack := loadStack - {ns};
        }
        moduleStack := moduleStack - {id};
        moduleOrder := Without(moduleOrder, id);
      }
    }

    /** `active(m)` / `active()`: hand back the current module, making `m`
        the active one when one is given. */
    method Active(m: Option<Module>) returns (previous: Option<Module>)
      modifies this`active
      ensures previous == old(active)
      ensures active == if m.Some? then m else old(active)
    {
      previous := active;
      if m.Some? {
        active := m;
      }
    }

    /** `module(ref)`: the active module, the object itself, or the module
        registered under the id; None is the "module not found" error. */
    function ModuleFor(ref: ModuleRef): (r: Option<Module>)
      reads this
      ensures r.None? <==> (ref.NoArg? && active.None?) || (ref.Name? && ref.id !in moduleStack) || ref.Other?
      ensures ref.NoArg? ==> r == active
      ensures ref.Object? ==> r == Some(ref.m)
      ensures ref.Name? && ref.id in moduleStack ==> r == Some(moduleStack[ref.id])
    {
      match ref
      case NoArg => active
      case Object(m) => Some(m)
      case Name(id) => if id in moduleStack then Some(moduleStack[id]) else None
      case Other => None
    }

    /** `async(x)`. */
    method SetAsync(x: bool)
      modifies this`async
      ensures async == x
    {
      async := x;
    }

    /** `path(p)`: the application path becomes `p` and the main template
        path is re-rooted under it. */
    method SetPath(p: Path)
      modifies this`templatePath, this`systemPath
      ensures systemPath == p && templatePath == p + old(templatePath)
    {
      templatePath := p + templatePath;
      systemPath := p;
    }

    /** `template(t)`: the main template path becomes `t` under the active
        module's path. None is the fatal error of calling `path()` when no
        module is active; nothing changes then. */
    method SetTemplate(t: Path) returns (current: Option<Path>)
      modifies this`templatePath
      ensures active.None? ==> current.None? && templatePath == old(templatePath)
      ensures active.Some? ==> templatePath == active.value.path + t && current == Some(templatePath)
    {
      if active.None? {
        return None;
      }
      templatePath := active.value.path + t;
      current := Some(templatePath);
    }

    /** `render(view, data)`. The core.render handlers receive the active
        module by reference, so rendering may change it. */
    method Render(view: Path, data: Data, w: World, h: Handlers) returns (html: string, notFound: bool)
      modifies this`active
      ensures RenderResult(html, notFound, active) == RenderOutput(renderMode, renderStack, old(active), view, data, w, h.onRender)
    {
      var s := SelectView(renderMode, view, w);
      var raw := if s.Chosen? then w.eval(s.t, data) else "";
      notFound := s.NotFound?;
      var f := h.onRender(Frame(raw, data, active));
      active := f.active;
      html := f.html;
      var i := 0;
      while i < |renderStack|
        invariant 0 <= i <= |renderStack|
        invariant active == f.active
        invariant html == PostProcess(renderStack[..i], f.html, f.data, f.active)
      {
        html := renderStack[i](html, f.data, active);
        assert renderStack[..i + 1][..i] == renderStack[..i];
        i := i + 1;
      }
      assert renderStack[..i] == renderStack;
    }

    /** What a handler handed the core does to it, through `active(m)` and
        `async(x)`. */
    method ApplyEffect(e: Effect)
      modifies this`active, this`async
      ensures Session(active, async) == Apply(Session(old(active), old(async)), e)
    {
      var _ := Active(e.activate);
      if e.async.Some? {
        SetAsync(e.async.value);
      }
    }

    /** `start(default)`: the response holds what is echoed to the client.
        None is the fatal error of `template()` when no module is active. */
    method Start(default: string, w: World, h: Handlers) returns (response: Option<Response>)
      modifies this`templatePath, this`active, this`async
      ensures old(active).None? ==>
        response.None? && templatePath == old(templatePath) && active == old(active) && async == old(async)
      ensures old(active).Some? ==>
        var tp := old(active).value.path + old(templatePath);
        && templatePath == tp
        && response == Some(Respond(old(active).value, old(async), renderMode, renderStack, tp, default, w, h))
        && active == response.value.active && async == response.value.async
    {
      var current := SetTemplate(templatePath);
      if current.None? {
        return None;
      }
      ApplyEffect(h.security.effect);
      var result := Failed;
      if h.security.passed {
        var routing := h.routing(default);
        result := routing.result;
        ApplyEffect(routing.effect);
      }
      var fallback := NeedsFallback(result);
      if fallback {
        result := h.e404;
      }
      var rendered := RendersPage(async, result);
      var output := "";
      if rendered {
        var data := h.toView(active.value);
        var html, _ := Render(templatePath, data, w, h);
        var f := h.onRendered(Frame(html, data, active));
        active := f.active;
        output := f.html;
      }
      response := Some(Response(output, Trace(h.security.passed, fallback, result, rendered), active, async));
    }

    /** The requirement loop of `composer`: each requirement is loaded from
        the vendor directory, in order. */
    method LoadRequirements(reqs: seq<Requirement>, w: World)
      requires Valid()
      modifies this`moduleOrder, this`moduleStack, this`loadStack, this`loadModuleStack
      ensures Valid() && Reg() == LoadAll(old(Reg()), w, reqs)
    {
      var i := 0;
      while i < |reqs|
        invariant 0 <= i <= |reqs|
        invariant Valid()
        invariant Reg() == LoadAll(old(Reg()), w, reqs[..i])
      {
        var q := reqs[i];
        var _ := Load(RequirementPath(w, q), RequirementParams(q), w);
        assert reqs[..i + 1][..i] == reqs[..i];
        i := i + 1;
      }
      assert reqs[..i] == reqs;
    }

    /** The controller loop of `composer`: one local module per controller
        file, named by its basename. */
    method RegisterControllers(controllers: seq<Path>)
      requires Valid()
      modifies this`moduleOrder, this`moduleStack
      ensures Valid() && Reg() == RegisterAll(old(Reg()), ControllerModules(controllers, systemPath))
    {
      ghost var ms := ControllerModules(controllers, systemPath);
      var j := 0;
      while j < |controllers|
        invariant 0 <= j <= |controllers|
        invariant Valid()
        invariant Reg() == RegisterAll(old(Reg()), ms[..j])
      {
        assert ms[j] == LocalModule(Basename(controllers[j], ".php"), systemPath);
        RegisterAllStep(old(Reg()), ms, j);
        Register(LocalModule(Basename(controllers[j], ".php"), systemPath));
        j := j + 1;
      }
      assert ms[..j] == ms;
    }

    /** `composer()`: load every requirement from the vendor directory,
        then set up the local module and one module per local controller. */
    method Composer(reqs: seq<Requirement>, w: World)
      requires Valid()
      modifies this`moduleOrder, this`moduleStack, this`loadStack, this`loadModuleStack, this`active
      ensures Valid()
      ensures Reg() == WithLocal(LoadAll(old(Reg()), w, reqs), appMap.loadStack, systemPath)
      ensures active == Some(LocalModule("local", systemPath))
    {
      LoadRequirements(reqs, w);
      var local := appMap.loadStack;
      loadStack := loadStack["local" := local];
      loadModuleStack := loadModuleStack["local" := local];
      var localModule := LocalModule("local", systemPath);
      Register(localModule);
      active := Some(localModule);
      RegisterControllers(Group(local, "controllers"));
    }

    /** `__sleep`: the fields kept across serialisation. */
    function Sleep(): (s: Snapshot)
      reads this
      ensures s.order == moduleOrder && s.modules == moduleStack
      ensures s.renderMode == renderMode && s.viewPath == viewPath
    {
      Snapshot(moduleOrder, moduleStack, renderMode, viewPath)
    }

    /** `__wakeup`: the module registered as 'local' becomes active. */
    method Wakeup()
      modifies this`active
      ensures active == if "local" in moduleStack then Some(moduleStack["local"]) else None
    {
      if "local" in moduleStack {
        active := Some(moduleStack["local"]);
      } else {
        active := None;
      }
    }

    /** Unserialising a snapshot: the kept fields come back, every other
        field takes its declared default, then `__wakeup` runs. */
    constructor Restore(s: Snapshot, systemPath: Path, templatePath: Path, appMap: ResourceMap)
      requires ModuleRegistry.Valid(Registry(s.order, s.modules, map[], map[]))
      ensures Valid() && Sleep() == s
      ensures loadStack == map[] && loadModuleStack == map[] && loadPathStack == map[]
      ensures active == if "local" in s.modules then Some(s.modules["local"]) else None
    {
      loadPathStack, loadStack, loadModuleStack := map[], map[], map[];
      renderStack := [];
      this.appMap := appMap;
      moduleOrder, moduleStack := s.order, s.modules;
      active, async := None, false;
      this.templatePath, this.systemPath := templatePath, systemPath;
      viewPath, renderMode := s.viewPath, s.renderMode;
      new;
      Wakeup();
    }
  }
}
