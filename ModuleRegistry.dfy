/** The module registry as a value: the ordered table of loaded modules
    (module_stack), the merged per-namespace load stacks (load_stack) and
    the per-module load stacks (load_module_stack), with the effect of
    `load`, `unload` and the composer sweep stated as functions on it. */
module ModuleRegistry {
  import opened Values
  import opened Strings

  datatype Registry = Registry(
    order: seq<ModuleId>,                        // module_stack's iteration order
    modules: map<ModuleId, Module>,              // module_stack
    loadStack: map<Namespace, FileGroups>,       // load_stack
    loadModuleStack: map<ModuleId, FileGroups>)  // load_module_stack

  ghost predicate NoDuplicates(s: seq<ModuleId>)
  {
    forall i, j :: 0 <= i < j < |s| ==> s[i] != s[j]
  }

  /** The iteration order lists every registered id exactly once. */
  ghost predicate Valid(r: Registry)
  {
    NoDuplicates(r.order) && forall id :: id in r.modules <==> id in r.order
  }

  /** Putting `m` into module_stack under its id, as the Module constructor
      does: a new id goes to the end of the iteration order, a known id
      keeps its position and its slot is overwritten. */
  function Registered(r: Registry, m: Module): (r': Registry)
    ensures Valid(r) ==> Valid(r')
    ensures r'.modules == r.modules[m.id := m]
    ensures m.id in r.modules ==> r'.order == r.order
    ensures m.id !in r.modules ==> r'.order == r.order + [m.id]
    ensures r'.loadStack == r.loadStack && r'.loadModuleStack == r.loadModuleStack
  {
    if m.id in r.modules then r.(modules := r.modules[m.id := m])
    else r.(order := r.order + [m.id], modules := r.modules[m.id := m])
  }

  /** `array_merge_recursive` on two load stacks: every category list of
      the result is the first list followed by the second. */
  function Merge(a: FileGroups, b: FileGroups): (m: FileGroups)
    ensures m.Keys == a.Keys + b.Keys
    ensures forall k :: Group(m, k) == Group(a, k) + Group(b, k)
  {
    map k | k in a.Keys + b.Keys :: Group(a, k) + Group(b, k)
  }

  predicate OfClass(modules: map<ModuleId, Module>, id: ModuleId, cls: ClassName)
  {
    id in modules && modules[id].className == cls
  }

  /** `p` names the last id of `order` whose module has class `cls`, or is
      None when no module in `order` has that class. */
  ghost predicate IsLastOfClass(order: seq<ModuleId>, modules: map<ModuleId, Module>, cls: ClassName, p: Option<ModuleId>)
  {
    match p
    case None => forall i :: 0 <= i < |order| ==> !OfClass(modules, order[i], cls)
    case Some(id) =>
      exists i :: 0 <= i < |order| && order[i] == id && OfClass(modules, id, cls) &&
        forall j :: i < j < |order| ==> !OfClass(modules, order[j], cls)
  }

  /** The module the parent scan settles on: the scan has no `break`, so
      the last match in iteration order wins. */
  function LastMatch(order: seq<ModuleId>, modules: map<ModuleId, Module>, cls: ClassName): (p: Option<ModuleId>)
    ensures IsLastOfClass(order, modules, cls, p)
  {
    if |order| == 0 then None
    else if OfClass(modules, order[|order| - 1], cls) then Some(order[|order| - 1])
    else LastMatch(order[..|order| - 1], modules, cls)
  }

  /** The parent class is one of the two built-in module base classes. */
  predicate IsBaseClass(w: World, pc: ClassName)
  {
    pc == w.canonical(EXTERNAL_MODULE) || pc == w.canonical(COMPRESSABLE_MODULE)
  }

  /** The parent slot a new module of class `cls` links to. */
  function ParentLink(r: Registry, w: World, cls: ClassName): (p: Option<ModuleId>)
    ensures w.parentOf(cls).None? || IsBaseClass(w, w.parentOf(cls).value) ==> p.None?
    ensures w.parentOf(cls).Some? && !IsBaseClass(w, w.parentOf(cls).value) ==>
      IsLastOfClass(r.order, r.modules, w.parentOf(cls).value, p)
  {
    match w.parentOf(cls)
    case None => None
    case Some(pc) => if IsBaseClass(w, pc) then None else LastMatch(r.order, r.modules, pc)
  }

  /** The parameters mark the path as a compressable package. */
  predicate Compressable(params: Params): (b: bool)
    ensures b ==> "samsonphp_package_compressable" in params
  {
    "samsonphp_package_compressable" in params && LooselyOne(params["samsonphp_package_compressable"])
  }

  /** How a `load` call ends: the path is missing (the error report is
      returned instead of the core), a module or a compressable package
      was loaded under an id, or the path holds nothing loadable. */
  datatype LoadOutcome = PathMissing | Loaded(id: ModuleId) | PackageLoaded(id: ModuleId) | NotLoadable

  /** The registry once a module of class `cls` found at `path` is
      constructed (and so registered) and its load stack `ls` recorded,
      before the parent scan. */
  function Recorded(r: Registry, w: World, path: Path, params: Params, cls: ClassName, ls: FileGroups): (r': Registry)
    ensures Valid(r) ==> Valid(r')
    ensures var id := w.instanceId(cls, path);
      && r'.modules == r.modules[id := Module(id, cls, path, params, None)]
      && (id in r.modules ==> r'.order == r.order)
      && (id !in r.modules ==> r'.order == r.order + [id])
      && r'.loadModuleStack == r.loadModuleStack[id := ls]
    ensures var ns := w.namespaceOf(cls);
      r'.loadStack == r.loadStack[ns := if ns in r.loadStack then Merge(r.loadStack[ns], ls) else ls]
  {
    var m := Module(w.instanceId(cls, path), cls, path, params, None);
    var r1 := Registered(r, m);
    var ns := w.namespaceOf(cls);
    var merged := if ns in r1.loadStack then Merge(r1.loadStack[ns], ls) else ls;
    r1.(loadModuleStack := r1.loadModuleStack[m.id := ls], loadStack := r1.loadStack[ns := merged])
  }

  /** The end of the parent scan: the module `id` of class `cls` links
      to the module `ParentLink` finds, when there is one. */
  function Linked(r: Registry, w: World, cls: ClassName, id: ModuleId): (r': Registry)
    requires id in r.modules
    ensures Valid(r) ==> Valid(r')
    ensures r'.order == r.order && r'.loadStack == r.loadStack && r'.loadModuleStack == r.loadModuleStack
    ensures r'.modules.Keys == r.modules.Keys
    ensures forall x :: x in r.modules && x != id ==> r'.modules[x] == r.modules[x]
    ensures r'.modules[id] == r.modules[id].(parent := r'.modules[id].parent)
  {
    var p := ParentLink(r, w, cls);
    if p.Some? then r.(modules := r.modules[id := r.modules[id].(parent := p)]) else r
  }

  /** The registry once a compressable package at `path` is constructed as
      a CompressableExternalModule and its load stack `ls` recorded. */
  function PackageRecorded(r: Registry, w: World, path: Path, params: Params, ls: FileGroups): (r': Registry)
    ensures Valid(r) ==> Valid(r')
  {
    var m := Module(w.instanceId(COMPRESSABLE_MODULE, path), COMPRESSABLE_MODULE, path, params, None);
    var r1 := Registered(r, m);
    r1.(loadModuleStack := r1.loadModuleStack[m.id := ls])
  }

  /** The registry after `load(path, _, params)`, and how the call ends. */
  function LoadStep(r: Registry, w: World, path: Path, params: Params): (res: (Registry, LoadOutcome))
    ensures Valid(r) ==> Valid(res.0)
  {
    if path !in w.files then (r, PathMissing)
    else
      var rm := w.discover(path);
      if rm.descriptor.Some? then
        var cls := rm.descriptor.value.className;
        var id := w.instanceId(cls, path);
        (Linked(Recorded(r, w, path, params, cls, rm.loadStack), w, cls, id), Loaded(id))
      else if Compressable(params) then
        (PackageRecorded(r, w, path, params, rm.loadStack), PackageLoaded(w.instanceId(COMPRESSABLE_MODULE, path)))
      else (r, NotLoadable)
  }

  /** `s` without `x`, the rest in their order (PHP's `unset` on an
      ordered array). */
  function Without(s: seq<ModuleId>, x: ModuleId): (t: seq<ModuleId>)
    ensures forall y :: y in t <==> y in s && y != x
    ensures NoDuplicates(s) ==> NoDuplicates(t)
    ensures x !in s ==> t == s
  {
    if |s| == 0 then []
    else if s[0] == x then Without(s[1..], x)
    else
      HeadNotInTail(s);
      [s[0]] + Without(s[1..], x)
  }

  lemma HeadNotInTail(s: seq<ModuleId>)
    requires |s| > 0
    ensures NoDuplicates(s) ==> NoDuplicates(s[1..]) && s[0] !in s[1..]
  {
    if NoDuplicates(s) {
      forall k | 0 <= k < |s| - 1 ensures s[1..][k] != s[0] {
        assert s[1..][k] == s[k + 1];
      }
    }
  }

  /** Removing `x` keeps the order of the rest: the last id of `s + [y]`
      survives as the last one unless it is `x`. */
  lemma {:induction false} WithoutSnoc(s: seq<ModuleId>, y: ModuleId, x: ModuleId)
    ensures Without(s + [y], x) == Without(s, x) + (if y == x then [] else [y])
    decreases |s|
  {
    if |s| == 0 {
      assert s + [y] == [y];
      assert [y][1..] == [];
    } else {
      assert (s + [y])[0] == s[0];
      assert (s + [y])[1..] == s[1..] + [y];
      WithoutSnoc(s[1..], y, x);
    }
  }

  /** The registry after `unload(id)`: the module and its namespace's
      whole merged load stack are dropped; an unknown id changes nothing. */
  function UnloadStep(r: Registry, w: World, id: ModuleId): (r': Registry)
    ensures Valid(r) ==> Valid(r')
  {
    if id in r.modules then
      var ns := w.namespaceOf(r.modules[id].className);
      r.(order := Without(r.order, id), modules := r.modules - {id}, loadStack := r.loadStack - {ns})
    else r
  }

  /** One entry of the dependency list the composer sweep walks. */
  datatype ComposerParams = ArrayOf(entries: Params) | Single(v: Scalar)
  datatype Requirement = Requirement(name: string, params: ComposerParams)

  /** `array_merge(is_array($p) ? $p : array($p), array('module_id' => name))`. */
  function RequirementParams(q: Requirement): (p: Params)
    ensures "module_id" in p && p["module_id"] == StrVal(q.name)
    ensures q.params.ArrayOf? ==> forall k :: k in q.params.entries && k != "module_id" ==> k in p && p[k] == q.params.entries[k]
    ensures q.params.ArrayOf? ==> p.Keys == q.params.entries.Keys + {"module_id"}
    ensures q.params.Single? ==> p == map["0" := q.params.v, "module_id" := StrVal(q.name)]
  {
    var base := match q.params
      case ArrayOf(e) => e
      case Single(v) => map["0" := v];
    base["module_id" := StrVal(q.name)]
  }

  function RequirementPath(w: World, q: Requirement): Path
  {
    w.cwd + w.vendorPath + q.name
  }

  /** The registry after loading every requirement in order. */
  function LoadAll(r: Registry, w: World, reqs: seq<Requirement>): (r': Registry)
    ensures Valid(r) ==> Valid(r')
    decreases |reqs|
  {
    if |reqs| == 0 then r
    else
      var q := reqs[|reqs| - 1];
      LoadStep(LoadAll(r, w, reqs[..|reqs| - 1]), w, RequirementPath(w, q), RequirementParams(q)).0
  }

  /** A local module, created with an explicit id at the application path. */
  function LocalModule(id: ModuleId, systemPath: Path): Module
  {
    Module(id, LOCAL_MODULE, systemPath, map[], None)
  }

  /** The registry after registering each module in turn. */
  function RegisterAll(r: Registry, ms: seq<Module>): (r': Registry)
    ensures Valid(r) ==> Valid(r')
    decreases |ms|
  {
    if |ms| == 0 then r else Registered(RegisterAll(r, ms[..|ms| - 1]), ms[|ms| - 1])
  }

  /** Registering one more module extends the fold by one step. */
  lemma RegisterAllStep(r: Registry, ms: seq<Module>, j: nat)
    requires j < |ms|
    ensures RegisterAll(r, ms[..j + 1]) == Registered(RegisterAll(r, ms[..j]), ms[j])
  {
    assert ms[..j + 1][..j] == ms[..j];
  }

  /** One local module per controller file, named by its basename. */
  function ControllerModules(controllers: seq<Path>, systemPath: Path): (ms: seq<Module>)
    ensures |ms| == |controllers|
    ensures forall i :: 0 <= i < |ms| ==> ms[i] == LocalModule(Basename(controllers[i], ".php"), systemPath)
  {
    seq(|controllers|, i requires 0 <= i < |controllers| => LocalModule(Basename(controllers[i], ".php"), systemPath))
  }

  /** The registry after the composer sweep's local part: the application's
      load stack is stored under 'local' in both stacks, the 'local' module
      is registered, then one module per local controller. */
  function WithLocal(r: Registry, local: FileGroups, systemPath: Path): (r': Registry)
    ensures Valid(r) ==> Valid(r')
  {
    var r1 := r.(loadStack := r.loadStack["local" := local], loadModuleStack := r.loadModuleStack["local" := local]);
    RegisterAll(Registered(r1, LocalModule("local", systemPath)), ControllerModules(Group(local, "controllers"), systemPath))
  }
}
