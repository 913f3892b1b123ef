/** What `load`, `unload` and the composer sweep do to the registry,
    stated over the functions of ModuleRegistry. */
module RegistryProperties {
  import opened Values
  import opened Strings
  import opened ModuleRegistry

  /** A missing path is reported and changes nothing. */
  lemma LoadMissingPath(r: Registry, w: World, path: Path, params: Params)
    requires path !in w.files
    ensures LoadStep(r, w, path, params) == (r, PathMissing)
  {
  }

  /** Loading a path that declares a module controller registers the
      instance under the id it reports, stores its own load stack under
      that id, and stores or appends that load stack under its namespace;
      no other namespace and no other id's load stack changes. */
  lemma LoadModuleBookkeeping(r: Registry, w: World, path: Path, params: Params)
    requires path in w.files && w.discover(path).descriptor.Some?
    ensures
      var rm := w.discover(path);
      var cls := rm.descriptor.value.className;
      var id := w.instanceId(cls, path);
      var ns := w.namespaceOf(cls);
      var res := LoadStep(r, w, path, params);
      && res.1 == Loaded(id)
      && res.0.modules.Keys == r.modules.Keys + {id}
      && (id in r.modules ==> res.0.order == r.order)
      && (id !in r.modules ==> res.0.order == r.order + [id])
      && res.0.modules[id].className == cls
      && res.0.modules[id].path == path
      && res.0.modules[id].params == params
      && res.0.loadModuleStack == r.loadModuleStack[id := rm.loadStack]
      && res.0.loadStack.Keys == r.loadStack.Keys + {ns}
      && (ns !in r.loadStack ==> res.0.loadStack[ns] == rm.loadStack)
      && (ns in r.loadStack ==>
            forall k :: Group(res.0.loadStack[ns], k) == Group(r.loadStack[ns], k) + Group(rm.loadStack, k))
      && (forall n :: n in r.loadStack && n != ns ==> res.0.loadStack[n] == r.loadStack[n])
  {
  }

  /** Two module maps whose entries carry the same class names. */
  ghost predicate SameClasses(a: map<ModuleId, Module>, b: map<ModuleId, Module>)
  {
    a.Keys == b.Keys && forall x :: x in a ==> a[x].className == b[x].className
  }

  /** The parent scan only looks at class names. */
  lemma {:induction false} LastMatchSameClasses(order: seq<ModuleId>, a: map<ModuleId, Module>, b: map<ModuleId, Module>, cls: ClassName)
    requires SameClasses(a, b)
    ensures LastMatch(order, a, cls) == LastMatch(order, b, cls)
    decreases |order|
  {
    if |order| > 0 {
      LastMatchSameClasses(order[..|order| - 1], a, b, cls);
    }
  }

  /** The parent link of a freshly loaded module: none when its class has
      no parent or extends one of the two built-in base classes; otherwise
      the last registered module, in iteration order, whose class is the
      parent class, and none when there is no such module. */
  lemma LoadParentLink(r: Registry, w: World, path: Path, params: Params)
    requires path in w.files && w.discover(path).descriptor.Some?
    ensures
      var cls := w.discover(path).descriptor.value.className;
      var id := w.instanceId(cls, path);
      var r' := LoadStep(r, w, path, params).0;
      && id in r'.modules
      && (w.parentOf(cls).None? || IsBaseClass(w, w.parentOf(cls).value) ==> r'.modules[id].parent == None)
      && (w.parentOf(cls).Some? && !IsBaseClass(w, w.parentOf(cls).value) ==>
            IsLastOfClass(r'.order, r'.modules, w.parentOf(cls).value, r'.modules[id].parent))
      && (w.parentOf(cls) != Some(cls) ==> r'.modules[id].parent != Some(id))
  {
    var rm := w.discover(path);
    var cls := rm.descriptor.value.className;
    var id := w.instanceId(cls, path);
    var r2 := Recorded(r, w, path, params, cls, rm.loadStack);
    var p := ParentLink(r2, w, cls);
    var r' := LoadStep(r, w, path, params).0;
    assert r'.order == r2.order && r'.modules[id].parent == p;
    assert SameClasses(r2.modules, r'.modules);
    if w.parentOf(cls).Some? && !IsBaseClass(w, w.parentOf(cls).value) {
      var pc := w.parentOf(cls).value;
      LastMatchSameClasses(r2.order, r2.modules, r'.modules, pc);
      if p.Some? && pc != cls {
        assert OfClass(r'.modules, p.value, pc);
        assert r'.modules[id].className == cls;
      }
    }
  }

  /** The compressable-package branch registers the connector and stores
      its load stack under its id; it touches no namespace load stack and
      links no parent. */
  lemma LoadPackageBookkeeping(r: Registry, w: World, path: Path, params: Params)
    requires path in w.files && w.discover(path).descriptor.None? && Compressable(params)
    ensures
      var id := w.instanceId(COMPRESSABLE_MODULE, path);
      var res := LoadStep(r, w, path, params);
      && res.1 == PackageLoaded(id)
      && res.0.modules == r.modules[id := Module(id, COMPRESSABLE_MODULE, path, params, None)]
      && (id in r.modules ==> res.0.order == r.order)
      && (id !in r.modules ==> res.0.order == r.order + [id])
      && res.0.loadModuleStack == r.loadModuleStack[id := w.discover(path).loadStack]
      && res.0.loadStack == r.loadStack
  {
  }

  /** The compressable flag is compared loosely with 1: the integer 1,
      true and the string "1" set it; 0, false, "yes" and a missing flag
      do not. */
  lemma CompressableFlag(params: Params)
    ensures Compressable(params["samsonphp_package_compressable" := IntVal(1)])
    ensures Compressable(params["samsonphp_package_compressable" := BoolVal(true)])
    ensures Compressable(params["samsonphp_package_compressable" := StrVal("1")])
    ensures !Compressable(params["samsonphp_package_compressable" := IntVal(0)])
    ensures !Compressable(params["samsonphp_package_compressable" := BoolVal(false)])
    ensures !Compressable(params["samsonphp_package_compressable" := StrVal("yes")])
    ensures !Compressable(params - {"samsonphp_package_compressable"})
  {
  }

  /** A path with neither a module controller nor the compressable flag is
      reported and records nothing. */
  lemma LoadNothingLoadable(r: Registry, w: World, path: Path, params: Params)
    requires path in w.files && w.discover(path).descriptor.None? && !Compressable(params)
    ensures LoadStep(r, w, path, params) == (r, NotLoadable)
  {
  }

  /** Loading never alters another module: every module registered under
      a different id keeps its record (so its parent link is never
      re-evaluated) and its own load stack. */
  lemma LoadKeepsOtherModules(r: Registry, w: World, path: Path, params: Params)
    ensures
      var res := LoadStep(r, w, path, params);
      forall x :: x in r.modules && !(res.1.Loaded? && res.1.id == x) && !(res.1.PackageLoaded? && res.1.id == x) ==>
        && x in res.0.modules && res.0.modules[x] == r.modules[x]
        && (x in r.loadModuleStack ==> x in res.0.loadModuleStack && res.0.loadModuleStack[x] == r.loadModuleStack[x])
  {
  }

  /** No duplicate check: loading the same module path twice keeps one
      registry entry for the id but appends the module's load stack to its
      namespace a second time. */
  lemma LoadTwiceAppendsAgain(r: Registry, w: World, path: Path, params: Params)
    requires Valid(r) && path in w.files && w.discover(path).descriptor.Some?
    ensures
      var rm := w.discover(path);
      var ns := w.namespaceOf(rm.descriptor.value.className);
      var r1 := LoadStep(r, w, path, params).0;
      var r2 := LoadStep(r1, w, path, params).0;
      && r2.order == r1.order
      && r2.modules.Keys == r1.modules.Keys
      && ns in r1.loadStack && ns in r2.loadStack
      && forall k :: Group(r2.loadStack[ns], k) == Group(r1.loadStack[ns], k) + Group(rm.loadStack, k)
  {
    LoadModuleBookkeeping(r, w, path, params);
    var r1 := LoadStep(r, w, path, params).0;
    LoadModuleBookkeeping(r1, w, path, params);
  }

  /** Unloading a loaded id removes it and its namespace's entire merged
      load stack, and nothing else: other ids, other namespaces and all
      per-module load stacks stay as they were. */
  lemma UnloadLoaded(r: Registry, w: World, id: ModuleId)
    requires id in r.modules
    ensures
      var ns := w.namespaceOf(r.modules[id].className);
      var r' := UnloadStep(r, w, id);
      && r'.modules == r.modules - {id}
      && r'.loadStack == r.loadStack - {ns}
      && r'.loadModuleStack == r.loadModuleStack
      && (forall x :: x in r'.order <==> x in r.order && x != id)
      && r'.order == Without(r.order, id)
      && (forall cls :: LastMatch(r'.order, r'.modules, cls) == LastMatch(r.order, r.modules - {id}, cls))
      && (forall cls :: LastMatch(r.order, r.modules, cls) != Some(id) ==>
            LastMatch(r'.order, r'.modules, cls) == LastMatch(r.order, r.modules, cls))
  {
    var r' := UnloadStep(r, w, id);
    forall cls
      ensures LastMatch(r'.order, r'.modules, cls) == LastMatch(r.order, r.modules - {id}, cls)
      ensures LastMatch(r.order, r.modules, cls) != Some(id) ==>
        LastMatch(r'.order, r'.modules, cls) == LastMatch(r.order, r.modules, cls)
    {
      LastMatchWithout(r.order, r.modules - {id}, id, cls);
      if LastMatch(r.order, r.modules, cls) != Some(id) {
        LastMatchDropOther(r.order, r.modules, id, cls);
      }
    }
  }

  /** The parent scan skips ids that are not registered, so dropping such
      an id from the iteration order does not change where it lands. */
  lemma {:induction false} LastMatchWithout(order: seq<ModuleId>, modules: map<ModuleId, Module>, x: ModuleId, cls: ClassName)
    requires x !in modules
    ensures LastMatch(Without(order, x), modules, cls) == LastMatch(order, modules, cls)
    decreases |order|
  {
    if |order| > 0 {
      var init, y := order[..|order| - 1], order[|order| - 1];
      assert order == init + [y];
      WithoutSnoc(init, y, x);
      LastMatchWithout(init, modules, x, cls);
      var t := Without(init, x);
      if y == x {
        assert t + [] == t;
      } else {
        assert (t + [y])[..|t|] == t;
      }
    }
  }

  /** Unregistering a module the parent scan does not land on leaves the
      scan's answer unchanged. */
  lemma {:induction false} LastMatchDropOther(order: seq<ModuleId>, modules: map<ModuleId, Module>, id: ModuleId, cls: ClassName)
    requires LastMatch(order, modules, cls) != Some(id)
    ensures LastMatch(order, modules - {id}, cls) == LastMatch(order, modules, cls)
    decreases |order|
  {
    if |order| > 0 && !OfClass(modules, order[|order| - 1], cls) {
      LastMatchDropOther(order[..|order| - 1], modules, id, cls);
    }
  }

  /** Unloading an unknown id does nothing. */
  lemma UnloadUnknown(r: Registry, w: World, id: ModuleId)
    requires id !in r.modules
    ensures UnloadStep(r, w, id) == r
  {
  }

  /** Broad invalidation: modules A and B of one namespace are loaded, A is
      unloaded; B stays registered but the namespace's merged load stack is
      gone altogether, B's share included. */
  lemma UnloadDropsSharedNamespace(r: Registry, w: World, pa: Path, pb: Path, pa_params: Params, pb_params: Params)
    requires Valid(r)
    requires pa in w.files && w.discover(pa).descriptor.Some?
    requires pb in w.files && w.discover(pb).descriptor.Some?
    requires
      var ca := w.discover(pa).descriptor.value.className;
      var cb := w.discover(pb).descriptor.value.className;
      w.namespaceOf(ca) == w.namespaceOf(cb) && w.instanceId(ca, pa) != w.instanceId(cb, pb)
    ensures
      var ca := w.discover(pa).descriptor.value.className;
      var cb := w.discover(pb).descriptor.value.className;
      var r1 := LoadStep(r, w, pa, pa_params).0;
      var r2 := LoadStep(r1, w, pb, pb_params).0;
      var r3 := UnloadStep(r2, w, w.instanceId(ca, pa));
      && w.namespaceOf(ca) in r2.loadStack
      && w.instanceId(cb, pb) in r3.modules
      && w.namespaceOf(ca) !in r3.loadStack
  {
    var ca := w.discover(pa).descriptor.value.className;
    var cb := w.discover(pb).descriptor.value.className;
    LoadModuleBookkeeping(r, w, pa, pa_params);
    var r1 := LoadStep(r, w, pa, pa_params).0;
    LoadModuleBookkeeping(r1, w, pb, pb_params);
    LoadKeepsOtherModules(r1, w, pb, pb_params);
    var r2 := LoadStep(r1, w, pb, pb_params).0;
    assert w.instanceId(ca, pa) in r2.modules;
    assert r2.modules[w.instanceId(ca, pa)].className == ca;
    UnloadLoaded(r2, w, w.instanceId(ca, pa));
  }

  /** Loading never drops a registered id. */
  lemma LoadKeepsIds(r: Registry, w: World, path: Path, params: Params)
    ensures r.modules.Keys <= LoadStep(r, w, path, params).0.modules.Keys
  {
  }

  /** The composer sweep over `a + b` is the sweep over `a` followed by the
      sweep over `b`: requirements are loaded one after another in order. */
  lemma {:induction false} LoadAllAppend(r: Registry, w: World, a: seq<Requirement>, b: seq<Requirement>)
    ensures LoadAll(r, w, a + b) == LoadAll(LoadAll(r, w, a), w, b)
    decreases |b|
  {
    if |b| == 0 {
      assert a + b == a;
    } else {
      assert (a + b)[..|a + b| - 1] == a + b[..|b| - 1];
      assert (a + b)[|a + b| - 1] == b[|b| - 1];
      LoadAllAppend(r, w, a, b[..|b| - 1]);
    }
  }

  /** The composer sweep never drops a registered id. */
  lemma {:induction false} LoadAllKeepsIds(r: Registry, w: World, reqs: seq<Requirement>)
    ensures r.modules.Keys <= LoadAll(r, w, reqs).modules.Keys
    decreases |reqs|
  {
    if |reqs| > 0 {
      var q := reqs[|reqs| - 1];
      LoadAllKeepsIds(r, w, reqs[..|reqs| - 1]);
      LoadKeepsIds(LoadAll(r, w, reqs[..|reqs| - 1]), w, RequirementPath(w, q), RequirementParams(q));
    }
  }

  /** Some module of `ms` has id `x`. */
  ghost predicate HasId(ms: seq<Module>, x: ModuleId)
  {
    exists i :: 0 <= i < |ms| && ms[i].id == x
  }

  /** Registering a list of modules adds exactly their ids and leaves both
      load stacks alone. */

  lemma {:induction false} RegisterAllEffect(r: Registry, ms: seq<Module>)
    ensures
      var r' := RegisterAll(r, ms);
      && r'.loadStack == r.loadStack && r'.loadModuleStack == r.loadModuleStack
      && forall x :: x in r'.modules <==> x in r.modules || HasId(ms, x)
    decreases |ms|
  {
    if |ms| > 0 {
      var init := ms[..|ms| - 1];
      RegisterAllEffect(r, init);
      forall x ensures HasId(ms, x) <==> HasId(init, x) || x == ms[|ms| - 1].id
      {
        if HasId(ms, x) {
          var i :| 0 <= i < |ms| && ms[i].id == x;
          if i < |init| { assert init[i] == ms[i]; }
        }
        if HasId(init, x) {
          var i :| 0 <= i < |init| && init[i].id == x;
          assert ms[i] == init[i];
        }
        if x == ms[|ms| - 1].id {
          assert ms[|ms| - 1].id == x;
        }
      }
    }
  }

  /** The local part of the composer sweep stores the application's load
      stack under 'local' in both stacks, replacing (not merging) any
      earlier entry, and leaves a module registered under 'local' and
      under the basename of every local controller file. */
  lemma LocalEntries(r: Registry, local: FileGroups, systemPath: Path)
    ensures
      var r' := WithLocal(r, local, systemPath);
      var cs := Group(local, "controllers");
      && r'.loadStack == r.loadStack["local" := local]
      && r'.loadModuleStack == r.loadModuleStack["local" := local]
      && "local" in r'.modules
      && forall i :: 0 <= i < |cs| ==> Basename(cs[i], ".php") in r'.modules
  {
    var r1 := r.(loadStack := r.loadStack["local" := local], loadModuleStack := r.loadModuleStack["local" := local]);
    var cs := Group(local, "controllers");
    var ms := ControllerModules(cs, systemPath);
    RegisterAllEffect(Registered(r1, LocalModule("local", systemPath)), ms);
    forall i | 0 <= i < |cs| ensures Basename(cs[i], ".php") in WithLocal(r, local, systemPath).modules {
      assert ms[i].id == Basename(cs[i], ".php");
      assert HasId(ms, Basename(cs[i], ".php"));
    }
  }
}
