/** The values the framework core passes around: paths, resource maps,
    module records, and the parts of the outside world the core consults
    (filesystem, resource indexer, class reflection, locale service,
    template engine, event handlers), given as plain data and oracles. */
module Values {

  datatype Option<+T> = None | Some(value: T)

  type Path = string
  type ModuleId = string
  type Namespace = string
  type ClassName = string

  /** A PHP array of file lists keyed by a group or category name
      ('controllers', 'models', 'views', ...). */
  type FileGroups = map<string, seq<Path>>

  /** The list under `key`, or the empty list when the key is absent. */
  function Group(g: FileGroups, key: string): seq<Path>
  {
    if key in g then g[key] else []
  }

  /** Fully qualified names of the built-in module classes. */
  const EXTERNAL_MODULE: ClassName := "samson\\core\\ExternalModule"
  const COMPRESSABLE_MODULE: ClassName := "samson\\core\\CompressableExternalModule"
  const LOCAL_MODULE: ClassName := "samson\\core\\CompressableLocalModule"

  /** The module controller a path declares: class name and controller file. */
  datatype Descriptor = Descriptor(className: ClassName, controller: Path)

  /** What the resource indexer reports for one path: five ordered file
      groups, the optional module descriptor, and the same resources
      reshaped into the load-stack format. */
  datatype ResourceMap = ResourceMap(
    resources: seq<Path>,
    controllers: seq<Path>,
    models: seq<Path>,
    views: seq<Path>,
    php: seq<Path>,
    descriptor: Option<Descriptor>,
    loadStack: FileGroups)

  /** Scalar values held in module parameters and view data. */
  datatype Scalar = IntVal(i: int) | BoolVal(b: bool) | StrVal(s: string)

  type Params = map<string, Scalar>
  type Data = map<string, Scalar>

  /** PHP's loose comparison `v == 1`, for the scalars the model carries
      (numeric strings other than "1" are not modelled). */
  predicate LooselyOne(v: Scalar)
  {
    match v
    case IntVal(i) => i == 1
    case BoolVal(b) => b
    case StrVal(s) => s == "1"
  }

  /** A loaded module: its identifier, runtime class, root path, the
      composer parameters attached to it, and the registry slot it links
      to as its parent. */
  datatype Module = Module(
    id: ModuleId,
    className: ClassName,
    path: Path,
    params: Params,
    parent: Option<ModuleId>)

  /** A template to evaluate: a file on disk or inline template source. */
  datatype Template = File(path: Path) | Inline(source: string)

  /** The result a routing or e404 handler chain leaves behind, compared
      with the framework's A_FAILED marker: `Unset` is null, `Failed` is
      A_FAILED itself, `LooseFailure` is another value equal to A_FAILED
      under PHP's loose `==`, and `Accepted` is anything else. */
  datatype ActionResult = Unset | Failed | LooseFailure | Accepted

  /** What a handler that is handed the core object does to it: the module
      it makes active and the asynchronous flag it sets (None: left alone). */
  datatype Effect = Effect(activate: Option<Module>, async: Option<bool>)

  /** What the core.security chain leaves: the security flag, and its
      effect on the core. */
  datatype Security = Security(passed: bool, effect: Effect)

  /** What the core.routing chain leaves: the action result, and its effect
      on the core. */
  datatype Routing = Routing(result: ActionResult, effect: Effect)

  /** The arguments the core.render and core.rendered handlers receive by
      reference: the html, the view data and the active module. */
  datatype Frame = Frame(html: string, data: Data, active: Option<Module>)

  /** The environment the core reads but does not own. */
  datatype World = World(
    files: set<Path>,                          // file_exists
    discover: Path -> ResourceMap,             // ResourceMap::get
    parentOf: ClassName -> Option<ClassName>,  // get_parent_class (None: no parent)
    namespaceOf: ClassName -> Namespace,       // AutoLoader::getOnlyNameSpace
    canonical: ClassName -> ClassName,         // AutoLoader::className
    instanceId: (ClassName, Path) -> ModuleId, // id() of a module constructed at a path
    cwd: Path,                                 // __SAMSON_CWD__
    vendorPath: Path,                          // __SAMSON_VENDOR_PATH
    viewRoot: Path,                            // __SAMSON_VIEW_PATH
    locale: string,                            // locale()
    defaultLocale: string,                     // SamsonLocale::DEF
    compressorFiles: map<Path, string>,        // $GLOBALS['__compressor_files']
    eval: (Template, Data) -> string)          // include/eval under output buffering

  /** The net effect of the event handlers subscribed to the lifecycle points. */
  datatype Handlers = Handlers(
    security: Security,            // core.security
    routing: string -> Routing,    // core.routing, given the default route
    e404: ActionResult,            // core.e404 signal result
    toView: Module -> Data,        // the active module's toView()
    onRender: Frame -> Frame,      // core.render rewriting the raw output, data and active module
    onRendered: Frame -> Frame)    // core.rendered rewriting the final output, data and active module
}
