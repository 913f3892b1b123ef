/** The decisions `start` makes between its lifecycle events: whether
    routing runs, whether the e404 fallback runs, and whether the main
    template is rendered, with what the handlers do to the core on the way. */
module Lifecycle {
  import opened Values
  import opened Rendering

  /** `!isset($result) || $result == A_FAILED` (loose comparison). */
  predicate NeedsFallback(result: ActionResult): (b: bool)
    ensures b <==> !result.Accepted?
  {
    result.Unset? || result.Failed? || result.LooseFailure?
  }

  /** `!$this->async && $result !== A_FAILED` (strict comparison). */
  predicate RendersPage(async: bool, result: ActionResult): (b: bool)
    ensures b ==> !async && result != Failed
    ensures !async && (result.Unset? || result.LooseFailure?) ==> b
  {
    !async && !result.Failed?
  }

  /** What `start` decided: routing signalled, e404 signalled, the result
      it ended with, and the main template rendered. */
  datatype Trace = Trace(routed: bool, fallback: bool, result: ActionResult, rendered: bool)

  /** The gating of `start`, given the security flag the core.security
      handlers leave, the routing chain's result, the e404 chain's result,
      and the asynchronous flag as it stands after the handlers ran. */
  function Decide(async: bool, security: bool, routed: ActionResult, e404: ActionResult): (t: Trace)
    ensures t.routed == security
    ensures t.fallback <==> !(security && routed == Accepted)
    ensures t.result == (if t.fallback then e404 else Accepted)
    ensures t.rendered <==> !async && !t.result.Failed?
  {
    var result := if security then routed else Failed;
    var fallback := NeedsFallback(result);
    var final := if fallback then e404 else result;
    Trace(security, fallback, final, RendersPage(async, final))
  }

  /** An asynchronous request never renders, whatever routing did. */
  lemma AsyncNeverRenders(security: bool, routed: ActionResult, e404: ActionResult)
    ensures !Decide(true, security, routed, e404).rendered
  {
  }

  /** A failed security check skips routing and falls back to e404. */
  lemma SecurityFailureFallsBack(async: bool, routed: ActionResult, e404: ActionResult)
    ensures var t := Decide(async, false, routed, e404);
      !t.routed && t.fallback && t.result == e404
  {
  }

  /** A synchronous request whose route was accepted is rendered without
      any fallback. */
  lemma AcceptedRouteRenders(routed: ActionResult, e404: ActionResult)
    requires routed == Accepted
    ensures var t := Decide(false, true, routed, e404);
      t.routed && !t.fallback && t.rendered
  {
  }

  /** The render gate compares strictly: when the e404 chain leaves null
      (or another value only loosely equal to A_FAILED), a synchronous
      request is still rendered. */
  lemma FallbackWithoutResultStillRenders(security: bool, routed: ActionResult, e404: ActionResult)
    requires !(security && routed == Accepted)
    requires e404 == Unset || e404 == LooseFailure
    ensures Decide(false, security, routed, e404).rendered
  {
  }

  /** The part of the core a handler handed `$this` may change here. */
  datatype Session = Session(active: Option<Module>, async: bool)

  /** The session after a handler's effect. */
  function Apply(s: Session, e: Effect): (s': Session)
    ensures s.active.Some? ==> s'.active.Some?
    ensures e.activate.None? && e.async.None? ==> s' == s
  {
    Session(if e.activate.Some? then e.activate else s.active,
            if e.async.Some? then e.async.value else s.async)
  }

  /** How one `start` call ends: what is echoed, the trace of decisions,
      and the active module and asynchronous flag it leaves. */
  datatype Response = Response(output: string, trace: Trace, active: Option<Module>, async: bool)

  /** `start` once the main template path is set: the security handlers
      act on the core; routing, when security passed, acts on it too; the
      gates then read the asynchronous flag as the handlers left it; a
      rendered page goes through core.rendered, which may rewrite it and
      change the active module. */
  function Respond(active: Module, async: bool, mode: int, stack: seq<Renderer>, templatePath: Path,
                   default: string, w: World, h: Handlers): (res: Response)
    ensures res.trace == Decide(res.async, h.security.passed, h.routing(default).result, h.e404)
    ensures res.trace.routed == h.security.passed
    ensures res.trace.rendered <==> !res.async && !res.trace.result.Failed?
    ensures !res.trace.rendered ==> res.output == ""
    ensures res.async == (if h.security.passed then Apply(Apply(Session(Some(active), async), h.security.effect), h.routing(default).effect)
                          else Apply(Session(Some(active), async), h.security.effect)).async
  {
    var s1 := Apply(Session(Some(active), async), h.security.effect);
    var rt := h.routing(default);
    var s2 := if h.security.passed then Apply(s1, rt.effect) else s1;
    var trace := Decide(s2.async, h.security.passed, rt.result, h.e404);
    if trace.rendered then
      var data := h.toView(s2.active.value);
      var r := RenderOutput(mode, stack, s2.active, templatePath, data, w, h.onRender);
      var f := h.onRendered(Frame(r.html, data, r.active));
      Response(f.html, trace, f.active, s2.async)
    else Response("", trace, s2.active, s2.async)
  }

  /** A route that switches the core to asynchronous mode suppresses the
      page, even when its action was accepted. */
  lemma RouteSwitchingToAsyncSuppressesPage(active: Module, mode: int, stack: seq<Renderer>, templatePath: Path,
                                            default: string, w: World, h: Handlers)
    requires h.security.passed && h.routing(default).effect.async == Some(true)
    ensures var res := Respond(active, false, mode, stack, templatePath, default, w, h);
      res.async && !res.trace.rendered && res.output == ""
  {
  }

  /** When security fails, the routing chain has no effect on the core. */
  lemma SecurityFailureIgnoresRoute(active: Module, async: bool, mode: int, stack: seq<Renderer>, templatePath: Path,
                                    default: string, w: World, h: Handlers)
    requires !h.security.passed && h.security.effect == Effect(None, None)
    ensures var res := Respond(active, async, mode, stack, templatePath, default, w, h);
      res.async == async && res.trace.fallback && res.trace.result == h.e404
  {
  }

  /** A synchronous request whose handlers leave the core alone and whose
      route is accepted is rendered: the main template is evaluated with
      the active module's view data and passed through core.render, the
      renderers and core.rendered. */
  lemma AcceptedRouteOutput(active: Module, mode: int, stack: seq<Renderer>, templatePath: Path,
                            default: string, w: World, h: Handlers)
    requires h.security.passed && h.security.effect == Effect(None, None)
    requires h.routing(default) == Routing(Accepted, Effect(None, None))
    ensures var res := Respond(active, false, mode, stack, templatePath, default, w, h);
      var data := h.toView(active);
      var r := RenderOutput(mode, stack, Some(active), templatePath, data, w, h.onRender);
      && res.trace.rendered && !res.trace.fallback
      && res.output == h.onRendered(Frame(r.html, data, r.active)).html
  {
  }
}
