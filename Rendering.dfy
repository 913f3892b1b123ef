/** The decisions inside `render`: which template a view path resolves to
    under the three rendering modes and the current locale, and how the
    raw output is folded through the registered one-way renderers. */
module Rendering {
  import opened Values
  import opened Strings

  /** Rendering modes (render_mode). */
  const RENDER_STANDART: int := 1
  const RENDER_ARRAY: int := 2
  const RENDER_VARIABLE: int := 3

  /** The view path rewritten for the current locale: the view root gets
      the locale directory appended, and only when the locale is not the
      default one. A view outside the view root is left as it is. */
  function TemplateView(view: Path, w: World): (tv: Path)
    ensures w.locale == w.defaultLocale || !Occurs(w.viewRoot, view) ==> tv == view
  {
    if w.locale != w.defaultLocale then ReplaceAll(w.viewRoot, w.viewRoot + w.locale + "/", view)
    else view
  }

  predicate KnownMode(mode: int)
  {
    mode == RENDER_STANDART || mode == RENDER_ARRAY || mode == RENDER_VARIABLE
  }

  /** The template one view key resolves to under a mode: an existing file
      (standard), an existing file the compressor table maps the key to
      (array), or the template source the table holds for the key
      (variable). */
  function Resolve(mode: int, key: Path, w: World): (t: Option<Template>)
    ensures !KnownMode(mode) ==> t.None?
    ensures mode == RENDER_STANDART ==> (t.Some? <==> key in w.files) && (t.Some? ==> t.value == File(key))
    ensures mode == RENDER_ARRAY ==>
      && (t.Some? <==> key in w.compressorFiles && w.compressorFiles[key] in w.files)
      && (t.Some? ==> t.value == File(w.compressorFiles[key]))
    ensures mode == RENDER_VARIABLE ==>
      && (t.Some? <==> key in w.compressorFiles)
      && (t.Some? ==> t.value == Inline(w.compressorFiles[key]))
  {
    if mode == RENDER_STANDART then
      if key in w.files then Some(File(key)) else None
    else if mode == RENDER_ARRAY then
      if key in w.compressorFiles && w.compressorFiles[key] in w.files then Some(File(w.compressorFiles[key])) else None
    else if mode == RENDER_VARIABLE then
      if key in w.compressorFiles then Some(Inline(w.compressorFiles[key])) else None
    else None
  }

  /** The outcome of template selection: a template, the error "cannot
      render view", or no attempt at all when the mode is none of the
      three (the switch has no default branch). */
  datatype Selection = Chosen(t: Template) | NotFound | NoMode

  /** The template `render` evaluates: the locale view is preferred over
      the plain view in every mode. */
  function SelectView(mode: int, view: Path, w: World): (s: Selection)
    ensures !KnownMode(mode) <==> s.NoMode?
    ensures mode == RENDER_STANDART ==>
      var tv := TemplateView(view, w);
      && (s.NotFound? <==> tv !in w.files && view !in w.files)
      && (tv in w.files ==> s == Chosen(File(tv)))
      && (tv !in w.files && view in w.files ==> s == Chosen(File(view)))
    ensures mode == RENDER_ARRAY ==>
      var tv := TemplateView(view, w);
      && (s.Chosen? ==> s.t.File? && s.t.path in w.files)
      && (s.NotFound? <==> Resolve(mode, tv, w).None? && Resolve(mode, view, w).None?)
      && (tv in w.compressorFiles && w.compressorFiles[tv] in w.files ==> s == Chosen(File(w.compressorFiles[tv])))
      && (Resolve(mode, tv, w).None? && view in w.compressorFiles && w.compressorFiles[view] in w.files ==>
            s == Chosen(File(w.compressorFiles[view])))
    ensures mode == RENDER_VARIABLE ==>
      var tv := TemplateView(view, w);
      && (s.NotFound? <==> tv !in w.compressorFiles && view !in w.compressorFiles)
      && (tv in w.compressorFiles ==> s == Chosen(Inline(w.compressorFiles[tv])))
      && (tv !in w.compressorFiles && view in w.compressorFiles ==> s == Chosen(Inline(w.compressorFiles[view])))
  {
    if !KnownMode(mode) then NoMode
    else
      match Resolve(mode, TemplateView(view, w), w)
      case Some(t) => Chosen(t)
      case None =>
        match Resolve(mode, view, w)
        case Some(t) => Chosen(t)
        case None => NotFound
  }

  /** Under the default locale the view path is used as given. */
  lemma DefaultLocaleKeepsView(view: Path, w: World)
    requires w.locale == w.defaultLocale
    ensures TemplateView(view, w) == view
  {
  }

  /** Under another locale, a view under the view root moves into the
      locale's directory, whatever comes before the root (the module path
      `start` puts in front of the template path), provided the root occurs
      neither earlier nor after it. */
  lemma LocaleViewPath(pre: Path, rest: Path, w: World)
    requires w.locale != w.defaultLocale && |w.viewRoot| > 0 && !Occurs(w.viewRoot, rest)
    requires forall i :: 0 <= i < |pre| ==> !OccursAt(w.viewRoot, pre + w.viewRoot + rest, i)
    ensures TemplateView(pre + w.viewRoot + rest, w) == pre + w.viewRoot + w.locale + "/" + rest
  {
    var r := w.viewRoot + w.locale + "/";
    ReplaceOnce(w.viewRoot, r, pre, rest);
    assert pre + r + rest == pre + w.viewRoot + w.locale + "/" + rest;
  }

  /** Standard mode with locale "fr": "/app/views/page.tpl" falls back to
      the base file when only it exists, and the file under the locale
      directory is preferred once it exists too. */
  lemma LocaleFallbackExample(w: World)
    requires w.viewRoot == "/app/views/" && w.locale == "fr" && w.defaultLocale != "fr"
    ensures "/app/views/page.tpl" in w.files && "/app/views/fr/page.tpl" !in w.files ==>
      SelectView(RENDER_STANDART, "/app/views/page.tpl", w) == Chosen(File("/app/views/page.tpl"))
    ensures "/app/views/fr/page.tpl" in w.files ==>
      SelectView(RENDER_STANDART, "/app/views/page.tpl", w) == Chosen(File("/app/views/fr/page.tpl"))
  {
    assert !Occurs("/app/views/", "page.tpl") by {
      forall i | OccursAt("/app/views/", "page.tpl", i) ensures false { }
    }
    assert "/app/views/page.tpl" == "" + "/app/views/" + "page.tpl";
    LocaleViewPath("", "page.tpl", w);
    assert "/app/views/" + "fr" + "/" + "page.tpl" == "/app/views/fr/page.tpl";
  }

  /** A registered one-way renderer: (html, data, active module) -> html. */
  type Renderer = (string, Data, Option<Module>) -> string

  /** The output after each renderer, in registration order, has taken the
      previous one's output. */
  function PostProcess(stack: seq<Renderer>, html: string, data: Data, active: Option<Module>): (out: string)
    ensures (forall i, h :: 0 <= i < |stack| ==> stack[i](h, data, active) == h) ==> out == html
    decreases |stack|
  {
    if |stack| == 0 then html
    else stack[|stack| - 1](PostProcess(stack[..|stack| - 1], html, data, active), data, active)
  }

  /** Running the stack `a + b` is running `a`, then `b` on its output. */
  lemma {:induction false} PostProcessAppend(a: seq<Renderer>, b: seq<Renderer>, html: string, data: Data, active: Option<Module>)
    ensures PostProcess(a + b, html, data, active) == PostProcess(b, PostProcess(a, html, data, active), data, active)
    decreases |b|
  {
    if |b| == 0 {
      assert a + b == a;
    } else {
      assert (a + b)[..|a + b| - 1] == a + b[..|b| - 1];
      assert (a + b)[|a + b| - 1] == b[|b| - 1];
      PostProcessAppend(a, b[..|b| - 1], html, data, active);
    }
  }

  /** Renderers A and B appending "-A" and "-B", registered in that order,
      turn "X" into "X-A-B". */
  lemma PostProcessOrderExample(a: Renderer, b: Renderer, data: Data, active: Option<Module>)
    requires forall h, d, m :: a(h, d, m) == h + "-A"
    requires forall h, d, m :: b(h, d, m) == h + "-B"
    ensures PostProcess([a, b], "X", data, active) == "X-A-B"
  {
    assert [a, b][..1] == [a];
    assert [a][..0] == [];
    assert PostProcess([a], "X", data, active) == a("X", data, active) == "X" + "-A";
    assert PostProcess([a, b], "X", data, active) == b("X" + "-A", data, active) == "X" + "-A" + "-B";
    assert "X" + "-A" + "-B" == "X-A-B";
  }

  /** What one `render(view, data)` call returns, whether it reported that
      no template could be found, and the active module it leaves. */
  datatype RenderResult = RenderResult(html: string, notFound: bool, active: Option<Module>)

  /** `render`: evaluate the selected template with the data (nothing when
      none is selected), let the core.render handlers rewrite the output,
      the data and the active module, then fold the output through the
      renderer stack with the data and active module they left. */
  function RenderOutput(mode: int, stack: seq<Renderer>, active: Option<Module>, view: Path, data: Data,
                        w: World, onRender: Frame -> Frame): (r: RenderResult)
    ensures r.notFound <==> SelectView(mode, view, w).NotFound?
    ensures r.notFound ==> KnownMode(mode)
    ensures !SelectView(mode, view, w).Chosen? ==> r.active == onRender(Frame("", data, active)).active
  {
    var s := SelectView(mode, view, w);
    var raw := if s.Chosen? then w.eval(s.t, data) else "";
    var f := onRender(Frame(raw, data, active));
    RenderResult(PostProcess(stack, f.html, f.data, f.active), s.NotFound?, f.active)
  }
}
