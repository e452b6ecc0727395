/** The template side of zest-fw-web.php: the outcome of
    `TemplateEngine::render` and the `url` and `asset` helpers it offers to
    templates. Twig itself is not modelled: it is a function from a template
    name and the data to either markup or the message of the exception it
    throws. */
module Templating {
  import opened Php

  /** What Twig's `render` does with one template and one data array. */
  datatype TwigResult = Rendered(html: string) | Raised(msg: string)

  type TwigFn = (string, Dict) -> TwigResult

  const NotInitialized := "Template engine not initialized"
  const GenericError := "An error occurred while rendering the template."
  const DebugPrefix := "Template error: "

  /** `isset($GLOBALS["DEBUG"]) && $GLOBALS["DEBUG"] === true`; `None` is an
      unset global. */
  predicate DebugOn(debug: Option<Value>)
  {
    debug == Some(Bool(true))
  }

  /** TemplateEngine::render; `twig` is `None` when Twig could not be loaded. */
  function EngineRender(twig: Option<TwigFn>, template: string, data: Dict, debug: Option<Value>): string
  {
    match twig
    case None => NotInitialized
    case Some(render) =>
      match render(template, data)
      case Rendered(html) => html
      case Raised(msg) => if DebugOn(debug) then DebugPrefix + msg else GenericError
  }

  /** The four outcomes of `render`: no engine, the markup, the message of
      the exception in debug mode, and the generic message otherwise. */
  lemma EngineOutcomes(twig: Option<TwigFn>, template: string, data: Dict, debug: Option<Value>)
    ensures twig.None? ==> EngineRender(twig, template, data, debug) == NotInitialized
    ensures twig.Some? && twig.value(template, data).Rendered? ==>
      EngineRender(twig, template, data, debug) == twig.value(template, data).html
    ensures twig.Some? && twig.value(template, data).Raised? && DebugOn(debug) ==>
      EngineRender(twig, template, data, debug) == DebugPrefix + twig.value(template, data).msg
    ensures twig.Some? && twig.value(template, data).Raised? && !DebugOn(debug) ==>
      EngineRender(twig, template, data, debug) == GenericError
  {
  }

  /** Only a DEBUG global that is exactly `true` shows the exception; a truthy
      value such as `1` or `"yes"` does not. */
  lemma DebugIsStrict()
    ensures DebugOn(Some(Bool(true)))
    ensures !DebugOn(None) && !DebugOn(Some(Int(1))) && !DebugOn(Some(Str("true")))
  {
  }

  /** Outside debug mode the page does not depend on the exception's
      message: two failures with different messages look the same. */
  lemma NoMessageLeak(t1: TwigFn, t2: TwigFn, template: string, data: Dict, debug: Option<Value>)
    requires !DebugOn(debug)
    requires t1(template, data).Raised? && t2(template, data).Raised?
    ensures EngineRender(Some(t1), template, data, debug) == EngineRender(Some(t2), template, data, debug)
  {
  }

  /** `$_SERVER['BASE_URL']` when set, the empty string otherwise. */
  function BaseUrl(server: Option<string>): string
  {
    if server.Some? then server.value else ""
  }

  /** The `url` template function: the base url, one slash, and the path
      without its leading slashes. */
  function Url(baseUrl: string, path: string): string
  {
    baseUrl + "/" + LTrim(path, '/')
  }

  /** The `asset` template function: the same under `/static/`. */
  function Asset(baseUrl: string, path: string): string
  {
    baseUrl + "/static/" + LTrim(path, '/')
  }

  /** After the base url and its slash comes the path with its leading
      slashes removed and nothing else: the result never holds `//` there. */
  lemma UrlShape(baseUrl: string, path: string)
    ensures |Url(baseUrl, path)| > |baseUrl|
    ensures Url(baseUrl, path)[..|baseUrl| + 1] == baseUrl + "/"
    ensures var rest := Url(baseUrl, path)[|baseUrl| + 1..];
      && (rest == [] || rest[0] != '/')
      && rest == path[|path| - |rest|..]
      && forall i :: 0 <= i < |path| - |rest| ==> path[i] == '/'
  {
    var rest := LTrim(path, '/');
    assert Url(baseUrl, path) == (baseUrl + "/") + rest;
    assert Url(baseUrl, path)[|baseUrl| + 1..] == rest;
  }

  /** Leading slashes do not matter, and a site-relative url is a fixed
      point of `url('')`. */
  lemma {:induction false} UrlIgnoresLeadingSlashes(baseUrl: string, path: string)
    ensures Url(baseUrl, "/" + path) == Url(baseUrl, path)
    ensures Url("", Url("", path)) == Url("", path)
  {
    assert ("/" + path)[1..] == path;
    var u := Url("", path);
    assert u == "/" + LTrim(path, '/');
    assert u[1..] == LTrim(path, '/');
  }

  /** The `url` and `asset` functions of init_web_framework's function
      table: the same without a base url. They are defined there but never
      registered, because the engine has already added its own. */
  function InitUrl(path: string): string
  {
    "/" + LTrim(path, '/')
  }

  function InitAsset(path: string): string
  {
    "/static/" + LTrim(path, '/')
  }

  /** With `BASE_URL` unset, the engine's own `url` and `asset` give the same
      links as init_web_framework's; with it set, they are that link with
      the base url in front. */
  lemma InitHelpersAgree(server: Option<string>, path: string)
    ensures Url(BaseUrl(None), path) == InitUrl(path)
    ensures Asset(BaseUrl(None), path) == InitAsset(path)
    ensures Url(BaseUrl(server), path) == BaseUrl(server) + InitUrl(path)
    ensures Asset(BaseUrl(server), path) == BaseUrl(server) + InitAsset(path)
  {
    var x := LTrim(path, '/');
    assert "" + "/" + x == "/" + x;
    assert "" + "/static/" + x == "/static/" + x;
    ConcatAssoc(BaseUrl(server), "/", x);
    ConcatAssoc(BaseUrl(server), "/static/", x);
  }

  /** An asset url is the url of the path under `static/`. */
  lemma AssetIsUrl(baseUrl: string, path: string)
    ensures Asset(baseUrl, path) == Url(baseUrl, "static/" + LTrim(path, '/'))
  {
    var x := LTrim(path, '/');
    var p := "static/" + x;
    assert p[0] == 's';
    assert LTrim(p, '/') == p;
    assert "/" + "static/" == "/static/";
    assert (baseUrl + "/") + ("static/" + x) == (baseUrl + ("/" + "static/")) + x;
  }
}
