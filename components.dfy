/** The component system of zest-fw-web.php: the class-path registries,
    `ComponentSystem` with its autoloader, the asset and template lookups and
    `renderComponent`.

    The PHP process is a `Runtime` object: the global `CLASS_PATHS` and
    `COMPONENT_PATHS` lists, the class table with the set of files already
    `require_once`d, and a snapshot of the filesystem (`files`, the paths
    `file_exists` accepts) together with `sources`, the classes each PHP file
    declares when it is included. Reflection is reduced to capability flags:
    a `ClassDef` says whether the class extends `Component` and which of
    `prepare` and `render` it defines itself. */
module Components {
  import opened Php
  import opened Templating
  import Button

  /** A declared class, as far as `renderComponent` can tell. */
  datatype ClassDef = ClassDef(extendsComponent: bool, ownsPrepare: bool, ownsRender: bool)

  /** The interpreter's class table and the files `require_once` has seen. */
  datatype Loaded = Loaded(classes: map<string, ClassDef>, included: set<string>)

  /** The user code of the components: what an own `prepare` and an own
      `render` return for a class name and a data array. */
  datatype Behaviours = Behaviours(prepare: (string, Dict) -> Dict, render: (string, Dict) -> string)

  /** The classes that including `file` declares. */
  function Declares(sources: map<string, map<string, ClassDef>>, file: string): map<string, ClassDef>
  {
    if file in sources then sources[file] else map[]
  }

  /** `require_once $file`: a file already included is skipped, any other
      adds its classes to the class table. */
  function RequireOnce(l: Loaded, sources: map<string, map<string, ClassDef>>, file: string): (r: Loaded)
    ensures file in r.included
    ensures file in l.included ==> r == l
    ensures l.classes.Keys <= r.classes.Keys
  {
    if file in l.included then l
    else Loaded(l.classes + Declares(sources, file), l.included + {file})
  }

  /** Including the same file twice declares nothing new. */
  lemma RequireOnceIdempotent(l: Loaded, sources: map<string, map<string, ClassDef>>, file: string)
    ensures RequireOnce(RequireOnce(l, sources, file), sources, file) == RequireOnce(l, sources, file)
  {
  }

  // ----- the path registries -----

  /** `$list` after `if (!in_array($path, $list)) $list[] = $path;`. */
  function Registered(list: seq<string>, path: string): (r: seq<string>)
    ensures path in r
    ensures list <= r && |r| <= |list| + 1
    ensures path in list ==> r == list
    ensures forall q :: q in r <==> q in list || q == path
  {
    if path in list then list else list + [path]
  }

  predicate NoDuplicates(list: seq<string>)
  {
    forall i, j :: 0 <= i < j < |list| ==> list[i] != list[j]
  }

  /** Registering keeps a list free of duplicates, and registering the same
      path again changes nothing. */
  lemma RegisteredProperties(list: seq<string>, path: string)
    ensures NoDuplicates(list) ==> NoDuplicates(Registered(list, path))
    ensures Registered(Registered(list, path), path) == Registered(list, path)
  {
  }

  /** Registering paths one after the other: each ends up in the list once,
      in the order of its first registration. */
  function RegisterAll(list: seq<string>, paths: seq<string>): (r: seq<string>)
    decreases |paths|
  {
    if paths == [] then list else RegisterAll(Registered(list, paths[0]), paths[1..])
  }

  lemma {:induction false} RegisterAllProperties(list: seq<string>, paths: seq<string>)
    ensures list <= RegisterAll(list, paths)
    ensures NoDuplicates(list) ==> NoDuplicates(RegisterAll(list, paths))
    ensures forall q :: q in RegisterAll(list, paths) <==> q in list || q in paths
    decreases |paths|
  {
    if paths != [] {
      RegisteredProperties(list, paths[0]);
      RegisterAllProperties(Registered(list, paths[0]), paths[1..]);
      assert forall q :: q in paths <==> q == paths[0] || q in paths[1..] by {
        assert paths == [paths[0]] + paths[1..];
      }
    }
  }

  /** The state of the PHP process that the component system reads and
      changes. */
  class Runtime {
    var classPaths: seq<string>
    var componentPaths: seq<string>
    var loaded: Loaded
    var files: set<string>
    var sources: map<string, map<string, ClassDef>>

    constructor (files: set<string>, sources: map<string, map<string, ClassDef>>)
      ensures this.files == files && this.sources == sources
      ensures classPaths == [] && componentPaths == [] && loaded == Loaded(map[], {})
    {
      this.files := files;
      this.sources := sources;
      classPaths := [];
      componentPaths := [];
      loaded := Loaded(map[], {});
    }

    /** register_class_path. */
    method RegisterClassPath(path: string)
      modifies this`classPaths
      ensures classPaths == Registered(old(classPaths), path)
    {
      if path !in classPaths {
        classPaths := classPaths + [path];
      }
    }

    /** register_component_path. */
    method RegisterComponentPath(path: string)
      modifies this`componentPaths
      ensures componentPaths == Registered(old(componentPaths), path)
    {
      if path !in componentPaths {
        componentPaths := componentPaths + [path];
      }
    }

    /** `require_once $file`. */
    method Require(file: string)
      modifies this`loaded
      ensures loaded == RequireOnce(old(loaded), sources, file)
    {
      if file !in loaded.included {
        loaded := Loaded(loaded.classes + Declares(sources, file), loaded.included + {file});
      }
    }
  }

  // ----- class lookup -----

  /** The files autoloadComponent tries for class `name`, in order. */
  function Candidates(dir: string, name: string, classPaths: seq<string>): (r: seq<string>)
    ensures |r| == |classPaths| + 2
    ensures r[0] == dir + "/" + name + "/" + name + ".php"
    ensures r[1] == dir + "/" + name + ".php"
    ensures forall i :: 0 <= i < |classPaths| ==> r[i + 2] == classPaths[i] + "/" + name + ".php"
  {
    [dir + "/" + name + "/" + name + ".php", dir + "/" + name + ".php"]
      + seq(|classPaths|, i requires 0 <= i < |classPaths| => classPaths[i] + "/" + name + ".php")
  }

  /** The first of `paths` that exists. */
  function FirstExisting(paths: seq<string>, files: set<string>): Option<string>
  {
    if paths == [] then None
    else if paths[0] in files then Some(paths[0])
    else FirstExisting(paths[1..], files)
  }

  /** The chosen path exists and no earlier one does; nothing is chosen
      exactly when none of the paths exists. */
  lemma {:induction false} FirstExistingChoice(paths: seq<string>, files: set<string>)
    ensures var r := FirstExisting(paths, files);
      && (r.None? <==> forall i :: 0 <= i < |paths| ==> paths[i] !in files)
      && (r.Some? ==> exists i :: (0 <= i < |paths| && paths[i] == r.value && r.value in files &&
                                   forall j :: 0 <= j < i ==> paths[j] !in files))
  {
    if paths != [] && paths[0] !in files {
      var tail := paths[1..];
      FirstExistingChoice(tail, files);
      var r := FirstExisting(tail, files);
      if r.Some? {
        var i :| 0 <= i < |tail| && tail[i] == r.value && r.value in files &&
          forall j :: 0 <= j < i ==> tail[j] !in files;
        assert paths[i + 1] == r.value;
        forall j | 0 <= j < i + 1 ensures paths[j] !in files {
          if j > 0 { assert paths[j] == tail[j - 1]; }
        }
      } else {
        forall j | 0 <= j < |paths| ensures paths[j] !in files {
          if j > 0 { assert paths[j] == tail[j - 1]; }
        }
      }
    }
  }

  /** The file autoloadComponent includes for `name`, if any. */
  function AutoloadFile(dir: string, name: string, classPaths: seq<string>, files: set<string>): Option<string>
  {
    FirstExisting(Candidates(dir, name, classPaths), files)
  }

  /** The class table after autoloadComponent. */
  function Autoloaded(l: Loaded, sources: map<string, map<string, ClassDef>>, file: Option<string>): Loaded
  {
    if file.Some? then RequireOnce(l, sources, file.value) else l
  }

  /** The component's own directory wins over the flat file, which wins
      over every class path; among the class paths the earlier one wins. */
  lemma LookupOrder(dir: string, name: string, classPaths: seq<string>, files: set<string>, k: nat)
    ensures var nested := dir + "/" + name + "/" + name + ".php";
      nested in files ==> AutoloadFile(dir, name, classPaths, files) == Some(nested)
    ensures var nested, flat := dir + "/" + name + "/" + name + ".php", dir + "/" + name + ".php";
      nested !in files && flat in files ==> AutoloadFile(dir, name, classPaths, files) == Some(flat)
    ensures var c := Candidates(dir, name, classPaths);
      k < |classPaths| && c[0] !in files && c[1] !in files && c[k + 2] in files &&
      (forall j :: 0 <= j < k ==> classPaths[j] + "/" + name + ".php" !in files) ==>
      AutoloadFile(dir, name, classPaths, files) == Some(classPaths[k] + "/" + name + ".php")
  {
    var c := Candidates(dir, name, classPaths);
    if c[0] in files {
      FirstExistingIs(c, files, 0);
    } else if c[1] in files {
      FirstExistingIs(c, files, 1);
    } else if k < |classPaths| && c[k + 2] in files && (forall j :: 0 <= j < k ==> classPaths[j] + "/" + name + ".php" !in files) {
      LookupClassPath(c, dir, name, classPaths, files, k);
    }
  }

  /** The class-path case of LookupOrder. */
  lemma LookupClassPath(c: seq<string>, dir: string, name: string, classPaths: seq<string>, files: set<string>, k: nat)
    requires c == Candidates(dir, name, classPaths) && k < |classPaths|
    requires c[0] !in files && c[1] !in files && c[k + 2] in files
    requires forall j :: 0 <= j < k ==> classPaths[j] + "/" + name + ".php" !in files
    ensures FirstExisting(c, files) == Some(c[k + 2])
  {
    forall j | 2 <= j < k + 2 ensures c[j] !in files {
      assert c[j] == classPaths[j - 2] + "/" + name + ".php";
    }
    FirstExistingIs(c, files, k + 2);
  }

  /** The first existing path is the one `FirstExisting` returns. */
  lemma {:induction false} FirstExistingIs(paths: seq<string>, files: set<string>, i: nat)
    requires i < |paths| && paths[i] in files
    requires forall j :: 0 <= j < i ==> paths[j] !in files
    ensures FirstExisting(paths, files) == Some(paths[i])
    decreases i
  {
    if i > 0 {
      assert paths[0] !in files;
      forall j | 0 <= j < i - 1 ensures paths[1..][j] !in files {
        assert paths[1..][j] == paths[j + 1];
      }
      FirstExistingIs(paths[1..], files, i - 1);
    }
  }

  /** Running the autoloader a second time changes nothing; so the extra
      runs that `class_exists` triggers do not change any outcome. */
  lemma AutoloadIdempotent(l: Loaded, sources: map<string, map<string, ClassDef>>, file: Option<string>)
    ensures Autoloaded(Autoloaded(l, sources, file), sources, file) == Autoloaded(l, sources, file)
  {
  }

  // ----- assets and templates -----

  /** The two urls getComponentAssets returns. */
  datatype Assets = Assets(css: Option<string>, js: Option<string>)

  function AssetUrl(name: string, ext: string): string
  {
    "/static/components/" + name + "/" + name + ext
  }

  function AssetFile(dir: string, name: string, ext: string): string
  {
    dir + "/" + name + "/" + name + ext
  }

  /** getComponentAssets: each url is present exactly when its file exists,
      independently of the other. */
  function ComponentAssets(dir: string, files: set<string>, name: string): (r: Assets)
    ensures r.css.Some? <==> AssetFile(dir, name, ".css") in files
    ensures r.js.Some? <==> AssetFile(dir, name, ".js") in files
    ensures r.css.Some? ==> r.css.value == AssetUrl(name, ".css")
    ensures r.js.Some? ==> r.js.value == AssetUrl(name, ".js")
  {
    Assets(
      if AssetFile(dir, name, ".css") in files then Some(AssetUrl(name, ".css")) else None,
      if AssetFile(dir, name, ".js") in files then Some(AssetUrl(name, ".js")) else None)
  }

  /** When the components directory ends in `/static/components`, an asset's
      url is its file path with everything before that suffix dropped. */
  lemma AssetUrlIsPathSuffix(root: string, name: string, ext: string)
    ensures var dir := root + "/static/components";
      AssetFile(dir, name, ext) == root + AssetUrl(name, ext)
  {
    var rest := name + "/" + name + ext;
    assert root + "/static/components" + "/" + name + "/" + name + ext
      == root + ("/static/components" + "/" + rest);
    assert "/static/components" + "/" == "/static/components/";
  }

  /** findComponentTemplate: the Twig name `@component_N/N.twig` exactly when
      `N/N.twig` exists. */
  function ComponentTemplate(dir: string, files: set<string>, name: string): (r: Option<string>)
    ensures r.Some? <==> AssetFile(dir, name, ".twig") in files
    ensures r.Some? ==> r.value == "@component_" + name + "/" + name + ".twig"
  {
    if AssetFile(dir, name, ".twig") in files then Some("@component_" + name + "/" + name + ".twig") else None
  }

  /** What loadComponentAssets echoes: a stylesheet link, then a script tag,
      for the files that exist. */
  function AssetTags(dir: string, files: set<string>, name: string): string
  {
    var a := ComponentAssets(dir, files, name);
    (if a.css.Some? then "<link rel=\"stylesheet\" href=\"" + a.css.value + "\">" else "")
    + (if a.js.Some? then "<script src=\"" + a.js.value + "\"></script>" else "")
  }

  /** Nothing is echoed exactly when neither file exists; the stylesheet
      link comes first, and the script tag alone when there is no stylesheet. */
  lemma AssetTagsShape(dir: string, files: set<string>, name: string)
    ensures AssetTags(dir, files, name) == "" <==>
      AssetFile(dir, name, ".css") !in files && AssetFile(dir, name, ".js") !in files
    ensures AssetFile(dir, name, ".css") in files ==>
      "<link rel=\"stylesheet\" href=\"" + AssetUrl(name, ".css") + "\">" <= AssetTags(dir, files, name)
    ensures AssetFile(dir, name, ".css") !in files && AssetFile(dir, name, ".js") in files ==>
      AssetTags(dir, files, name) == "<script src=\"" + AssetUrl(name, ".js") + "\"></script>"
  {
    var css := "<link rel=\"stylesheet\" href=\"" + AssetUrl(name, ".css") + "\">";
    var js := "<script src=\"" + AssetUrl(name, ".js") + "\"></script>";
    if AssetFile(dir, name, ".css") in files {
      assert |css| > 0;
      PrefixAppend(css, css, if AssetFile(dir, name, ".js") in files then js else "");
    } else if AssetFile(dir, name, ".js") in files {
      assert |js| > 0;
    }
  }

  // ----- rendering -----

  /** `method_exists($component, 'prepare')`: every Component has one. */
  predicate HasPrepare(c: ClassDef)
  {
    c.extendsComponent || c.ownsPrepare
  }

  /** `method_exists($component, 'render')`: every Component has one. */
  predicate HasRender(c: ClassDef)
  {
    c.extendsComponent || c.ownsRender
  }

  /** `$component->prepare($data)`: the own method, or the inherited one that
      returns the data unchanged. */
  function PrepareWith(c: ClassDef, b: Behaviours, name: string, data: Dict): Dict
  {
    if c.ownsPrepare then b.prepare(name, data) else data
  }

  /** `$component->render($data)`: the own method, or the inherited one that
      returns the empty string. */
  function RenderWith(c: ClassDef, b: Behaviours, name: string, data: Dict): string
  {
    if c.ownsRender then b.render(name, data) else ""
  }

  const NotFound := "Component not found: "
  const TemplateError := "Error rendering component template: "
  const NoRender := "No render method or template found for component: "

  /** What renderComponent returns once the class of `name` is known to be
      `def`, or to be missing. */
  function Outcome(def: Option<ClassDef>, b: Behaviours, twig: Option<TwigFn>, dir: string, files: set<string>,
                   name: string, data: Dict): string
  {
    match def
    case None => NotFound + name
    case Some(c) =>
      var prepared := if HasPrepare(c) then PrepareWith(c, b, name, data) else data;
      if HasRender(c) then RenderWith(c, b, name, prepared)
      else
        var template := ComponentTemplate(dir, files, name);
        if template.Some? && twig.Some? then
          match twig.value(template.value, Set(prepared, "_componentName", Str(name)))
          case Rendered(html) => html
          case Raised(msg) => TemplateError + msg
        else NoRender + name
  }

  /** The class table renderComponent leaves behind: the autoloader runs when
      the class is not declared yet. */
  function Resolved(l: Loaded, sources: map<string, map<string, ClassDef>>, dir: string,
                    classPaths: seq<string>, files: set<string>, name: string): Loaded
  {
    if name in l.classes then l
    else Autoloaded(l, sources, AutoloadFile(dir, name, classPaths, files))
  }

  function Lookup(l: Loaded, name: string): Option<ClassDef>
  {
    if name in l.classes then Some(l.classes[name]) else None
  }

  /** The second attempt of renderComponent, which includes `N/N.php`
      directly after the autoloader failed, never declares anything: the
      autoloader tries that file first and has already included it. */
  lemma RetryIsRedundant(l: Loaded, sources: map<string, map<string, ClassDef>>, dir: string,
                         classPaths: seq<string>, files: set<string>, name: string)
    requires name !in l.classes
    ensures var r := Resolved(l, sources, dir, classPaths, files, name);
      var nested := dir + "/" + name + "/" + name + ".php";
      nested in files ==> RequireOnce(r, sources, nested) == r
  {
    var nested := dir + "/" + name + "/" + name + ".php";
    if nested in files {
      FirstExistingIs(Candidates(dir, name, classPaths), files, 0);
    }
  }

  /** Every subclass of Component has a `render`, the inherited one at
      least, so its template is never used: the result is its own
      `render` of its prepared data, or the empty string. */
  lemma SubclassesNeverUseTemplates(c: ClassDef, b: Behaviours, twig: Option<TwigFn>, dir: string,
                                    files: set<string>, name: string, data: Dict)
    requires c.extendsComponent
    ensures Outcome(Some(c), b, twig, dir, files, name, data) ==
      if c.ownsRender then b.render(name, PrepareWith(c, b, name, data)) else ""
  {
  }

  /** The template branch, reached only by a class outside Component
      without a `render`: Twig sees the prepared data with `_componentName`
      set to the component's name. */
  lemma TemplateBranch(c: ClassDef, b: Behaviours, twig: TwigFn, dir: string, files: set<string>,
                       name: string, data: Dict)
    requires !c.extendsComponent && !c.ownsRender
    requires AssetFile(dir, name, ".twig") in files
    ensures var prepared := if c.ownsPrepare then b.prepare(name, data) else data;
      var seen := Set(prepared, "_componentName", Str(name));
      && Get(seen, "_componentName") == Str(name)
      && Outcome(Some(c), b, Some(twig), dir, files, name, data) ==
        match twig("@component_" + name + "/" + name + ".twig", seen)
        case Rendered(html) => html
        case Raised(msg) => TemplateError + msg
  {
  }

  /** Without a class, and for a class that has neither `render` nor a
      usable template, the result is the matching message. */
  lemma MessageOutcomes(c: ClassDef, b: Behaviours, twig: Option<TwigFn>, dir: string, files: set<string>,
                        name: string, data: Dict)
    ensures Outcome(None, b, twig, dir, files, name, data) == NotFound + name
    ensures !HasRender(c) && (AssetFile(dir, name, ".twig") !in files || twig.None?) ==>
      Outcome(Some(c), b, twig, dir, files, name, data) == NoRender + name
  {
  }

  /** The class createComponent writes: a Component with its own `prepare`
      (returning the data) and no `render`. */
  const Scaffold := ClassDef(true, true, false)

  /** A component created by createComponent renders as the empty string,
      although createComponent also writes it a template. */
  lemma ScaffoldRendersNothing(b: Behaviours, twig: Option<TwigFn>, dir: string, files: set<string>,
                               name: string, data: Dict)
    ensures Outcome(Some(Scaffold), b, twig, dir, files, name, data) == ""
  {
  }

  /** The Button class: a Component with its own `prepare` and `render`. */
  const ButtonClass := ClassDef(true, true, true)

  /** Rendering a Button through renderComponent prepares the data twice
      (once there, once inside Button::render); the markup is still the one
      for the caller's data. */
  lemma ButtonThroughSystem(b: Behaviours, twig: Option<TwigFn>, dir: string, files: set<string>, data: Dict)
    requires Unique(data)
    requires b.prepare("Button", data) == Button.Prepared(data)
    requires b.render("Button", Button.Prepared(data)) == Button.Rendered(Button.Prepared(data))
    ensures Outcome(Some(ButtonClass), b, twig, dir, files, "Button", data) == Button.Rendered(data)
  {
    Button.RenderAfterPrepare(data);
  }

  /** The singleton ComponentSystem. */
  class ComponentSystem {
    const rt: Runtime
    const componentsDir: string
    var componentNamespaces: map<string, string>
    var loadedComponents: seq<string>

    /** Nothing ever writes `loadedComponents`. */
    predicate Valid()
      reads this
    {
      loadedComponents == []
    }

    /** The constructor: the components directory under the root, appended
        to `CLASS_PATHS` without a duplicate check. */
    constructor (rt: Runtime, dirRoot: string)
      modifies rt`classPaths
      ensures this.rt == rt && componentsDir == dirRoot + "/app/webroot/static/components"
      ensures rt.classPaths == old(rt.classPaths) + [componentsDir]
      ensures componentNamespaces == map[] && Valid()
    {
      this.rt := rt;
      componentsDir := dirRoot + "/app/webroot/static/components";
      componentNamespaces := map[];
      loadedComponents := [];
      new;
      rt.classPaths := rt.classPaths + [componentsDir];
    }

    /** registerComponentNamespace: stored, and read by nothing else. */
    method RegisterComponentNamespace(namespace: string, directory: string)
      requires Valid()
      modifies this`componentNamespaces
      ensures componentNamespaces == old(componentNamespaces)[namespace := directory]
      ensures Valid()
    {
      componentNamespaces := componentNamespaces[namespace := directory];
    }

    /** autoloadComponent. */
    method AutoloadComponent(name: string) returns (found: bool)
      modifies rt`loaded
      ensures rt.loaded == Autoloaded(old(rt.loaded), rt.sources, AutoloadFile(componentsDir, name, rt.classPaths, rt.files))
      ensures found <==> AutoloadFile(componentsDir, name, rt.classPaths, rt.files).Some? && name in rt.loaded.classes
    {
      var c := Candidates(componentsDir, name, rt.classPaths);
      var componentFile := componentsDir + "/" + name + "/" + name + ".php";
      if componentFile in rt.files {
        FirstExistingIs(c, rt.files, 0);
        rt.Require(componentFile);
        return name in rt.loaded.classes;
      }
      componentFile := componentsDir + "/" + name + ".php";
      if componentFile in rt.files {
        FirstExistingIs(c, rt.files, 1);
        rt.Require(componentFile);
        return name in rt.loaded.classes;
      }
      // the foreach over CLASS_PATHS stops at the first existing file
      var paths, files := rt.classPaths, rt.files;
      var i := 0;
      while i < |paths| && paths[i] + "/" + name + ".php" !in files
        invariant 0 <= i <= |paths|
        invariant forall j :: 0 <= j < i + 2 ==> c[j] !in files
      {
        i := i + 1;
      }
      if i < |paths| {
        FirstExistingIs(c, files, i + 2);
        rt.Require(paths[i] + "/" + name + ".php");
        return name in rt.loaded.classes;
      }
      FirstExistingChoice(c, files);
      return false;
    }

    /** loadComponentAssets: the tags are echoed, nothing is recorded. */
    method LoadComponentAssets(name: string) returns (echoed: string)
      ensures echoed == AssetTags(componentsDir, rt.files, name)
    {
      echoed := "";
      var componentDir := componentsDir + "/" + name;
      if componentDir + "/" + name + ".css" in rt.files {
        var cssUrl := "/static/components/" + name + "/" + name + ".css";
        echoed := echoed + ("<link rel=\"stylesheet\" href=\"" + cssUrl + "\">");
      }
      if componentDir + "/" + name + ".js" in rt.files {
        var jsUrl := "/static/components/" + name + "/" + name + ".js";
        echoed := echoed + ("<script src=\"" + jsUrl + "\"></script>");
      }
    }

    /** getLoadedComponents: always the empty list. */
    method GetLoadedComponents() returns (names: seq<string>)
      requires Valid()
      ensures names == []
    {
      names := loadedComponents;
    }

    /** createComponent: the directory and its four files, the PHP one
        declaring a Component subclass with its own `prepare`; always true. */
    method CreateComponent(name: string) returns (ok: bool)
      modifies rt`files, rt`sources
      ensures ok
      ensures var d := componentsDir + "/" + name;
        rt.files == old(rt.files) + {d, d + "/" + name + ".php", d + "/" + name + ".twig",
                                     d + "/" + name + ".css", d + "/" + name + ".js"}
      ensures rt.sources == old(rt.sources)[componentsDir + "/" + name + "/" + name + ".php" := map[name := Scaffold]]
    {
      var componentDir := componentsDir + "/" + name;
      if componentDir !in rt.files {
        rt.files := rt.files + {componentDir};
      }
      rt.files := rt.files + {componentDir + "/" + name + ".php"};
      rt.sources := rt.sources[componentDir + "/" + name + ".php" := map[name := Scaffold]];
      rt.files := rt.files + {componentDir + "/" + name + ".twig"};
      rt.files := rt.files + {componentDir + "/" + name + ".css"};
      rt.files := rt.files + {componentDir + "/" + name + ".js"};
      return true;
    }

    /** renderComponent. `echoed` is what loadComponentAssets prints. */
    method RenderComponent(name: string, data: Dict, loadAssets: bool, b: Behaviours, twig: Option<TwigFn>)
      returns (out: string, echoed: string)
      modifies rt`loaded
      ensures rt.loaded == Resolved(old(rt.loaded), rt.sources, componentsDir, rt.classPaths, rt.files, name)
      ensures out == Outcome(Lookup(rt.loaded, name), b, twig, componentsDir, rt.files, name, data)
      ensures echoed == if loadAssets && name in rt.loaded.classes then AssetTags(componentsDir, rt.files, name) else ""
    {
      echoed := "";
      if name !in rt.loaded.classes {
        var _ := AutoloadComponent(name);
      }
      var c: ClassDef;
      if name in rt.loaded.classes {
        c := rt.loaded.classes[name];
      } else {
        var componentFile := componentsDir + "/" + name + "/" + name + ".php";
        if componentFile in rt.files {
          RetryIsRedundant(old(rt.loaded), rt.sources, componentsDir, rt.classPaths, rt.files, name);
          rt.Require(componentFile);
          // the retry included nothing new, so the class is still missing
          assert name !in rt.loaded.classes;
          return NotFound + name, "";
        } else {
          return NotFound + name, "";
        }
      }

      var d := data;
      if HasPrepare(c) {
        d := PrepareWith(c, b, name, d);
      }
      if loadAssets {
        echoed := LoadComponentAssets(name);
      }
      if HasRender(c) {
        return RenderWith(c, b, name, d), echoed;
      }
      var templateFile := ComponentTemplate(componentsDir, rt.files, name);
      if templateFile.Some? && twig.Some? {
        d := Set(d, "_componentName", Str(name));
        match twig.value(templateFile.value, d) {
          case Rendered(html) => return html, echoed;
          case Raised(msg) => return TemplateError + msg, echoed;
        }
      }
      return NoRender + name, echoed;
    }
  }
}
