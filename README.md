# Zest web framework: component system, model in Dafny

This project models the component layer of the Zest PHP web framework
(`zest-fw-web.php`) and its sample `Button` component. It also proves
properties of that model.

The framework finds components on disk. A directory `X` holding `X.php` is a
component; any other directory is a category that is searched in turn
(`scan_components`). Component classes are loaded on demand by
`ComponentSystem::autoloadComponent`. It looks for the class file in this
order:

1. the component's own directory;
2. a flat file in the components directory;
3. every directory registered in the global `CLASS_PATHS`.

`renderComponent` then does the following:

- prepares the data;
- echoes the component's `<link>`/`<script>` tags;
- returns what the component's `render` gives.

A class without `render` is rendered from its Twig template instead. The
failures the code anticipates become message strings: a missing class, a Twig
`\Exception`, and a class with neither `render` nor a template. A Twig `\Error`
is not caught, and `new` on an abstract class is fatal; neither is modelled.
`TemplateEngine::render` turns a Twig exception into a generic message, or,
when the global `DEBUG` is exactly `true`, into `Template error: ` followed by
the exception's message. The `url` and `asset` template functions
build links that are site-relative when `BASE_URL` is unset or a path.

The model has five modules:

- **`Php`** (`php.dfy`): the PHP values the core handles, as a value type.
  Ordered arrays are lists of key/value entries. It covers reading and
  writing a key, `array_merge`, truthiness, string conversion, loose `==`
  against a `switch` label, `htmlspecialchars` with quotes, `ltrim` and
  `implode`.
- **`Button`** (`button.dfy`): `Button::prepare` and `Button::render`. Each is
  a method proved against a specification function.
- **`Discovery`** (`discovery.dfy`): `scan_components` over a snapshot of the
  directory tree. It is a recursive method with loops, proved against a
  recursive function. That function is shown sound and complete against an
  independent description of which paths are components.
- **`Templating`** (`templating.dfy`): the outcomes of `TemplateEngine::render`
  and the `url`/`asset` functions. Twig is a function parameter that returns
  markup or an exception message.
- **`Components`** (`components.dfy`): the PHP process state. It has three
  parts:
  - `Runtime`: the class-path lists, the class table, the files already
    included, and a filesystem snapshot;
  - the `ComponentSystem` class;
  - the specification functions for lookup, assets, templates and render
    outcomes.

  The register helpers (`register_class_path`, `register_component_path`)
  are `Runtime` methods. The helper `register_component_namespace`
  (zest-fw-web.php:568-571) first fetches the singleton with `getInstance`.
  On first use that constructs it: the constructor appends the components
  directory to `CLASS_PATHS` and registers the autoloader. It then calls
  `ComponentSystem::registerComponentNamespace`. The model constructs the
  `ComponentSystem` explicitly.

Some facts the model makes explicit:

- The inherited `Component::render` returns `''`. So every `Component`
  subclass "has" a `render` and never reaches the template branch. A
  component made by `createComponent` renders as the empty string, even
  though a template is written for it.
- `componentNamespaces` is written and never read.
- `loadedComponents` is never written, so `getLoadedComponents` returns `[]`.
- The second include attempt in `renderComponent` can never declare
  anything. The autoloader has already included that same file.

## Model

| member | source | states |
|---|---|---|
| `Php.Get` | boilerplate/webroot/static/components/Button/Button.php:33 | reading `$a[$k]`: a missing key reads as null; in an array without repeated keys the value stored under the key |
| `Php.Set` | boilerplate/webroot/static/components/Button/Button.php:82 | writing `$a[$k] = $v`: a new key is appended, an existing key is overwritten in its place and nothing else changes |
| `Php.ToStr` | boilerplate/webroot/static/components/Button/Button.php:87 | PHP's string conversion of a value, as `.` and `htmlspecialchars` apply it (null and false are empty, true is `1`) |
| `Php.Implode` | boilerplate/webroot/static/components/Button/Button.php:77 | `implode(' ', $classes)` (`Button.ClassStringShape` states the joined class string) |
| `Php.Merge` | boilerplate/webroot/static/components/Button/Button.php:27 | `array_merge` for string keys: a key of the second array overwrites in place, a new key is appended; the first array's keys stay a prefix (`Php.MergeKeys`, `Php.MergeGet` and `Php.MergeUnique` state the rest) |
| `Php.MergeKeys` | boilerplate/webroot/static/components/Button/Button.php:27 | `array_merge` has exactly the keys of both arrays |
| `Php.MergeGet` | boilerplate/webroot/static/components/Button/Button.php:27 | after `array_merge` each key holds the later array's value if that array has the key, the earlier one's otherwise |
| `Php.MergeUnique` | boilerplate/webroot/static/components/Button/Button.php:27 | `array_merge` of an array without repeated keys has no repeated keys |
| `Php.Escape` | boilerplate/webroot/static/components/Button/Button.php:87 | `htmlspecialchars` with quotes: `&`, `<`, `>`, `"` and `'` become entities, every other character is kept (`Php.EscapeInert` and `Php.EscapePlain` state its properties) |
| `Php.EscapeInert` | boilerplate/webroot/static/components/Button/Button.php:87 | `htmlspecialchars` output never contains `<`, `>`, `"` or `'` |
| `Php.EscapePlain` | boilerplate/webroot/static/components/Button/Button.php:87 | a string without special characters is unchanged by `htmlspecialchars`; escaping never shortens |
| `Php.LTrim` | zest-fw-web.php:460 | `ltrim($s, '/')` is a suffix of `s`, removes only slashes, and does not start with a slash |
| `Php.Truthy` | boilerplate/webroot/static/components/Button/Button.php:72 | PHP truthiness: null, false, `0`, `""`, `"0"` and `[]` are false, everything else true (used by `Button.ClassStringShape`, `Button.OnclickRule` and `Button.MarkupElement`) |
| `Php.LooseEqualsLabel` | boilerplate/webroot/static/components/Button/Button.php:33-69 | PHP 8's `==` of a value against a non-numeric string label: a string matches itself, `true` matches every label (`Button.TypeCases`, `Button.SizeCases` and `Button.UnknownStylesFallBack` state it per switch) |
| `Button.DefaultsTable` | boilerplate/webroot/static/components/Button/Button.php:16-24 | the seven defaults: text `Button`, type `primary`, size `md`, url null, disabled false, onClick null, attributes `[]` |
| `Button.MergedValues` | boilerplate/webroot/static/components/Button/Button.php:27 | after the merge every key holds the caller's value if given, the default otherwise |
| `Button.DefaultsPresent` | boilerplate/webroot/static/components/Button/Button.php:16-27 | every default key is present in the prepared array, with the caller's value or the default |
| `Button.Prepared` | boilerplate/webroot/static/components/Button/Button.php:14-92 | the prepared array repeats no key, starts with the default keys in order, and stores the class string and the attribute string |
| `Button.Prepare` | boilerplate/webroot/static/components/Button/Button.php:14-92 | the method computes exactly the prepared array |
| `Button.AttributesStr` | boilerplate/webroot/static/components/Button/Button.php:85-89 | the loop writes ` key="escaped value"` for every attribute, in order |
| `Button.ClassList` | boilerplate/webroot/static/components/Button/Button.php:30-74 | the `$classes` list: `zest-button`, the type token, the size token, and the disabled token when disabled (`Button.ClassStringShape`) |
| `Button.ClassString` | boilerplate/webroot/static/components/Button/Button.php:77 | the class list joined by spaces (`Button.ClassStringShape`) |
| `Button.ClassStringShape` | boilerplate/webroot/static/components/Button/Button.php:30-77 | the class string is `zest-button`, one type token, one size token, and the disabled token at the end iff `disabled` is truthy |
| `Button.TypeToken` | boilerplate/webroot/static/components/Button/Button.php:33-54 | the colour token the `type` switch appends (`Button.TypeCases` and `Button.UnknownStylesFallBack`) |
| `Button.SizeToken` | boilerplate/webroot/static/components/Button/Button.php:57-69 | the size token the `size` switch appends (`Button.SizeCases` and `Button.UnknownStylesFallBack`) |
| `Button.TypeCases` | boilerplate/webroot/static/components/Button/Button.php:33-51 | each `type` label selects its own colour token |
| `Button.SizeCases` | boilerplate/webroot/static/components/Button/Button.php:57-66 | each `size` label selects its own size token |
| `Button.UnknownStylesFallBack` | boilerplate/webroot/static/components/Button/Button.php:52-68 | an unknown type gives the primary token and an unknown size the md token; `true` matches the first label of each switch |
| `Button.DangerButton` | boilerplate/webroot/static/components/Button/Button.php:43-44 | `type => danger` with the other defaults gives `zest-button`, the red token and the md token |
| `Button.EffectiveAttributes` | boilerplate/webroot/static/components/Button/Button.php:80-83 | the attribute list after the `onclick` handler is written (`Button.OnclickRule`) |
| `Button.AttrString` | boilerplate/webroot/static/components/Button/Button.php:85-89 | the ` key="escaped value"` pieces in order (`Button.AttributesStr`, `Button.AttrStringConcat` and `Button.AttrStringEmpty`) |
| `Button.OnclickRule` | boilerplate/webroot/static/components/Button/Button.php:80-83 | `onclick` is set to the handler iff the handler is truthy and the button enabled; every other attribute keeps its value and position |
| `Button.AttrStringConcat` | boilerplate/webroot/static/components/Button/Button.php:85-89 | the attribute string of two attribute lists is the concatenation of theirs |
| `Button.AttrStringEmpty` | boilerplate/webroot/static/components/Button/Button.php:85-89 | the attribute string is empty iff there are no attributes |
| `Button.PrepareIdempotent` | boilerplate/webroot/static/components/Button/Button.php:14-92 | preparing prepared data changes nothing |
| `Button.RenderAfterPrepare` | boilerplate/webroot/static/components/Button/Button.php:100-102 | rendering already prepared data gives the same markup as rendering the raw data |
| `Button.Markup` | boilerplate/webroot/static/components/Button/Button.php:104-121 | the markup for merged data (`Button.MarkupElement` and `Button.TextIsInert`) |
| `Button.Rendered` | boilerplate/webroot/static/components/Button/Button.php:100-121 | the markup for the caller's data after the defaults merge (`Button.Render`, `Button.RenderedElement` and `Button.RenderAfterPrepare`) |
| `Button.Render` | boilerplate/webroot/static/components/Button/Button.php:100-122 | the method returns the markup for the merged data |
| `Button.MarkupElement` | boilerplate/webroot/static/components/Button/Button.php:104-119 | a truthy url gives `<a href="escaped url" class="inline-block rounded …"` directly followed by the attribute string and `>` (so never `disabled`), and ends in `</a>`; otherwise a `<button …>…</button>`; a disabled button carries the `disabled` attribute right after its class attribute, an enabled one goes straight on to the attributes |
| `Button.RenderedElement` | boilerplate/webroot/static/components/Button/Button.php:105-119 | the same opening tags and closing tags, in terms of the caller's `url` and `disabled` after the defaults |
| `Button.TextIsInert` | boilerplate/webroot/static/components/Button/Button.php:108-118 | the rendered markup ends with the caller's text, escaped, then `</a>` or `</button>`; that text contains no `<` |
| `Discovery.Qualify` | zest-fw-web.php:596-599 | each name found in a category gets the category name and a slash in front |
| `Discovery.Scan` | zest-fw-web.php:585-607 | the names the scan of a directory returns: none for a missing or unreadable directory (`Discovery.ScanComplete` and `Discovery.ScanSound` relate it to the tree) |
| `Discovery.ScanPrefix` | zest-fw-web.php:589-602 | the names collected after the first n entries: a component directory adds its name, a category adds its qualified names, anything else nothing (`Discovery.PrefixKeeps`) |
| `Discovery.ScanComponents` | zest-fw-web.php:579-608 | the method returns exactly the specified list of components, in listing order |
| `Discovery.PrefixKeeps` | zest-fw-web.php:586-599 | the scan only appends: what is found after fewer entries is a prefix of what is found after more |
| `Discovery.ScanComplete` | zest-fw-web.php:586-599 | every path that runs through category directories to a component directory is found |
| `Discovery.ScanSound` | zest-fw-web.php:586-599 | every name found is such a path |
| `Discovery.NothingToScan` | zest-fw-web.php:587-588 | a plain file, a directory that cannot be opened and an empty directory yield no names (line 607 returns the empty list) |
| `Discovery.SkippedEntry` | zest-fw-web.php:589-590 | an entry that is `.`, `..` or not a directory adds nothing to the names collected |
| `Discovery.FormsInputExample` | zest-fw-web.php:590-597 | `forms/Input/Input.php` yields exactly `forms/Input`; a top-level `README.php` file is skipped |
| `Templating.EngineRender` | zest-fw-web.php:478-501 | the string `TemplateEngine::render` returns (`Templating.EngineOutcomes`, `Templating.DebugIsStrict` and `Templating.NoMessageLeak`) |
| `Templating.EngineOutcomes` | zest-fw-web.php:478-501 | no engine gives the not-initialized message, success gives Twig's markup, an exception gives its message in debug mode and the generic message otherwise |
| `Templating.DebugIsStrict` | zest-fw-web.php:495 | only a `DEBUG` global identical to `true` shows the message; `1` or `"true"` do not |
| `Templating.NoMessageLeak` | zest-fw-web.php:494-499 | outside debug mode two different exceptions produce the same page |
| `Templating.Url` | zest-fw-web.php:458-461 | the engine's `url` function (`Templating.UrlShape` and `Templating.UrlIgnoresLeadingSlashes`) |
| `Templating.Asset` | zest-fw-web.php:464-467 | the engine's `asset` function (`Templating.AssetIsUrl`) |
| `Templating.InitUrl` | zest-fw-web.php:691-693 | init_web_framework's `url` function (`Templating.InitHelpersAgree`) |
| `Templating.InitAsset` | zest-fw-web.php:688-690 | init_web_framework's `asset` function (`Templating.InitHelpersAgree`) |
| `Templating.InitHelpersAgree` | zest-fw-web.php:458-467 | with `BASE_URL` unset the engine's `url` and `asset` equal init_web_framework's (lines 688-693); with it set they are those links with the base url in front |
| `Templating.UrlShape` | zest-fw-web.php:458-461 | `url` is the base url, one slash, and the path with its leading slashes (only slashes) removed |
| `Templating.UrlIgnoresLeadingSlashes` | zest-fw-web.php:458-461 | leading slashes of the path do not matter; with an empty base url, applying `url` to its own result changes nothing |
| `Templating.AssetIsUrl` | zest-fw-web.php:464-467 | `asset(p)` is `url('static/' . ltrim(p, '/'))` |
| `Components.RequireOnce` | zest-fw-web.php:122 | `require_once` marks the file included, skips an included file, and never removes a class |
| `Components.RequireOnceIdempotent` | zest-fw-web.php:122 | including the same file twice declares nothing new |
| `Components.Registered` | zest-fw-web.php:535-543 | the path is in the list afterwards, the old list is a prefix, and nothing changes when the path was already there |
| `Components.RegisteredProperties` | zest-fw-web.php:540-542 | registration keeps the list free of duplicates and is idempotent |
| `Components.RegisterAllProperties` | zest-fw-web.php:540-542 | after several registrations the list holds each path once, the old list first |
| `Components.Runtime.RegisterClassPath` | zest-fw-web.php:535-543 | `CLASS_PATHS` after the call is the registered list; nothing else changes |
| `Components.Runtime.RegisterComponentPath` | zest-fw-web.php:551-559 | `COMPONENT_PATHS` after the call is the registered list; nothing else changes |
| `Components.Runtime.Require` | zest-fw-web.php:122 | the class table after `require_once` |
| `Components.Candidates` | zest-fw-web.php:119-141 | the candidate files in lookup order: `N/N.php`, `N.php`, then each class path's `N.php` |
| `Components.FirstExisting` | zest-fw-web.php:119-141 | the first of the candidate files that exists (`Components.FirstExistingChoice`) |
| `Components.AutoloadFile` | zest-fw-web.php:119-141 | the file autoloadComponent includes: the first existing candidate, if any (`Components.LookupOrder`) |
| `Components.FirstExistingChoice` | zest-fw-web.php:119-141 | the chosen file exists and no earlier candidate does; no file is chosen iff none exists |
| `Components.LookupOrder` | zest-fw-web.php:119-141 | the component's own directory beats the flat file, which beats the class paths; an earlier class path beats a later one |
| `Components.AutoloadIdempotent` | zest-fw-web.php:115-157 | running the autoloader again changes nothing |
| `Components.ComponentSystem.AutoloadComponent` | zest-fw-web.php:115-157 | the method includes the first existing candidate, if any, and returns true iff a file was included and the class is now declared |
| `Components.ComponentAssets` | zest-fw-web.php:165-182 | the css url is present iff `N/N.css` exists, the js url iff `N/N.js` exists, each under `/static/components/N/` |
| `Components.AssetUrlIsPathSuffix` | zest-fw-web.php:165-182 | for a components directory ending in `/static/components`, an asset url is the file path with the root removed |
| `Components.ComponentTemplate` | zest-fw-web.php:350-357 | `@component_N/N.twig` iff `N/N.twig` exists, nothing otherwise |
| `Components.AssetTags` | zest-fw-web.php:329-348 | the stylesheet link and then the script tag, for the files that exist (`Components.AssetTagsShape`) |
| `Components.AssetTagsShape` | zest-fw-web.php:329-348 | nothing is echoed iff neither file exists; the stylesheet link comes first |
| `Components.ComponentSystem.LoadComponentAssets` | zest-fw-web.php:329-348 | the method echoes exactly the asset tags |
| `Components.HasPrepare` | zest-fw-web.php:234 | `method_exists($component, 'prepare')`: true for every `Component` subclass, through the inherited method at lines 43-45 |
| `Components.HasRender` | zest-fw-web.php:244 | `method_exists($component, 'render')`: true for every `Component` subclass, through the inherited method at lines 53-55 (`Components.SubclassesNeverUseTemplates`) |
| `Components.PrepareWith` | zest-fw-web.php:43-45 | the class's own `prepare`, or the inherited one that returns the data unchanged |
| `Components.RenderWith` | zest-fw-web.php:53-55 | the class's own `render`, or the inherited one that returns `''` (`Components.ScaffoldRendersNothing`) |
| `Components.Resolved` | zest-fw-web.php:205-208 | the class table after the lookup: the autoloader runs only for an undeclared class (`Components.RetryIsRedundant`) |
| `Components.Outcome` | zest-fw-web.php:211-264 | the string renderComponent returns once the class is known (`Components.SubclassesNeverUseTemplates`, `Components.TemplateBranch` and `Components.MessageOutcomes`) |
| `Components.RetryIsRedundant` | zest-fw-web.php:214-230 | the second include in `renderComponent` cannot declare the class: the autoloader already included that file |
| `Components.SubclassesNeverUseTemplates` | zest-fw-web.php:244-246 | a `Component` subclass renders with its own `render` of its prepared data, or as `''`, whatever its template |
| `Components.TemplateBranch` | zest-fw-web.php:249-261 | a class with no `render` and an existing template is rendered by Twig with `_componentName` set; a Twig exception becomes `Error rendering component template: …` |
| `Components.MessageOutcomes` | zest-fw-web.php:218-264 | a missing class gives `Component not found: N`; no `render` and no usable template gives `No render method or template found for component: N` |
| `Components.ScaffoldRendersNothing` | zest-fw-web.php:286-326 | a component made by `createComponent` renders as `''` |
| `Components.ButtonThroughSystem` | zest-fw-web.php:234-246 | Button rendered through `renderComponent` (prepared twice) gives the markup for the caller's data |
| `Components.ComponentSystem.RenderComponent` | zest-fw-web.php:201-265 | the class table after the autoload, the returned string, and the echoed tags (only when the class is found and assets are requested) |
| `Components.ComponentSystem.constructor` | zest-fw-web.php:72-84 | the components directory under the root is appended to `CLASS_PATHS`, with no duplicate check |
| `Components.ComponentSystem.RegisterComponentNamespace` | zest-fw-web.php:105-107 | the namespace map gets the directory under that namespace; `loadedComponents` stays empty |
| `Components.ComponentSystem.GetLoadedComponents` | zest-fw-web.php:272-274 | always the empty list |
| `Components.ComponentSystem.CreateComponent` | zest-fw-web.php:282-327 | the directory and its four files exist afterwards; the PHP file declares a `Component` subclass with its own `prepare`; the result is true |

## Left out

- Output and logging are not modelled as effects. `echo` in `loadComponentAssets` becomes a returned string. The `error_log` debug banner of `autoloadComponent` (lines 144-154, built with `str_pad`) is left out.
- PHP's `class_exists` also runs every registered autoloader. In the model it only looks up the class table. The autoloader is proved idempotent, so running it again changes no outcome. Other autoloaders registered elsewhere are not part of this model.
- PHP class names are case-insensitive. The model compares them exactly.
- Declaring a class twice is a fatal error in PHP. The model lets the later file win.
- A file whose name is listed but cannot be read, and symbolic links, are not modelled. The only directory failure modelled is `opendir` failing.
- Exceptions thrown by a component's own `prepare` or `render` are not modelled. Instantiating an abstract class is not modelled either.
- Twig's output and the `\Exception` hierarchy are not modelled. Twig is any function returning markup or a message. Its construction, loader paths and the registration of the `component` function are left out.
- `Templating.EngineRender`: the `component_css`/`component_js` entries added from the `COMPONENT_CSS`/`COMPONENT_JS` globals (lines 484-490) are not modelled. No code in this file writes those globals, and `array_unique` is not modelled.
- The registration loop of `init_web_framework` (lines 697-709) is not modelled. It adds a function only when `getFunction` reports it absent, and the engine's constructor has already added `url` and `asset` (lines 457-467), so init_web_framework's own `url`/`asset` closures are defined but never registered. They are modelled as `Templating.InitUrl` and `Templating.InitAsset`.
- `scan_components` without an argument scans the components directory. The model takes the directory tree as a parameter.
- `createComponent` writes file contents that are not modelled, except for the class the PHP file declares. `mkdir`'s creation of missing parent directories is not modelled.
- `Button.Prepared`: in PHP, integer-like string keys are renumbered by `array_merge`. The model keeps every key as a string.
- The model assumes PHP 8.1 or later. The `switch` statements follow PHP 8's loose comparison against non-numeric string labels; PHP 7's rule, where `0` matches every such label, is not modelled. `Php.Escape` follows the default flags of PHP 8.1, which escape `'`; earlier versions left it alone. Floating-point values are not part of the value type.
- `Php.Escape`: strings are sequences of characters, so the replacement of invalid UTF-8 under `ENT_SUBSTITUTE` is not modelled.
- `Button.Prepared`: an `attributes` value that is an integer, `true` or a string, combined with an `onclick` handler that is written, makes PHP throw an Error at Button.php:82. The model writes `onclick` into an empty attribute list instead. For null and false, and for any non-array without a handler, the model does what PHP does: no attributes, or `onclick` alone.
- `Button.Prepared`: `htmlspecialchars` on an array (an attribute value, `url` or `text`) throws a TypeError in PHP. The model escapes the string `Array` instead. Integers, booleans and null are converted to strings as PHP does.
- `Components.Registered`: path membership (`in_array` at lines 540 and 556) is modelled as exact string equality. PHP compares loosely, so two numeric strings such as `"1"` and `"01"` count as the same path there. The paths the framework registers are absolute directory paths, which are never numeric.
- `ComponentSystem::getInstance` (lines 91-96) is not modelled: the model constructs the `ComponentSystem` explicitly, and `spl_autoload_register` is not modelled.
