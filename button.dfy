/** The Button component (boilerplate/webroot/static/components/Button/Button.php).
    `prepare` fills in the defaults and derives two strings from the data:
    the CSS class list and the extra HTML attributes; `render` prepares the
    data again and emits an `<a>` when a url is given, a `<button>` otherwise. */
module Button {
  import opened Php

  const PrimaryToken := "bg-blue-600 hover:bg-blue-700 text-white"
  const SecondaryToken := "bg-gray-500 hover:bg-gray-600 text-white"
  const SuccessToken := "bg-green-600 hover:bg-green-700 text-white"
  const DangerToken := "bg-red-600 hover:bg-red-700 text-white"
  const WarningToken := "bg-yellow-500 hover:bg-yellow-600 text-white"
  const InfoToken := "bg-blue-400 hover:bg-blue-500 text-white"

  const SmToken := "text-sm px-2 py-1"
  const MdToken := "text-base px-4 py-2"
  const LgToken := "text-lg px-6 py-3"

  const DisabledToken := "opacity-50 cursor-not-allowed"

  /** The defaults `prepare` merges the caller's data onto, in their order. */
  function Defaults(): Dict
  {
    [ Entry("text", Str("Button")),
      Entry("type", Str("primary")),
      Entry("size", Str("md")),
      Entry("url", Null),
      Entry("disabled", Bool(false)),
      Entry("onClick", Null),
      Entry("attributes", Arr([])) ]
  }

  lemma DefaultsUnique()
    ensures Unique(Defaults())
  {
  }

  /** The value a key has after the defaults merge: the caller's, or the default. */
  function Field(data: Dict, k: string): Value
  {
    if HasKey(data, k) then Get(data, k) else Get(Defaults(), k)
  }

  /** The default values, key by key. */
  lemma DefaultsTable()
    ensures Get(Defaults(), "text") == Str("Button")
    ensures Get(Defaults(), "type") == Str("primary")
    ensures Get(Defaults(), "size") == Str("md")
    ensures Get(Defaults(), "url") == Null
    ensures Get(Defaults(), "disabled") == Bool(false)
    ensures Get(Defaults(), "onClick") == Null
    ensures Get(Defaults(), "attributes") == Arr([])
  {
    var d := Defaults();
    DefaultsUnique();
    assert d[0].key == "text" && d[1].key == "type" && d[2].key == "size" && d[3].key == "url";
    assert d[4].key == "disabled" && d[5].key == "onClick" && d[6].key == "attributes";
  }

  /** The two keys `prepare` derives are not among the defaults. */
  lemma DerivedKeysNotDefaults()
    ensures !HasKey(Defaults(), "classes") && !HasKey(Defaults(), "attributesStr")
  {
  }

  /** The colour token chosen by the `switch` on `type`; the cases are
      compared with PHP's loose `==`, and anything unmatched is primary. */
  function TypeToken(t: Value): string
  {
    if LooseEqualsLabel(t, "primary") then PrimaryToken
    else if LooseEqualsLabel(t, "secondary") then SecondaryToken
    else if LooseEqualsLabel(t, "success") then SuccessToken
    else if LooseEqualsLabel(t, "danger") then DangerToken
    else if LooseEqualsLabel(t, "warning") then WarningToken
    else if LooseEqualsLabel(t, "info") then InfoToken
    else PrimaryToken
  }

  /** The size token chosen by the `switch` on `size`; anything unmatched is md. */
  function SizeToken(s: Value): string
  {
    if LooseEqualsLabel(s, "sm") then SmToken
    else if LooseEqualsLabel(s, "md") then MdToken
    else if LooseEqualsLabel(s, "lg") then LgToken
    else MdToken
  }

  /** The `$classes` list built from the merged data `m`. */
  function ClassList(m: Dict): seq<string>
  {
    ["zest-button", TypeToken(Get(m, "type")), SizeToken(Get(m, "size"))]
    + (if Truthy(Get(m, "disabled")) then [DisabledToken] else [])
  }

  /** The value stored under `classes`. */
  function ClassString(m: Dict): string
  {
    Implode(" ", ClassList(m))
  }

  /** `$data['attributes']`; a null (or any non-array) value contributes no attribute. */
  function Attributes(m: Dict): Dict
  {
    match Get(m, "attributes")
    case Arr(es) => es
    case _ => []
  }

  /** The attributes after the onClick handler is written over `onclick`
      (only for an enabled button with a truthy handler). */
  function EffectiveAttributes(m: Dict): Dict
  {
    if Truthy(Get(m, "onClick")) && !Truthy(Get(m, "disabled"))
    then Set(Attributes(m), "onclick", Get(m, "onClick"))
    else Attributes(m)
  }

  /** One ` key="value"` piece of the attribute string. */
  function AttrPiece(e: Entry): string
  {
    " " + e.key + "=\"" + Escape(ToStr(e.val)) + "\""
  }

  /** The attribute string: the pieces of `es`, in order. */
  function AttrString(es: Dict): string
  {
    if es == [] then "" else AttrString(es[..|es| - 1]) + AttrPiece(es[|es| - 1])
  }

  /** The array `prepare` returns: the defaults' keys come first, in their
      order, no key repeats, and the two derived strings are stored under
      `classes` and `attributesStr`. */
  function Prepared(data: Dict): (p: Dict)
    requires Unique(data)
    ensures Unique(p)
    ensures KeysPrefix(Defaults(), p)
    ensures Get(p, "classes") == Str(ClassString(Merge(Defaults(), data)))
    ensures Get(p, "attributesStr") == Str(AttrString(EffectiveAttributes(Merge(Defaults(), data))))
  {
    DefaultsUnique();
    MergeUnique(Defaults(), data);
    var m := Merge(Defaults(), data);
    var withClasses := Set(m, "classes", Str(ClassString(m)));
    var p := Set(withClasses, "attributesStr", Str(AttrString(EffectiveAttributes(m))));
    PrefixTrans(Defaults(), m, withClasses);
    PrefixTrans(Defaults(), withClasses, p);
    p
  }

  /** The `foreach` of `prepare` that writes each attribute as ` key="value"`. */
  method AttributesStr(attrs: Dict) returns (attributesStr: string)
    ensures attributesStr == AttrString(attrs)
  {
    attributesStr := "";
    var i := 0;
    while i < |attrs|
      invariant 0 <= i <= |attrs|
      invariant attributesStr == AttrString(attrs[..i])
    {
      attributesStr := attributesStr + (" " + attrs[i].key + "=\"" + Escape(ToStr(attrs[i].val)) + "\"");
      assert attrs[..i + 1] == attrs[..i] + [attrs[i]];
      AttrStringSnoc(attrs[..i], attrs[i]);
      i := i + 1;
    }
    assert attrs[..|attrs|] == attrs;
  }

  /** Button::prepare. */
  method Prepare(data: Dict) returns (p: Dict)
    requires Unique(data)
    ensures p == Prepared(data)
  {
    DefaultsUnique();
    var merged := Merge(Defaults(), data);
    var classes := ["zest-button", TypeToken(Get(merged, "type")), SizeToken(Get(merged, "size"))];
    if Truthy(Get(merged, "disabled")) {
      classes := classes + [DisabledToken];
    }
    assert classes == ClassList(merged);
    var withClasses := Set(merged, "classes", Str(Implode(" ", classes)));
    ClassesKeepInputs(merged, Str(Implode(" ", classes)));

    var attrs := match Get(withClasses, "attributes") case Arr(es) => es case _ => [];
    if Truthy(Get(withClasses, "onClick")) && !Truthy(Get(withClasses, "disabled")) {
      attrs := Set(attrs, "onclick", Get(withClasses, "onClick"));
    }
    assert attrs == EffectiveAttributes(withClasses);
    SameInputsSameOutput(withClasses, merged);

    var attributesStr := AttributesStr(attrs);
    p := Set(withClasses, "attributesStr", Str(attributesStr));
  }

  /** The opening `<button` tag up to its class attribute. */
  function ButtonHead(classes: string): string
  {
    "<button type=\"button\" class=\"inline-block rounded " + classes + "\""
  }

  /** The markup `render` emits for already merged data `m`. */
  function Markup(m: Dict): string
  {
    var classes := ClassString(m);
    var attributesStr := AttrString(EffectiveAttributes(m));
    var text := Escape(ToStr(Get(m, "text")));
    if Truthy(Get(m, "url")) then
      "<a href=\"" + Escape(ToStr(Get(m, "url"))) + "\" class=\"inline-block rounded " + classes + "\"" + attributesStr + ">"
      + text + "</a>"
    else
      var head := ButtonHead(classes);
      var tag := if Truthy(Get(m, "disabled")) then head + " disabled" else head;
      tag + (attributesStr + ">") + text + "</button>"
  }

  /** The markup `render` returns for the caller's `data`. */
  function Rendered(data: Dict): string
    requires Unique(data)
  {
    Markup(Merge(Defaults(), data))
  }

  /** Button::render. */
  method Render(data: Dict) returns (html: string)
    requires Unique(data)
    ensures html == Rendered(data)
  {
    var p := Prepare(data);
    PreparedInputs(data);
    var classes := ToStr(Get(p, "classes"));
    var attributesStr := ToStr(Get(p, "attributesStr"));
    if Truthy(Get(p, "url")) {
      html := "<a href=\"" + Escape(ToStr(Get(p, "url"))) + "\" class=\"inline-block rounded " + classes + "\"" + attributesStr + ">";
      html := html + Escape(ToStr(Get(p, "text")));
      html := html + "</a>";
    } else {
      html := ButtonHead(classes);
      if Truthy(Get(p, "disabled")) {
        html := html + " disabled";
      }
      html := html + (attributesStr + ">");
      html := html + Escape(ToStr(Get(p, "text")));
      html := html + "</button>";
    }
  }

  // ----- properties of prepare and render -----

  /** The merged data holds `Field(data, k)` under every key. */
  lemma MergedValues(data: Dict, k: string)
    requires Unique(data)
    ensures Get(Merge(Defaults(), data), k) == Field(data, k)
  {
    MergeGet(Defaults(), data, k);
  }

  /** Two arrays that agree on every default key give the same class string,
      attributes and markup. */
  predicate SameInputs(a: Dict, b: Dict)
  {
    && Get(a, "text") == Get(b, "text")
    && Get(a, "type") == Get(b, "type")
    && Get(a, "size") == Get(b, "size")
    && Get(a, "url") == Get(b, "url")
    && Get(a, "disabled") == Get(b, "disabled")
    && Get(a, "onClick") == Get(b, "onClick")
    && Get(a, "attributes") == Get(b, "attributes")
  }

  lemma SameInputsSameOutput(a: Dict, b: Dict)
    requires SameInputs(a, b)
    ensures ClassString(a) == ClassString(b)
    ensures EffectiveAttributes(a) == EffectiveAttributes(b)
    ensures Markup(a) == Markup(b)
  {
    assert ClassList(a) == ClassList(b);
  }

  /** Storing the class string leaves every input of the markup alone. */
  lemma ClassesKeepInputs(m: Dict, v: Value)
    ensures SameInputs(Set(m, "classes", v), m)
  {
  }

  lemma PreparedAgrees(data: Dict, k: string)
    requires Unique(data) && k != "classes" && k != "attributesStr"
    ensures Get(Prepared(data), k) == Get(Merge(Defaults(), data), k) == Field(data, k)
  {
    MergedValues(data, k);
  }

  /** `prepare` keeps every input of the markup, and stores both derived strings. */
  lemma PreparedInputs(data: Dict)
    requires Unique(data)
    ensures SameInputs(Prepared(data), Merge(Defaults(), data))
    ensures HasKey(Prepared(data), "classes") && HasKey(Prepared(data), "attributesStr")
  {
    PreparedAgrees(data, "text");
    PreparedAgrees(data, "type");
    PreparedAgrees(data, "size");
    PreparedAgrees(data, "url");
    PreparedAgrees(data, "disabled");
    PreparedAgrees(data, "onClick");
    PreparedAgrees(data, "attributes");
  }

  /** Every default key is present after `prepare`, holding the caller's value
      when the caller supplied one and the default otherwise. */
  lemma DefaultsPresent(data: Dict, k: string)
    requires Unique(data) && HasKey(Defaults(), k)
    ensures HasKey(Prepared(data), k) && Get(Prepared(data), k) == Field(data, k)
  {
    DerivedKeysNotDefaults();
    PreparedAgrees(data, k);
    HasKeyAt(Prepared(data), k, IndexOf(Defaults(), k));
  }

  /** The class string is `zest-button`, one type token, one size token and,
      exactly when `disabled` is truthy, the disabled token at the end. */
  lemma ClassStringShape(m: Dict)
    ensures ClassString(m) ==
      "zest-button " + TypeToken(Get(m, "type")) + " " + SizeToken(Get(m, "size"))
      + (if Truthy(Get(m, "disabled")) then " " + DisabledToken else "")
    ensures TypeToken(Get(m, "type")) in {PrimaryToken, SecondaryToken, SuccessToken, DangerToken, WarningToken, InfoToken}
    ensures SizeToken(Get(m, "size")) in {SmToken, MdToken, LgToken}
    ensures Truthy(Get(m, "disabled")) <==>
      |ClassString(m)| >= |DisabledToken| && ClassString(m)[|ClassString(m)| - |DisabledToken|..] == DisabledToken
  {
    var t, z := TypeToken(Get(m, "type")), SizeToken(Get(m, "size"));
    TokenChoices(Get(m, "type"), Get(m, "size"));
    ClassStringJoin(m);
    DisabledSuffix("zest-button " + t + " ", z, Truthy(Get(m, "disabled")));
  }

  /** A class string ending in a size token ends in the disabled token
      exactly when that token was appended. */
  lemma DisabledSuffix(p: string, z: string, disabled: bool)
    requires z in {SmToken, MdToken, LgToken}
    ensures var c := p + z + (if disabled then " " + DisabledToken else "");
      disabled <==> |c| >= |DisabledToken| && c[|c| - |DisabledToken|..] == DisabledToken
  {
    var base := p + z;
    if disabled {
      assert (base + " " + DisabledToken)[|base| + 1..] == DisabledToken;
    } else {
      assert base + "" == base;
      LastCharDiffers(p, z);
    }
  }

  /** Each switch picks one of its tokens. */
  lemma TokenChoices(t: Value, z: Value)
    ensures TypeToken(t) in {PrimaryToken, SecondaryToken, SuccessToken, DangerToken, WarningToken, InfoToken}
    ensures SizeToken(z) in {SmToken, MdToken, LgToken}
  {
  }

  /** The class list joined by spaces. */
  lemma ClassStringJoin(m: Dict)
    ensures ClassString(m) ==
      "zest-button " + TypeToken(Get(m, "type")) + " " + SizeToken(Get(m, "size"))
      + (if Truthy(Get(m, "disabled")) then " " + DisabledToken else "")
  {
    JoinClasses(TypeToken(Get(m, "type")), SizeToken(Get(m, "size")), Truthy(Get(m, "disabled")));
  }

  lemma JoinClasses(t: string, z: string, disabled: bool)
    ensures Implode(" ", ["zest-button", t, z] + (if disabled then [DisabledToken] else []))
      == "zest-button " + t + " " + z + (if disabled then " " + DisabledToken else "")
  {
    if disabled {
      assert ["zest-button", t, z] + [DisabledToken] == ["zest-button", t, z, DisabledToken];
      ImplodeFour("zest-button", t, z, DisabledToken);
    } else {
      assert ["zest-button", t, z] + [] == ["zest-button", t, z];
      ImplodeThree("zest-button", t, z);
    }
  }

  /** Four class names joined by single spaces. */
  lemma ImplodeFour(a: string, b: string, c: string, d: string)
    ensures Implode(" ", [a, b, c, d]) == a + " " + b + " " + c + (" " + d)
  {
    assert [a, b, c, d][..3] == [a, b, c];
    ImplodeThree(a, b, c);
    ConcatAssoc(a + " " + b + " " + c, " ", d);
  }

  /** A string ending in a size token does not end in the disabled token. */
  lemma LastCharDiffers(p: string, z: string)
    requires z in {SmToken, MdToken, LgToken}
    ensures var base := p + z;
      !(|base| >= |DisabledToken| && base[|base| - |DisabledToken|..] == DisabledToken)
  {
    var base := p + z;
    assert base[|base| - 1] == z[|z| - 1];
    assert |base| >= |DisabledToken| ==>
      base[|base| - |DisabledToken|..][|DisabledToken| - 1] == base[|base| - 1];
  }

  /** Three class names joined by single spaces. */
  lemma ImplodeThree(a: string, b: string, c: string)
    ensures Implode(" ", [a, b, c]) == a + " " + b + " " + c
  {
    assert [a, b, c][..2] == [a, b];
    assert [a, b][..1] == [a];
    assert Implode(" ", [a]) == a;
    assert Implode(" ", [a, b]) == a + " " + b;
  }

  /** Each case label of the `type` switch selects its own token. */
  lemma TypeCases()
    ensures TypeToken(Str("primary")) == PrimaryToken && TypeToken(Str("secondary")) == SecondaryToken
    ensures TypeToken(Str("success")) == SuccessToken && TypeToken(Str("danger")) == DangerToken
    ensures TypeToken(Str("warning")) == WarningToken && TypeToken(Str("info")) == InfoToken
  {
    assert |"primary"| == 7 && |"secondary"| == 9 && |"success"| == 7;
    assert |"danger"| == 6 && |"warning"| == 7 && |"info"| == 4;
  }

  /** Each case label of the `size` switch selects its own token. */
  lemma SizeCases()
    ensures SizeToken(Str("sm")) == SmToken && SizeToken(Str("md")) == MdToken && SizeToken(Str("lg")) == LgToken
  {
  }

  /** An unknown type string falls back to the primary token and an unknown
      size string to the md token; `true` matches the first case of each
      switch, so `size => true` selects sm. */
  lemma UnknownStylesFallBack(t: string, s: string)
    requires t !in {"primary", "secondary", "success", "danger", "warning", "info"}
    requires s !in {"sm", "md", "lg"}
    ensures TypeToken(Str(t)) == PrimaryToken
    ensures SizeToken(Str(s)) == MdToken
    ensures SizeToken(Bool(true)) == SmToken && TypeToken(Bool(true)) == PrimaryToken
  {
  }

  /** `onclick` is written exactly when the handler is truthy and the button
      is enabled; it then holds the handler, replacing a caller's `onclick`
      in place, and every other attribute keeps its value and position. */
  lemma OnclickRule(m: Dict)
    ensures var written := Truthy(Get(m, "onClick")) && !Truthy(Get(m, "disabled"));
      && KeysPrefix(Attributes(m), EffectiveAttributes(m))
      && (HasKey(EffectiveAttributes(m), "onclick") <==> written || HasKey(Attributes(m), "onclick"))
      && (written ==> Get(EffectiveAttributes(m), "onclick") == Get(m, "onClick"))
      && (!written ==> EffectiveAttributes(m) == Attributes(m))
      && forall k :: k != "onclick" ==> Get(EffectiveAttributes(m), k) == Get(Attributes(m), k)
  {
  }

  lemma AttrStringSnoc(x: Dict, e: Entry)
    ensures AttrString(x + [e]) == AttrString(x) + AttrPiece(e)
  {
    assert (x + [e])[..|x|] == x;
  }

  /** The attribute string is the in-order concatenation of the pieces. */
  lemma {:induction false} AttrStringConcat(a: Dict, b: Dict)
    ensures AttrString(a + b) == AttrString(a) + AttrString(b)
    decreases |b|
  {
    if b == [] {
      assert a + b == a;
    } else {
      var b', e := b[..|b| - 1], b[|b| - 1];
      assert b == b' + [e];
      assert a + b == (a + b') + [e];
      calc {
        AttrString(a + b);
        { AttrStringSnoc(a + b', e); }
        AttrString(a + b') + AttrPiece(e);
        { AttrStringConcat(a, b'); }
        AttrString(a) + AttrString(b') + AttrPiece(e);
        { ConcatAssoc(AttrString(a), AttrString(b'), AttrPiece(e)); }
        AttrString(a) + (AttrString(b') + AttrPiece(e));
        { AttrStringSnoc(b', e); }
        AttrString(a) + AttrString(b);
      }
    }
  }

  /** The attribute string is empty exactly when there are no attributes. */
  lemma AttrStringEmpty(a: Dict)
    ensures AttrString(a) == "" <==> a == []
  {
    if a != [] {
      assert |AttrPiece(a[|a| - 1])| > 0;
    }
  }

  /** Preparing prepared data changes nothing, so the second `prepare` inside
      `render` (after the one in renderComponent) is harmless. */
  lemma PrepareIdempotent(data: Dict)
    requires Unique(data)
    ensures Prepared(Prepared(data)) == Prepared(data)
  {
    var p := Prepared(data);
    MergeOntoExtension(Defaults(), p);
    PreparedInputs(data);
    SameInputsSameOutput(p, Merge(Defaults(), data));
    SetSame(p, "classes");
    SetSame(p, "attributesStr");
  }

  /** Rendering prepared data gives the same markup as rendering the raw data. */
  lemma RenderAfterPrepare(data: Dict)
    requires Unique(data)
    ensures Rendered(Prepared(data)) == Rendered(data)
  {
    var p := Prepared(data);
    MergeOntoExtension(Defaults(), p);
    PreparedInputs(data);
    SameInputsSameOutput(p, Merge(Defaults(), data));
  }

  predicate EndsWith(s: string, t: string)
  {
    |t| <= |s| && s[|s| - |t|..] == t
  }

  /** The opening `<a>` tag: the escaped url, the class attribute, then
      directly the attribute string; no `disabled` attribute. */
  function LinkOpen(m: Dict): string
  {
    "<a href=\"" + Escape(ToStr(Get(m, "url"))) + "\" class=\"inline-block rounded " + ClassString(m) + "\""
      + AttrString(EffectiveAttributes(m)) + ">"
  }

  /** A truthy url gives an `<a>` element opened by `LinkOpen`, anything
      else a `<button>`; a disabled button carries the bare `disabled`
      attribute right after its class attribute, an enabled one goes
      straight on to the attribute string. */
  lemma MarkupElement(m: Dict)
    ensures Truthy(Get(m, "url")) ==> LinkOpen(m) <= Markup(m) && EndsWith(Markup(m), "</a>")
    ensures !Truthy(Get(m, "url")) ==> EndsWith(Markup(m), "</button>")
    ensures !Truthy(Get(m, "url")) && Truthy(Get(m, "disabled")) ==>
      ButtonHead(ClassString(m)) + " disabled" <= Markup(m)
    ensures !Truthy(Get(m, "url")) && !Truthy(Get(m, "disabled")) ==>
      ButtonHead(ClassString(m)) + (AttrString(EffectiveAttributes(m)) + ">") <= Markup(m)
  {
    var classes := ClassString(m);
    var attributesStr := AttrString(EffectiveAttributes(m));
    var text := Escape(ToStr(Get(m, "text")));
    if Truthy(Get(m, "url")) {
      var opening := LinkOpen(m);
      assert Markup(m) == opening + text + "</a>";
      assert (opening + text + "</a>")[|opening + text|..] == "</a>";
      PrefixAppend(opening, opening, text);
      PrefixAppend(opening, opening + text, "</a>");
    } else {
      var head := ButtonHead(classes);
      var tag := if Truthy(Get(m, "disabled")) then head + " disabled" else head;
      var opening := tag + (attributesStr + ">");
      assert (opening + text + "</button>")[|opening + text|..] == "</button>";
      PrefixAppend(tag, tag, attributesStr + ">");
      PrefixAppend(opening, opening, text);
      PrefixAppend(opening, opening + text, "</button>");
      PrefixAppend(tag, opening, text);
      PrefixAppend(tag, opening + text, "</button>");
    }
  }

  /** `MarkupElement` for the caller's data: the choice of element and of
      the `disabled` attribute follows the caller's `url` and `disabled`,
      whose defaults give an enabled `<button>`. */
  lemma RenderedElement(data: Dict)
    requires Unique(data)
    ensures Truthy(Field(data, "url")) ==>
      LinkOpen(Merge(Defaults(), data)) <= Rendered(data) && EndsWith(Rendered(data), "</a>")
    ensures !Truthy(Field(data, "url")) ==> EndsWith(Rendered(data), "</button>")
    ensures !Truthy(Field(data, "url")) && Truthy(Field(data, "disabled")) ==>
      ButtonHead(ClassString(Merge(Defaults(), data))) + " disabled" <= Rendered(data)
    ensures !Truthy(Field(data, "url")) && !Truthy(Field(data, "disabled")) ==>
      ButtonHead(ClassString(Merge(Defaults(), data))) + (AttrString(EffectiveAttributes(Merge(Defaults(), data))) + ">")
        <= Rendered(data)
  {
    MergedValues(data, "url");
    MergedValues(data, "disabled");
    MarkupElement(Merge(Defaults(), data));
  }

  /** The markup ends with the caller's text, escaped, and the closing tag
      of its element; that text cannot open or close a tag. */
  lemma TextIsInert(data: Dict)
    requires Unique(data)
    ensures var text := Escape(ToStr(Field(data, "text")));
      var close := if Truthy(Field(data, "url")) then "</a>" else "</button>";
      && EndsWith(Rendered(data), text + close)
      && forall i :: 0 <= i < |text| ==> text[i] != '<'
  {
    var m := Merge(Defaults(), data);
    MergedValues(data, "text");
    MergedValues(data, "url");
    var text := Escape(ToStr(Get(m, "text")));
    var close := if Truthy(Get(m, "url")) then "</a>" else "</button>";
    var opening := if Truthy(Get(m, "url")) then LinkOpen(m) else
      (if Truthy(Get(m, "disabled")) then ButtonHead(ClassString(m)) + " disabled" else ButtonHead(ClassString(m)))
      + (AttrString(EffectiveAttributes(m)) + ">");
    assert Markup(m) == opening + text + close;
    ConcatAssoc(opening, text, close);
    assert (opening + (text + close))[|opening|..] == text + close;
    EscapeInert(ToStr(Get(m, "text")));
  }

  /** Data that asks for a danger button and leaves size and disabled to the
      defaults gets the danger colour and the md size, and nothing else. */
  lemma DangerButton(data: Dict)
    requires Unique(data) && Get(data, "type") == Str("danger")
    requires !HasKey(data, "size") && !HasKey(data, "disabled")
    ensures ClassString(Merge(Defaults(), data)) == "zest-button " + DangerToken + " " + MdToken
  {
    var m := Merge(Defaults(), data);
    DefaultsTable();
    MergedValues(data, "type");
    MergedValues(data, "size");
    MergedValues(data, "disabled");
    assert Get(m, "type") == Str("danger");
    assert Get(m, "size") == Str("md");
    assert Get(m, "disabled") == Bool(false);
    TypeCases();
    SizeCases();
    ClassStringShape(m);
  }
}
