/**
 * The text pieces the page engine (pageengine/render.go) writes: CSS rules,
 * attribute lists, the merged `class` attribute and the set of self-closing
 * tags, together with the class-name shape `Type_xxxxxx`.
 */
module PageText {
  import opened Common
  import Random

  /** `selfClosingTags`: these tags are closed with ` />` and never get children. */
  const SelfClosingTags: set<string> :=
    {"area", "base", "br", "col", "embed", "hr", "img", "input", "link", "meta", "param", "source", "track", "wbr"}

  /** One CSS declaration ` key: value;`. */
  function Decl(key: string, value: string): string
  {
    " " + key + ": " + value + ";"
  }

  function DeclOf(css: map<string, string>): string -> string
  {
    key => Decl(key, if key in css then css[key] else "")
  }

  /** The declarations of `css` written in the iteration order `order`. */
  function CssBody(css: map<string, string>, order: seq<string>): string
  {
    Concat(Image(order, DeclOf(css)))
  }

  /** The rule `GenerateCSS` writes: nothing for an empty map, else `.class { k: v; ... }`. */
  function CssRule(className: string, css: map<string, string>, order: seq<string>): (r: string)
    ensures r == "" <==> |css| == 0
  {
    if |css| == 0 then "" else "." + className + " {" + CssBody(css, order) + " }"
  }

  /**
   * GenerateCSS (render.go:98-107): streams one rule for `className`; the
   * declarations come in Go's unspecified map order, returned as `order`.
   */
  method GenerateCSS(className: string, css: map<string, string>) returns (text: string, ghost order: seq<string>)
    ensures IsOrder(order, css.Keys)
    ensures text == CssRule(className, css, order)
  {
    order := [];
    if |css| == 0 {
      text := "";
      return;
    }
    var body := "";
    var rest := css.Keys;
    while rest != {}
      invariant rest <= css.Keys
      invariant IsOrder(order, css.Keys - rest)
      invariant body == CssBody(css, order)
      decreases |rest|
    {
      var key :| key in rest;
      OrderRest(css.Keys, order, rest, key);
      CssBodyStep(css, order, key);
      body := body + Decl(key, css[key]);
      order, rest := order + [key], rest - {key};
    }
    assert css.Keys - rest == css.Keys;
    text := "." + className + " {" + body + " }";
  }

  lemma CssBodyStep(css: map<string, string>, order: seq<string>, key: string)
    requires key in css
    ensures CssBody(css, order + [key]) == CssBody(css, order) + Decl(key, css[key])
  {
    ImageAppend(order, key, DeclOf(css));
    ConcatAppend(Image(order, DeclOf(css)), [Decl(key, css[key])]);
    assert Concat([Decl(key, css[key])]) == Decl(key, css[key]);
  }

  /**
   * The declarations of a rule do not depend on the iteration order: two
   * orders give the same multiset of declarations, and every entry of the
   * map contributes its declaration.
   */
  lemma CssDeclarationsPermute(css: map<string, string>, o1: seq<string>, o2: seq<string>)
    requires IsOrder(o1, css.Keys) && IsOrder(o2, css.Keys)
    ensures multiset(Image(o1, DeclOf(css))) == multiset(Image(o2, DeclOf(css)))
    ensures forall k | k in css :: Decl(k, css[k]) in Image(o1, DeclOf(css))
  {
    PermutedImage(o1, o2, DeclOf(css));
    forall k | k in css ensures Decl(k, css[k]) in Image(o1, DeclOf(css)) {
      assert k in multiset(o1);
      var i :| 0 <= i < |o1| && o1[i] == k;
      assert Image(o1, DeclOf(css))[i] == Decl(k, css[k]);
    }
  }

  /** One attribute ` key="value"`; the reserved `class` key is not written here. */
  function AttrOf(attrs: map<string, string>): string -> string
  {
    key => if key == "class" then "" else " " + key + "=\"" + (if key in attrs then attrs[key] else "") + "\""
  }

  function AttrText(attrs: map<string, string>, order: seq<string>): string
  {
    Concat(Image(order, AttrOf(attrs)))
  }

  /** The author-supplied class: the value under `class`, or "" when absent. */
  function CustomClass(attrs: map<string, string>): string
  {
    if "class" in attrs then attrs["class"] else ""
  }

  /**
   * The attribute loop of Render (render.go:248-255): every attribute except
   * `class` is written verbatim in map order; the `class` value is set aside.
   */
  method EmitAttributes(attrs: map<string, string>) returns (text: string, custom: string, ghost order: seq<string>)
    ensures IsOrder(order, attrs.Keys)
    ensures text == AttrText(attrs, order)
    ensures custom == CustomClass(attrs)
  {
    text, custom, order := "", "", [];
    var rest := attrs.Keys;
    while rest != {}
      invariant rest <= attrs.Keys
      invariant IsOrder(order, attrs.Keys - rest)
      invariant text == AttrText(attrs, order)
      invariant custom == if "class" in attrs && "class" !in rest then attrs["class"] else ""
      decreases |rest|
    {
      var key :| key in rest;
      OrderRest(attrs.Keys, order, rest, key);
      AttrTextStep(attrs, order, key);
      var piece := if key == "class" then "" else " " + key + "=\"" + attrs[key] + "\"";
      if key == "class" {
        custom := attrs[key];
      }
      text := text + piece;
      order, rest := order + [key], rest - {key};
    }
    assert attrs.Keys - rest == attrs.Keys;
  }

  lemma AttrTextStep(attrs: map<string, string>, order: seq<string>, key: string)
    requires key in attrs
    ensures AttrText(attrs, order + [key])
      == AttrText(attrs, order) + (if key == "class" then "" else " " + key + "=\"" + attrs[key] + "\"")
  {
    ImageAppend(order, key, AttrOf(attrs));
    ConcatAppend(Image(order, AttrOf(attrs)), [AttrOf(attrs)(key)]);
    assert Concat([AttrOf(attrs)(key)]) == AttrOf(attrs)(key);
  }

  /** Every attribute but `class` is written exactly once, whatever the order. */
  lemma AttributesPermute(attrs: map<string, string>, o1: seq<string>, o2: seq<string>)
    requires IsOrder(o1, attrs.Keys) && IsOrder(o2, attrs.Keys)
    ensures multiset(Image(o1, AttrOf(attrs))) == multiset(Image(o2, AttrOf(attrs)))
    ensures forall k | k in attrs && k != "class" ::
      " " + k + "=\"" + attrs[k] + "\"" in Image(o1, AttrOf(attrs))
  {
    PermutedImage(o1, o2, AttrOf(attrs));
    forall k | k in attrs && k != "class" ensures " " + k + "=\"" + attrs[k] + "\"" in Image(o1, AttrOf(attrs)) {
      assert k in multiset(o1);
      var i :| 0 <= i < |o1| && o1[i] == k;
      assert Image(o1, AttrOf(attrs))[i] == " " + k + "=\"" + attrs[k] + "\"";
    }
  }

  /**
   * The `class` attribute as Render writes it (render.go:257-270): the
   * generated class, a space only when both are present, the custom class.
   */
  function ClassAttr(hasClass: bool, className: string, custom: string): string
  {
    if hasClass || custom != "" then
      " class=\"" + (if hasClass then className + (if custom != "" then " " else "") else "")
        + (if custom != "" then custom else "") + "\""
    else ""
  }

  /** The class values present, generated one first. */
  function ClassParts(hasClass: bool, className: string, custom: string): seq<string>
  {
    (if hasClass then [className] else []) + (if custom != "" then [custom] else [])
  }

  /**
   * ClassAttr is the space-separated join of the classes present, and is
   * omitted when there are none.
   */
  lemma ClassAttrIsJoin(hasClass: bool, className: string, custom: string)
    ensures var parts := ClassParts(hasClass, className, custom);
      ClassAttr(hasClass, className, custom)
        == if parts == [] then "" else " class=\"" + Join(parts, " ") + "\""
  {
    var parts := ClassParts(hasClass, className, custom);
    if hasClass && custom != "" {
      assert parts == [className, custom];
      assert Join(parts, " ") == className + " " + Join([custom], " ");
    }
  }

  /**
   * The markup of one element (render.go:226-291): the opening tag with its
   * attribute text `inner`; a self-closing tag ends there with ` />`, any
   * other tag is followed by its text, its children's markup and the closing tag.
   */
  function TagMarkup(tag: string, inner: string, text: string, kids: string): (r: string)
    ensures HasPrefix(r, "<" + tag + inner)
    ensures tag in SelfClosingTags ==> r == "<" + tag + inner + " />"
    ensures tag !in SelfClosingTags ==> HasSuffix(r, "</" + tag + ">")
  {
    if tag in SelfClosingTags then "<" + tag + inner + " />"
    else "<" + tag + inner + ">" + text + kids + ("</" + tag + ">")
  }

  /** `s` is `tag + "_" + t` for a 6-letter token t (the class a node gets). */
  predicate ClassFor(tag: string, s: string)
  {
    |s| == |tag| + 7 && s[..|tag|] == tag && s[|tag|] == '_' && Random.IsToken(s[|tag| + 1..], 6)
  }

  /** `s` ends in `_` and a 6-letter token, whatever its type prefix. */
  predicate IsGeneratedClass(s: string)
  {
    |s| >= 7 && s[|s| - 7] == '_' && Random.IsToken(s[|s| - 6..], 6)
  }

  lemma ClassForMake(tag: string, token: string)
    requires Random.IsToken(token, 6)
    ensures ClassFor(tag, tag + "_" + token)
    ensures IsGeneratedClass(tag + "_" + token)
  {
    var s := tag + "_" + token;
    assert s[..|tag|] == tag;
    assert s[|tag| + 1..] == token;
    assert s[|s| - 6..] == token;
  }
}
