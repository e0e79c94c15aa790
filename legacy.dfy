/**
 * The older renderer of pagerender.go: page elements decoded from JSON are
 * turned into components (`CreateComponent`), each carrying a generated class
 * and the CSS built from its style (`extractStyles`, `GenerateCSS` with media
 * queries), and the components are written to an `io.Writer`
 * (`GenericComponent.Render`, `RenderPageContent`).
 *
 * Go's map iteration order is an injected oracle `ord` giving, for a key set,
 * the order in which a `range` loop visits it.
 */
module LegacyRender {
  import opened Common
  import PageText
  import Random

  /** A decoded JSON value, as `interface{}` holds it; numbers, booleans, arrays and null are `JOther`. */
  datatype Json = JString(s: string) | JObject(fields: map<string, Json>) | JOther

  /** `Models.PageElement` as this renderer reads it: `{Type, Text, Elements, Attributes{ID, Style}}`. */
  datatype Element = Element(typ: string, text: string, elements: seq<Element>, id: string, style: Json)

  /** `GenericComponent`: the unexported `styling` holds the component's CSS. */
  datatype Component = Component(text: string, typ: string, attributes: map<string, string>,
                                 children: seq<Component>, styling: string)

  /** What `extractStyles` returns: plain properties and `mediaQueries[mqType][target]`. */
  datatype Styles = Styles(css: map<string, string>, media: map<string, map<string, map<string, string>>>)

  /** The order in which Go's `range` visits a map with the given key set. */
  type Order = set<string> -> seq<string>

  ghost predicate OrderOracle(ord: Order)
  {
    forall keys: set<string> {:trigger ord(keys)} :: IsOrder(ord(keys), keys)
  }

  /** The component types `CreateComponent` knows. */
  const KnownTypes: set<string> := {"Div", "H1", "H2", "H3", "P", "Button"}

  // ---------------------------------------------------------------------
  // GenerateCSS (pagerender.go:36-52)
  // ---------------------------------------------------------------------

  /**
   * The rule for `className`: nothing for an empty map; the same rule as the
   * page engine writes when there is no media query; that rule wrapped in
   * `@media only screen and (mqType: target) { ... }` when both are non-empty.
   */
  function GenerateCSS(className: string, props: map<string, string>, mqType: string, target: string,
                       order: seq<string>): (r: string)
    requires IsOrder(order, props.Keys)
    ensures |props| == 0 <==> r == ""
    ensures |props| > 0 && (mqType == "" || target == "") ==> r == PageText.CssRule(className, props, order)
    ensures |props| > 0 && mqType != "" && target != "" ==>
      r == "@media only screen and (" + mqType + ": " + target + ") { " + PageText.CssRule(className, props, order) + " }"
  {
    if |props| == 0 then ""
    else
      var content := PageText.CssBody(props, order);
      if mqType != "" && target != "" then
        "@media only screen and (" + mqType + ": " + target + ") { ." + className + " {" + content + " } }"
      else
        "." + className + " {" + content + " }"
  }

  // ---------------------------------------------------------------------
  // extractStyles (pagerender.go:97-133)
  // ---------------------------------------------------------------------

  /**
   * `mqSettings.(map[string]interface{})` is an unchecked type assertion:
   * every value under `media` must be an object, or the source panics.
   */
  ghost predicate MediaWellFormed(style: Json)
  {
    style.JObject? && "media" in style.fields && style.fields["media"].JObject? ==>
      forall mq | mq in style.fields["media"].fields :: style.fields["media"].fields[mq].JObject?
  }

  /** The string-valued entries of an object. */
  function StringProps(fields: map<string, Json>): map<string, string>
  {
    map k | k in fields && fields[k].JString? :: fields[k].s
  }

  /** The properties of one target: its string-valued entries, or none when it is not an object. */
  function TargetProps(j: Json): map<string, string>
  {
    if j.JObject? then StringProps(j.fields) else map[]
  }

  function Targets(settings: Json): map<string, map<string, string>>
    requires settings.JObject?
  {
    map t | t in settings.fields :: TargetProps(settings.fields[t])
  }

  function MediaOf(v: map<string, Json>): map<string, map<string, map<string, string>>>
    requires forall mq | mq in v :: v[mq].JObject?
  {
    map mq | mq in v :: Targets(v[mq])
  }

  /**
   * The sorting extractStyles performs, stated as a value: string entries are
   * CSS properties, an object under `media` gives the media queries, anything
   * else (another object, a number, an array) is dropped.
   */
  function ExtractStyles(style: Json): (r: Styles)
    requires MediaWellFormed(style)
    ensures forall k | k in r.css :: style.JObject? && k in style.fields && style.fields[k] == JString(r.css[k])
    ensures style.JObject? ==> forall k | k in style.fields && style.fields[k].JString? :: k in r.css
    ensures r.media != map[] ==> style.JObject? && "media" in style.fields && style.fields["media"].JObject?
  {
    if !style.JObject? then Styles(map[], map[])
    else
      var f := style.fields;
      Styles(StringProps(f), if "media" in f && f["media"].JObject? then MediaOf(f["media"].fields) else map[])
  }

  /**
   * The inner loops of extractStyles (pagerender.go:110-126): for each media
   * type an entry is created when missing, then every target is stored.
   */
  function MediaInto(media: map<string, map<string, map<string, string>>>, v: map<string, Json>)
    : map<string, map<string, map<string, string>>>
    requires forall mq | mq in v :: v[mq].JObject?
  {
    media + map mq | mq in v :: (if mq in media then media[mq] else map[]) + Targets(v[mq])
  }

  /** One turn of the outer loop of extractStyles (pagerender.go:102-128). */
  function ExtractEntry(acc: Styles, key: string, value: Json): Styles
    requires key == "media" && value.JObject? ==> forall mq | mq in value.fields :: value.fields[mq].JObject?
  {
    match value
    case JString(s) => acc.(css := acc.css[key := s])
    case JObject(v) => if key == "media" then acc.(media := MediaInto(acc.media, v)) else acc
    case JOther => acc
  }

  /** The outer loop of extractStyles, visiting the keys of `fields` in `order`. */
  function ExtractLoop(fields: map<string, Json>, order: seq<string>): Styles
    requires forall k | k in order :: k in fields
    requires MediaWellFormed(JObject(fields))
    decreases |order|
  {
    if order == [] then Styles(map[], map[])
    else
      var k := order[|order| - 1];
      ExtractEntry(ExtractLoop(fields, order[..|order| - 1]), k, fields[k])
  }

  function Restrict(fields: map<string, Json>, keys: set<string>): map<string, Json>
  {
    map k | k in fields && k in keys :: fields[k]
  }

  /**
   * extractStyles does not depend on the iteration order: the loop over any
   * order of any set of keys yields the sorting of the entries under those keys.
   */
  lemma {:induction false} ExtractLoopOrderFree(fields: map<string, Json>, keys: set<string>, order: seq<string>)
    requires MediaWellFormed(JObject(fields)) && keys <= fields.Keys && IsOrder(order, keys)
    ensures forall k | k in order :: k in fields
    ensures MediaWellFormed(JObject(Restrict(fields, keys)))
    ensures ExtractLoop(fields, order) == ExtractStyles(JObject(Restrict(fields, keys)))
    decreases |order|
  {
    forall k | k in order ensures k in fields {
      assert k in multiset(order);
    }
    if order == [] {
      assert |keys| == |multiset(order)| == 0;
      assert Restrict(fields, keys) == map[];
    } else {
      var n := |order| - 1;
      var k := order[n];
      var prefix := order[..n];
      assert order == prefix + [k];
      assert k in multiset(order);
      var rest := keys - {k};
      assert multiset(prefix) == multiset(order) - multiset{k};
      assert multiset(rest) == multiset(keys) - multiset{k};
      ExtractLoopOrderFree(fields, rest, prefix);
      assert k !in rest;
      ExtractEntryStep(fields, rest, k);
      assert rest + {k} == keys;
    }
  }

  /** Adding one new key to the visited ones is one loop turn. */
  lemma ExtractEntryStep(fields: map<string, Json>, keys: set<string>, k: string)
    requires MediaWellFormed(JObject(fields)) && keys <= fields.Keys && k in fields && k !in keys
    requires MediaWellFormed(JObject(Restrict(fields, keys)))
    ensures MediaWellFormed(JObject(Restrict(fields, keys + {k})))
    ensures ExtractEntry(ExtractStyles(JObject(Restrict(fields, keys))), k, fields[k])
      == ExtractStyles(JObject(Restrict(fields, keys + {k})))
  {
    var before, after := Restrict(fields, keys), Restrict(fields, keys + {k});
    assert after == before[k := fields[k]];
    assert "media" in after ==> after["media"] == fields["media"];
    var s0 := ExtractStyles(JObject(before));
    var s1 := ExtractStyles(JObject(after));
    match fields[k]
    case JString(s) =>
      assert s1.css == s0.css[k := s];
    case JObject(v) =>
      assert s1.css == s0.css;
      if k == "media" {
        assert s0.media == map[];
        MediaIntoEmpty(v);
      }
    case JOther =>
      assert s1.css == s0.css;
  }

  /** Media types met for the first time get exactly their targets. */
  lemma MediaIntoEmpty(v: map<string, Json>)
    requires forall mq | mq in v :: v[mq].JObject?
    ensures MediaInto(map[], v) == MediaOf(v)
  {
    var a, b := MediaInto(map[], v), MediaOf(v);
    assert a.Keys == b.Keys;
    forall mq | mq in a ensures a[mq] == b[mq] {
      var t := Targets(v[mq]);
      assert map[] + t == t;
    }
  }

  /** The loop over the whole key set, in whatever order, is extractStyles. */
  lemma ExtractLoopIsExtractStyles(fields: map<string, Json>, order: seq<string>)
    requires MediaWellFormed(JObject(fields)) && IsOrder(order, fields.Keys)
    ensures forall k | k in order :: k in fields
    ensures ExtractLoop(fields, order) == ExtractStyles(JObject(fields))
  {
    ExtractLoopOrderFree(fields, fields.Keys, order);
    assert Restrict(fields, fields.Keys) == fields;
  }

  // ---------------------------------------------------------------------
  // CreateComponent (pagerender.go:135-163)
  // ---------------------------------------------------------------------

  /** The media rules of one media type, one per target, in map order. */
  function TargetsCss(className: string, mqType: string, targets: map<string, map<string, string>>,
                      order: seq<string>, ord: Order): string
    requires OrderOracle(ord)
  {
    if order == [] then ""
    else
      var t := order[0];
      (if t in targets then GenerateCSS(className, targets[t], mqType, t, ord(targets[t].Keys)) else "")
      + TargetsCss(className, mqType, targets, order[1..], ord)
  }

  function MediaCss(className: string, media: map<string, map<string, map<string, string>>>,
                    order: seq<string>, ord: Order): string
    requires OrderOracle(ord)
  {
    if order == [] then ""
    else
      var mq := order[0];
      (if mq in media then TargetsCss(className, mq, media[mq], ord(media[mq].Keys), ord) else "")
      + MediaCss(className, media, order[1..], ord)
  }

  /** The component's CSS: the plain rule, then every media rule. */
  function Styling(className: string, styles: Styles, ord: Order): string
    requires OrderOracle(ord)
  {
    GenerateCSS(className, styles.css, "", "", ord(styles.css.Keys))
    + MediaCss(className, styles.media, ord(styles.media.Keys), ord)
  }

  /** A media type with no targets, or whose targets have no properties, adds no CSS. */
  lemma {:induction false} TargetsCssEmpty(className: string, mqType: string,
                                           targets: map<string, map<string, string>>, order: seq<string>, ord: Order)
    requires OrderOracle(ord) && forall t | t in order :: t in targets
    ensures TargetsCss(className, mqType, targets, order, ord) == "" <==> forall t | t in order :: targets[t] == map[]
    decreases |order|
  {
    if order != [] {
      TargetsCssEmpty(className, mqType, targets, order[1..], ord);
      assert forall t | t in order :: t == order[0] || t in order[1..];
    }
  }

  lemma {:induction false} MediaCssEmpty(className: string, media: map<string, map<string, map<string, string>>>,
                                         order: seq<string>, ord: Order)
    requires OrderOracle(ord) && forall mq | mq in order :: mq in media
    ensures MediaCss(className, media, order, ord) == "" <==>
      forall mq, t | mq in order && t in media[mq] :: media[mq][t] == map[]
    decreases |order|
  {
    if order != [] {
      var mq := order[0];
      MediaCssEmpty(className, media, order[1..], ord);
      var keys := ord(media[mq].Keys);
      assert IsOrder(keys, media[mq].Keys);
      forall t | t in keys ensures t in media[mq] {
        assert t in multiset(keys);
      }
      forall t | t in media[mq] ensures t in keys {
        assert t in multiset(keys);
      }
      TargetsCssEmpty(className, mq, media[mq], keys, ord);
      assert forall m | m in order :: m == mq || m in order[1..];
    }
  }

  /**
   * A component has no CSS exactly when it has no plain property and no
   * media target with a property.
   */
  lemma StylingEmpty(className: string, styles: Styles, ord: Order)
    requires OrderOracle(ord)
    ensures Styling(className, styles, ord) == "" <==>
      styles.css == map[] && forall mq, t | mq in styles.media && t in styles.media[mq] :: styles.media[mq][t] == map[]
  {
    var order := ord(styles.media.Keys);
    assert IsOrder(order, styles.media.Keys);
    forall mq | mq in order ensures mq in styles.media {
      assert mq in multiset(order);
    }
    forall mq | mq in styles.media ensures mq in order {
      assert mq in multiset(order);
    }
    MediaCssEmpty(className, styles.media, order, ord);
  }

  /**
   * CreateComponent as a value, `token` being the six letters drawn for the
   * class name: `id` is copied only when non-empty, `class` is always
   * `Type_token`, and a type outside the known ones is an error.
   */
  function ComponentOf(componentType: string, element: Element, children: seq<Component>, token: string,
                       ord: Order): (r: Result<Component, string>)
    requires OrderOracle(ord) && MediaWellFormed(element.style)
    ensures r.Ok? <==> componentType in KnownTypes
    ensures r.Err? ==> r.error == "unknown component type: " + componentType
    ensures r.Ok? ==>
      && r.value.typ == element.typ && r.value.text == element.text && r.value.children == children
      && r.value.attributes.Keys <= {"id", "class"}
      && "class" in r.value.attributes && r.value.attributes["class"] == componentType + "_" + token
      && ("id" in r.value.attributes <==> element.id != "")
      && (element.id != "" ==> r.value.attributes["id"] == element.id)
      && r.value.styling == Styling(componentType + "_" + token, ExtractStyles(element.style), ord)
  {
    var attr := if element.id != "" then map["id" := element.id] else map[];
    var className := componentType + "_" + token;
    var attrs := attr["class" := className];
    var styling := Styling(className, ExtractStyles(element.style), ord);
    if componentType in KnownTypes then Ok(Component(element.text, element.typ, attrs, children, styling))
    else Err("unknown component type: " + componentType)
  }

  /** The wall clock that seeds the class-name generator. */
  class Clock {
    var ticks: nat
    const now: nat -> int

    constructor (now: nat -> int)
      ensures ticks == 0 && this.now == now
    {
      ticks := 0;
      this.now := now;
    }

    method Now() returns (t: int)
      modifies this`ticks
      ensures t == now(old(ticks)) && ticks == old(ticks) + 1
    {
      t := now(ticks);
      ticks := ticks + 1;
    }
  }

  /**
   * CreateComponent (pagerender.go:135-163). The class name is drawn before
   * the type is checked, so a rejected type still reads the clock.
   */
  method CreateComponent(componentType: string, element: Element, children: seq<Component>,
                         clock: Clock, draw: (int, nat) -> nat, ord: Order)
    returns (r: Result<Component, string>, ghost token: string)
    requires OrderOracle(ord) && MediaWellFormed(element.style)
    modifies clock`ticks
    ensures clock.ticks == old(clock.ticks) + 1
    ensures Random.IsToken(token, 6)
    ensures r == ComponentOf(componentType, element, children, token, ord)
  {
    var attr: map<string, string> := map[];
    if element.id != "" {
      attr := attr["id" := element.id];
    }
    var styles := ExtractStyles(element.style);
    var seed := clock.Now();
    var letters := Random.GenerateRandomClassName(6, seed, draw);
    token := letters;
    var className := componentType + "_" + letters;
    attr := attr["class" := className];
    var styling := Styling(className, styles, ord);
    if componentType in KnownTypes {
      r := Ok(Component(element.text, element.typ, attr, children, styling));
    } else {
      r := Err("unknown component type: " + componentType);
    }
  }

  // ---------------------------------------------------------------------
  // GenericComponent.Render (pagerender.go:54-85)
  // ---------------------------------------------------------------------

  /**
   * The destination `io.Writer`. A write that would take the output past
   * `limit` fails and writes nothing; every other write appends its data.
   */
  class Writer {
    var written: string
    const limit: nat

    ghost predicate Valid()
      reads this`written
    {
      |written| <= limit
    }

    constructor (limit: nat)
      ensures Valid() && written == "" && this.limit == limit
    {
      written := "";
      this.limit := limit;
    }

    method Write(data: string) returns (err: Option<string>)
      requires Valid()
      modifies this`written
      ensures Valid()
      ensures err == None <==> |old(written)| + |data| <= limit
      ensures written == if err == None then old(written) + data else old(written)
    {
      if |written| + |data| <= limit {
        written := written + data;
        err := None;
      } else {
        err := Some("short write");
      }
    }
  }

  /** One attribute `key="value"`. */
  function AttrPair(attrs: map<string, string>, key: string): string
  {
    key + "=\"" + (if key in attrs then attrs[key] else "") + "\""
  }

  function AttrPairOf(attrs: map<string, string>): string -> string
  {
    key => AttrPair(attrs, key)
  }

  /** The opening tag: `<Type ` and the attributes joined by single spaces, then `>`. */
  function OpenTag(g: Component, ord: Order): string
  {
    "<" + g.typ + " " + Join(Image(ord(g.attributes.Keys), AttrPairOf(g.attributes)), " ") + ">"
  }

  /** Everything GenericComponent.Render writes for `g` when no write fails. */
  function Markup(g: Component, ord: Order): string
    decreases g, 1
  {
    OpenTag(g, ord) + g.text + ChildrenMarkup(g.children, ord) + "</" + g.typ + ">"
  }

  function ChildrenMarkup(cs: seq<Component>, ord: Order): string
    decreases cs, 0
  {
    if cs == [] then "" else Markup(cs[0], ord) + ChildrenMarkup(cs[1..], ord)
  }

  lemma {:induction false} ChildrenMarkupAppend(cs: seq<Component>, c: Component, ord: Order)
    ensures ChildrenMarkup(cs + [c], ord) == ChildrenMarkup(cs, ord) + Markup(c, ord)
    decreases |cs|
  {
    if cs == [] {
      assert [c][1..] == [];
    } else {
      assert (cs + [c])[1..] == cs[1..] + [c];
      ChildrenMarkupAppend(cs[1..], c, ord);
    }
  }

  /**
   * The opening tag keeps a space after the type even with no attribute, the
   * element always closes with `</Type>`, and the children come between the
   * text and the closing tag.
   */
  lemma MarkupShape(g: Component, ord: Order)
    ensures HasPrefix(Markup(g, ord), "<" + g.typ + " ")
    ensures HasSuffix(Markup(g, ord), "</" + g.typ + ">")
  {
    var joined := Join(Image(ord(g.attributes.Keys), AttrPairOf(g.attributes)), " ");
    var body := joined + ">" + g.text + ChildrenMarkup(g.children, ord);
    assert Markup(g, ord) == "<" + g.typ + " " + body + ("</" + g.typ + ">");
    SuffixOfAppend("<" + g.typ + " " + body, "</" + g.typ + ">");
    Assoc("<" + g.typ + " ", body, "</" + g.typ + ">");
    PrefixOfAppend("<" + g.typ + " ", body + "</" + g.typ + ">");
  }

  /** With no attribute, the opening tag is `<Type >`, directly followed by the text. */
  lemma MarkupNoAttributes(g: Component, ord: Order)
    requires OrderOracle(ord) && g.attributes == map[]
    ensures HasPrefix(Markup(g, ord), "<" + g.typ + " >" + g.text)
  {
    var order := ord(g.attributes.Keys);
    assert IsOrder(order, g.attributes.Keys);
    assert |order| == |multiset(order)| == 0;
    var rest := ChildrenMarkup(g.children, ord) + "</" + g.typ + ">";
    assert Markup(g, ord) == "<" + g.typ + " >" + g.text + rest;
    PrefixOfAppend("<" + g.typ + " >" + g.text, rest);
  }

  /**
   * GenericComponent.Render: the opening tag, the text when non-empty, each
   * child, the closing tag, stopping at the first write that fails. The
   * writes are the markup of `g` exactly when it fits; otherwise an error is
   * returned and what was written is a proper start of that markup.
   */
  method Render(g: Component, w: Writer, ord: Order) returns (err: Option<string>)
    requires w.Valid()
    modifies w`written
    ensures w.Valid()
    ensures err == None <==> |old(w.written)| + |Markup(g, ord)| <= w.limit
    ensures err == None ==> w.written == old(w.written) + Markup(g, ord)
    ensures HasPrefix(w.written, old(w.written)) && HasPrefix(old(w.written) + Markup(g, ord), w.written)
    decreases g, 1
  {
    ghost var start := w.written;
    var attrs := AttributeList(g.attributes, ord);
    var open := "<" + g.typ + " " + Join(attrs, " ") + ">";
    ghost var kids := ChildrenMarkup(g.children, ord);
    var close := "</" + g.typ + ">";
    ghost var full := start + Markup(g, ord);
    MarkupPieces(start, g, ord, open, close);
    err := WriteHead(open, g.text, w);
    if err.Some? {
      PrefixTrans(full, start + open + g.text, w.written);
      return;
    }
    ghost var head := start + open + g.text;
    err := RenderChildren(g.children, w, ord);
    if err.Some? {
      PrefixOfAppend(head, kids);
      PrefixTrans(full, head + kids, w.written);
      PrefixTrans(w.written, head, start);
      return;
    }
    err := w.Write(close);
    PrefixOfAppend(full, "");
    assert full + "" == full;
    if err.Some? {
      PrefixTrans(w.written, head, start);
    }
  }

  /** The opening tag, then the text when it is not empty (pagerender.go:60-72). */
  method WriteHead(open: string, text: string, w: Writer) returns (err: Option<string>)
    requires w.Valid()
    modifies w`written
    ensures w.Valid()
    ensures err == None ==> w.written == old(w.written) + open + text
    ensures err != None ==> |old(w.written)| + |open + text| > w.limit
    ensures HasPrefix(w.written, old(w.written)) && HasPrefix(old(w.written) + open + text, w.written)
  {
    ghost var start := w.written;
    PrefixOfAppend(start + open, text);
    PrefixOfAppend(start, open);
    PrefixTrans(start + open + text, start + open, start);
    err := w.Write(open);
    if err.Some? {
      return;
    }
    if text != "" {
      err := w.Write(text);
    } else {
      assert start + open + text == start + open;
    }
  }

  /** The loop over the children in GenericComponent.Render (pagerender.go:75-80). */
  method RenderChildren(cs: seq<Component>, w: Writer, ord: Order) returns (err: Option<string>)
    requires w.Valid()
    modifies w`written
    ensures w.Valid()
    ensures err == None <==> |old(w.written)| + |ChildrenMarkup(cs, ord)| <= w.limit
    ensures err == None ==> w.written == old(w.written) + ChildrenMarkup(cs, ord)
    ensures HasPrefix(w.written, old(w.written)) && HasPrefix(old(w.written) + ChildrenMarkup(cs, ord), w.written)
    decreases cs, 0
  {
    ghost var head := w.written;
    err := None;
    assert cs[..0] == [];
    assert head + "" == head;
    for i := 0 to |cs|
      invariant w.Valid() && err == None
      invariant w.written == head + ChildrenMarkup(cs[..i], ord)
    {
      ghost var before := w.written;
      ghost var done := ChildrenMarkup(cs[..i], ord);
      err := Render(cs[i], w, ord);
      if err.Some? {
        ChildFailed(head, cs, i, ord, "", w.written);
        assert head + ChildrenMarkup(cs, ord) + "" == head + ChildrenMarkup(cs, ord);
        PrefixOfAppend(head, done);
        PrefixTrans(w.written, before, head);
        return;
      }
      ChildrenMarkupStep(cs, i, ord);
      Assoc(head, done, Markup(cs[i], ord));
    }
    assert cs[..|cs|] == cs;
    PrefixOfAppend(head, ChildrenMarkup(cs, ord));
    PrefixOfAppend(w.written, "");
    assert w.written + "" == w.written;
  }

  /** The attribute loop of GenericComponent.Render (pagerender.go:55-58), in map order. */
  method AttributeList(attributes: map<string, string>, ord: Order) returns (attrs: seq<string>)
    ensures attrs == Image(ord(attributes.Keys), AttrPairOf(attributes))
  {
    var keys := ord(attributes.Keys);
    attrs := [];
    for i := 0 to |keys|
      invariant attrs == Image(keys[..i], AttrPairOf(attributes))
    {
      assert keys[..i + 1] == keys[..i] + [keys[i]];
      ImageAppend(keys[..i], keys[i], AttrPairOf(attributes));
      attrs := attrs + [AttrPair(attributes, keys[i])];
    }
    assert keys[..|keys|] == keys;
  }

  /** The pieces Render writes, each a start of the markup. */
  lemma MarkupPieces(start: string, g: Component, ord: Order, open: string, close: string)
    requires open == OpenTag(g, ord) && close == "</" + g.typ + ">"
    ensures start + Markup(g, ord) == start + open + g.text + ChildrenMarkup(g.children, ord) + close
    ensures HasPrefix(start + Markup(g, ord), start + open + g.text)
    ensures HasPrefix(start + Markup(g, ord), start + open)
    ensures HasPrefix(start + Markup(g, ord), start)
  {
    var full := start + Markup(g, ord);
    var kids := ChildrenMarkup(g.children, ord);
    assert full == start + open + g.text + kids + close;
    PrefixOfAppend(start + open + g.text + kids, close);
    PrefixOfAppend(start + open + g.text, kids);
    PrefixOfAppend(start + open, g.text);
    PrefixOfAppend(start, open);
    PrefixTrans(full, start + open + g.text + kids, start + open + g.text);
    PrefixTrans(full, start + open + g.text, start + open);
    PrefixTrans(full, start + open, start);
  }

  lemma ChildrenMarkupStep(cs: seq<Component>, i: nat, ord: Order)
    requires i < |cs|
    ensures ChildrenMarkup(cs[..i + 1], ord) == ChildrenMarkup(cs[..i], ord) + Markup(cs[i], ord)
  {
    ChildrenMarkupAppend(cs[..i], cs[i], ord);
    assert cs[..i + 1] == cs[..i] + [cs[i]];
  }

  /** A child whose write failed leaves a start of its parent's markup. */
  lemma ChildFailed(head: string, cs: seq<Component>, i: nat, ord: Order, close: string, now: string)
    requires i < |cs|
    requires HasPrefix(head + ChildrenMarkup(cs[..i], ord) + Markup(cs[i], ord), now)
    ensures HasPrefix(head + ChildrenMarkup(cs, ord) + close, now)
    ensures |head + ChildrenMarkup(cs[..i], ord)| + |Markup(cs[i], ord)| <= |head + ChildrenMarkup(cs, ord) + close|
  {
    ChildrenMarkupAppend(cs[..i], cs[i], ord);
    assert cs[..i + 1] == cs[..i] + [cs[i]];
    ChildrenPrefix(cs, i + 1, ord);
    var whole := ChildrenMarkup(cs, ord);
    var part := ChildrenMarkup(cs[..i + 1], ord);
    PrefixInside(head, whole, part, close);
    Assoc(head, ChildrenMarkup(cs[..i], ord), Markup(cs[i], ord));
    PrefixTrans(head + whole + close, head + part, now);
  }

  /** The markup of the first `n` children starts the markup of all of them. */
  lemma {:induction false} ChildrenPrefix(cs: seq<Component>, n: nat, ord: Order)
    requires n <= |cs|
    ensures HasPrefix(ChildrenMarkup(cs, ord), ChildrenMarkup(cs[..n], ord))
    decreases n
  {
    if n > 0 {
      assert cs[..n][1..] == cs[1..][..n - 1];
      ChildrenPrefix(cs[1..], n - 1, ord);
    }
  }

  // ---------------------------------------------------------------------
  // RenderPageContent (pagerender.go:165-203)
  // ---------------------------------------------------------------------

  /** Every element, at any depth, may be decoded without a panic. */
  ghost predicate WellFormed(es: seq<Element>)
    decreases es
  {
    forall i | 0 <= i < |es| :: MediaWellFormed(es[i].style) && WellFormed(es[i].elements)
  }

  /** Every element, at any depth, has a type CreateComponent knows. */
  ghost predicate AllKnown(es: seq<Element>)
    decreases es
  {
    forall i | 0 <= i < |es| :: es[i].typ in KnownTypes && AllKnown(es[i].elements)
  }

  /** `cs` are the components CreateComponent builds for `es`, children included, with some drawn tokens. */
  ghost predicate Built(es: seq<Element>, cs: seq<Component>, ord: Order)
    decreases es
  {
    OrderOracle(ord) && |es| == |cs|
    && forall i | 0 <= i < |es| ::
      && MediaWellFormed(es[i].style)
      && Built(es[i].elements, cs[i].children, ord)
      && exists token :: Random.IsToken(token, 6) && ComponentOf(es[i].typ, es[i], cs[i].children, token, ord) == Ok(cs[i])
  }

  /** A page built without error names only known types. */
  lemma {:induction false} BuiltKnown(es: seq<Element>, cs: seq<Component>, ord: Order)
    requires Built(es, cs, ord)
    ensures AllKnown(es)
    decreases es
  {
    forall i | 0 <= i < |es| ensures es[i].typ in KnownTypes && AllKnown(es[i].elements) {
      var token :| Random.IsToken(token, 6) && ComponentOf(es[i].typ, es[i], cs[i].children, token, ord) == Ok(cs[i]);
      BuiltKnown(es[i].elements, cs[i].children, ord);
    }
  }

  /**
   * Components for `es` as CreateComponent builds them when every draw gives
   * the same token; they stand for the components a failed call never
   * got to build.
   */
  ghost function Completion(es: seq<Element>, ord: Order): seq<Component>
    requires OrderOracle(ord) && WellFormed(es) && AllKnown(es)
    decreases es
  {
    if es == [] then []
    else
      assert es[1..] == es[1..];
      [ComponentOf(es[0].typ, es[0], Completion(es[0].elements, ord), Random.SomeToken(), ord).value]
        + Completion(es[1..], ord)
  }

  lemma {:induction false} CompletionBuilt(es: seq<Element>, ord: Order)
    requires OrderOracle(ord) && WellFormed(es) && AllKnown(es)
    ensures Built(es, Completion(es, ord), ord)
    decreases es
  {
    if es != [] {
      assert es == [es[0]] + es[1..];
      CompletionBuilt(es[0].elements, ord);
      CompletionBuilt(es[1..], ord);
      BuiltOne(es[0], Completion(es[0].elements, ord), ord);
      BuiltConcat([es[0]], [ComponentOf(es[0].typ, es[0], Completion(es[0].elements, ord), Random.SomeToken(), ord).value],
        es[1..], Completion(es[1..], ord), ord);
    }
  }

  lemma BuiltOne(e: Element, children: seq<Component>, ord: Order)
    requires OrderOracle(ord) && MediaWellFormed(e.style) && e.typ in KnownTypes && Built(e.elements, children, ord)
    ensures Built([e], [ComponentOf(e.typ, e, children, Random.SomeToken(), ord).value], ord)
  {
    var c := ComponentOf(e.typ, e, children, Random.SomeToken(), ord).value;
    assert Random.IsToken(Random.SomeToken(), 6) && ComponentOf(e.typ, e, c.children, Random.SomeToken(), ord) == Ok(c);
  }

  lemma BuiltSingle(e: Element, c: Component, token: string, ord: Order)
    requires OrderOracle(ord) && MediaWellFormed(e.style) && Built(e.elements, c.children, ord)
    requires Random.IsToken(token, 6) && ComponentOf(e.typ, e, c.children, token, ord) == Ok(c)
    ensures Built([e], [c], ord)
  {
    assert [e][0] == e && [c][0] == c;
  }

  lemma BuiltConcat(es1: seq<Element>, cs1: seq<Component>, es2: seq<Element>, cs2: seq<Component>, ord: Order)
    requires Built(es1, cs1, ord) && Built(es2, cs2, ord)
    ensures Built(es1 + es2, cs1 + cs2, ord)
  {
    var es, cs := es1 + es2, cs1 + cs2;
    forall i | 0 <= i < |es|
      ensures MediaWellFormed(es[i].style) && Built(es[i].elements, cs[i].children, ord)
      ensures exists token :: Random.IsToken(token, 6) && ComponentOf(es[i].typ, es[i], cs[i].children, token, ord) == Ok(cs[i])
    {
      if i < |es1| {
        assert es[i] == es1[i] && cs[i] == cs1[i];
      } else {
        assert es[i] == es2[i - |es1|] && cs[i] == cs2[i - |es1|];
      }
    }
  }

  /** The CSS RenderPageContent returns: for each component, its children's CSS, then its own. */
  function PageCss(cs: seq<Component>): string
    decreases cs
  {
    if cs == [] then "" else PageCss(cs[0].children) + cs[0].styling + PageCss(cs[1..])
  }

  /** What RenderPageContent writes: for each component, its children's writes, then its markup. */
  function Written(cs: seq<Component>, ord: Order): string
    decreases cs
  {
    if cs == [] then "" else Written(cs[0].children, ord) + Markup(cs[0], ord) + Written(cs[1..], ord)
  }

  lemma {:induction false} WrittenConcat(cs1: seq<Component>, cs2: seq<Component>, ord: Order)
    ensures Written(cs1 + cs2, ord) == Written(cs1, ord) + Written(cs2, ord)
    decreases |cs1|
  {
    if cs1 == [] {
      assert cs1 + cs2 == cs2;
    } else {
      assert (cs1 + cs2)[1..] == cs1[1..] + cs2;
      WrittenConcat(cs1[1..], cs2, ord);
    }
  }

  lemma {:induction false} PageCssAppend(cs: seq<Component>, c: Component)
    ensures PageCss(cs + [c]) == PageCss(cs) + PageCss(c.children) + c.styling
    decreases |cs|
  {
    if cs == [] {
      assert [c][1..] == [];
    } else {
      assert (cs + [c])[1..] == cs[1..] + [c];
      PageCssAppend(cs[1..], c);
    }
  }

  lemma {:induction false} WrittenAppend(cs: seq<Component>, c: Component, ord: Order)
    ensures Written(cs + [c], ord) == Written(cs, ord) + Written(c.children, ord) + Markup(c, ord)
    decreases |cs|
  {
    if cs == [] {
      assert [c][1..] == [];
    } else {
      assert (cs + [c])[1..] == cs[1..] + [c];
      WrittenAppend(cs[1..], c, ord);
      Assoc4(Written(cs[0].children, ord) + Markup(cs[0], ord), Written(cs[1..], ord),
        Written(c.children, ord), Markup(c, ord));
    }
  }

  lemma Assoc4(h: string, w: string, x: string, m: string)
    ensures h + (w + x + m) == h + w + x + m
  {
  }

  lemma BuiltAppend(es: seq<Element>, cs: seq<Component>, e: Element, c: Component, token: string, ord: Order)
    requires Built(es, cs, ord) && MediaWellFormed(e.style) && Built(e.elements, c.children, ord)
    requires Random.IsToken(token, 6) && ComponentOf(e.typ, e, c.children, token, ord) == Ok(c)
    ensures Built(es + [e], cs + [c], ord)
  {
    var es', cs' := es + [e], cs + [c];
    forall i | 0 <= i < |es'|
      ensures MediaWellFormed(es'[i].style) && Built(es'[i].elements, cs'[i].children, ord)
      ensures exists token :: Random.IsToken(token, 6) && ComponentOf(es'[i].typ, es'[i], cs'[i].children, token, ord) == Ok(cs'[i])
    {
      if i == |es| {
        assert es'[i] == e && cs'[i] == c;
      } else {
        assert es'[i] == es[i] && cs'[i] == cs[i];
      }
    }
  }

  /**
   * RenderPageContent (pagerender.go:165-203). Each element's children are
   * processed first (writing their markup), then the element's component is
   * created and its markup written, so children are written twice: once on
   * their own and once inside their parent. The first error, from a child,
   * from CreateComponent or from a write, ends the call with no components
   * and no CSS. On success the components are the ones built from the
   * elements, the CSS is each component's children's CSS followed by its own,
   * and the writes are exactly `Written`. A page with an unknown type anywhere
   * always fails.
   */
  method RenderPageContent(elements: seq<Element>, w: Writer, clock: Clock, draw: (int, nat) -> nat, ord: Order)
    returns (comps: seq<Component>, css: string, err: Option<string>, ghost attempt: seq<Component>)
    requires w.Valid() && OrderOracle(ord) && WellFormed(elements)
    modifies w`written, clock`ticks
    ensures w.Valid() && HasPrefix(w.written, old(w.written))
    ensures err == None ==>
      Built(elements, comps, ord) && css == PageCss(comps) && w.written == old(w.written) + Written(comps, ord)
    ensures err == None ==> AllKnown(elements) && attempt == comps
    ensures err != None ==> comps == [] && css == ""
    ensures AllKnown(elements) ==> Built(elements, attempt, ord)
    ensures err != None && AllKnown(elements) ==> |old(w.written)| + |Written(attempt, ord)| > w.limit
    decreases elements, 0
  {
    comps, css, err, attempt := [], "", None, [];
    ghost var start := w.written;
    PrefixOfAppend(start, "");
    assert start + "" == start;
    for i := 0 to |elements|
      invariant w.Valid() && HasPrefix(w.written, start)
      invariant Built(elements[..i], comps, ord) && css == PageCss(comps)
      invariant w.written == start + Written(comps, ord)
    {
      ghost var before := w.written;
      var component, childCSS, token, e, tried := RenderElement(elements[i], w, clock, draw, ord);
      PrefixTrans(w.written, before, start);
      if e != None {
        if AllKnown(elements) {
          attempt := FailedAttempt(elements, i, comps, tried, ord);
        }
        return [], "", e, attempt;
      }
      PageCssAppend(comps, component);
      WrittenAppend(comps, component, ord);
      BuiltStep(elements, i, comps, component, token, ord);
      Assoc(start, Written(comps, ord), Written(component.children, ord) + Markup(component, ord));
      Assoc(start + Written(comps, ord), Written(component.children, ord), Markup(component, ord));
      Assoc(Written(comps, ord), Written(component.children, ord), Markup(component, ord));
      Assoc(PageCss(comps), childCSS, component.styling);
      css := css + childCSS + component.styling;
      comps := comps + [component];
    }
    assert elements[..|elements|] == elements;
    BuiltKnown(elements, comps, ord);
    attempt := comps;
  }

  /**
   * The components a call of RenderPageContent meant to write when the
   * element at `i` failed: those built before it, the one it tried, and the
   * completion of the rest.
   */
  lemma FailedAttempt(es: seq<Element>, i: nat, done: seq<Component>, tried: Component, ord: Order)
    returns (cs: seq<Component>)
    requires OrderOracle(ord) && WellFormed(es) && AllKnown(es) && i < |es|
    requires Built(es[..i], done, ord)
    requires es[i].typ in KnownTypes && AllKnown(es[i].elements) ==> Built([es[i]], [tried], ord)
    ensures Built(es, cs, ord)
    ensures |Written(cs, ord)| >= |Written(done, ord)| + |Written([tried], ord)|
  {
    assert es[i].typ in KnownTypes && AllKnown(es[i].elements);
    var rest := Completion(es[i + 1..], ord);
    CompletionBuilt(es[i + 1..], ord);
    BuiltConcat(es[..i], done, [es[i]], [tried], ord);
    BuiltConcat(es[..i] + [es[i]], done + [tried], es[i + 1..], rest, ord);
    SplitAt(es, i);
    WrittenThree(done, [tried], rest, ord);
    cs := done + [tried] + rest;
  }

  lemma WrittenThree(a: seq<Component>, b: seq<Component>, c: seq<Component>, ord: Order)
    ensures Written(a + b + c, ord) == Written(a, ord) + Written(b, ord) + Written(c, ord)
  {
    WrittenConcat(a, b, ord);
    WrittenConcat(a + b, c, ord);
  }

  /**
   * One turn of the loop of RenderPageContent (pagerender.go:169-198): the
   * children first, then the component, then its markup.
   */
  method RenderElement(element: Element, w: Writer, clock: Clock, draw: (int, nat) -> nat, ord: Order)
    returns (component: Component, childCSS: string, ghost token: string, err: Option<string>, ghost attempt: Component)
    requires w.Valid() && OrderOracle(ord) && MediaWellFormed(element.style) && WellFormed(element.elements)
    modifies w`written, clock`ticks
    ensures w.Valid() && HasPrefix(w.written, old(w.written))
    ensures err == None ==>
      && Built(element.elements, component.children, ord)
      && Random.IsToken(token, 6) && ComponentOf(element.typ, element, component.children, token, ord) == Ok(component)
      && childCSS == PageCss(component.children)
      && w.written == old(w.written) + (Written(component.children, ord) + Markup(component, ord))
      && attempt == component
    ensures element.typ in KnownTypes && AllKnown(element.elements) ==> Built([element], [attempt], ord)
    ensures err != None && element.typ in KnownTypes && AllKnown(element.elements) ==>
      |old(w.written)| + |Written([attempt], ord)| > w.limit
    decreases element, 1
  {
    var children: seq<Component> := [];
    childCSS, err, token := "", None, "";
    ghost var start := w.written;
    PrefixOfAppend(start, "");
    assert start + "" == start;
    if |element.elements| > 0 {
      ghost var tried;
      children, childCSS, err, tried := RenderPageContent(element.elements, w, clock, draw, ord);
      if err != None {
        component := Component("", "", map[], [], "");
        attempt := component;
        if element.typ in KnownTypes && AllKnown(element.elements) {
          attempt := ComponentOf(element.typ, element, tried, Random.SomeToken(), ord).value;
          BuiltOne(element, tried, ord);
          WrittenOne(attempt, ord);
        }
        return;
      }
    }
    ghost var mid := w.written;
    var r;
    r, token := CreateComponent(element.typ, element, children, clock, draw, ord);
    if r.Err? {
      component, err := Component("", "", map[], [], ""), Some(r.error);
      attempt := component;
      return;
    }
    component := r.value;
    attempt := component;
    err := Render(component, w, ord);
    PrefixTrans(w.written, mid, start);
    BuiltSingle(element, component, token, ord);
    WrittenOne(component, ord);
    if err == None {
      Assoc(start, Written(children, ord), Markup(component, ord));
    }
  }

  lemma WrittenOne(c: Component, ord: Order)
    ensures Written([c], ord) == Written(c.children, ord) + Markup(c, ord)
  {
    assert [c][1..] == [];
  }

  /** Extending the elements by one built component keeps them built. */
  lemma BuiltStep(es: seq<Element>, i: nat, cs: seq<Component>, c: Component, token: string, ord: Order)
    requires i < |es| && Built(es[..i], cs, ord)
    requires MediaWellFormed(es[i].style) && Built(es[i].elements, c.children, ord)
    requires Random.IsToken(token, 6) && ComponentOf(es[i].typ, es[i], c.children, token, ord) == Ok(c)
    ensures Built(es[..i + 1], cs + [c], ord)
  {
    BuiltAppend(es[..i], cs, es[i], c, token, ord);
    assert es[..i + 1] == es[..i] + [es[i]];
  }
}
