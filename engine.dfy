/**
 * The page-rendering engine of pageengine/render.go.
 *
 * Go's `*PageElement` pointers, and the `Attributes`/`Style` maps (which are
 * reference values in Go), are modelled as an arena: `nodes` maps a `Ref` to a
 * `Node`, `maps` maps a `MapId` to the contents of one Go map. A node holds
 * `MapPtr`s, so two nodes can share one attributes map exactly as a shallow
 * struct copy does in Go. A clone shares its children with the original, as a
 * copied slice header shares its backing array.
 *
 * The state the source threads through its recursive calls (`classMap`,
 * `visited`, `components`, `previewElementMap`, the `io.Writer`) is held in the
 * fields of one `Engine`.
 */
module PageEngine {
  import opened Common
  import opened PageText
  import Random

  type Ref = nat
  type MapId = nat

  /** A Go `map[string]string` value: nil, or a reference to a map in the arena. */
  datatype MapPtr = NilMap | MapAt(id: MapId)

  /**
   * A `PageElement` as JSON decoding produces it (pageengine/models.go:23-32,
   * plus the `Pid` field render.go uses). A map that is absent from the JSON
   * decodes to nil, which is `None` here.
   */
  datatype Element = Element(
    tag: string,
    attributes: Option<map<string, string>>,
    elements: seq<Element>,
    text: string,
    style: Option<map<string, string>>,
    importName: string,
    isPrivate: bool,
    pid: string)

  /** A `PageElement` living in the arena. */
  datatype Node = Node(
    tag: string,
    attributes: MapPtr,
    elements: seq<Ref>,
    text: string,
    style: MapPtr,
    importName: string,
    isPrivate: bool,
    pid: string)
  {
    function Unstyled(): Node { this.(style := NilMap) }
    function Unpid(): Node { this.(pid := "") }
  }

  /** The two sections of a `Page` the renderer reads. */
  datatype Page = Page(head: seq<Ref>, body: seq<Ref>)

  /** The `interface{}` an internal route answers with. */
  datatype Dynamic = ElementValue(element: Element) | OtherValue

  /** What the HTTP side of a fetch can come to. */
  datatype HttpOutcome =
    | RequestInvalid(reason: string)
    | RequestFailed(reason: string)
    | ReadFailed(reason: string)
    | Received(body: string)

  /**
   * GetExternalComponent (render.go:109-167). An absolute path is first offered
   * to the internal router; when the router answers, its answer decides the
   * result. Otherwise (and for every other URI) the HTTP request is made and its
   * body decoded. The router, the HTTP exchange and the JSON decoder are oracles.
   */
  function GetExternalComponent(
    uri: string,
    routeInternal: string -> Result<Dynamic, string>,
    httpGet: string -> HttpOutcome,
    decode: string -> Result<Element, string>): (r: Result<Element, string>)
    ensures r.Ok? ==>
      (HasPrefix(uri, "/") && routeInternal(uri) == Ok(ElementValue(r.value)))
      || (httpGet(uri).Received? && decode(httpGet(uri).body) == Ok(r.value))
    ensures HasPrefix(uri, "/") && routeInternal(uri).Ok? && routeInternal(uri).value.ElementValue? ==>
      r == Ok(routeInternal(uri).value.element)
    ensures HasPrefix(uri, "/") && routeInternal(uri).Ok? && routeInternal(uri).value.OtherValue? ==>
      r == Err("invalid response type from internal route")
    ensures httpGet(uri).Received? && decode(httpGet(uri).body).Ok? && !(HasPrefix(uri, "/") && routeInternal(uri).Ok?) ==>
      r.Ok?
  {
    if HasPrefix(uri, "/") && routeInternal(uri).Ok? then
      match routeInternal(uri).value
      case ElementValue(e) => Ok(e)
      case OtherValue => Err("invalid response type from internal route")
    else
      match httpGet(uri)
      case RequestInvalid(why) => Err("failed to create request for " + uri + ": " + why)
      case RequestFailed(why) => Err("error fetching " + uri + ": " + why)
      case ReadFailed(why) => Err("error reading response from " + uri + ": " + why)
      case Received(body) =>
        match decode(body)
        case Ok(e) => Ok(e)
        case Err(why) => Err("error decoding JSON from " + uri + ": " + why)
  }

  /** Every import name in the tree `e` lies in `names`. */
  ghost predicate ImportsIn(e: Element, names: set<string>)
  {
    e.importName in names && forall c | c in e.elements :: ImportsIn(c, names)
  }

  ghost predicate PtrIn(ptr: MapPtr, maps: map<MapId, map<string, string>>)
  {
    ptr.MapAt? ==> ptr.id in maps
  }

  /** The contents of a map pointer; nil reads as the empty map. */
  function Contents(ptr: MapPtr, maps: map<MapId, map<string, string>>): map<string, string>
  {
    if ptr.MapAt? && ptr.id in maps then maps[ptr.id] else map[]
  }

  function Decoded(ptr: MapPtr, maps: map<MapId, map<string, string>>): Option<map<string, string>>
  {
    if ptr.MapAt? && ptr.id in maps then Some(maps[ptr.id]) else None
  }

  /** Node `r` points only at allocated maps and at children with smaller references. */
  ghost predicate NodeIn(nodes: map<Ref, Node>, maps: map<MapId, map<string, string>>, r: Ref)
    requires r in nodes
  {
    (forall c | c in nodes[r].elements :: c in nodes && c < r)
    && PtrIn(nodes[r].attributes, maps) && PtrIn(nodes[r].style, maps)
  }

  ghost predicate Closed(nodes: map<Ref, Node>, maps: map<MapId, map<string, string>>)
  {
    forall r | r in nodes :: NodeIn(nodes, maps, r)
  }

  /** The element tree stored at `r`, read back out of the arena. */
  ghost function TreeAt(nodes: map<Ref, Node>, maps: map<MapId, map<string, string>>, r: Ref): Element
    requires Closed(nodes, maps) && r in nodes
    decreases r
  {
    var n := nodes[r];
    Element(n.tag, Decoded(n.attributes, maps),
      seq(|n.elements|, i requires 0 <= i < |n.elements| => assert n.elements[i] in n.elements; TreeAt(nodes, maps, n.elements[i])),
      n.text, Decoded(n.style, maps), n.importName, n.isPrivate, n.pid)
  }

  /** `n1` keeps every node of `n0` unchanged. */
  ghost predicate Extends(n0: map<Ref, Node>, n1: map<Ref, Node>)
  {
    forall r | r in n0 :: r in n1 && n1[r] == n0[r]
  }

  ghost predicate MapsExtend(m0: map<MapId, map<string, string>>, m1: map<MapId, map<string, string>>)
  {
    forall m | m in m0 :: m in m1 && m1[m] == m0[m]
  }

  /** `n1` keeps every node of `n0`, except that a style pointer may change. */
  ghost predicate ExtendsUpToStyle(n0: map<Ref, Node>, n1: map<Ref, Node>)
  {
    forall r | r in n0 :: r in n1 && n1[r].Unstyled() == n0[r].Unstyled()
  }

  /**
   * `n1` keeps every node of `n0`, except that an empty pid may be filled in;
   * a pid once set never changes.
   */
  ghost predicate ExtendsUpToPid(n0: map<Ref, Node>, n1: map<Ref, Node>)
  {
    forall r | r in n0 :: r in n1 && n1[r].Unpid() == n0[r].Unpid() && (n0[r].pid != "" ==> n1[r].pid == n0[r].pid)
  }

  /** A pid once assigned survives any later render step. */
  lemma PidKept(n0: map<Ref, Node>, n1: map<Ref, Node>, p: Ref)
    requires ExtendsUpToPid(n0, n1) && p in n0 && n0[p].pid != ""
    ensures p in n1 && n1[p].pid == n0[p].pid
  {
  }

  /**
   * The arena is closed: children and map pointers resolve, children come
   * first, references and map ids lie below the allocation counters, and every
   * import name lies in `names`.
   */
  ghost predicate ArenaInv(
    nodes: map<Ref, Node>, maps: map<MapId, map<string, string>>,
    nextRef: Ref, nextMap: MapId, names: set<string>)
  {
    (forall r {:trigger NodeOk(nodes, maps, nextRef, names, r)} :: NodeOk(nodes, maps, nextRef, names, r))
    && (forall m | m in maps :: m < nextMap)
  }

  /**
   * What the arena invariant says of one reference. The invariant quantifies
   * over this predicate only, so that a proof meets the facts about a node
   * when it names the node.
   */
  ghost predicate NodeOk(
    nodes: map<Ref, Node>, maps: map<MapId, map<string, string>>, nextRef: Ref, names: set<string>, r: Ref)
  {
    r in nodes ==> NodeIn(nodes, maps, r) && r < nextRef && nodes[r].importName in names
  }

  lemma ArenaClosed(
    nodes: map<Ref, Node>, maps: map<MapId, map<string, string>>,
    nextRef: Ref, nextMap: MapId, names: set<string>)
    requires ArenaInv(nodes, maps, nextRef, nextMap, names)
    ensures Closed(nodes, maps)
  {
    forall r | r in nodes ensures NodeIn(nodes, maps, r) {
      assert NodeOk(nodes, maps, nextRef, names, r);
    }
  }

  /**
   * The tables point into the arena, recorded classes are not empty, and the
   * preview map sends every (non-empty) pid to the node carrying that pid.
   */
  ghost predicate TablesInv(
    nodes: map<Ref, Node>, components: map<string, Ref>,
    classMap: map<Ref, string>, preview: Option<map<string, Ref>>)
  {
    (forall n | n in components :: components[n] in nodes)
    && (forall r | r in classMap :: r in nodes && classMap[r] != "")
    && (preview.Some? ==> forall k | k in preview.value ::
          k != "" && preview.value[k] in nodes && nodes[preview.value[k]].pid == k)
  }

  /** Growing or rewriting maps keeps the arena closed. */
  lemma ArenaMaps(
    nodes: map<Ref, Node>, maps: map<MapId, map<string, string>>, maps': map<MapId, map<string, string>>,
    nextRef: Ref, nextMap: MapId, nextMap': MapId, names: set<string>)
    requires ArenaInv(nodes, maps, nextRef, nextMap, names)
    requires maps.Keys <= maps'.Keys && forall m | m in maps' :: m < nextMap'
    ensures ArenaInv(nodes, maps', nextRef, nextMap', names)
  {
    forall r ensures NodeOk(nodes, maps', nextRef, names, r) {
      assert NodeOk(nodes, maps, nextRef, names, r);
    }
  }

  /** Pointing a node at another allocated style map keeps both invariants. */
  lemma Restyle(
    nodes: map<Ref, Node>, maps: map<MapId, map<string, string>>, nextRef: Ref, nextMap: MapId, names: set<string>,
    components: map<string, Ref>, classMap: map<Ref, string>, preview: Option<map<string, Ref>>,
    c: Ref, ptr: MapPtr)
    requires ArenaInv(nodes, maps, nextRef, nextMap, names) && TablesInv(nodes, components, classMap, preview)
    requires c in nodes && PtrIn(ptr, maps)
    ensures var nodes' := nodes[c := nodes[c].(style := ptr)];
      ArenaInv(nodes', maps, nextRef, nextMap, names) && TablesInv(nodes', components, classMap, preview)
      && ExtendsUpToStyle(nodes, nodes')
  {
    var nodes' := nodes[c := nodes[c].(style := ptr)];
    forall r ensures NodeOk(nodes', maps, nextRef, names, r) {
      assert NodeOk(nodes, maps, nextRef, names, r);
    }
  }

  /** Storing a node under the next reference keeps both invariants. */
  lemma PlaceNode(
    nodes: map<Ref, Node>, maps: map<MapId, map<string, string>>, nextRef: Ref, nextMap: MapId, names: set<string>,
    components: map<string, Ref>, classMap: map<Ref, string>, preview: Option<map<string, Ref>>, n: Node)
    requires ArenaInv(nodes, maps, nextRef, nextMap, names) && TablesInv(nodes, components, classMap, preview)
    requires n.importName in names && PtrIn(n.attributes, maps) && PtrIn(n.style, maps)
    requires forall c | c in n.elements :: c in nodes
    ensures nextRef !in nodes
    ensures var nodes' := nodes[nextRef := n];
      ArenaInv(nodes', maps, nextRef + 1, nextMap, names) && TablesInv(nodes', components, classMap, preview)
      && Extends(nodes, nodes')
  {
    forall r | r in nodes ensures r < nextRef {
      assert NodeOk(nodes, maps, nextRef, names, r);
    }
    var nodes', next := nodes[nextRef := n], nextRef + 1;
    forall r ensures NodeOk(nodes', maps, next, names, r) {
      assert NodeOk(nodes, maps, nextRef, names, r);
    }
  }

  /** Recording a class for a node keeps the tables valid. */
  lemma RecordClass(
    nodes: map<Ref, Node>, components: map<string, Ref>, classMap: map<Ref, string>,
    preview: Option<map<string, Ref>>, p: Ref, cls: string)
    requires TablesInv(nodes, components, classMap, preview)
    requires p in nodes && cls != ""
    ensures TablesInv(nodes, components, classMap[p := cls], preview)
  {
  }

  /**
   * Giving a node without a pid the (non-empty) pid `pid`, and recording it in
   * the preview map under that pid, keeps both invariants.
   */
  lemma Repid(
    nodes: map<Ref, Node>, maps: map<MapId, map<string, string>>, nextRef: Ref, nextMap: MapId, names: set<string>,
    components: map<string, Ref>, classMap: map<Ref, string>, preview: map<string, Ref>,
    p: Ref, pid: string)
    requires ArenaInv(nodes, maps, nextRef, nextMap, names) && TablesInv(nodes, components, classMap, Some(preview))
    requires p in nodes && nodes[p].pid == "" && pid != ""
    ensures var nodes' := nodes[p := nodes[p].(pid := pid)];
      ArenaInv(nodes', maps, nextRef, nextMap, names)
      && TablesInv(nodes', components, classMap, Some(preview[pid := p]))
      && ExtendsUpToPid(nodes, nodes')
  {
    var nodes' := nodes[p := nodes[p].(pid := pid)];
    forall r ensures NodeOk(nodes', maps, nextRef, names, r) {
      assert NodeOk(nodes, maps, nextRef, names, r);
    }
  }

  /** Arena reads stay the same when nodes and maps are only added. */
  lemma {:induction false} TreeAtFrame(
    n0: map<Ref, Node>, m0: map<MapId, map<string, string>>,
    n1: map<Ref, Node>, m1: map<MapId, map<string, string>>, r: Ref)
    requires Closed(n0, m0) && Closed(n1, m1) && r in n0
    requires Extends(n0, n1) && MapsExtend(m0, m1)
    ensures TreeAt(n1, m1, r) == TreeAt(n0, m0, r)
    decreases r
  {
    var n := n0[r];
    forall i | 0 <= i < |n.elements|
      ensures TreeAt(n1, m1, n.elements[i]) == TreeAt(n0, m0, n.elements[i])
    {
      assert n.elements[i] in n.elements;
      TreeAtFrame(n0, m0, n1, m1, n.elements[i]);
    }
  }

  /** `r` and everything below it carry no import. */
  ghost predicate ImportFree(nodes: map<Ref, Node>, r: Ref)
    decreases r
  {
    r in nodes && nodes[r].importName == ""
    && forall c | c in nodes[r].elements :: c < r && ImportFree(nodes, c)
  }

  /** ` pid="..."`, as the preview mode writes it. */
  function PidAttr(pid: string): string
  {
    " pid=\"" + pid + "\""
  }

  /** The document RenderPage streams around the head, the CSS and the body. */
  function Document(head: string, css: string, body: string): string
  {
    "<!DOCTYPE html><html><head>" + head + "<style>" + css + "</style></head><body>" + body + "</body></html>"
  }

  /** The document, written piece by piece after `prior`. */
  lemma DocumentParts(prior: string, head: string, css: string, body: string)
    ensures prior + "<!DOCTYPE html><html><head>" + head + "<style>" + css + "</style></head><body>" + body
      + "</body></html>" == prior + Document(head, css, body)
  {
  }

  /**
   * The loop `for key, value := range src { dst[key] = value }` over a copy of
   * `dst`'s contents: whatever order the keys come in, the result is the union
   * of the two maps with `src` winning on shared keys.
   */
  method CopyInto(dst: map<string, string>, src: map<string, string>) returns (m: map<string, string>)
    ensures m == dst + src
  {
    m := dst;
    var rest := src.Keys;
    while rest != {}
      invariant rest <= src.Keys
      invariant forall k | k in src && k !in rest :: k in m && m[k] == src[k]
      invariant forall k | k in dst && (k !in src || k in rest) :: k in m && m[k] == dst[k]
      invariant forall k | k in m :: k in dst || k in src
      decreases |rest|
    {
      var k :| k in rest;
      m := m[k := src[k]];
      rest := rest - {k};
    }
    UnionByPoints(dst, src, m);
  }

  /** Marking one more name from `names` as visited shrinks the termination measure. */
  lemma MeasureShrinks(names: set<string>, visited: set<string>, name: string)
    requires name in names && name !in visited
    ensures |names - (visited + {name})| < |names - visited|
  {
    assert names - (visited + {name}) == (names - visited) - {name};
  }

  /** A snapshot of the state the passes change. */
  datatype State = State(
    nodes: map<Ref, Node>,
    maps: map<MapId, map<string, string>>,
    nextRef: Ref,
    classMap: map<Ref, string>,
    visited: set<string>,
    components: map<string, Ref>,
    preview: Option<map<string, Ref>>,
    out: string)

  /**
   * What a step of the CSS pass keeps, `emitted` being what it wrote: nodes
   * change only in their style pointer; maps, classes, components and
   * visited names are only added; a recorded class keeps its value; and only
   * a fetch may replace a component, that of a name not visited before.
   */
  ghost predicate CssStep(s0: State, s1: State, emitted: string)
  {
    s1.out == s0.out + emitted
    && s0.visited <= s1.visited
    && ExtendsUpToStyle(s0.nodes, s1.nodes)
    && s0.maps.Keys <= s1.maps.Keys
    && s0.nextRef <= s1.nextRef
    && s0.classMap.Keys <= s1.classMap.Keys
    && (forall r | r in s0.classMap :: s1.classMap[r] == s0.classMap[r])
    && s0.components.Keys <= s1.components.Keys
    && (forall n | n in s0.components && n in s0.visited :: s1.components[n] == s0.components[n])
    && s1.preview == s0.preview
  }

  lemma CssStepTrans(s0: State, s1: State, s2: State, e1: string, e2: string)
    requires CssStep(s0, s1, e1) && CssStep(s1, s2, e2)
    ensures CssStep(s0, s2, e1 + e2)
  {
  }

  /**
   * What a step of the HTML pass keeps, `emitted` being what it wrote: nodes
   * change only by receiving a pid, maps are only added (or written into),
   * classes stay as the CSS pass left them, visited names are only added,
   * components are only removed, and preview mode stays on or off.
   */
  ghost predicate RenderStep(s0: State, s1: State, emitted: string)
  {
    s1.out == s0.out + emitted
    && ExtendsUpToPid(s0.nodes, s1.nodes)
    && s0.maps.Keys <= s1.maps.Keys
    && s0.nextRef <= s1.nextRef
    && s1.classMap == s0.classMap
    && s0.visited <= s1.visited
    && (forall n | n in s1.components :: n in s0.components && s1.components[n] == s0.components[n])
    && (s1.preview.Some? <==> s0.preview.Some?)
  }

  lemma RenderStepTrans(s0: State, s1: State, s2: State, e1: string, e2: string)
    requires RenderStep(s0, s1, e1) && RenderStep(s1, s2, e2)
    ensures RenderStep(s0, s2, e1 + e2)
  {
  }

  /** Storing a node under a fresh reference is a step of the HTML pass. */
  lemma PlaceStep(s0: State, r: Ref, n: Node, s1: State)
    requires r !in s0.nodes && s1 == s0.(nodes := s0.nodes[r := n], nextRef := r + 1) && s0.nextRef == r
    ensures RenderStep(s0, s1, "")
  { }

  /** A step that writes nothing followed by one that writes `e` writes `e`. */
  lemma QuietThen(s0: State, s1: State, s2: State, e: string)
    requires RenderStep(s0, s1, "") && RenderStep(s1, s2, e)
    ensures RenderStep(s0, s2, e)
  {
    RenderStepTrans(s0, s1, s2, "", e);
    assert "" + e == e;
  }

  /**
   * One call of Render or of CollectCSS: the element `ref` it was made on, the
   * state before (`pre`), an intermediate state (`mid`, see `Rendered` and
   * `Collected`), the state after (`post`), what it wrote (`emitted`), the
   * order a map was visited in (`order`), and the calls it made (`kids`).
   */
  datatype Trace = Trace(
    ref: Ref, pre: State, mid: State, post: State, emitted: string, order: seq<string>, kids: seq<Trace>)

  /** What the calls `ts` wrote, one after the other. */
  function Emitted(ts: seq<Trace>): string
  {
    if ts == [] then "" else ts[0].emitted + Emitted(ts[1..])
  }

  lemma {:induction false} EmittedAppend(ts: seq<Trace>, t: Trace)
    ensures Emitted(ts + [t]) == Emitted(ts) + t.emitted
  {
    if ts == [] {
      assert [t][1..] == [];
    } else {
      assert (ts + [t])[1..] == ts[1..] + [t];
      EmittedAppend(ts[1..], t);
    }
  }

  /** The state after the calls `ts`, made from `s`. */
  function Last(ts: seq<Trace>, s: State): State
  {
    if ts == [] then s else ts[|ts| - 1].post
  }

  /** `ts` are calls on `refs`, in order, each starting where the one before ended, the first at `s`. */
  ghost predicate Chain(ts: seq<Trace>, refs: seq<Ref>, s: State)
  {
    |ts| == |refs|
    && (forall i | 0 <= i < |ts| :: ts[i].ref == refs[i])
    && (|ts| > 0 ==> ts[0].pre == s)
    && (forall i | 0 < i < |ts| :: ts[i].pre == ts[i - 1].post)
  }

  lemma ChainExtend(ts: seq<Trace>, refs: seq<Ref>, s: State, t: Trace, i: nat)
    requires i < |refs| && Chain(ts, refs[..i], s) && t.ref == refs[i] && t.pre == Last(ts, s)
    ensures Chain(ts + [t], refs[..i + 1], s) && Last(ts + [t], s) == t.post
  {
  }

  /** `name` marked as visited, when there is a name. */
  function Mark(s: State, name: string): State
  {
    if name == "" then s else s.(visited := s.visited + {name})
  }

  /** After an imported clone is rendered: the name unmarked and a private component dropped (render.go:206-215). */
  function Release(s: State, name: string, private: bool): State
  {
    s.(visited := s.visited - {name}, components := if private then s.components - {name} else s.components)
  }

  /** The closing tag written. */
  function Closing(s: State, tag: string): State
  {
    s.(out := s.out + ("</" + tag + ">"))
  }

  /**
   * The pid step of render.go:228-245 from `s` to `s1`: in preview mode an
   * element without a pid receives its class or a 6-letter token as pid and is
   * recorded under it in the preview map; otherwise nothing changes.
   */
  ghost predicate PidGiven(s: State, p: Ref, s1: State)
    requires p in s.nodes
  {
    var n := s.nodes[p];
    if s.preview.Some? && n.pid == "" then
      p in s1.nodes && s1.nodes[p].pid != ""
      && s1.nodes == s.nodes[p := n.(pid := s1.nodes[p].pid)]
      && s1.preview == Some(s.preview.value[s1.nodes[p].pid := p])
      && (p in s.classMap ==> s1.nodes[p].pid == s.classMap[p])
      && (p !in s.classMap ==> Random.IsToken(s1.nodes[p].pid, 6))
    else
      s1.nodes == s.nodes && s1.preview == s.preview
  }

  /** The pid text written by the pid step from `s` to `s1`. */
  ghost function PidText(s: State, p: Ref, s1: State): string
    requires p in s.nodes
  {
    if s.preview.Some? && s.nodes[p].pid == "" && p in s1.nodes then PidAttr(s1.nodes[p].pid) else ""
  }

  /** What follows `<Type` in the opening tag: the pid, the attributes but `class` in `order`, the class attribute. */
  ghost function Inner(s: State, p: Ref, s1: State, order: seq<string>): string
    requires p in s.nodes
  {
    var attrs := Contents(s.nodes[p].attributes, s.maps);
    PidText(s, p, s1) + AttrText(attrs, order)
      + ClassAttr(p in s.classMap, if p in s.classMap then s.classMap[p] else "", CustomClass(attrs))
  }

  /**
   * The opening of a tag (render.go:222-283), from `s` to `s1`: the pid step,
   * then `<Type`, the inner text, and ` />` for a self-closing type or `>` and
   * the text for any other.
   */
  ghost predicate Opened(s: State, p: Ref, s1: State, order: seq<string>)
    requires p in s.nodes
  {
    var n := s.nodes[p];
    PidGiven(s, p, s1)
    && IsOrder(order, Contents(n.attributes, s.maps).Keys)
    && s1 == s.(nodes := s1.nodes, preview := s1.preview, out := s1.out)
    && s1.out == s.out + "<" + n.tag + Inner(s, p, s1, order) + (if n.tag in SelfClosingTags then " />" else ">" + n.text)
  }

  /**
   * The clone of render.go:185-203, from `s` to `s1`: a fresh node `q` copying
   * component `c`, whose attributes map (`c`'s own when it has one, else a new
   * one) holds `c`'s attributes, then `p`'s, then `p`'s class; `p`'s text
   * replaces the copy's when not empty.
   */
  ghost predicate Cloned(s: State, p: Ref, c: Ref, q: Ref, s1: State)
  {
    p in s.nodes && c in s.nodes && q == s.nextRef && q !in s.nodes && q in s1.nodes
    && var n, m, a := s.nodes[p], s.nodes[c], s1.nodes[q].attributes;
    a.MapAt?
    && s1.nodes == s.nodes[q := m.(attributes := a, text := if n.text != "" then n.text else m.text)]
    && s1.maps == s.maps[a.id := Contents(m.attributes, s.maps) + Contents(n.attributes, s.maps)
         + (if p in s.classMap then map["class" := s.classMap[p]] else map[])]
    && (m.attributes.MapAt? ==> a == m.attributes)
    && (m.attributes.NilMap? ==> a.id !in s.maps)
    && s1 == s.(nodes := s1.nodes, maps := s1.maps, nextRef := q + 1)
  }

  lemma ClonedIntro(s: State, p: Ref, c: Ref, q: Ref, sm: State, s1: State, a: MapPtr, merged: map<string, string>)
    requires p in s.nodes && c in s.nodes && q == s.nextRef && q !in s.nodes && a.MapAt?
    requires var n, m := s.nodes[p], s.nodes[c];
      && merged == Contents(m.attributes, s.maps) + Contents(n.attributes, s.maps)
           + (if p in s.classMap then map["class" := s.classMap[p]] else map[])
      && (m.attributes.MapAt? ==> a == m.attributes)
      && (m.attributes.NilMap? ==> a.id !in s.maps)
      && sm == s.(maps := s.maps[a.id := merged])
      && s1 == sm.(nodes := sm.nodes[q := m.(attributes := a, text := if n.text != "" then n.text else m.text)], nextRef := q + 1)
    ensures Cloned(s, p, c, q, s1)
  { }

  /**
   * `t` is a call of Render (render.go:170-292) on `t.ref`:
   * - an import whose name is being rendered writes nothing and changes nothing;
   * - an import of a known component marks the name and stores the clone
   *   (reaching `t.mid`), renders the clone (`t.kids[0]`), then releases the name;
   * - any other element marks an unknown import's name and writes its opening
   *   (reaching `t.mid`); unless self-closing, it then renders its children in
   *   order (`t.kids`) and writes the closing tag. What it writes is its markup.
   */
  ghost predicate Rendered(t: Trace)
    decreases t
  {
    var s0, p := t.pre, t.ref;
    p in s0.nodes
    && var n := s0.nodes[p];
    if n.importName != "" && n.importName in s0.visited then
      t.kids == [] && t.mid == s0 && t.post == s0 && t.emitted == ""
    else if n.importName != "" && n.importName in s0.components then
      |t.kids| == 1 && Rendered(t.kids[0]) && t.kids[0].pre == t.mid
      && Cloned(Mark(s0, n.importName), p, s0.components[n.importName], t.kids[0].ref, t.mid)
      && t.post == Release(t.kids[0].post, n.importName, n.isPrivate)
      && t.emitted == t.kids[0].emitted
    else
      Opened(Mark(s0, n.importName), p, t.mid, t.order)
      && (n.tag in SelfClosingTags ==> t.kids == [] && t.post == t.mid)
      && (n.tag !in SelfClosingTags ==>
            Chain(t.kids, n.elements, t.mid) && (forall i | 0 <= i < |t.kids| :: Rendered(t.kids[i]))
            && t.post == Closing(Last(t.kids, t.mid), n.tag))
      && t.emitted == TagMarkup(n.tag, Inner(Mark(s0, n.importName), p, t.mid, t.order), n.text, Emitted(t.kids))
  }

  /** The pid step and the inner text do not look at what has been written. */
  lemma OutOnly(s: State, p: Ref, s1: State, mid: State, order: seq<string>)
    requires p in s.nodes && mid == s1.(out := mid.out)
    ensures PidGiven(s, p, s1) ==> PidGiven(s, p, mid)
    ensures Inner(s, p, mid, order) == Inner(s, p, s1, order)
  {
    assert PidText(s, p, mid) == PidText(s, p, s1);
  }

  lemma OpenedIntro(s: State, p: Ref, s1: State, order: seq<string>, open: string, mid: State)
    requires p in s.nodes && PidGiven(s, p, s1) && s1 == s.(nodes := s1.nodes, preview := s1.preview)
    requires IsOrder(order, Contents(s.nodes[p].attributes, s.maps).Keys)
    requires open == "<" + s.nodes[p].tag + Inner(s, p, s1, order)
    requires mid == s1.(out := s1.out + (open + (if s.nodes[p].tag in SelfClosingTags then " />" else ">" + s.nodes[p].text)))
    ensures Opened(s, p, mid, order) && Inner(s, p, mid, order) == Inner(s, p, s1, order)
  {
    var n := s.nodes[p];
    var suffix := if n.tag in SelfClosingTags then " />" else ">" + n.text;
    OutOnly(s, p, s1, mid, order);
    var inner := Inner(s, p, s1, order);
    assert mid == s.(nodes := mid.nodes, preview := mid.preview, out := mid.out);
    Assoc(s.out, "<" + n.tag + inner, suffix);
    assert s.out + ("<" + n.tag + inner) == s.out + "<" + n.tag + inner;
  }

  /** The tag branch of `Rendered`, from the opening and the children. */
  lemma TagRendered(t: Trace, open: string)
    requires t.ref in t.pre.nodes
    requires var n := t.pre.nodes[t.ref];
      n.importName != "" ==> n.importName !in t.pre.visited && n.importName !in t.pre.components
    requires var n := t.pre.nodes[t.ref];
      Opened(Mark(t.pre, n.importName), t.ref, t.mid, t.order)
      && open == "<" + n.tag + Inner(Mark(t.pre, n.importName), t.ref, t.mid, t.order)
    requires var n := t.pre.nodes[t.ref];
      n.tag in SelfClosingTags ==> t.kids == [] && t.post == t.mid && t.emitted == open + " />"
    requires var n := t.pre.nodes[t.ref];
      n.tag !in SelfClosingTags ==>
        Chain(t.kids, n.elements, t.mid) && (forall i | 0 <= i < |t.kids| :: Rendered(t.kids[i]))
        && t.post == Closing(Last(t.kids, t.mid), n.tag)
        && t.emitted == open + (">" + n.text) + (Emitted(t.kids) + ("</" + n.tag + ">"))
    ensures Rendered(t)
  {
    var n := t.pre.nodes[t.ref];
    TagMarkupParts(n.tag, Inner(Mark(t.pre, n.importName), t.ref, t.mid, t.order), n.text, Emitted(t.kids));
  }

  /** The import branch of `Rendered`, from the clone and its rendering. */
  lemma ImportRendered(t: Trace, k: Trace, name: string)
    requires t.ref in t.pre.nodes && name == t.pre.nodes[t.ref].importName
    requires name != "" && name !in t.pre.visited && name in t.pre.components
    requires t.kids == [k] && Rendered(k) && k.pre == t.mid
    requires Cloned(Mark(t.pre, name), t.ref, t.pre.components[name], k.ref, t.mid)
    requires t.post == Release(k.post, name, t.pre.nodes[t.ref].isPrivate) && t.emitted == k.emitted
    ensures Rendered(t)
  {
  }

  /** Dropping a component keeps the tables valid. */
  lemma DropComponent(
    nodes: map<Ref, Node>, components: map<string, Ref>, classMap: map<Ref, string>,
    preview: Option<map<string, Ref>>, name: string)
    requires TablesInv(nodes, components, classMap, preview)
    ensures TablesInv(nodes, components - {name}, classMap, preview)
  {
  }

  /** Releasing a name that was not marked before keeps a render step. */
  lemma ReleaseStep(s0: State, s1: State, e: string, name: string, private: bool)
    requires RenderStep(s0, s1, e) && name !in s0.visited
    ensures RenderStep(s0, Release(s1, name, private), e)
  {
  }

  /** Every call of `ts + [t]` is a render call when those of `ts` and `t` are. */
  lemma AllRenderedAppend(ts: seq<Trace>, t: Trace)
    ensures (forall j | 0 <= j < |ts| :: Rendered(ts[j])) && Rendered(t) ==>
      forall j | 0 <= j < |ts + [t]| :: Rendered((ts + [t])[j])
  {
  }

  /**
   * `ts` are HTML-pass calls on `refs`, in order, from `s0` to `s`, each one
   * faithful (Rendered); together they wrote `Emitted(ts)`.
   */
  ghost predicate RenderRun(ts: seq<Trace>, refs: seq<Ref>, s0: State, s: State)
  {
    RenderStep(s0, s, Emitted(ts)) && Chain(ts, refs, s0) && Last(ts, s0) == s
    && forall i | 0 <= i < |ts| :: Rendered(ts[i])
  }

  /** A run extended by the call on the next reference. */
  lemma RenderRunExtend(ts: seq<Trace>, refs: seq<Ref>, s0: State, t: Trace, i: nat)
    requires i < |refs| && RenderRun(ts, refs[..i], s0, t.pre) && t.ref == refs[i]
    requires RenderStep(t.pre, t.post, t.emitted)
    ensures Rendered(t) ==> RenderRun(ts + [t], refs[..i + 1], s0, t.post)
  {
    RenderStepTrans(s0, t.pre, t.post, Emitted(ts), t.emitted);
    EmittedAppend(ts, t);
    ChainExtend(ts, refs, s0, t, i);
    AllRenderedAppend(ts, t);
  }

  lemma TagMarkupParts(tag: string, inner: string, text: string, kids: string)
    ensures tag in SelfClosingTags ==> TagMarkup(tag, inner, text, kids) == ("<" + tag + inner) + " />"
    ensures tag !in SelfClosingTags ==>
      TagMarkup(tag, inner, text, kids) == ("<" + tag + inner) + (">" + text) + (kids + ("</" + tag + ">"))
  {
    if tag !in SelfClosingTags {
      var open, close := "<" + tag + inner, "</" + tag + ">";
      Assoc(open, ">", text);
      Assoc(open + (">" + text), kids, close);
    }
  }

  /** The state the head is rendered from: the prologue written, no classes, nothing visited. */
  function HeadStart(s: State): State
  {
    s.(classMap := map[], visited := {}, out := s.out + "<!DOCTYPE html><html><head>")
  }

  /** The state the body's CSS is collected from: `<style>` written, a fresh class map, nothing visited. */
  function StyleStart(s: State): State
  {
    s.(classMap := map[], visited := {}, out := s.out + "<style>")
  }

  /** The state the body is rendered from: the head closed, the classes kept, nothing visited. */
  function BodyStart(s: State): State
  {
    s.(visited := {}, out := s.out + "</style></head><body>")
  }

  /** The document closed. */
  function Epilogue(s: State): State
  {
    s.(out := s.out + "</body></html>")
  }

  /** Whether CollectCSS finds a component for the import `name` from `s` (render.go:49-61). */
  ghost predicate Found(s: State, name: string, fetch: string -> Result<Element, string>)
  {
    if Contains(name, "/") then fetch(name).Ok? else name in s.components
  }

  /** What resolving `name` writes: the comment for a failed fetch (render.go:51-54), else nothing. */
  function ResolveText(name: string, fetch: string -> Result<Element, string>): string
  {
    if Contains(name, "/") && fetch(name).Err? then "/* Error: " + fetch(name).error + " */" else ""
  }

  /**
   * The lookup of `name` from `s` to `s1` (render.go:49-58): a fetched
   * component is placed in fresh nodes and stored under `name`; a failed fetch
   * writes its comment; a name without `/` changes nothing.
   */
  ghost predicate Resolved(s: State, name: string, fetch: string -> Result<Element, string>, s1: State)
  {
    if Contains(name, "/") && fetch(name).Ok? then
      name in s1.components && s1.components[name] !in s.nodes && s1.components[name] in s1.nodes
      && s1.components == s.components[name := s1.components[name]]
      && Extends(s.nodes, s1.nodes) && MapsExtend(s.maps, s1.maps) && s.nextRef <= s1.nextRef
      && Closed(s1.nodes, s1.maps) && TreeAt(s1.nodes, s1.maps, s1.components[name]) == fetch(name).value
      && s1 == s.(nodes := s1.nodes, maps := s1.maps, nextRef := s1.nextRef, components := s1.components)
    else
      s1 == s.(out := s.out + ResolveText(name, fetch))
  }

  /**
   * The style hand-over of render.go:65-70 from `s` to `s1`: component `c`
   * gets a style map if it had none, and `p`'s style is written into it.
   */
  ghost predicate Overlaid(s: State, p: Ref, c: Ref, s1: State)
  {
    p in s.nodes && c in s.nodes && c in s1.nodes && s1.nodes[c].style.MapAt?
    && var m, st := s.nodes[c], s1.nodes[c].style;
    s1.maps == s.maps[st.id := Contents(m.style, s.maps) + Contents(s.nodes[p].style, s.maps)]
    && (m.style.MapAt? ==> st == m.style && s1.nodes == s.nodes)
    && (m.style.NilMap? ==> st.id !in s.maps && s1.nodes == s.nodes[c := m.(style := st)])
    && s1 == s.(nodes := s1.nodes, maps := s1.maps)
  }

  /** The style hand-over is a CSS step that writes nothing and keeps the invariant. */
  lemma OverlaidStep(s: State, p: Ref, c: Ref, s1: State, lo: map<Ref, Ref>)
    requires CssInv(s, lo) && Overlaid(s, p, c, s1)
    ensures CssInv(s1, lo) && CssStep(s, s1, "")
  {
    ForestGrow(s.nodes, s1.nodes, lo, s.nextRef, s1.nextRef);
  }

  /** The importing element `p` takes the class of component `c`, when it has one (render.go:74-77). */
  function Adopt(s: State, p: Ref, c: Ref): State
  {
    if c in s.classMap then s.(classMap := s.classMap[p := s.classMap[c]]) else s
  }

  /**
   * `t` is a call of CollectCSS (render.go:34-95) on `t.ref`:
   * - an element that imports nothing records a fresh class `Type_xxxxxx` and
   *   writes the rule for its style (reaching `t.mid`), then collects its
   *   children in order (`t.kids`);
   * - an import whose name was visited in this pass does nothing;
   * - any other import marks its name and resolves it (reaching `t.mid`); a
   *   component found without a class yet receives the importer's style and
   *   has its CSS collected (`t.kids[0]`); then the importer takes the
   *   component's class, if it has one.
   */
  ghost predicate Collected(t: Trace, fetch: string -> Result<Element, string>)
    decreases t
  {
    var s0, p := t.pre, t.ref;
    p in s0.nodes
    && var n := s0.nodes[p];
    if n.importName == "" then
      p in t.mid.classMap && ClassFor(n.tag, t.mid.classMap[p])
      && var cls, style := t.mid.classMap[p], Contents(n.style, s0.maps);
      IsOrder(t.order, style.Keys)
      && t.mid == s0.(classMap := s0.classMap[p := cls], out := s0.out + CssRule(cls, style, t.order))
      && Chain(t.kids, n.elements, t.mid) && (forall i | 0 <= i < |t.kids| :: Collected(t.kids[i], fetch))
      && t.post == Last(t.kids, t.mid)
      && t.emitted == CssRule(cls, style, t.order) + Emitted(t.kids)
    else if n.importName in s0.visited then
      t.kids == [] && t.post == s0 && t.emitted == ""
    else
      var name := n.importName;
      t.mid.visited == s0.visited + {name} && Resolved(s0, name, fetch, t.mid.(visited := s0.visited))
      && t.emitted == ResolveText(name, fetch) + Emitted(t.kids)
      && if !Found(s0, name, fetch) then t.kids == [] && t.post == t.mid
      else
        name in t.mid.components
        && var c := t.mid.components[name];
        (c in t.mid.classMap ==> t.kids == [])
        && (c !in t.mid.classMap ==>
              |t.kids| == 1 && t.kids[0].ref == c && Overlaid(t.mid, p, c, t.kids[0].pre) && Collected(t.kids[0], fetch))
        && t.post == Adopt(Last(t.kids, t.mid), p, c)
  }

  /** `t` is a call of CollectCSS on an element that imports nothing. */
  ghost predicate Plain(t: Trace)
  {
    t.ref in t.pre.nodes && t.pre.nodes[t.ref].importName == ""
  }

  /** The class `t` recorded for its element is still its class in `s`. */
  ghost predicate KeptClass(t: Trace, s: State)
  {
    t.ref in t.mid.classMap && t.ref in s.classMap && s.classMap[t.ref] == t.mid.classMap[t.ref]
  }

  /** The ordinary-element branch of `Collected`, from the rule and the children. */
  lemma PlainCollected(t: Trace, fetch: string -> Result<Element, string>, cls: string, rule: string)
    requires t.ref in t.pre.nodes && t.pre.nodes[t.ref].importName == ""
    requires var n := t.pre.nodes[t.ref];
      ClassFor(n.tag, cls) && IsOrder(t.order, Contents(n.style, t.pre.maps).Keys)
      && rule == CssRule(cls, Contents(n.style, t.pre.maps), t.order)
      && t.mid == t.pre.(classMap := t.pre.classMap[t.ref := cls], out := t.pre.out + rule)
      && Chain(t.kids, n.elements, t.mid) && (forall i | 0 <= i < |t.kids| :: Collected(t.kids[i], fetch))
      && t.post == Last(t.kids, t.mid) && t.emitted == rule + Emitted(t.kids)
    ensures Collected(t, fetch)
  {
  }

  /** The import branch of `Collected`, from the lookup and the use of the component. */
  lemma ImportCollected(t: Trace, fetch: string -> Result<Element, string>, r: State, found: bool, c: Ref)
    requires t.ref in t.pre.nodes
    requires var name := t.pre.nodes[t.ref].importName; name != "" && name !in t.pre.visited
    requires var name := t.pre.nodes[t.ref].importName;
      Resolved(t.pre, name, fetch, r) && t.mid == Mark(r, name) && found == Found(t.pre, name, fetch)
      && (found ==> name in r.components && r.components[name] == c)
    requires var name := t.pre.nodes[t.ref].importName;
      t.emitted == ResolveText(name, fetch) + Emitted(t.kids)
    requires !found ==> t.kids == [] && t.post == t.mid
    requires found && c in t.mid.classMap ==> t.kids == []
    requires found && c !in t.mid.classMap ==>
      |t.kids| == 1 && t.kids[0].ref == c && Overlaid(t.mid, t.ref, c, t.kids[0].pre) && Collected(t.kids[0], fetch)
    requires found ==> t.post == Adopt(Last(t.kids, t.mid), t.ref, c)
    ensures Collected(t, fetch)
  {
    var name := t.pre.nodes[t.ref].importName;
    assert t.mid.(visited := t.pre.visited) == r;
  }

  lemma AllCollectedAppend(ts: seq<Trace>, t: Trace, fetch: string -> Result<Element, string>)
    ensures (forall i | 0 <= i < |ts| :: Collected(ts[i], fetch)) && Collected(t, fetch) ==>
      forall i | 0 <= i < |ts + [t]| :: Collected((ts + [t])[i], fetch)
  {
  }

  /**
   * `ts` are CSS-pass calls on `refs`, in order, from `s0` to `s`, each one
   * faithful (Collected); together they wrote `Emitted(ts)`.
   */
  ghost predicate CssRun(ts: seq<Trace>, refs: seq<Ref>, s0: State, s: State, fetch: string -> Result<Element, string>)
  {
    CssStep(s0, s, Emitted(ts)) && Chain(ts, refs, s0) && Last(ts, s0) == s
    && forall i | 0 <= i < |ts| :: Collected(ts[i], fetch)
  }

  /** A run extended by the call on the next reference. */
  lemma CssRunExtend(ts: seq<Trace>, refs: seq<Ref>, s0: State, t: Trace, i: nat, fetch: string -> Result<Element, string>)
    requires i < |refs| && CssRun(ts, refs[..i], s0, t.pre, fetch) && t.ref == refs[i]
    requires CssStep(t.pre, t.post, t.emitted)
    ensures Collected(t, fetch) ==> CssRun(ts + [t], refs[..i + 1], s0, t.post, fetch)
  {
    CssStepTrans(s0, t.pre, t.post, Emitted(ts), t.emitted);
    EmittedAppend(ts, t);
    ChainExtend(ts, refs, s0, t, i);
    AllCollectedAppend(ts, t, fetch);
  }

  /** `y` lies in the range `lo[x]..x` that the tree rooted at `x` occupies. */
  ghost predicate InTree(lo: map<Ref, Ref>, x: Ref, y: Ref)
  {
    x in lo && lo[x] <= y <= x
  }

  /** The trees rooted at `x` and at `z` occupy disjoint ranges. */
  ghost predicate Apart(lo: map<Ref, Ref>, x: Ref, z: Ref)
  {
    x in lo && z in lo && (x < lo[z] || z < lo[x])
  }

  /** The children `es` of a node whose range is `a..x` occupy disjoint sub-ranges of it, in order. */
  ghost predicate Spread(es: seq<Ref>, lo: map<Ref, Ref>, a: Ref, x: Ref)
  {
    (forall j | 0 <= j < |es| :: es[j] in lo && a <= lo[es[j]] && es[j] < x)
    && (forall j, k | 0 <= j < k < |es| :: es[j] < lo[es[k]])
  }

  /**
   * `lo` lays out the decoded trees in ranges of references, as decoding a
   * JSON tree allocates it: the children of a node, then the node. Go's
   * pointers never share an element between two trees; the ranges say so
   * of the arena.
   */
  ghost predicate Forest(nodes: map<Ref, Node>, lo: map<Ref, Ref>, nextRef: Ref)
  {
    (forall x | x in lo :: x in nodes && lo[x] <= x < nextRef)
    && (forall x {:trigger Kids(nodes, x)} | x in lo && x in nodes :: Spread(Kids(nodes, x), lo, lo[x], x))
  }

  /** The children of `x`; `Forest` speaks of them under this name only, so that it is used where it is asked for. */
  function Kids(nodes: map<Ref, Node>, x: Ref): seq<Ref>
    requires x in nodes
  {
    nodes[x].elements
  }

  /** `lo1` keeps every range of `lo0` and adds ranges only of references from `bound` on. */
  ghost predicate LoGrows(lo0: map<Ref, Ref>, lo1: map<Ref, Ref>, bound: Ref)
  {
    (forall y | y in lo0 :: y in lo1 && lo1[y] == lo0[y])
    && (forall y | y in lo1 && y !in lo0 :: bound <= lo1[y])
  }

  /** No element of the tree rooted at `x` has a class. */
  ghost predicate Untouched(classMap: map<Ref, string>, lo: map<Ref, Ref>, x: Ref)
  {
    forall y | y in classMap :: !InTree(lo, x, y)
  }

  /**
   * The CSS pass's invariant: the trees are laid out, every component root
   * has a range, a root without a class has no class in its tree, and two
   * roots are the same or have disjoint trees.
   */
  ghost predicate CssInv(s: State, lo: map<Ref, Ref>)
  {
    Forest(s.nodes, lo, s.nextRef)
    && (forall y | y in s.classMap :: y < s.nextRef)
    && (forall n | n in s.components ::
          s.components[n] in lo && (s.components[n] in s.classMap || Untouched(s.classMap, lo, s.components[n])))
    && (forall n, m | n in s.components && m in s.components ::
          s.components[n] == s.components[m] || Apart(lo, s.components[n], s.components[m]))
  }

  /** The tree rooted at `x` is apart from that of every other component without a class. */
  ghost predicate Free(s: State, lo: map<Ref, Ref>, x: Ref)
  {
    forall n | n in s.components && s.components[n] != x && s.components[n] !in s.classMap :: Apart(lo, x, s.components[n])
  }

  /**
   * CollectCSS may be called on `x`: the invariant holds, nothing in `x`'s
   * tree has a class and it is apart from the unclassed components.
   */
  ghost predicate Ready(s: State, lo: map<Ref, Ref>, x: Ref)
  {
    CssInv(s, lo) && x in lo && Untouched(s.classMap, lo, x) && Free(s, lo, x)
  }

  /** An importing element `p` may use a component: the invariant holds, `p` has no class and is apart from the unclassed components. */
  ghost predicate Importer(s: State, lo: map<Ref, Ref>, p: Ref)
  {
    CssInv(s, lo) && p in lo && p !in s.classMap && Free(s, lo, p)
  }

  /** From `s0` to `s1` the invariant is kept and the layout only grows. */
  ghost predicate Stable(s0: State, lo0: map<Ref, Ref>, s1: State, lo: map<Ref, Ref>)
  {
    CssInv(s1, lo) && Grown(s0, lo0, s1, lo)
  }

  /** `y` lies in the tree of a component that has no class in `s`. */
  ghost predicate Covered(s: State, lo: map<Ref, Ref>, y: Ref)
  {
    exists n | n in s.components && s.components[n] !in s.classMap :: InTree(lo, s.components[n], y)
  }

  /** From `s0` to `s1`, ranges are only added, for fresh references, and a component changes only to a fresh tree. */
  ghost predicate Grown(s0: State, lo0: map<Ref, Ref>, s1: State, lo1: map<Ref, Ref>)
  {
    LoGrows(lo0, lo1, s0.nextRef)
    && (forall n | n in s1.components ::
          (n in s0.components && s1.components[n] == s0.components[n])
          || (s1.components[n] in lo1 && s0.nextRef <= lo1[s1.components[n]]))
  }

  /**
   * The classes recorded from `s0` to `s1` by a call on `x` lie in `x`'s
   * tree, in fresh nodes, or in the tree of a component without a class in `s0`.
   */
  ghost predicate Claimed(s0: State, lo: map<Ref, Ref>, x: Ref, s1: State)
  {
    forall y | y in s1.classMap && y !in s0.classMap :: InTree(lo, x, y) || s0.nextRef <= y || Covered(s0, lo, y)
  }

  /**
   * The body `refs` and the component table of `s` are laid out as separate
   * trees: every root has a range, two body elements are apart, and a body
   * element is apart from every component; two components are the same or apart.
   */
  ghost predicate Layout(s: State, lo: map<Ref, Ref>, refs: seq<Ref>)
  {
    Forest(s.nodes, lo, s.nextRef)
    && (forall n | n in s.components :: s.components[n] in lo)
    && (forall n, m | n in s.components && m in s.components ::
          s.components[n] == s.components[m] || Apart(lo, s.components[n], s.components[m]))
    && Apartness(s, lo, refs)
  }

  /** The trees of `refs` are apart from each other and from every component. */
  ghost predicate Apartness(s: State, lo: map<Ref, Ref>, refs: seq<Ref>)
  {
    (forall j | 0 <= j < |refs| :: refs[j] in lo)
    && (forall j, k | 0 <= j < |refs| && 0 <= k < |refs| && j != k :: Apart(lo, refs[j], refs[k]))
    && (forall j, n | 0 <= j < |refs| && n in s.components :: Apart(lo, refs[j], s.components[n]))
  }

  /** With no class recorded, a layout is where the CSS pass may start. */
  lemma LayoutStart(s: State, lo: map<Ref, Ref>, refs: seq<Ref>)
    requires Layout(s, lo, refs) && s.classMap == map[]
    ensures CssInv(s, lo) && Apartness(s, lo, refs) && forall j | 0 <= j < |refs| :: Untouched(s.classMap, lo, refs[j])
  {
  }

  /** A step of the CSS pass keeps the classes already recorded. */
  lemma KeptClassStep(ts: seq<Trace>, t: Trace, mid: State, s: State)
    requires (forall j | 0 <= j < |ts| && Plain(ts[j]) :: KeptClass(ts[j], mid)) && (Plain(t) ==> KeptClass(t, s))
    requires CssStep(mid, s, t.emitted)
    ensures forall j | 0 <= j < |ts + [t]| && Plain((ts + [t])[j]) :: KeptClass((ts + [t])[j], s)
  {
  }

  /** A layout survives nodes that keep their children, a later counter and a larger `lo`. */
  lemma ForestGrow(n0: map<Ref, Node>, n1: map<Ref, Node>, lo: map<Ref, Ref>, r0: Ref, r1: Ref)
    requires Forest(n0, lo, r0) && r0 <= r1
    requires forall x | x in n0 :: x in n1 && n1[x].elements == n0[x].elements
    ensures Forest(n1, lo, r1)
  {
    forall x | x in lo && x in n1 ensures Spread(Kids(n1, x), lo, lo[x], x) {
      assert Kids(n1, x) == Kids(n0, x);
    }
  }

  lemma SpreadGrow(es: seq<Ref>, lo0: map<Ref, Ref>, lo1: map<Ref, Ref>, a: Ref, x: Ref, bound: Ref)
    requires Spread(es, lo0, a, x) && LoGrows(lo0, lo1, bound)
    ensures Spread(es, lo1, a, x)
  {
  }

  /** A new node `r`, whose children occupy `start..r`, gets the range `start..r`. */
  lemma ForestAdd(nodes: map<Ref, Node>, lo: map<Ref, Ref>, nextRef: Ref, r: Ref, start: Ref)
    requires Forest(nodes, lo, nextRef) && r in nodes && r !in lo && start <= r < nextRef
    requires Spread(nodes[r].elements, lo, start, r)
    ensures Forest(nodes, lo[r := start], nextRef) && LoGrows(lo, lo[r := start], start)
  {
    var lo' := lo[r := start];
    assert LoGrows(lo, lo', start);
    forall x | x in lo' ensures x in nodes && lo'[x] <= x < nextRef && Spread(Kids(nodes, x), lo', lo'[x], x) {
      SpreadGrow(Kids(nodes, x), lo, lo', lo'[x], x, start);
    }
  }

  /** A node placed at the counter `r`, over children laid out in `start..r`, gets the range `start..r`. */
  lemma ForestPlace(n0: map<Ref, Node>, lo: map<Ref, Ref>, r: Ref, n: Node, start: Ref)
    requires Forest(n0, lo, r) && r !in n0 && start <= r && Spread(n.elements, lo, start, r)
    ensures Forest(n0[r := n], lo[r := start], r + 1) && LoGrows(lo, lo[r := start], start)
  {
    ForestGrow(n0, n0[r := n], lo, r, r + 1);
    ForestAdd(n0[r := n], lo, r + 1, r, start);
  }

  /** One more tree, allocated after the others, extends the children's layout. */
  lemma SpreadAppend(kids: seq<Ref>, k: Ref, lo0: map<Ref, Ref>, lo1: map<Ref, Ref>, start: Ref, mid: Ref, end: Ref)
    requires Spread(kids, lo0, start, mid) && LoGrows(lo0, lo1, mid)
    requires k in lo1 && mid <= lo1[k] && k < end && start <= mid <= end
    ensures Spread(kids + [k], lo1, start, end)
  {
    SpreadGrow(kids, lo0, lo1, start, mid, mid);
  }

  lemma LoGrowsTrans(lo0: map<Ref, Ref>, lo1: map<Ref, Ref>, lo2: map<Ref, Ref>, f0: Ref, f1: Ref)
    requires LoGrows(lo0, lo1, f0) && LoGrows(lo1, lo2, f1) && f0 <= f1
    ensures LoGrows(lo0, lo2, f0)
  {
  }

  lemma GrownTrans(s0: State, lo0: map<Ref, Ref>, s1: State, lo1: map<Ref, Ref>, s2: State, lo2: map<Ref, Ref>)
    requires Grown(s0, lo0, s1, lo1) && Grown(s1, lo1, s2, lo2) && s0.nextRef <= s1.nextRef
    ensures Grown(s0, lo0, s2, lo2)
  {
  }

  /** Claims compose: what a first call and a later call claimed is claimed from the start. */
  lemma ClaimedTrans(s0: State, lo0: map<Ref, Ref>, s1: State, lo1: map<Ref, Ref>, s2: State, lo2: map<Ref, Ref>, x: Ref)
    requires Claimed(s0, lo1, x, s1) && Claimed(s1, lo2, x, s2)
    requires Grown(s0, lo0, s1, lo1) && Grown(s1, lo1, s2, lo2)
    requires s0.classMap.Keys <= s1.classMap.Keys && s0.nextRef <= s1.nextRef
    ensures Claimed(s0, lo2, x, s2)
  {
    forall y | y in s2.classMap && y !in s0.classMap
      ensures InTree(lo2, x, y) || s0.nextRef <= y || Covered(s0, lo2, y)
    {
      if y in s1.classMap {
        if Covered(s0, lo1, y) {
          var n :| n in s0.components && s0.components[n] !in s0.classMap && InTree(lo1, s0.components[n], y);
          assert InTree(lo2, s0.components[n], y);
        }
      } else if Covered(s1, lo2, y) {
        var n :| n in s1.components && s1.components[n] !in s1.classMap && InTree(lo2, s1.components[n], y);
        if n in s0.components && s1.components[n] == s0.components[n] {
          assert Covered(s0, lo2, y);
        }
      }
    }
  }

  /** The tree of a component without a class may be collected. */
  lemma RootReady(s: State, lo: map<Ref, Ref>, name: string)
    requires CssInv(s, lo) && name in s.components && s.components[name] !in s.classMap
    ensures Ready(s, lo, s.components[name])
  {
  }

  /** Being apart from the unclassed components survives a step that only adds fresh components and classes. */
  lemma FreeAfter(s0: State, lo0: map<Ref, Ref>, s1: State, lo1: map<Ref, Ref>, x: Ref)
    requires Free(s0, lo0, x) && Grown(s0, lo0, s1, lo1) && x in lo0 && x < s0.nextRef
    requires s0.classMap.Keys <= s1.classMap.Keys
    ensures Free(s1, lo1, x)
  {
  }

  /** After the lookup and the marking of an import's name, the importing element may use the component. */
  lemma ImportReady(s0: State, lo0: map<Ref, Ref>, r: State, lo: map<Ref, Ref>, name: string, p: Ref, s1: State)
    requires Ready(s0, lo0, p) && Stable(s0, lo0, r, lo) && r.classMap == s0.classMap && s1 == Mark(r, name)
    ensures LookedUp(s0, lo0, s1, lo, p) && s1.classMap == s0.classMap
  {
    assert InTree(lo0, p, p);
    FreeAfter(s0, lo0, r, lo, p);
  }

  /** After the lookup of its import, `p` may still use a component: the invariant holds and `p` has no class. */
  ghost predicate LookedUp(s0: State, lo0: map<Ref, Ref>, s1: State, lo: map<Ref, Ref>, p: Ref)
  {
    Importer(s1, lo, p) && Grown(s0, lo0, s1, lo)
  }

  /**
   * What a call of the CSS pass on `p` keeps, from `s0` to `s1`: the invariant,
   * the growth of the layout, and its classes claimed within `p`'s tree,
   * fresh nodes or unclassed components.
   */
  ghost predicate Kept(s0: State, lo0: map<Ref, Ref>, p: Ref, s1: State, lo: map<Ref, Ref>)
  {
    Stable(s0, lo0, s1, lo) && Claimed(s0, lo, p, s1)
  }

  /** What an import claims: what the use of its component claimed, if it was found. */
  lemma ImportClaimed(s0: State, lo0: map<Ref, Ref>, mid: State, lo1: map<Ref, Ref>, s2: State, lo2: map<Ref, Ref>, p: Ref, found: bool)
    requires Grown(s0, lo0, mid, lo1) && mid.classMap == s0.classMap && s0.nextRef <= mid.nextRef
    requires found ==> Grown(mid, lo1, s2, lo2) && Claimed(mid, lo2, p, s2)
    requires !found ==> s2 == mid && lo2 == lo1
    ensures Grown(s0, lo0, s2, lo2) && Claimed(s0, lo2, p, s2)
  {
    if found {
      GrownTrans(s0, lo0, mid, lo1, s2, lo2);
      ClaimedTrans(s0, lo0, mid, lo1, s2, lo2, p);
    }
  }

  /** A CSS step that emits `rule` and keeps the invariant. */
  ghost predicate Recorded(s0: State, s1: State, lo: map<Ref, Ref>, rule: string)
  {
    CssStep(s0, s1, rule) && CssInv(s1, lo)
  }

  /** Recording a class for a ready element, and writing its rule, keeps the invariant. */
  lemma RecordInv(s: State, lo: map<Ref, Ref>, p: Ref, cls: string, rule: string, s1: State)
    requires Ready(s, lo, p)
    requires s1 == s.(classMap := s.classMap[p := cls], out := s.out + rule)
    ensures Recorded(s, s1, lo, rule) && p !in s.classMap
  {
  }

  /** Storing a fetched component under a name not visited is a step of the CSS pass that writes nothing. */
  lemma FetchStep(s0: State, s1: State, name: string, c: Ref)
    requires Extends(s0.nodes, s1.nodes) && MapsExtend(s0.maps, s1.maps) && s0.nextRef <= s1.nextRef
    requires name !in s0.visited && s1.components == s0.components[name := c]
    requires s1 == s0.(nodes := s1.nodes, maps := s1.maps, nextRef := s1.nextRef, components := s1.components)
    ensures CssStep(s0, s1, "")
  {
  }

  /** A fetched component, placed in fresh nodes, keeps the invariant. */
  lemma NewRoot(s0: State, lo0: map<Ref, Ref>, s1: State, lo1: map<Ref, Ref>, name: string, c: Ref)
    requires CssInv(s0, lo0) && Forest(s1.nodes, lo1, s1.nextRef) && LoGrows(lo0, lo1, s0.nextRef)
    requires c in lo1 && s0.nextRef <= lo1[c] && s1.components == s0.components[name := c]
    requires s1.classMap == s0.classMap && s0.nextRef <= s1.nextRef
    ensures CssInv(s1, lo1) && Grown(s0, lo0, s1, lo1)
  {
    forall n | n in s1.components
      ensures s1.components[n] in lo1 && (s1.components[n] in s1.classMap || Untouched(s1.classMap, lo1, s1.components[n]))
    {
      if n != name {
        assert s1.components[n] == s0.components[n];
      }
    }
  }

  /**
   * Taking the class of a component keeps the invariant and the step of the
   * CSS pass, for an element with no class that is apart from the unclassed
   * components.
   */
  lemma AdoptStep(s0: State, lo0: map<Ref, Ref>, s1: State, lo: map<Ref, Ref>, e: string, p: Ref, c: Ref)
    requires CssInv(s0, lo0) && CssInv(s1, lo) && Grown(s0, lo0, s1, lo) && Free(s0, lo0, p)
    requires p in lo0 && p !in s0.classMap && CssStep(s0, s1, e)
    ensures CssInv(Adopt(s1, p, c), lo) && CssStep(s0, Adopt(s1, p, c), e) && Grown(s0, lo0, Adopt(s1, p, c), lo)
  {
    if c in s1.classMap {
      AdoptInv(s0, lo0, s1, lo, p, c);
    }
  }

  /** The class `p` adopts lies in no tree of a component without a class. */
  lemma AdoptInv(s0: State, lo0: map<Ref, Ref>, s1: State, lo: map<Ref, Ref>, p: Ref, c: Ref)
    requires CssInv(s0, lo0) && CssInv(s1, lo) && Grown(s0, lo0, s1, lo) && Free(s0, lo0, p)
    requires p in lo0 && s0.classMap.Keys <= s1.classMap.Keys && s0.nextRef <= s1.nextRef && c in s1.classMap
    ensures CssInv(Adopt(s1, p, c), lo)
  {
    var cm := s1.classMap[p := s1.classMap[c]];
    forall n | n in s1.components && s1.components[n] !in cm
      ensures Untouched(cm, lo, s1.components[n])
    {
      var x := s1.components[n];
      assert Untouched(s1.classMap, lo, x);
      if !(x in lo && s0.nextRef <= lo[x]) {
        assert n in s0.components && x == s0.components[n];
        assert Apart(lo0, p, x);
      }
    }
  }

  lemma EmittedSingle(k: Trace)
    ensures Emitted([k]) == "" + k.emitted
  {
    assert [k][1..] == [];
  }

  /** What using a component claims: the component's tree and the importing element. */
  lemma UseClaimed(s0: State, lo0: map<Ref, Ref>, mid: State, s1: State, lo: map<Ref, Ref>, p: Ref, name: string, c: Ref)
    requires name in s0.components && s0.components[name] == c && c !in s0.classMap
    requires mid.components == s0.components && mid.classMap == s0.classMap && mid.nextRef == s0.nextRef
    requires Claimed(mid, lo, c, s1) && LoGrows(lo0, lo, s0.nextRef) && c in lo0 && p in lo0 && lo0[p] <= p
    ensures Claimed(s0, lo, p, Adopt(s1, p, c))
  {
    forall y | y in Adopt(s1, p, c).classMap && y !in s0.classMap
      ensures InTree(lo, p, y) || s0.nextRef <= y || Covered(s0, lo, y)
    {
      if y != p && InTree(lo, c, y) {
        assert Covered(s0, lo, y);
      }
    }
  }

  /** What collecting an element claims: itself, and what its children claimed below it. */
  lemma ElementClaimed(s0: State, mid: State, s1: State, lo0: map<Ref, Ref>, lo: map<Ref, Ref>, p: Ref, cls: string, elems: seq<Ref>)
    requires mid == s0.(classMap := s0.classMap[p := cls], out := mid.out)
    requires p in lo && lo[p] <= p && Below(mid, lo, p, elems, |elems|, s1) && Grown(mid, lo0, s1, lo)
    ensures Claimed(s0, lo, p, s1) && Grown(s0, lo0, s1, lo)
  {
    forall y | y in s1.classMap && y !in s0.classMap
      ensures InTree(lo, p, y) || s0.nextRef <= y || Covered(s0, lo, y)
    {
      if y != p && Covered(mid, lo, y) {
        var n :| n in mid.components && mid.components[n] !in mid.classMap && InTree(lo, mid.components[n], y);
        assert InTree(lo, s0.components[n], y);
      }
    }
  }

  /** The classes recorded in a child's call below `p`, from the children before it: `lo[p] <= y < lo[elems[i]]`. */
  ghost predicate Below(s0: State, lo: map<Ref, Ref>, p: Ref, elems: seq<Ref>, i: nat, s: State)
    requires p in lo
  {
    forall y | y in s.classMap && y !in s0.classMap ::
      (lo[p] <= y < p && (i < |elems| ==> elems[i] in lo && y < lo[elems[i]])) || s0.nextRef <= y || Covered(s0, lo, y)
  }

  /** The `i`-th child of `p` may be collected once the children before it are. */
  lemma ChildReady(s0: State, lo0: map<Ref, Ref>, s: State, lo: map<Ref, Ref>, p: Ref, elems: seq<Ref>, i: nat)
    requires CssInv(s0, lo0) && CssInv(s, lo) && Grown(s0, lo0, s, lo)
    requires s0.classMap.Keys <= s.classMap.Keys && s0.nextRef <= s.nextRef
    requires p in lo0 && p in s0.classMap && Spread(elems, lo0, lo0[p], p) && i < |elems|
    requires forall y | y in s0.classMap :: !(lo0[p] <= y < p)
    requires Free(s0, lo0, p) && Below(s0, lo, p, elems, i, s)
    ensures Ready(s, lo, elems[i])
  {
    var x := elems[i];
    forall y | y in s.classMap ensures !InTree(lo, x, y) {
      if y !in s0.classMap && Covered(s0, lo, y) {
        var n :| n in s0.components && s0.components[n] !in s0.classMap && InTree(lo, s0.components[n], y);
        assert Apart(lo0, p, s0.components[n]);
      }
    }
    forall n | n in s.components && s.components[n] != x && s.components[n] !in s.classMap
      ensures Apart(lo, x, s.components[n])
    {
      if n in s0.components && s.components[n] == s0.components[n] {
        assert Apart(lo0, p, s0.components[n]);
      }
    }
  }

  /** After the `i`-th child of `p`, the classes recorded lie below the next child. */
  lemma ChildDone(
    s0: State, lo0: map<Ref, Ref>, si: State, loi: map<Ref, Ref>, s: State, lo: map<Ref, Ref>,
    p: Ref, elems: seq<Ref>, i: nat)
    requires CssInv(s0, lo0) && Grown(s0, lo0, si, loi) && Grown(si, loi, s, lo)
    requires s0.classMap.Keys <= si.classMap.Keys && s0.nextRef <= si.nextRef
    requires p in lo0 && Spread(elems, lo0, lo0[p], p) && i < |elems|
    requires Below(s0, loi, p, elems, i, si) && Claimed(si, lo, elems[i], s)
    ensures Below(s0, lo, p, elems, i + 1, s) && Grown(s0, lo0, s, lo)
  {
    GrownTrans(s0, lo0, si, loi, s, lo);
    forall y | y in s.classMap && y !in s0.classMap
      ensures (lo[p] <= y < p && (i + 1 < |elems| ==> elems[i + 1] in lo && y < lo[elems[i + 1]]))
        || s0.nextRef <= y || Covered(s0, lo, y)
    {
      if y in si.classMap {
        if Covered(s0, loi, y) {
          var n :| n in s0.components && s0.components[n] !in s0.classMap && InTree(loi, s0.components[n], y);
          assert InTree(lo, s0.components[n], y);
        }
      } else if Covered(si, lo, y) {
        var n :| n in si.components && si.components[n] !in si.classMap && InTree(lo, si.components[n], y);
        if n in s0.components && si.components[n] == s0.components[n] {
          assert Covered(s0, lo, y);
        }
      }
    }
  }

  /** A body element may be collected while the ones after it are untouched. */
  lemma TopReady(s0: State, lo0: map<Ref, Ref>, s: State, lo: map<Ref, Ref>, refs: seq<Ref>, i: nat)
    requires CssInv(s0, lo0) && CssInv(s, lo) && Grown(s0, lo0, s, lo) && i < |refs| && Apartness(s0, lo0, refs)
    requires Untouched(s.classMap, lo, refs[i])
    ensures Ready(s, lo, refs[i])
  {
    var x := refs[i];
    forall n | n in s.components && s.components[n] != x && s.components[n] !in s.classMap
      ensures Apart(lo, x, s.components[n])
    {
      if n in s0.components && s.components[n] == s0.components[n] {
        assert Apart(lo0, x, s0.components[n]);
      }
    }
  }

  /** After a body element, the ones after it are still untouched. */
  lemma TopDone(s0: State, lo0: map<Ref, Ref>, si: State, loi: map<Ref, Ref>, s: State, lo: map<Ref, Ref>, refs: seq<Ref>, i: nat)
    requires CssInv(s0, lo0) && Grown(s0, lo0, si, loi) && Grown(si, loi, s, lo) && s0.nextRef <= si.nextRef
    requires i < |refs| && Apartness(s0, lo0, refs)
    requires forall j | i <= j < |refs| :: Untouched(si.classMap, loi, refs[j])
    requires Claimed(si, lo, refs[i], s)
    ensures forall j | i < j < |refs| :: Untouched(s.classMap, lo, refs[j])
    ensures Grown(s0, lo0, s, lo)
  {
    GrownTrans(s0, lo0, si, loi, s, lo);
    forall j, y | i < j < |refs| && y in s.classMap ensures !InTree(lo, refs[j], y) {
      assert Apart(lo0, refs[i], refs[j]);
      if y !in si.classMap && Covered(si, lo, y) {
        var n :| n in si.components && si.components[n] !in si.classMap && InTree(lo, si.components[n], y);
        if n in s0.components && si.components[n] == s0.components[n] {
          assert Apart(lo0, refs[j], s0.components[n]);
        }
      }
    }
  }

  /** A step of the HTML pass keeps the layout. */
  lemma LayoutKept(s0: State, s1: State, lo: map<Ref, Ref>, refs: seq<Ref>, e: string)
    requires RenderStep(HeadStart(s0), s1, e) && Layout(s0, lo, refs)
    ensures Layout(s1, lo, refs)
  {
    forall x | x in s0.nodes ensures x in s1.nodes && s1.nodes[x].elements == s0.nodes[x].elements {
      assert s1.nodes[x].Unpid().elements == s0.nodes[x].Unpid().elements;
    }
    ForestGrow(s0.nodes, s1.nodes, lo, s0.nextRef, s1.nextRef);
  }

  class Engine {
    /** The arena: elements and Go maps. */
    var nodes: map<Ref, Node>
    var maps: map<MapId, map<string, string>>
    var nextRef: Ref
    var nextMap: MapId
    /** `classMap`, keyed by element. */
    var classMap: map<Ref, string>
    /** `visited`, keyed by import name. */
    var visited: set<string>
    /** The `components` table, by name. */
    var components: map<string, Ref>
    /** `previewElementMap`; `None` is the nil map, which switches preview off. */
    var preview: Option<map<string, Ref>>
    /** Everything written to the `io.Writer` so far. */
    var out: string
    /** How often the clock has been read; the k-th read returns `clock(k)`. */
    var clockReads: nat
    const clock: nat -> int
    const draw: (int, nat) -> nat
    const routeInternal: string -> Result<Dynamic, string>
    const httpGet: string -> HttpOutcome
    const decode: string -> Result<Element, string>
    /** A finite set holding every import name that can ever be met. */
    ghost const names: set<string>

    /** `GetExternalComponent` with this request's router, HTTP client and decoder. */
    const fetch: string -> Result<Element, string>

    function StyleOf(r: Ref): map<string, string>
      reads this`nodes, this`maps
    {
      if r in nodes then Contents(nodes[r].style, maps) else map[]
    }

    function AttributesOf(r: Ref): map<string, string>
      reads this`nodes, this`maps
    {
      if r in nodes then Contents(nodes[r].attributes, maps) else map[]
    }

    /** Fetched components only carry import names from `names`. */
    ghost predicate OracleOk()
    {
      forall uri :: fetch(uri).Ok? ==> ImportsIn(fetch(uri).value, names)
    }

    ghost predicate Valid()
      reads this`nodes, this`maps, this`nextRef, this`nextMap, this`components, this`classMap, this`preview
    {
      ArenaInv(nodes, maps, nextRef, nextMap, names)
      && TablesInv(nodes, components, classMap, preview)
      && OracleOk()
    }

    /**
     * An engine with an empty arena and an empty component table; `previewing`
     * says whether a (non-nil) preview map is supplied. The oracles may only
     * ever produce import names from the finite set `names`.
     */
    constructor (
      clock: nat -> int, draw: (int, nat) -> nat,
      routeInternal: string -> Result<Dynamic, string>, httpGet: string -> HttpOutcome,
      decode: string -> Result<Element, string>, ghost names: set<string>, previewing: bool)
      requires forall uri :: GetExternalComponent(uri, routeInternal, httpGet, decode).Ok? ==>
        ImportsIn(GetExternalComponent(uri, routeInternal, httpGet, decode).value, names)
      ensures Valid()
      ensures forall uri :: fetch(uri) == GetExternalComponent(uri, routeInternal, httpGet, decode)
      ensures nodes == map[] && maps == map[] && components == map[] && classMap == map[] && visited == {}
      ensures out == "" && preview == (if previewing then Some(map[]) else None)
    {
      this.clock, this.draw := clock, draw;
      this.routeInternal, this.httpGet, this.decode := routeInternal, httpGet, decode;
      this.names := names;
      this.fetch := uri => GetExternalComponent(uri, routeInternal, httpGet, decode);
      nodes, maps, nextRef, nextMap := map[], map[], 0, 0;
      classMap, visited, components := map[], {}, map[];
      preview := if previewing then Some(map[]) else None;
      out, clockReads := "", 0;
    }

    /** `generateRandomClassName(6)`, seeded from the next clock reading. */
    method NewToken() returns (t: string)
      modifies this`clockReads
      ensures Random.IsToken(t, 6)
      ensures clockReads == old(clockReads) + 1
    {
      t := Random.GenerateRandomClassName(6, clock(clockReads), draw);
      clockReads := clockReads + 1;
    }

    /** Allocates a Go map holding `m`, or leaves it nil. */
    method AllocMap(m: Option<map<string, string>>) returns (ptr: MapPtr)
      requires Valid()
      modifies this`maps, this`nextMap
      ensures Valid()
      ensures MapsExtend(old(maps), maps) && PtrIn(ptr, maps)
      ensures Decoded(ptr, maps) == m
      ensures ptr.MapAt? ==> ptr.id !in old(maps)
    {
      if m.None? {
        return NilMap;
      }
      ArenaMaps(nodes, maps, maps[nextMap := m.value], nextRef, nextMap, nextMap + 1, names);
      ptr := MapAt(nextMap);
      maps := maps[nextMap := m.value];
      nextMap := nextMap + 1;
    }

    /**
     * Places a fresh copy of the tree `e` in the arena, as JSON decoding does;
     * the layout `lo` of the trees decoded so far grows to `lo'`, in which
     * the new tree occupies `old(nextRef)..r`.
     */
    method Alloc(e: Element, ghost lo: map<Ref, Ref>) returns (r: Ref, ghost lo': map<Ref, Ref>)
      requires Valid() && ImportsIn(e, names) && Forest(nodes, lo, nextRef)
      modifies this`nodes, this`maps, this`nextRef, this`nextMap
      ensures Valid()
      ensures Extends(old(nodes), nodes) && MapsExtend(old(maps), maps)
      ensures r in nodes && r !in old(nodes) && old(nextRef) <= r < nextRef
      ensures Closed(nodes, maps) && TreeAt(nodes, maps, r) == e
      ensures Forest(nodes, lo', nextRef) && LoGrows(lo, lo', old(nextRef)) && r in lo' && lo'[r] == old(nextRef)
      decreases e, 1
    {
      var kids;
      ghost var lo0;
      kids, lo0 := AllocAll(e.elements, lo);
      ghost var n0 := nodes;
      r := AllocNode(e, kids);
      ForestPlace(n0, lo0, r, nodes[r], old(nextRef));
      lo' := lo0[r := old(nextRef)];
      LoGrowsTrans(lo, lo0, lo', old(nextRef), old(nextRef));
    }

    /** The root of `e`, over its children `kids` already placed: its two maps, then the node. */
    method AllocNode(e: Element, kids: seq<Ref>) returns (r: Ref)
      requires Valid() && ImportsIn(e, names) && Closed(nodes, maps)
      requires |kids| == |e.elements| && forall j | 0 <= j < |kids| :: kids[j] in nodes && TreeAt(nodes, maps, kids[j]) == e.elements[j]
      modifies this`nodes, this`maps, this`nextRef, this`nextMap
      ensures Valid()
      ensures Extends(old(nodes), nodes) && MapsExtend(old(maps), maps)
      ensures r in nodes && r !in old(nodes) && r == old(nextRef) && nextRef == r + 1
      ensures nodes == old(nodes)[r := nodes[r]] && nodes[r].elements == kids
      ensures Closed(nodes, maps) && TreeAt(nodes, maps, r) == e
    {
      var attributes, style := AllocMaps(e, kids);
      r := Place(Node(e.tag, attributes, kids, e.text, style, e.importName, e.isPrivate, e.pid));
      assert TreeAt(nodes, maps, r).elements == e.elements;
    }

    /** The attribute and style maps of `e`, allocated after its children `kids`. */
    method AllocMaps(e: Element, kids: seq<Ref>) returns (attributes: MapPtr, style: MapPtr)
      requires Valid() && Closed(nodes, maps)
      requires |kids| == |e.elements| && forall j | 0 <= j < |kids| :: kids[j] in nodes && TreeAt(nodes, maps, kids[j]) == e.elements[j]
      modifies this`maps, this`nextMap
      ensures Valid() && MapsExtend(old(maps), maps) && Closed(nodes, maps)
      ensures PtrIn(attributes, maps) && PtrIn(style, maps)
      ensures Decoded(attributes, maps) == e.attributes && Decoded(style, maps) == e.style
      ensures |kids| == |e.elements| && forall j | 0 <= j < |kids| :: TreeAt(nodes, maps, kids[j]) == e.elements[j]
    {
      attributes := AllocMap(e.attributes);
      style := AllocMap(e.style);
      forall j | 0 <= j < |kids|
        ensures TreeAt(nodes, maps, kids[j]) == e.elements[j]
      {
        TreeAtFrame(nodes, old(maps), nodes, maps, kids[j]);
      }
    }

    /** Allocates the trees `es`, one after the other. */
    method AllocAll(es: seq<Element>, ghost lo: map<Ref, Ref>) returns (kids: seq<Ref>, ghost lo': map<Ref, Ref>)
      requires Valid() && (forall c | c in es :: ImportsIn(c, names)) && Forest(nodes, lo, nextRef)
      modifies this`nodes, this`maps, this`nextRef, this`nextMap
      ensures Valid()
      ensures Forest(nodes, lo', nextRef) && LoGrows(lo, lo', old(nextRef)) && Spread(kids, lo', old(nextRef), nextRef)
      ensures Extends(old(nodes), nodes) && MapsExtend(old(maps), maps)
      ensures Closed(nodes, maps) && old(nextRef) <= nextRef
      ensures |kids| == |es| && forall j | 0 <= j < |es| :: kids[j] in nodes && kids[j] < nextRef
      ensures forall j | 0 <= j < |es| :: TreeAt(nodes, maps, kids[j]) == es[j]
      decreases es, 0
    {
      kids, lo' := [], lo;
      ArenaClosed(nodes, maps, nextRef, nextMap, names);
      for i := 0 to |es|
        invariant Valid()
        invariant Extends(old(nodes), nodes) && MapsExtend(old(maps), maps)
        invariant old(nextRef) <= nextRef
        invariant |kids| == i
        invariant forall j | 0 <= j < i :: kids[j] in nodes && kids[j] < nextRef
        invariant Closed(nodes, maps)
        invariant forall j | 0 <= j < i :: TreeAt(nodes, maps, kids[j]) == es[j]
        invariant Forest(nodes, lo', nextRef) && LoGrows(lo, lo', old(nextRef)) && Spread(kids, lo', old(nextRef), nextRef)
      {
        assert es[i] in es;
        ghost var n0, m0, lo0, mid := nodes, maps, lo', nextRef;
        var k;
        k, lo' := Alloc(es[i], lo0);
        SpreadAppend(kids, k, lo0, lo', old(nextRef), mid, nextRef);
        LoGrowsTrans(lo, lo0, lo', old(nextRef), mid);
        forall j | 0 <= j < i
          ensures TreeAt(nodes, maps, kids[j]) == es[j]
        {
          TreeAtFrame(n0, m0, nodes, maps, kids[j]);
        }
        kids := kids + [k];
      }
    }

    /** Stores `n` under a fresh reference. */
    method Place(n: Node) returns (r: Ref)
      requires Valid() && n.importName in names
      requires forall c | c in n.elements :: c in nodes
      requires PtrIn(n.attributes, maps) && PtrIn(n.style, maps)
      modifies this`nodes, this`nextRef
      ensures Valid()
      ensures nodes == old(nodes)[r := n] && r !in old(nodes) && r == old(nextRef) && nextRef == r + 1
      ensures Extends(old(nodes), nodes) && Closed(nodes, maps)
      ensures forall c | c in old(nodes) && Closed(old(nodes), maps) :: TreeAt(nodes, maps, c) == TreeAt(old(nodes), maps, c)
      ensures Snap() == old(Snap()).(nodes := old(nodes)[r := n], nextRef := r + 1)
      ensures RenderStep(old(Snap()), Snap(), "")
    {
      PlaceNode(nodes, maps, nextRef, nextMap, names, components, classMap, preview, n);
      r := nextRef;
      nodes := nodes[r := n];
      nextRef := nextRef + 1;
      ArenaClosed(nodes, maps, nextRef, nextMap, names);
      forall c | c in old(nodes) && Closed(old(nodes), maps)
        ensures TreeAt(nodes, maps, c) == TreeAt(old(nodes), maps, c)
      {
        TreeAtFrame(old(nodes), maps, nodes, maps, c);
      }
      PlaceStep(old(Snap()), r, n, Snap());
    }

    /** Registers `e` in the component table under `name`. */
    method AddComponent(name: string, e: Element, ghost lo: map<Ref, Ref>) returns (r: Ref, ghost lo': map<Ref, Ref>)
      requires Valid() && ImportsIn(e, names) && Forest(nodes, lo, nextRef)
      modifies this`nodes, this`maps, this`nextRef, this`nextMap, this`components
      ensures Valid()
      ensures Forest(nodes, lo', nextRef) && LoGrows(lo, lo', old(nextRef)) && r in lo' && lo'[r] == old(nextRef)
      ensures Extends(old(nodes), nodes) && MapsExtend(old(maps), maps)
      ensures components == old(components)[name := r] && old(nextRef) <= nextRef
      ensures r !in old(nodes) && r in nodes && Closed(nodes, maps) && TreeAt(nodes, maps, r) == e
    {
      r, lo' := Alloc(e, lo);
      components := components[name := r];
    }

    /** The part of the engine's state the two passes change. */
    function Snap(): State
      reads this`nodes, this`maps, this`nextRef, this`classMap, this`visited, this`components, this`preview, this`out
    {
      State(nodes, maps, nextRef, classMap, visited, components, preview, out)
    }

    /**
     * CollectCSS (render.go:34-95): an element that imports nothing is handled
     * by CollectElement; an import whose name was already visited in this pass
     * is skipped without any effect; any other import by CollectImport.
     */
    method CollectCSS(p: Ref, ghost lo: map<Ref, Ref>) returns (ghost t: Trace, ghost lo': map<Ref, Ref>)
      requires Valid() && p in nodes && Ready(Snap(), lo, p)
      modifies this`nodes, this`maps, this`nextRef, this`nextMap, this`classMap, this`visited,
        this`components, this`out, this`clockReads
      ensures Valid() && CssStep(old(Snap()), Snap(), t.emitted)
      ensures Collected(t, fetch) && t.ref == p && t.pre == old(Snap()) && t.post == Snap()
      ensures Plain(t) ==> KeptClass(t, Snap())
      ensures Kept(old(Snap()), lo, p, Snap(), lo')
      decreases |names - visited|, p, 2
    {
      var name := nodes[p].importName;
      if name == "" {
        var cls;
        cls, t, lo' := CollectElement(p, lo);
      } else if name in visited {
        t, lo' := Trace(p, Snap(), Snap(), Snap(), "", [], []), lo;
      } else {
        t, lo' := CollectImport(p, lo);
      }
    }

    /**
     * The import branch of CollectCSS (render.go:44-79), for a name not yet
     * visited: the name is resolved (Resolve) and marked for the rest of the
     * pass; a component found is used by UseComponent.
     */
    method CollectImport(p: Ref, ghost lo: map<Ref, Ref>) returns (ghost t: Trace, ghost lo': map<Ref, Ref>)
      requires Valid() && p in nodes && nodes[p].importName != "" && nodes[p].importName !in visited
      requires Ready(Snap(), lo, p)
      modifies this`nodes, this`maps, this`nextRef, this`nextMap, this`classMap, this`visited,
        this`components, this`out, this`clockReads
      ensures Valid() && CssStep(old(Snap()), Snap(), t.emitted)
      ensures Collected(t, fetch) && t.ref == p && t.pre == old(Snap()) && t.post == Snap()
      ensures Kept(old(Snap()), lo, p, Snap(), lo')
      decreases |names - visited|, p, 1
    {
      var found, c;
      ghost var emitted, r, lo1;
      found, c, emitted, r, lo1 := LookUp(p, lo);
      ghost var mid := Snap();
      ghost var ks: seq<Trace> := [];
      lo' := lo1;
      if found {
        ks, lo' := UseComponent(p, c, lo1);
        CssStepTrans(old(Snap()), mid, Snap(), emitted + "", Emitted(ks));
      }
      ImportClaimed(old(Snap()), lo, mid, lo1, Snap(), lo', p, found);
      assert emitted + "" == emitted && Emitted([]) == "";
      t := Trace(p, old(Snap()), mid, Snap(), emitted + Emitted(ks), [], ks);
      ImportCollected(t, fetch, r, found, c);
    }

    /**
     * Lines 44-61 of render.go: the import name of `p` is resolved (Resolve,
     * reaching `r`) and marked as visited for the rest of the pass.
     */
    method LookUp(p: Ref, ghost lo: map<Ref, Ref>) returns (found: bool, c: Ref, ghost emitted: string, ghost r: State, ghost lo': map<Ref, Ref>)
      requires Valid() && p in nodes && nodes[p].importName != "" && nodes[p].importName !in visited
      requires Ready(Snap(), lo, p)
      modifies this`nodes, this`maps, this`nextRef, this`nextMap, this`visited, this`components, this`out
      ensures Valid() && CssStep(old(Snap()), Snap(), emitted) && p in nodes && nodes[p].importName == old(nodes[p].importName)
      ensures var name := old(nodes[p].importName);
        Resolved(old(Snap()), name, fetch, r) && Snap() == Mark(r, name)
        && found == Found(old(Snap()), name, fetch) && emitted == ResolveText(name, fetch)
        && (found ==> name in components && components[name] == c && c in nodes)
        && |names - visited| < |names - old(visited)|
      ensures LookedUp(old(Snap()), lo, Snap(), lo', p)
    {
      var name := nodes[p].importName;
      assert NodeOk(nodes, maps, nextRef, names, p);
      // Resolve neither reads nor writes `visited`, so marking the name after
      // it, rather than before as the source does, comes to the same thing.
      found, c, emitted, lo' := Resolve(name, lo);
      r := Snap();
      MeasureShrinks(names, visited, name);
      MarkName(name);
      ImportReady(old(Snap()), lo, r, lo', name, p, Snap());
      CssStepTrans(old(Snap()), r, Snap(), emitted, "");
      assert emitted + "" == emitted;
    }

    /**
     * Lines 61-78 of render.go for a resolved component `c`: a component with
     * no class yet receives `p`'s style on top of its own (PrepareComponent)
     * and has its CSS collected (`ks`, one call); then `p` shares the
     * component's class, if it has one.
     */
    method UseComponent(p: Ref, c: Ref, ghost lo: map<Ref, Ref>) returns (ghost ks: seq<Trace>, ghost lo': map<Ref, Ref>)
      requires Valid() && p in nodes && c in nodes && nodes[p].importName != ""
      requires nodes[p].importName in components && components[nodes[p].importName] == c
      requires Importer(Snap(), lo, p)
      modifies this`nodes, this`maps, this`nextRef, this`nextMap, this`classMap, this`visited,
        this`components, this`out, this`clockReads
      ensures Valid() && CssStep(old(Snap()), Snap(), Emitted(ks))
      ensures c in old(classMap) ==> ks == []
      ensures c !in old(classMap) ==>
        |ks| == 1 && ks[0].ref == c && Overlaid(old(Snap()), p, c, ks[0].pre) && Collected(ks[0], fetch)
      ensures Snap() == Adopt(Last(ks, old(Snap())), p, c)
      ensures Kept(old(Snap()), lo, p, Snap(), lo')
      decreases |names - visited|, c, 4
    {
      ks, lo' := [], lo;
      if c !in classMap {
        ghost var k;
        k, lo' := CollectComponent(p, c, lo);
        ks := [k];
        EmittedSingle(k);
      }
      ghost var s1 := Snap();
      AdoptStep(old(Snap()), lo, s1, lo', Emitted(ks), p, c);
      AdoptClass(p, c);
    }

    /**
     * Lines 63-71 of render.go for a component `c` with no class yet: it
     * receives `p`'s style on top of its own (PrepareComponent), then its CSS
     * is collected (`k`).
     */
    method CollectComponent(p: Ref, c: Ref, ghost lo: map<Ref, Ref>) returns (ghost k: Trace, ghost lo': map<Ref, Ref>)
      requires Valid() && p in nodes && c in nodes && nodes[p].importName != ""
      requires nodes[p].importName in components && components[nodes[p].importName] == c
      requires CssInv(Snap(), lo) && p in lo && p !in classMap && c !in classMap
      modifies this`nodes, this`maps, this`nextRef, this`nextMap, this`classMap, this`visited,
        this`components, this`out, this`clockReads
      ensures Valid() && CssStep(old(Snap()), Snap(), "" + k.emitted)
      ensures k.ref == c && Overlaid(old(Snap()), p, c, k.pre) && Collected(k, fetch) && k.post == Snap()
      ensures Stable(old(Snap()), lo, Snap(), lo') && Claimed(old(Snap()), lo', p, Adopt(Snap(), p, c))
      decreases |names - visited|, c, 3
    {
      ghost var name := nodes[p].importName;
      PrepareComponent(p, c);
      ghost var mid := Snap();
      OverlaidStep(old(Snap()), p, c, mid, lo);
      RootReady(mid, lo, name);
      k, lo' := CollectCSS(c, lo);
      CssStepTrans(old(Snap()), mid, Snap(), "", k.emitted);
      UseClaimed(old(Snap()), lo, mid, Snap(), lo', p, name, c);
    }

    /** `classMap[p] = className` for the class of `c`, when it has one (render.go:74-77). */
    method AdoptClass(p: Ref, c: Ref)
      requires Valid() && p in nodes
      modifies this`classMap
      ensures Valid() && Snap() == Adopt(old(Snap()), p, c)
    {
      if c in classMap {
        RecordClass(nodes, components, classMap, preview, p, classMap[c]);
        classMap := classMap[p := classMap[c]];
      }
    }

    /**
     * The lookup of an import name (render.go:49-61): a name containing `/` is
     * fetched; a failure writes `/* Error: ... */` and resolves nothing, a
     * success is stored in `components`, replacing any earlier entry. Then the
     * name is looked up in `components`.
     */
    method Resolve(name: string, ghost lo: map<Ref, Ref>) returns (found: bool, c: Ref, ghost emitted: string, ghost lo': map<Ref, Ref>)
      requires Valid() && name !in visited && CssInv(Snap(), lo)
      modifies this`nodes, this`maps, this`nextRef, this`nextMap, this`components, this`out
      ensures Stable(old(Snap()), lo, Snap(), lo')
      ensures Valid() && CssStep(old(Snap()), Snap(), emitted)
      ensures Resolved(old(Snap()), name, fetch, Snap())
      ensures found == Found(old(Snap()), name, fetch) && emitted == ResolveText(name, fetch)
      ensures found ==> name in components && components[name] == c && c in nodes
      ensures forall r | r in old(nodes) :: StyleOf(r) == old(StyleOf(r))
    {
      if Contains(name, "/") {
        found, c, emitted, lo' := Fetch(name, lo);
      } else {
        found := name in components;
        c := if found then components[name] else 0;
        emitted, lo' := "", lo;
      }
    }

    /**
     * The fetch of an import name containing `/` (render.go:49-58): a failure
     * writes `/* Error: ... */` and resolves nothing; a success is stored in
     * `components`, replacing any earlier entry.
     */
    method Fetch(name: string, ghost lo: map<Ref, Ref>) returns (found: bool, c: Ref, ghost emitted: string, ghost lo': map<Ref, Ref>)
      requires Valid() && name !in visited && CssInv(Snap(), lo) && Contains(name, "/")
      modifies this`nodes, this`maps, this`nextRef, this`nextMap, this`components, this`out
      ensures Stable(old(Snap()), lo, Snap(), lo')
      ensures Valid() && CssStep(old(Snap()), Snap(), emitted)
      ensures Resolved(old(Snap()), name, fetch, Snap())
      ensures found == Found(old(Snap()), name, fetch) && emitted == ResolveText(name, fetch)
      ensures found ==> name in components && components[name] == c && c in nodes
      ensures forall r | r in old(nodes) :: StyleOf(r) == old(StyleOf(r))
    {
      match fetch(name)
      case Err(msg) =>
        out := out + "/* Error: " + msg + " */";
        emitted := "/* Error: " + msg + " */";
        found, c, lo' := false, 0, lo;
      case Ok(e) =>
        ghost var n0, m0, r0 := nodes, maps, nextRef;
        c, lo' := AddComponent(name, e, lo);
        forall r | r in n0 ensures StyleOf(r) == old(StyleOf(r)) {
          assert NodeOk(n0, m0, r0, names, r);
        }
        NewRoot(old(Snap()), lo, Snap(), lo', name, c);
        FetchStep(old(Snap()), Snap(), name, c);
        found, emitted := true, "";
    }

    /**
     * The style hand-over of render.go:65-70: the component gets a style map if
     * it had none, and the importing element's style is written into it.
     */
    method PrepareComponent(p: Ref, c: Ref)
      requires Valid() && p in nodes && c in nodes
      modifies this`nodes, this`maps, this`nextMap
      ensures Valid() && Overlaid(old(Snap()), p, c, Snap())
      ensures StyleOf(c) == old(StyleOf(c)) + old(StyleOf(p))
    {
      var local := StyleOf(p);
      var dst := nodes[c].style;
      var merged := CopyInto(StyleOf(c), local);
      if dst.NilMap? {
        // `make(map[string]string)`, then the copy loop into it
        dst := MapAt(nextMap);
        ArenaMaps(nodes, maps, maps[nextMap := merged], nextRef, nextMap, nextMap + 1, names);
        Restyle(nodes, maps[nextMap := merged], nextRef, nextMap + 1, names, components, classMap, preview, c, dst);
        maps, nextMap := maps[nextMap := merged], nextMap + 1;
        nodes := nodes[c := nodes[c].(style := dst)];
      } else {
        assert NodeOk(nodes, maps, nextRef, names, c);
        ArenaMaps(nodes, maps, maps[dst.id := merged], nextRef, nextMap, nextMap, names);
        maps := maps[dst.id := merged];
      }
    }

    /**
     * The ordinary-element half of CollectCSS (render.go:82-94): a fresh class
     * `cls` and the rule for `p`'s style (RecordRule), then the children in
     * order.
     */
    method CollectElement(p: Ref, ghost lo: map<Ref, Ref>) returns (cls: string, ghost t: Trace, ghost lo': map<Ref, Ref>)
      requires Valid() && p in nodes && nodes[p].importName == ""
      requires Ready(Snap(), lo, p)
      modifies this`nodes, this`maps, this`nextRef, this`nextMap, this`classMap, this`visited,
        this`components, this`out, this`clockReads
      ensures Valid() && CssStep(old(Snap()), Snap(), t.emitted)
      ensures Collected(t, fetch) && t.ref == p && t.pre == old(Snap()) && t.post == Snap()
      ensures p in t.mid.classMap && t.mid.classMap[p] == cls && p in classMap && classMap[p] == cls
      ensures Kept(old(Snap()), lo, p, Snap(), lo')
      decreases |names - visited|, p, 1
    {
      assert NodeOk(nodes, maps, nextRef, names, p);
      var rule;
      ghost var order;
      cls, rule, order := RecordRule(p, lo);
      ghost var mid := Snap();
      ghost var kids;
      kids, lo' := CollectChildren(p, Kids(nodes, p), lo);
      CssStepTrans(old(Snap()), mid, Snap(), rule, Emitted(kids));
      ElementClaimed(old(Snap()), mid, Snap(), lo, lo', p, cls, mid.nodes[p].elements);
      t := Trace(p, old(Snap()), mid, Snap(), rule + Emitted(kids), order, kids);
      PlainCollected(t, fetch, cls, rule);
    }

    /**
     * The start of the ordinary-element half of CollectCSS (render.go:82-89):
     * the class `Type_xxxxxx`, with a fresh token, is recorded for `p` and the
     * rule for `p`'s style is written (nothing for an empty style).
     */
    method RecordRule(p: Ref, ghost lo: map<Ref, Ref>) returns (cls: string, rule: string, ghost order: seq<string>)
      requires Valid() && p in nodes && Ready(Snap(), lo, p)
      modifies this`classMap, this`out, this`clockReads
      ensures Valid() && ClassFor(nodes[p].tag, cls) && IsOrder(order, StyleOf(p).Keys)
      ensures rule == CssRule(cls, StyleOf(p), order)
      ensures Snap() == old(Snap()).(classMap := old(classMap)[p := cls], out := old(out) + rule)
      ensures Recorded(old(Snap()), Snap(), lo, rule)
    {
      var token := NewToken();
      cls := nodes[p].tag + "_" + token;
      ClassForMake(nodes[p].tag, token);
      RecordClass(nodes, components, classMap, preview, p, cls);
      classMap := classMap[p := cls];
      var style := StyleOf(p);
      rule, order := "", [];
      if |style| > 0 {
        rule, order := GenerateCSS(cls, style);
      } else {
        assert style.Keys == {};
      }
      out := out + rule;
      RecordInv(old(Snap()), lo, p, cls, rule, Snap());
    }

    /** The loop over the children in CollectCSS (render.go:92-94). */
    method CollectChildren(p: Ref, elems: seq<Ref>, ghost lo: map<Ref, Ref>) returns (ghost ts: seq<Trace>, ghost lo': map<Ref, Ref>)
      requires Valid() && forall c | c in elems :: c in nodes && c < p
      requires CssInv(Snap(), lo) && p in lo && p in classMap && Spread(elems, lo, lo[p], p)
      requires (forall y | y in classMap :: !(lo[p] <= y < p)) && Free(Snap(), lo, p)
      modifies this`nodes, this`maps, this`nextRef, this`nextMap, this`classMap, this`visited,
        this`components, this`out, this`clockReads
      ensures Valid() && CssRun(ts, elems, old(Snap()), Snap(), fetch)
      ensures Stable(old(Snap()), lo, Snap(), lo')
      ensures p in lo' && Below(old(Snap()), lo', p, elems, |elems|, Snap())
      decreases |names - visited|, p, 0
    {
      ts, lo' := [], lo;
      for i := 0 to |elems|
        invariant Valid() && CssRun(ts, elems[..i], old(Snap()), Snap(), fetch)
        invariant Stable(old(Snap()), lo, Snap(), lo')
        invariant p in lo' && Below(old(Snap()), lo', p, elems, i, Snap())
      {
        assert elems[i] in elems;
        SubsetCard(names - visited, names - old(visited));
        ghost var mid, lo1 := Snap(), lo';
        ChildReady(old(Snap()), lo, mid, lo1, p, elems, i);
        ghost var t;
        t, lo' := CollectCSS(elems[i], lo1);
        ChildDone(old(Snap()), lo, mid, lo1, Snap(), lo', p, elems, i);
        CssRunExtend(ts, elems, old(Snap()), t, i, fetch);
        ts := ts + [t];
      }
      assert elems[..|elems|] == elems;
    }

    /**
     * Writes `merged` through `ptr`: into the map it points at, or into a new
     * map when it is nil, as Go's `make` followed by the writes does.
     */
    method StoreMap(ptr: MapPtr, merged: map<string, string>) returns (r: MapPtr)
      requires Valid() && PtrIn(ptr, maps)
      modifies this`maps, this`nextMap
      ensures Valid() && r.MapAt? && r.id in maps && maps[r.id] == merged && Contents(r, maps) == merged
      ensures ptr.MapAt? ==> r == ptr && maps == old(maps)[ptr.id := merged]
      ensures ptr.NilMap? ==> r.id !in old(maps) && maps == old(maps)[r.id := merged]
      ensures Snap() == old(Snap()).(maps := old(maps)[r.id := merged])
      ensures RenderStep(old(Snap()), Snap(), "")
    {
      r := ptr;
      if ptr.NilMap? {
        r := MapAt(nextMap);
        ArenaMaps(nodes, maps, maps[nextMap := merged], nextRef, nextMap, nextMap + 1, names);
        maps, nextMap := maps[nextMap := merged], nextMap + 1;
      } else {
        ArenaMaps(nodes, maps, maps[ptr.id := merged], nextRef, nextMap, nextMap, names);
        maps := maps[ptr.id := merged];
      }
    }

    /**
     * The clone of render.go:185-203 for the import `p` of component `c`: a
     * shallow copy of `c` in a fresh node. Its attributes map is `c`'s own map
     * when `c` has one (so the writes below land in `c`'s map too), else a new
     * one; `p`'s attributes are copied in, then `p`'s class, when it has one,
     * under `class`. A non-empty text of `p` replaces the copy's text.
     */
    method CloneFor(p: Ref, c: Ref) returns (q: Ref)
      requires Valid() && p in nodes && c in nodes
      modifies this`nodes, this`maps, this`nextRef, this`nextMap
      ensures Valid() && RenderStep(old(Snap()), Snap(), "")
      ensures Cloned(old(Snap()), p, c, q, Snap())
    {
      var n := nodes[c];
      assert NodeOk(nodes, maps, nextRef, names, c);
      var merged := CopyInto(AttributesOf(c), AttributesOf(p));
      // `clonedComponent.Attributes["class"] = className`
      merged := merged + if p in classMap then map["class" := classMap[p]] else map[];
      var ptr := StoreMap(n.attributes, merged);
      var text := if nodes[p].text != "" then nodes[p].text else n.text;
      ghost var s1 := Snap();
      q := Place(n.(attributes := ptr, text := text));
      QuietThen(old(Snap()), s1, Snap(), "");
      ClonedIntro(old(Snap()), p, c, q, s1, Snap(), ptr, merged);
    }

    /**
     * Render (render.go:170-292). An import whose name is already being
     * rendered writes nothing. An import of a known component renders a clone
     * of it (RenderImport). Any other element, including an import of an
     * unknown name, which stays marked as visited, is written as a tag (RenderTag).
     */
    method Render(p: Ref) returns (ghost t: Trace)
      requires Valid() && p in nodes
      modifies this`nodes, this`maps, this`nextRef, this`nextMap, this`visited, this`components,
        this`preview, this`out, this`clockReads
      ensures Valid() && RenderStep(old(Snap()), Snap(), t.emitted)
      ensures Rendered(t) && t.ref == p && t.pre == old(Snap()) && t.post == Snap()
      ensures var name := old(nodes[p].importName);
        name != "" && name in old(visited) ==> t.emitted == "" && unchanged(this)
      decreases |names - visited|, p, 3
    {
      var name := nodes[p].importName;
      if name != "" && name in visited {
        return Trace(p, Snap(), Snap(), Snap(), "", [], []);
      }
      if name != "" && name in components {
        t := RenderImport(p);
        return;
      }
      t := RenderTag(p);
    }

    /**
     * The import branch of Render (render.go:181-218) for a known component:
     * the name is marked while the clone is rendered and unmarked afterwards,
     * so that the component may be used again elsewhere on the page; a
     * private import then removes the component from the table.
     */
    method RenderImport(p: Ref) returns (ghost t: Trace)
      requires Valid() && p in nodes
      requires nodes[p].importName != "" && nodes[p].importName !in visited && nodes[p].importName in components
      modifies this`nodes, this`maps, this`nextRef, this`nextMap, this`visited, this`components,
        this`preview, this`out, this`clockReads
      ensures Valid() && RenderStep(old(Snap()), Snap(), t.emitted)
      ensures Rendered(t) && t.ref == p && t.pre == old(Snap()) && t.post == Snap()
      decreases |names - visited|, p, 1
    {
      var name := nodes[p].importName;
      var private := nodes[p].isPrivate;
      assert NodeOk(nodes, maps, nextRef, names, p);
      MeasureShrinks(names, visited, name);
      visited := visited + {name};
      ghost var s1 := Snap();
      assert s1 == Mark(old(Snap()), name);
      var q := CloneFor(p, components[name]);
      ghost var s2 := Snap();
      var k := Render(q);
      QuietThen(s1, s2, Snap(), k.emitted);
      ghost var s3 := Snap();
      ReleaseStep(old(Snap()), s3, k.emitted, name, private);
      ReleaseName(name, private);
      t := Trace(p, old(Snap()), s2, Snap(), k.emitted, [], [k]);
      ImportRendered(t, k, name);
    }

    /** `delete(visited, name)`, and for a private import `delete(components, name)` (render.go:206-215). */
    method ReleaseName(name: string, private: bool)
      requires Valid()
      modifies this`visited, this`components
      ensures Valid() && Snap() == Release(old(Snap()), name, private)
    {
      visited := visited - {name};
      if private {
        DropComponent(nodes, components, classMap, preview, name);
        components := components - {name};
      }
    }

    /**
     * The pid handling of render.go:228-245. In preview mode an element
     * without a pid gets one: its class if it has one, else a fresh 6-letter
     * token; the pid is recorded in the preview map and kept on the element,
     * and ` pid="..."` is what is to be written. Otherwise nothing changes and
     * nothing is to be written.
     */
    method AssignPid(p: Ref) returns (pidText: string)
      requires Valid() && p in nodes
      modifies this`nodes, this`preview, this`clockReads
      ensures Valid() && RenderStep(old(Snap()), Snap(), "")
      ensures PidGiven(old(Snap()), p, Snap()) && pidText == PidText(old(Snap()), p, Snap())
      ensures Snap() == old(Snap()).(nodes := nodes, preview := preview)
    {
      pidText := "";
      if preview.Some? && nodes[p].pid == "" {
        var pid;
        if p in classMap {
          pid := classMap[p];
        } else {
          pid := NewToken();
        }
        pidText := PidAttr(pid);
        Repid(nodes, maps, nextRef, nextMap, names, components, classMap, preview.value, p, pid);
        preview := Some(preview.value[pid := p]);
        nodes := nodes[p := nodes[p].(pid := pid)];
      }
    }

    /** Marks `name` as being rendered; the empty name of a plain tag marks nothing. */
    method MarkName(name: string)
      requires Valid()
      modifies this`visited
      ensures Valid() && Snap() == Mark(old(Snap()), name)
      ensures RenderStep(old(Snap()), Snap(), "") && CssStep(old(Snap()), Snap(), "")
    {
      if name != "" {
        visited := visited + {name};
      }
    }

    /** A write to the page builder: a step of the render pass that writes `text`. */
    method Write(text: string)
      modifies this`out
      ensures Snap() == old(Snap()).(out := old(out) + text) && RenderStep(old(Snap()), Snap(), text)
    {
      out := out + text;
    }

    /**
     * The opening tag of the tag branch of Render (render.go:222-270): `<` and
     * the tag name, the pid (AssignPid), the attributes other than `class` in
     * map order and the merged class attribute. Nothing is written yet.
     */
    method OpenTag(p: Ref) returns (open: string, ghost order: seq<string>)
      requires Valid() && p in nodes
      modifies this`nodes, this`preview, this`clockReads
      ensures Valid() && RenderStep(old(Snap()), Snap(), "")
      ensures PidGiven(old(Snap()), p, Snap()) && Snap() == old(Snap()).(nodes := nodes, preview := preview)
      ensures p in nodes && nodes[p].tag == old(nodes[p].tag) && nodes[p].text == old(nodes[p].text)
        && nodes[p].elements == old(nodes[p].elements)
      ensures IsOrder(order, old(AttributesOf(p)).Keys)
      ensures open == "<" + old(nodes[p].tag) + Inner(old(Snap()), p, Snap(), order)
    {
      var n := nodes[p];
      var attrs := AttributesOf(p);
      var className := if p in classMap then classMap[p] else "";
      var pidText := AssignPid(p);
      var text, custom;
      text, custom, order := EmitAttributes(attrs);
      open := "<" + n.tag + (pidText + text + ClassAttr(p in classMap, className, custom));
    }

    /**
     * The tag branch of Render (render.go:220-291): the name of an unknown
     * import is marked, then the opening tag (OpenTag) is written; a
     * self-closing tag ends there, any other tag goes on with its text, its
     * children and the closing tag (RenderContainer).
     */
    method RenderTag(p: Ref) returns (ghost t: Trace)
      requires Valid() && p in nodes
      requires nodes[p].importName != "" ==> nodes[p].importName !in visited && nodes[p].importName !in components
      modifies this`nodes, this`maps, this`nextRef, this`nextMap, this`visited, this`components,
        this`preview, this`out, this`clockReads
      ensures Valid() && RenderStep(old(Snap()), Snap(), t.emitted)
      ensures Rendered(t) && t.ref == p && t.pre == old(Snap()) && t.post == Snap()
      decreases |names - visited|, p, 2
    {
      var n := nodes[p];
      assert NodeOk(nodes, maps, nextRef, names, p);
      if n.importName != "" {
        MeasureShrinks(names, visited, n.importName);
      }
      MarkName(n.importName);
      ghost var s0 := Snap();
      var open;
      ghost var order;
      open, order := OpenTag(p);
      ghost var s1 := Snap();
      QuietThen(old(Snap()), s0, s1, "");
      var suffix := if n.tag in SelfClosingTags then " />" else ">" + n.text;
      Write(open + suffix);
      ghost var mid := Snap();
      QuietThen(old(Snap()), s1, mid, open + suffix);
      OpenedIntro(s0, p, s1, order, open, mid);
      if n.tag in SelfClosingTags {
        t := Trace(p, old(Snap()), mid, mid, open + suffix, order, []);
      } else {
        var kids := RenderContainer(p);
        RenderStepTrans(old(Snap()), mid, Snap(), open + suffix, Emitted(kids) + ("</" + n.tag + ">"));
        t := Trace(p, old(Snap()), mid, Snap(), open + suffix + (Emitted(kids) + ("</" + n.tag + ">")), order, kids);
      }
      TagRendered(t, open);
    }

    /**
     * The rest of a tag that is not self-closing (render.go:285-290): the
     * children in order and the closing tag.
     */
    method RenderContainer(p: Ref) returns (ghost kids: seq<Trace>)
      requires Valid() && p in nodes && forall c | c in nodes[p].elements :: c in nodes && c < p
      modifies this`nodes, this`maps, this`nextRef, this`nextMap, this`visited, this`components,
        this`preview, this`out, this`clockReads
      ensures Valid() && RenderStep(old(Snap()), Snap(), Emitted(kids) + ("</" + old(nodes[p].tag) + ">"))
      ensures Chain(kids, old(nodes[p].elements), old(Snap())) && (forall i | 0 <= i < |kids| :: Rendered(kids[i]))
      ensures Snap() == Closing(Last(kids, old(Snap())), old(nodes[p].tag))
      decreases |names - visited|, p, 1
    {
      var tag := nodes[p].tag;
      kids := RenderChildren(p, nodes[p].elements);
      ghost var s1 := Snap();
      Write("</" + tag + ">");
      RenderStepTrans(old(Snap()), s1, Snap(), Emitted(kids), "</" + tag + ">");
    }

    /** The loop over the children in Render (render.go:286-288). */
    method RenderChildren(p: Ref, elems: seq<Ref>) returns (ghost ts: seq<Trace>)
      requires Valid() && forall c | c in elems :: c in nodes && c < p
      modifies this`nodes, this`maps, this`nextRef, this`nextMap, this`visited, this`components,
        this`preview, this`out, this`clockReads
      ensures Valid() && RenderRun(ts, elems, old(Snap()), Snap())
      decreases |names - visited|, p, 0
    {
      ts := [];
      for i := 0 to |elems|
        invariant Valid() && RenderRun(ts, elems[..i], old(Snap()), Snap())
      {
        assert elems[i] in elems;
        SubsetCard(names - visited, names - old(visited));
        ghost var t := Render(elems[i]);
        RenderRunExtend(ts, elems, old(Snap()), t, i);
        ts := ts + [t];
      }
      assert elems[..|elems|] == elems;
    }

    /** The loop over a section's top-level elements in the HTML pass (render.go:303-305, 320-322). */
    method RenderAll(refs: seq<Ref>) returns (ghost ts: seq<Trace>)
      requires Valid() && forall r | r in refs :: r in nodes
      modifies this`nodes, this`maps, this`nextRef, this`nextMap, this`visited, this`components,
        this`preview, this`out, this`clockReads
      ensures Valid() && RenderRun(ts, refs, old(Snap()), Snap())
      ensures forall i | 0 <= i < |ts| :: ts[i].pre.classMap == old(classMap)
    {
      ts := [];
      for i := 0 to |refs|
        invariant Valid() && RenderRun(ts, refs[..i], old(Snap()), Snap())
        invariant forall j | 0 <= j < |ts| :: ts[j].pre.classMap == old(classMap)
      {
        assert refs[i] in refs;
        ghost var t := Render(refs[i]);
        RenderRunExtend(ts, refs, old(Snap()), t, i);
        ts := ts + [t];
      }
      assert refs[..|refs|] == refs;
    }

    /** The loop over the body's top-level elements in the CSS pass (render.go:313-315). */
    method CollectAll(refs: seq<Ref>, ghost lo: map<Ref, Ref>) returns (ghost ts: seq<Trace>, ghost lo': map<Ref, Ref>)
      requires Valid() && forall r | r in refs :: r in nodes
      requires CssInv(Snap(), lo) && Apartness(Snap(), lo, refs)
      requires forall j | 0 <= j < |refs| :: Untouched(classMap, lo, refs[j])
      modifies this`nodes, this`maps, this`nextRef, this`nextMap, this`classMap, this`visited,
        this`components, this`out, this`clockReads
      ensures Valid() && CssRun(ts, refs, old(Snap()), Snap(), fetch)
      ensures forall i | 0 <= i < |ts| && Plain(ts[i]) :: KeptClass(ts[i], Snap())
    {
      ts, lo' := [], lo;
      for i := 0 to |refs|
        invariant Valid() && CssRun(ts, refs[..i], old(Snap()), Snap(), fetch)
        invariant forall j | 0 <= j < |ts| && Plain(ts[j]) :: KeptClass(ts[j], Snap())
        invariant Stable(old(Snap()), lo, Snap(), lo')
        invariant forall j | i <= j < |refs| :: Untouched(classMap, lo', refs[j])
      {
        assert refs[i] in refs;
        ghost var mid, lo1 := Snap(), lo';
        TopReady(old(Snap()), lo, mid, lo1, refs, i);
        ghost var t;
        t, lo' := CollectCSS(refs[i], lo1);
        TopDone(old(Snap()), lo, mid, lo1, Snap(), lo', refs, i);
        KeptClassStep(ts, t, mid, Snap());
        CssRunExtend(ts, refs, old(Snap()), t, i, fetch);
        ts := ts + [t];
      }
      assert refs[..|refs|] == refs;
    }

    /** The head phase of RenderPage (render.go:300-306): the prologue and the head elements, rendered with no classes. */
    method RenderHead(page: Page, ghost lo: map<Ref, Ref>) returns (ghost head: seq<Trace>)
      requires Valid()
      requires forall r | r in page.head :: ImportFree(nodes, r)
      requires forall r | r in page.body :: r in nodes
      modifies this`nodes, this`maps, this`nextRef, this`nextMap, this`classMap, this`visited,
        this`components, this`preview, this`out, this`clockReads
      ensures Valid()
      ensures out == old(out) + "<!DOCTYPE html><html><head>" + Emitted(head)
      ensures Chain(head, page.head, HeadStart(old(Snap()))) && Snap() == Last(head, HeadStart(old(Snap())))
      ensures forall i | 0 <= i < |head| :: Rendered(head[i])
      ensures forall r | r in page.body :: r in nodes && nodes[r].importName == old(nodes[r].importName)
      ensures Layout(old(Snap()), lo, page.body) ==> Layout(Snap(), lo, page.body)
    {
      out := out + "<!DOCTYPE html><html><head>";
      classMap, visited := map[], {};
      assert Snap() == HeadStart(old(Snap()));
      head := RenderAll(page.head);
      if Layout(old(Snap()), lo, page.body) {
        LayoutKept(old(Snap()), Snap(), lo, page.body, Emitted(head));
      }
    }

    /** The style phase of RenderPage: the CSS of the body, collected into a fresh class map. */
    method RenderStyles(refs: seq<Ref>, ghost lo: map<Ref, Ref>) returns (ghost css: seq<Trace>)
      requires Valid() && (forall r | r in refs :: r in nodes) && Layout(Snap(), lo, refs)
      modifies this`nodes, this`maps, this`nextRef, this`nextMap, this`classMap, this`visited,
        this`components, this`out, this`clockReads
      ensures Valid()
      ensures out == old(out) + "<style>" + Emitted(css)
      ensures Chain(css, refs, StyleStart(old(Snap()))) && Snap() == Last(css, StyleStart(old(Snap())))
      ensures forall i | 0 <= i < |css| :: Collected(css[i], fetch)
      ensures forall i | 0 <= i < |css| && Plain(css[i]) :: KeptClass(css[i], Snap())
      ensures forall r | r in refs :: r in nodes
    {
      out := out + "<style>";
      classMap, visited := map[], {};
      LayoutStart(Snap(), lo, refs);
      ghost var lo';
      css, lo' := CollectAll(refs, lo);
    }

    /** The body phase of RenderPage (render.go:316-324): the body, rendered with the collected classes and a fresh visited set. */
    method RenderBody(refs: seq<Ref>) returns (ghost body: seq<Trace>)
      requires Valid() && forall r | r in refs :: r in nodes
      modifies this`nodes, this`maps, this`nextRef, this`nextMap, this`visited,
        this`components, this`preview, this`out, this`clockReads
      ensures Valid()
      ensures out == old(out) + "</style></head><body>" + Emitted(body) + "</body></html>"
      ensures Chain(body, refs, BodyStart(old(Snap()))) && Snap() == Epilogue(Last(body, BodyStart(old(Snap()))))
      ensures forall i | 0 <= i < |body| :: Rendered(body[i]) && body[i].pre.classMap == old(classMap)
      ensures classMap == old(classMap)
    {
      out := out + "</style></head><body>";
      visited := {};
      body := RenderAll(refs);
      out := out + "</body></html>";
    }

    /**
     * RenderPage (render.go:295-335): the document prologue, the head elements
     * (rendered with no classes and no visited set), the CSS of the body
     * collected into a fresh class map, then the body rendered with those
     * classes and a fresh visited set, and the epilogue. No error is ever returned.
     * A head element may not import anything: the source hands the head a nil
     * visited map, and marking an import in it would panic.
     */
    method RenderPage(page: Page, ghost lo: map<Ref, Ref>) returns (err: Option<string>, ghost head: seq<Trace>, ghost css: seq<Trace>, ghost body: seq<Trace>)
      requires Valid()
      requires forall r | r in page.head :: ImportFree(nodes, r)
      requires forall r | r in page.body :: r in nodes
      requires Layout(Snap(), lo, page.body)
      modifies this`nodes, this`maps, this`nextRef, this`nextMap, this`classMap, this`visited,
        this`components, this`preview, this`out, this`clockReads
      ensures Valid()
      ensures err == None
      ensures out == old(out) + Document(Emitted(head), Emitted(css), Emitted(body))
      ensures Chain(head, page.head, HeadStart(old(Snap()))) && forall i | 0 <= i < |head| :: Rendered(head[i])
      ensures var s1 := Last(head, HeadStart(old(Snap())));
        Chain(css, page.body, StyleStart(s1)) && forall i | 0 <= i < |css| :: Collected(css[i], fetch)
      ensures var s2 := Last(css, StyleStart(Last(head, HeadStart(old(Snap())))));
        Chain(body, page.body, BodyStart(s2)) && (forall i | 0 <= i < |body| :: Rendered(body[i]))
        && Snap() == Epilogue(Last(body, BodyStart(s2)))
      ensures forall i | 0 <= i < |css| && Plain(css[i]) ::
        css[i].ref in body[i].pre.classMap && body[i].pre.classMap[css[i].ref] == css[i].mid.classMap[css[i].ref]
    {
      head := RenderHead(page, lo);
      css := RenderStyles(page.body, lo);
      body := RenderBody(page.body);
      DocumentParts(old(out), Emitted(head), Emitted(css), Emitted(body));
      err := None;
    }
  }
}
