# Page rendering for dreamfriday, modelled in Dafny

This project models the page-rendering core of the dreamfriday site builder.
It also models three smaller parts next to it.

- `engine.dfy` (module `PageEngine`) models the streaming page engine of
  `pageengine/render.go`.
  - A page is a tree of `PageElement`s. The CSS pass (`CollectCSS`) gives each
    element a class `Type_xxxxxx` and streams its CSS rule.
  - The HTML pass (`Render`) writes the tags. It merges the generated class
    with the author's class and expands component imports by rendering a
    shallow clone. In preview mode it assigns each element a `pid` and records
    it in the preview map.
  - `RenderPage` fixes the order of the document: head, styles, body.
  - Go pointers and Go maps are modelled as an arena held by one `Engine`
    object. `nodes` maps a reference to an element, and `maps` maps an id to
    the contents of one Go map. An element holds map pointers, so a
    shallow-copied element shares its attributes map with the original,
    exactly as the Go struct copy does.
  - The class map, the visited set, the component table, the preview map and
    the output are fields of the `Engine` that the methods update in place.
  - The HTTP and internal-route side of fetching a component is a pure
    function of three oracles.
  - Each call of `CollectCSS` or `Render` returns a ghost `Trace`: the
    element, the states before, during and after the call, what it wrote,
    the map order it used and the traces of the calls it made. The
    predicates `Collected` and `Rendered` state, branch by branch, what the
    Go function does on that element. Every method of the two passes
    ensures that its trace satisfies them, and every loop ensures that its
    traces are chained in order and that their outputs concatenate to what
    was written.
  - The CSS pass carries a ghost layout `lo`. Decoding a JSON tree allocates
    the children of an element before the element, so each tree occupies a
    range of references. The layout records those ranges, and the invariant
    `CssInv` says that the trees of distinct components are apart and that a
    component without a class has no class anywhere in its tree. This is
    what shows that a class, once recorded, is never overwritten in the
    pass: render.go:63 skips a component that already has a class, and
    every other write goes to an element that has none.
- `page_text.dfy` (module `PageText`) holds the text pieces the engine
  writes: CSS rules, attribute lists, the `class` attribute and the
  self-closing tags.
- `random.dfy` (module `Random`) holds `generateRandomClassName`. The random
  generator is injected.
- `legacy.dfy` (module `LegacyRender`) models the older renderer of
  `pagerender.go`.
  - `extractStyles` sorts a JSON style object into plain properties and media
    queries.
  - `GenerateCSS` builds rules, including the media-query form.
  - `CreateComponent` builds a `GenericComponent`.
  - `GenericComponent.Render` and `RenderPageContent` write to an `io.Writer`
    whose writes may fail.
- `domain.dfy` (module `Domain`) models the mapping between site names and
  host names under `dreamfriday.com` in `utils/domain.go`.
- `users.dfy` (module `Users`) models the user records of `models/user.go`
  over the `Users` bucket, a map from address to `User{Address, Sites}`.
- `common.dfy` (module `Common`) holds shared sequence, string and map helpers.

Go's map iteration order is unspecified, and the model never fixes it.
- The loops of the page engine pick the next key with `:|` and return the
  order they used as a ghost `order`. The contracts hold for every such order.
- In `LegacyRender` the order is an oracle `ord` that gives, for each key
  set, some ordering of that set.

The wall clock that seeds the random generator is an injected function, and
so are the generator's draws. The only promise about a generated name is its
length and its alphabet.

## Behaviour worth noting

The model keeps each of these behaviours of the code.

- The cycle guard of both passes is keyed by the import name alone, not by
  the importing instance and the name.
  - In the CSS pass a name is never released, so each import name is
    expanded at most once per pass.
  - In the HTML pass the name is released after the clone is rendered.
- The CSS pass does not clone the component. It writes the importer's style
  into the shared component's own style map, and only the first time the
  component is processed (render.go:63-70). An importer under another name
  that resolves to an already-processed component takes its class
  (render.go:74-77); a repeated import of the same name is skipped in the CSS
  pass (render.go:41-42) and gets no class.
- A component that cannot be resolved is not fatal in the HTML pass. The
  import element falls through and is written as an ordinary tag
  (render.go:184, 222).
- `RenderPage` never returns an error (render.go:334).
- The clone's `class` reaches the output through its attributes map, as an
  author class. The clone is a new element without a class-map entry, so in
  the generated-class branch it never has a class.
- An element whose `pid` is already set keeps that pid, but the pid is then
  not written into the tag at all (render.go:228-245).
- `pageengine/models.go` declares no `Pid` field, although render.go reads
  and writes `p.Pid`. The model gives the element a `pid` field.

## Model

| member | source | states |
|---|---|---|
| Random.GenerateRandomClassName | pageengine/render.go:23-31 | the result has exactly `n` characters, each an ASCII letter, whatever the generator yields |
| PageText.CssRule | pageengine/render.go:98-107 | the rule for a class is empty exactly when the style map is empty |
| PageText.GenerateCSS | pageengine/render.go:98-107 | streams exactly `.class {` + one ` k: v;` per entry in the visiting order + ` }`, or nothing for an empty map; the visiting order is a permutation of the keys |
| PageText.CssDeclarationsPermute | pageengine/render.go:103-105 | any two visiting orders write the same multiset of declarations, and every entry's declaration is written |
| PageText.EmitAttributes | pageengine/render.go:247-255 | the attribute text is each attribute except `class`, as ` key="value"`, in the visiting order; the custom class is the value under `class`, or empty when absent |
| PageText.AttributesPermute | pageengine/render.go:249-255 | whatever the order, every attribute except `class` is written, and the written pieces are the same multiset |
| PageText.ClassAttrIsJoin | pageengine/render.go:257-270 | the `class` attribute is the generated class and the custom class joined by one space, and is omitted when neither is present |
| PageText.TagMarkup | pageengine/render.go:226-291 | an element's markup starts with `<Type` and its attributes; a self-closing type ends right there with ` />`; any other type ends with `</Type>` |
| PageText.ClassForMake | pageengine/render.go:83 | `Type + "_" + token`, for a 6-letter token, is a well-formed class for that type |
| PageEngine.GetExternalComponent | pageengine/render.go:109-167 | a success is the internal route's element (only for a `/` path) or the decoding of the HTTP body; a `/` path the route answers with an element gives exactly that element; a non-element answer from the route is the error `invalid response type from internal route`; a decoded body succeeds when the route did not answer |
| PageEngine.CopyInto | pageengine/render.go:193-195 | copying `src` into `dst` key by key gives `dst + src` whatever the order: the source's value wins on a shared key |
| PageEngine.PidKept | pageengine/render.go:228-245 | a pid once set survives every later render step unchanged |
| PageEngine.OverlaidStep | pageengine/render.go:63-71 | handing the importer's style to a component writes nothing, keeps every class and every tree's shape, and keeps the CSS pass's invariant |
| PageEngine.NewRoot | pageengine/render.go:49-57 | a fetched component, decoded into fresh nodes and stored under its name, keeps the CSS pass's invariant: its tree is apart from every other component and holds no class |
| PageEngine.AdoptInv | pageengine/render.go:74-77 | the importer taking the class of a component whose CSS has been collected keeps the invariant: no component without a class has a class anywhere in its tree |
| PageEngine.LayoutKept | pageengine/render.go:301-306 | rendering the head leaves the body's trees apart from each other and from every component |
| PageEngine.CssRunExtend | pageengine/render.go:92-94 | faithful CSS-pass calls on the first `i` elements, followed by a faithful call on the next one, are faithful calls on the first `i + 1`, in order, and wrote the concatenation of their outputs |
| PageEngine.RenderRunExtend | pageengine/render.go:285-288 | faithful Render calls on the first `i` elements, followed by a faithful call on the next one, are faithful calls on the first `i + 1`, in order, and wrote the concatenation of their outputs |
| PageEngine.Engine.NewToken | pageengine/render.go:83 | `generateRandomClassName(6)` gives a 6-letter token, from one more reading of the clock |
| PageEngine.Engine.Alloc | pageengine/render.go:159-166 | decoding a tree places a fresh copy of it: the tree read back from the new root is the decoded element, no earlier node or map changes, and the new nodes occupy a fresh range of references, children before their parent |
| PageEngine.Engine.AddComponent | pageengine/render.go:56 | the decoded tree is stored under the name, replacing any earlier entry; no other entry changes |
| PageEngine.Engine.CollectCSS | pageengine/render.go:34-95 | the call is a faithful CollectCSS (`Collected`): an element that imports nothing records a class `Type_` + 6 letters, writes the rule for its style, then its children's CSS in order; a visited import writes nothing and changes nothing; any other import is resolved, marked and used; the element keeps its class to the end of the call; classes already recorded keep their value |
| PageEngine.Engine.CollectImport | pageengine/render.go:40-80 | the import branch of `Collected`: the name is marked visited for the rest of the pass; a failed fetch writes exactly `/* Error: ... */` and uses nothing; a component found without a class receives the importer's style and has its CSS collected; then the importer takes the component's class |
| PageEngine.Engine.LookUp | pageengine/render.go:44-61 | the name is resolved (`Resolved`) and then marked visited; the component found, if any, is the one stored under the name |
| PageEngine.Engine.Resolve | pageengine/render.go:49-61 | a name with `/` is fetched: on failure it writes the error comment and changes no table; on success the fetched tree is stored under the name, replacing any earlier entry; other names are looked up, with no effect; no style changes |
| PageEngine.Engine.Fetch | pageengine/render.go:49-58 | on a failed fetch exactly `/* Error: msg */` is written and nothing else changes; on success the decoded tree is stored under the name and nothing is written |
| PageEngine.Engine.UseComponent | pageengine/render.go:61-78 | a component with a class writes nothing and gives its class to the importer; a component without one first has its style overlaid by the importer's (`Overlaid`), then its CSS is collected from that state, so its rule is written with the overlaid style; the importer ends with the component's class, if any |
| PageEngine.Engine.CollectComponent | pageengine/render.go:63-71 | the component's CSS is collected from the state where the importer's style has been written into the component's style map |
| PageEngine.Engine.AdoptClass | pageengine/render.go:74-77 | the importer gets the component's class when the component has one; otherwise nothing changes |
| PageEngine.Engine.PrepareComponent | pageengine/render.go:65-70 | the component's style becomes its old style overlaid by the importer's style, the importer winning on shared keys; a nil style map is replaced by a fresh one |
| PageEngine.Engine.CollectElement | pageengine/render.go:82-94 | the element's class is `cls` from the moment it is recorded to the end of the call; what is written is its rule, then each child's faithful CSS-pass output, in order |
| PageEngine.Engine.RecordRule | pageengine/render.go:82-89 | the class is `Type_` + 6 letters and is recorded for the element; exactly the rule for that class and the element's style is written (nothing for an empty style); nothing else changes |
| PageEngine.Engine.CollectChildren | pageengine/render.go:92-94 | one faithful CSS-pass call per child, on the children in order, each starting where the previous one ended; the output is their outputs concatenated |
| PageEngine.Engine.CollectAll | pageengine/render.go:313-315 | one faithful CSS-pass call per body element, in order, chained, writing their outputs concatenated; every element that imports nothing still has, at the end, the class it recorded |
| PageEngine.Engine.StoreMap | pageengine/render.go:187-195 | a nil attributes map is replaced by a fresh map; otherwise the writes land in the existing (shared) map; either way it holds the merged attributes |
| PageEngine.Engine.CloneFor | pageengine/render.go:185-203 | the clone is the component with the merged attributes (component's, importer's, importer's class) and the importer's text when non-empty; when the component has an attributes map, the clone shares it, so the component's attributes change too |
| PageEngine.Engine.Render | pageengine/render.go:170-292 | the call is a faithful Render (`Rendered`): an import already being rendered writes nothing and changes nothing; a known import marks its name, renders the clone (`Cloned`) and then releases the name, dropping a private component; any other element marks an unknown import's name and writes `<Type`, the pid, the attributes, the class attribute, then ` />` or `>`, the text, each child's output in order and `</Type>` |
| PageEngine.Engine.RenderImport | pageengine/render.go:181-218 | the import branch of `Rendered`: the output is exactly the clone's rendering; the name is unmarked afterwards, and a private import leaves the component out of the table |
| PageEngine.Engine.ReleaseName | pageengine/render.go:208-216 | the name is unmarked, and for a private import the component is removed from the table |
| PageEngine.Engine.AssignPid | pageengine/render.go:228-245 | in preview mode an element without a pid gets its class or else a fresh 6-letter token as pid, recorded in the preview map under that pid, and ` pid="..."` is to be written; otherwise nothing changes and nothing is written |
| PageEngine.Engine.OpenTag | pageengine/render.go:222-270 | the opening tag is `<Type`, the pid text, the attributes except `class` in visiting order, then the merged class attribute |
| PageEngine.Engine.RenderTag | pageengine/render.go:222-291 | the tag branch of `Rendered`: the output is the element's markup, `TagMarkup` of its tag, attribute text, text and the concatenated outputs of faithful Render calls on its children in order; a self-closing type has no text and no children |
| PageEngine.Engine.RenderContainer | pageengine/render.go:277-291 | after the opening tag and the text: one faithful Render call per child, in order, chained, then `</Type>` |
| PageEngine.Engine.RenderChildren | pageengine/render.go:285-288 | one faithful Render call per child, in order, each starting where the previous one ended; the output is their outputs concatenated |
| PageEngine.Engine.RenderAll | pageengine/render.go:320-322 | one faithful Render call per top-level element, in order, chained, writing their outputs concatenated; every call sees the classes the section started with |
| PageEngine.Engine.RenderHead | pageengine/render.go:301-306 | writes the prologue, then one faithful Render call per head element, in order, from a state with no classes and nothing visited |
| PageEngine.Engine.RenderStyles | pageengine/render.go:309-315 | writes `<style>`, then one faithful CSS-pass call per body element, in order, from a fresh class map and nothing visited; each body element that imports nothing keeps its recorded class to the end |
| PageEngine.Engine.RenderBody | pageengine/render.go:316-324 | writes `</style></head><body>`, one faithful Render call per body element, in order, with a fresh visited set and the classes of the CSS pass, then `</body></html>` |
| PageEngine.Engine.RenderPage | pageengine/render.go:295-335 | the output is the document `<!DOCTYPE html><html><head>` head `<style>` css `</style></head><body>` body `</body></html>`, each part the concatenated outputs of the chained faithful calls on the head and body elements; a body element that imports nothing is rendered with the class its CSS rule was written for; no error is returned |
| LegacyRender.GenerateCSS | pagerender.go:36-52 | empty exactly for an empty map; without a media query it is the same rule the page engine writes; with both media type and target it is that rule wrapped in `@media only screen and (type: target) { ... }` |
| LegacyRender.ExtractStyles | pagerender.go:97-133 | every plain property is a string entry of the style object, and every string entry is a plain property; media queries come only from an object under `media` |
| LegacyRender.ExtractLoopIsExtractStyles | pagerender.go:101-129 | the loop over the style object's entries, in any visiting order, gives exactly the sorting `ExtractStyles` describes |
| LegacyRender.ExtractLoopOrderFree | pagerender.go:102-128 | the loop over any order of any subset of the keys gives the sorting of the entries under those keys |
| LegacyRender.StylingEmpty | pagerender.go:146-152 | a component's CSS is empty exactly when it has no plain property and no media target with a property |
| LegacyRender.ComponentOf | pagerender.go:135-163 | known types give a component with the element's type, text and the given children; `class` is `componentType_` + token; `id` is present exactly when non-empty; the styling is the rule plus the media rules; any other type is the error `unknown component type: ...` |
| LegacyRender.CreateComponent | pagerender.go:135-163 | the result is `ComponentOf` for a freshly drawn 6-letter token; the token is drawn before the type is checked, so the clock is read exactly once (`ticks` goes up by one) whether or not the type is known |
| LegacyRender.MarkupShape | pagerender.go:54-85 | a component's markup starts with `<Type ` (a space even with no attributes) and ends with `</Type>` |
| LegacyRender.MarkupNoAttributes | pagerender.go:55-68 | with no attribute, the markup starts with `<Type >` directly followed by the text |
| LegacyRender.AttributeList | pagerender.go:55-58 | the list holds one `key="value"` per attribute, in the visiting order |
| LegacyRender.WriteHead | pagerender.go:60-72 | writes the opening tag, then the text when it is not empty; on success exactly those; a failure means they did not fit, and leaves a start of them written |
| LegacyRender.Render | pagerender.go:54-85 | succeeds exactly when the whole markup fits the writer; then exactly the markup is written; on the first failed write it stops, and what was written is a start of the markup |
| LegacyRender.RenderChildren | pagerender.go:75-80 | the children are rendered in order; it fails exactly when their markup does not fit, and stops at the first failure |
| LegacyRender.RenderElement | pagerender.go:169-198 | children first, then the component built from the element, then its markup; on success the component's CSS and writes are exactly those of its children followed by its own; for a known type with known children, a failure means the writes of the component it was building (children's writes, then its markup) did not fit the writer |
| LegacyRender.RenderPageContent | pagerender.go:165-203 | on success the components are the ones CreateComponent builds for the elements (children included), the CSS is each component's children's CSS then its own, the writes are exactly each component's children's writes then its markup, and every type is a known one; on error there are no components and no CSS; what was written always extends the old output; when every type is known, a failure means the writes of some components built from the elements did not fit the writer, so a page whose types are all known and whose writes fit succeeds |
| LegacyRender.BuiltKnown | pagerender.go:157-162 | components built without error imply that every element type, at every depth, is a known one |
| Domain.GetSubdomain | utils/domain.go:8-27 | the base domain for the development host, for the base domain and for any host not ending in `.dreamfriday.com`; any other result is the host with exactly one `.dreamfriday.com` removed and contains no `..`; never empty |
| Domain.SiteDomain | utils/domain.go:29-37 | `""` and the base domain map to the base domain; any other site maps to the site followed by `.dreamfriday.com`, from which removing that suffix gives the site back |
| Domain.SiteRoundTrip | utils/domain.go:8-37 | a site that is not empty, not the base domain and free of `..` is recovered from its host |
| Domain.HostRoundTrip | utils/domain.go:8-37 | a host that maps to a site other than the base domain is exactly that site's host |
| Users.UserStore.Save | models/user.go:10-12 | the record is stored under its own address and no other record changes; fails without a change while the database is not open |
| Users.UserStore.GetUser | models/user.go:15-24 | succeeds exactly when the database is open and holds the address, with that record; failures are `user not found: ...` |
| Users.UserStore.DeleteUser | models/user.go:27-29 | removes the address, so a later GetUser on it fails; removing a missing address is not an error |
| Users.UserStore.AddSiteToUser | models/user.go:32-53 | the records and the error are those `AddSite` gives; records keyed by their own address and without duplicate sites stay so |
| Users.AddSite | models/user.go:32-53 | a user that cannot be read is created with exactly the one site; a site already present is an error with no change; otherwise the site is appended and the record saved under its own address |
| Users.AddSiteKeepsRecords | models/user.go:41-52 | adding a site never creates a duplicate, leaves every other user's record as it was, and leaves the site in the user's record |
| Users.AddSiteAppends | models/user.go:47-48 | the old sites stay first, in order, and the new site comes last |

## Left out

- The HTTP request, the header copying and the JSON decoding of
  `GetExternalComponent` (render.go:124-163) are oracles: `httpGet` stands for
  the exchange and `decode` for `json.Unmarshal`. The internal router is an
  oracle too. The engine applies them through `fetch`.
- PageEngine.Engine.constructor: requires that every component the oracles
  can produce carries import names from one finite set `names`. The passes
  terminate because of this bound. Go has no such bound. An internal route
  that answers `/a` with an element importing `/a/a`, and `/a/a` with one
  importing `/a/a/a`, and so on, passes the visited check (render.go:41) each
  time, so the CSS pass recurses without end. The model does not cover such
  oracles.
- PageEngine.Engine.RenderPage: requires the body's trees and the
  components' trees to be laid out apart (`Layout`), as separately decoded
  JSON trees are. A caller that registers an element of the page's body as
  a component is not covered.
- Head elements that import something: the head is rendered with a nil
  visited map (render.go:305), and marking an import in it panics in Go. The
  model instead requires head elements to import nothing (`ImportFree`).
- The logging (`fmt.Println`, `log.Println`) and the debug dump of the
  preview map (render.go:326-332) are left out. They write to the process
  log, not to the page.
- `generateRandomClassName` seeds the generator from the wall clock.
  - The clock and the generator's draws are injected functions.
  - The engine counts its clock readings in `clockReads`.
  - Nothing is assumed about the values drawn.
- Go's map iteration order is not fixed: each loop chooses its order.
  - The legacy renderer uses one oracle `ord`, which gives one order per key
    set for the whole call. Go may visit the same map in different orders on
    different visits.
  - The model's results hold for every order, but say nothing about orders
    that differ between visits of one map.
- `io.Writer` in the engine is a string that is only appended to. `fmt.Fprint`
  errors are ignored in the source, so nothing is lost.
- `io.Writer` in the legacy renderer is a `Writer` with a capacity. A write
  that does not fit fails and writes nothing. Real writers may also fail for
  other reasons, or after a partial write.
- LegacyRender.RenderPageContent: on error the contract states that what was
  written extends the old output and that the full writes did not fit, not
  which write failed.
- LegacyRender.ExtractStyles: the style object must have an object under
  every key of `media` (`MediaWellFormed`). The source's unchecked type
  assertion at pagerender.go:114 panics otherwise.
- `RenderJSONContent` (pagerender.go:205-279) is request plumbing on top of
  `RenderPageContent`, and is not part of this model.
- `database.Put`, `Get` and `Delete` (database/bolt.go:66-114) are modelled
  as updates of the `users` map, failing while the database is not open.
  bbolt key limits, JSON encoding errors and the exact wording of
  `fmt.Errorf` texts (`%q` quoting) are not modelled.
- Users.UserStore.GetUser: the contract states the error prefix
  `user not found: `, not the full text of the underlying error.
- Domain.GetSubdomain: a result equal to the base domain is not also stated
  to contain no `..`. This holds for the constant, but is not part of the
  contract.
- The elements' type `models.PageElement` of the legacy renderer is not part
  of the shown files. It is modelled as `{Type, Text, Elements, Attributes{ID,
  Style}}`, with the style as a JSON value.
- Concurrency: the component table may be shared between requests by the
  caller, but the model renders one page at a time.
