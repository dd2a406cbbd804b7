/** The client's manifest loading helpers (`packages/core/src/registry/app-loader.ts`):
    the app id taken from a manifest's module path, the translation of a JSON manifest
    into a runtime manifest (icons resolved, routes given lazily loaded components), the
    loader table handed to the registry, and batch registration by priority. */
module AppLoading {
  import opened Wrappers
  import opened AppTypes
  import opened Strings
  import opened Seqs
  import opened Sorting
  import opened Registry

  // ---------------------------------------------------------------- icons

  /** `resolveIcon`: nothing for an absent or empty name or without a resolver;
      otherwise what the resolver renders. */
  function ResolveIcon(resolver: Option<IconResolver>, name: Option<string>): (r: Option<Icon>)
    ensures !Truthy(name) || resolver.None? ==> r.None?
    ensures Truthy(name) && resolver.Some? ==> r == resolver.value(name.value)
  {
    if !Truthy(name) then None
    else if resolver.Some? then resolver.value(name.value)
    else None
  }

  /** The module-level slot `setIconResolver` writes. */
  class IconSlot {
    var resolver: Option<IconResolver>

    constructor ()
      ensures resolver.None?
    {
      resolver := None;
    }

    method SetIconResolver(f: IconResolver)
      modifies this
      ensures resolver == Some(f)
    {
      resolver := Some(f);
    }

    /** `resolveIcon` against the resolver currently set. */
    method Resolve(name: Option<string>) returns (r: Option<Icon>)
      ensures r == ResolveIcon(resolver, name)
    {
      r := ResolveIcon(resolver, name);
    }
  }

  // ---------------------------------------------------------------- menus

  /** `transformMenus`: every item keeps its fields, its icon is resolved, and its
      children, when present, are transformed in turn. */
  function TransformMenus(res: Option<IconResolver>, ms: seq<MenuConfig>): (r: seq<MenuItem>)
    ensures |r| == |ms|
    ensures forall i :: 0 <= i < |ms| ==> r[i] == TransformMenu(res, ms[i])
    decreases ms
  {
    if ms == [] then []
    else
      var rest := TransformMenus(res, ms[1..]);
      assert forall i :: 1 <= i < |ms| ==> rest[i - 1] == TransformMenu(res, ms[i]) by {
        forall i | 1 <= i < |ms| ensures rest[i - 1] == TransformMenu(res, ms[i]) {
          assert ms[1..][i - 1] == ms[i];
        }
      }
      [TransformMenu(res, ms[0])] + rest
  }

  function TransformMenu(res: Option<IconResolver>, m: MenuConfig): MenuItem
    decreases m
  {
    MenuItem(m.id, m.caption, ResolveIcon(res, m.icon), m.path,
      match m.children
      case NoMenuConfigs => NoSubMenus
      case MenuConfigs(ch) => SubMenus(TransformMenus(res, ch)),
      m.order, m.hidden, m.badge, m.permissions, m.external, m.target)
  }

  /** `t` is what `transformMenus` makes of `c`: every field of `...menu` copied, the
      icon resolved, and the children, when present, transformed item by item in turn. */
  predicate Transformed(res: Option<IconResolver>, c: MenuConfig, t: MenuItem)
    decreases c
  {
    t.id == c.id && t.caption == c.caption && t.icon == ResolveIcon(res, c.icon) && t.path == c.path
    && t.order == c.order && t.hidden == c.hidden && t.badge == c.badge && t.permissions == c.permissions
    && t.external == c.external && t.target == c.target
    && match c.children
       case NoMenuConfigs => t.children == NoSubMenus
       case MenuConfigs(ch) =>
         t.children.SubMenus? && |t.children.items| == |ch|
         && forall i :: 0 <= i < |ch| ==> Transformed(res, ch[i], t.children.items[i])
  }

  /** Every transformed item, at every depth, has its icon resolved and every other
      field copied from its configuration. */
  lemma {:induction false} TransformMenusTransformed(res: Option<IconResolver>, ms: seq<MenuConfig>)
    ensures forall i :: 0 <= i < |ms| ==> Transformed(res, ms[i], TransformMenus(res, ms)[i])
    decreases ms
  {
    forall i | 0 <= i < |ms|
      ensures Transformed(res, ms[i], TransformMenus(res, ms)[i])
    {
      TransformMenuTransformed(res, ms[i]);
    }
  }

  lemma {:induction false} TransformMenuTransformed(res: Option<IconResolver>, m: MenuConfig)
    ensures Transformed(res, m, TransformMenu(res, m))
    decreases m
  {
    match m.children {
      case NoMenuConfigs =>
      case MenuConfigs(ch) => TransformMenusTransformed(res, ch);
    }
  }

  /** The skeleton of a menu tree: ids, paths and order at every level, and which
      items have a children list. */
  datatype Shape = Shape(id: string, path: string, order: Option<int>, kids: Option<seq<Shape>>)

  function ItemsShape(ms: seq<MenuItem>): seq<Shape>
    decreases ms
  {
    if ms == [] then [] else [ItemShape(ms[0])] + ItemsShape(ms[1..])
  }

  function ItemShape(m: MenuItem): Shape
    decreases m
  {
    Shape(m.id, m.path, m.order, match m.children case NoSubMenus => None case SubMenus(ch) => Some(ItemsShape(ch)))
  }

  function ConfigsShape(ms: seq<MenuConfig>): seq<Shape>
    decreases ms
  {
    if ms == [] then [] else [ConfigShape(ms[0])] + ConfigsShape(ms[1..])
  }

  function ConfigShape(m: MenuConfig): Shape
    decreases m
  {
    Shape(m.id, m.path, m.order, match m.children case NoMenuConfigs => None case MenuConfigs(ch) => Some(ConfigsShape(ch)))
  }

  /** The transformation keeps the tree: the same ids, paths and order at every level,
      and a children list exactly where the configuration has one. */
  lemma {:induction false} TransformMenusShape(res: Option<IconResolver>, ms: seq<MenuConfig>)
    ensures ItemsShape(TransformMenus(res, ms)) == ConfigsShape(ms)
    decreases ms
  {
    if ms != [] {
      TransformMenuShape(res, ms[0]);
      TransformMenusShape(res, ms[1..]);
    }
  }

  lemma {:induction false} TransformMenuShape(res: Option<IconResolver>, m: MenuConfig)
    ensures ItemShape(TransformMenu(res, m)) == ConfigShape(m)
    decreases m
  {
    match m.children {
      case NoMenuConfigs =>
      case MenuConfigs(ch) => TransformMenusShape(res, ch);
    }
  }

  /** The menu ids the registry validates are the configuration's, in the same walk. */
  function ConfigIds(ms: seq<MenuConfig>): seq<string>
    decreases ms
  {
    if ms == [] then []
    else [ms[0].id] + (match ms[0].children case NoMenuConfigs => [] case MenuConfigs(ch) => ConfigIds(ch)) + ConfigIds(ms[1..])
  }

  lemma {:induction false} TransformMenusIds(res: Option<IconResolver>, ms: seq<MenuConfig>)
    ensures MenuIds(TransformMenus(res, ms)) == ConfigIds(ms)
    decreases ms
  {
    if ms != [] {
      var t := TransformMenus(res, ms);
      assert t[0] == TransformMenu(res, ms[0]) && t[1..] == TransformMenus(res, ms[1..]);
      TransformMenusIds(res, ms[1..]);
      match ms[0].children {
        case NoMenuConfigs =>
        case MenuConfigs(ch) => TransformMenusIds(res, ch);
      }
    }
  }

  // ---------------------------------------------------------------- lazy components

  /** The position of the first key containing `needle`. */
  function FirstContaining(keys: seq<string>, needle: string): (r: Option<nat>)
    ensures r.Some? ==> r.value < |keys| && Contains(keys[r.value], needle)
                        && forall j :: 0 <= j < r.value ==> !Contains(keys[j], needle)
    ensures r.None? ==> forall j :: 0 <= j < |keys| ==> !Contains(keys[j], needle)
  {
    if keys == [] then None
    else if Contains(keys[0], needle) then Some(0)
    else
      var r := FirstContaining(keys[1..], needle);
      assert forall j :: 1 <= j < |keys| ==> keys[j] == keys[1..][j - 1];
      if r.Some? then Some(r.value + 1) else None
  }

  /** `createLazyComponent`. `loaderKeys` is `Object.keys(componentLoaders)`, `None`
      when no loaders are given. The key is the first that contains the entry with its
      first `./` removed; a matching key that is empty is falsy and counts as none. */
  function LazyComponent(loaderKeys: Option<seq<string>>, entry: Option<string>): Component {
    if !Truthy(entry) || loaderKeys.None? then Placeholder
    else
      match FirstContaining(loaderKeys.value, ReplaceFirst(entry.value, "./", ""))
      case Some(i) => if loaderKeys.value[i] != "" then Lazy(loaderKeys.value[i]) else Placeholder
      case None => Placeholder
  }

  /** A lazy component is loaded from key `k` exactly when there is an entry and
      loaders, `k` is non-empty and the first key containing the stripped entry; in every
      other case the placeholder is used. */
  lemma LazyComponentSpec(loaderKeys: Option<seq<string>>, entry: Option<string>, k: string)
    ensures LazyComponent(loaderKeys, entry) == Lazy(k) <==>
      Truthy(entry) && loaderKeys.Some? && k != ""
      && (exists i :: 0 <= i < |loaderKeys.value| && loaderKeys.value[i] == k
           && Contains(k, ReplaceFirst(entry.value, "./", ""))
           && forall j :: 0 <= j < i ==> !Contains(loaderKeys.value[j], ReplaceFirst(entry.value, "./", "")))
    ensures LazyComponent(loaderKeys, entry).Placeholder? || LazyComponent(loaderKeys, entry).Lazy?
    ensures !Truthy(entry) || loaderKeys.None? ==> LazyComponent(loaderKeys, entry) == Placeholder
  {
    if Truthy(entry) && loaderKeys.Some? {
      var keys := loaderKeys.value;
      var needle := ReplaceFirst(entry.value, "./", "");
      var f := FirstContaining(keys, needle);
      if exists i :: 0 <= i < |keys| && keys[i] == k && Contains(k, needle)
                     && forall j :: 0 <= j < i ==> !Contains(keys[j], needle) {
        var i :| 0 <= i < |keys| && keys[i] == k && Contains(k, needle)
                 && forall j :: 0 <= j < i ==> !Contains(keys[j], needle);
        assert f == Some(i) by {
          if f.None? {
          } else if f.value < i {
          } else if f.value > i {
          }
        }
      }
    }
  }

  // ---------------------------------------------------------------- routes

  /** A configured route: its path and meta copied, its component chosen lazily, and one
      level of children mapped the same way (their own children are dropped). */
  function TransformRoute(loaderKeys: Option<seq<string>>, r: RouteEntry): Route {
    Route(r.path, LazyComponent(loaderKeys, r.entry), r.meta,
      match r.children
      case None => None
      case Some(cs) => Some(seq(|cs|, i requires 0 <= i < |cs| =>
                               Route(cs[i].path, LazyComponent(loaderKeys, cs[i].entry), cs[i].meta, None))))
  }

  function TransformRoutes(loaderKeys: Option<seq<string>>, rs: seq<RouteEntry>): (r: seq<Route>)
    ensures |r| == |rs| && forall i :: 0 <= i < |rs| ==> r[i] == TransformRoute(loaderKeys, rs[i])
  {
    seq(|rs|, i requires 0 <= i < |rs| => TransformRoute(loaderKeys, rs[i]))
  }

  /** One route per configured route with its path and meta; children mapped one level
      deep with their paths, and no children below them. */
  lemma TransformRouteSpec(loaderKeys: Option<seq<string>>, r: RouteEntry)
    ensures var t := TransformRoute(loaderKeys, r);
      t.path == r.path && t.meta == r.meta && t.component == LazyComponent(loaderKeys, r.entry)
      && (t.children.Some? <==> r.children.Some?)
      && (r.children.Some? ==>
            |t.children.value| == |r.children.value|
            && forall i :: 0 <= i < |r.children.value| ==>
                 t.children.value[i].path == r.children.value[i].path
                 && t.children.value[i].meta == r.children.value[i].meta
                 && t.children.value[i].children.None?)
  {
  }

  // ---------------------------------------------------------------- manifests

  /** `transformManifest`. The runtime manifest carries no lifecycle hooks. */
  function TransformManifest(c: ManifestConfig, loaderKeys: Option<seq<string>>, res: Option<IconResolver>): (m: AppManifest)
    ensures m.menus.Some? && m.routes.Some?
    ensures m.setup.None? && m.teardown.None?
  {
    AppManifest(c.id, c.name, c.version, c.description, ResolveIcon(res, c.icon), c.author, c.basePath,
      Some(TransformMenus(res, c.menus.GetOr([]))),
      Some(TransformRoutes(loaderKeys, c.routes.GetOr([]))),
      c.permissions, c.tags, c.priority, None, None)
  }

  /** The scalar fields are copied, absent menus and routes become empty lists, and the
      menu tree keeps its shape. */
  lemma TransformManifestSpec(c: ManifestConfig, loaderKeys: Option<seq<string>>, res: Option<IconResolver>)
    ensures var m := TransformManifest(c, loaderKeys, res);
      m.id == c.id && m.name == c.name && m.version == c.version && m.basePath == c.basePath
      && m.description == c.description && m.author == c.author && m.icon == ResolveIcon(res, c.icon)
      && m.priority == c.priority && m.permissions == c.permissions && m.tags == c.tags
      && (c.menus.None? ==> m.menus == Some([]))
      && (c.routes.None? ==> m.routes == Some([]))
      && (c.menus.Some? ==> ItemsShape(m.menus.value) == ConfigsShape(c.menus.value))
      && (c.menus.Some? ==>
            |m.menus.value| == |c.menus.value|
            && forall i :: 0 <= i < |c.menus.value| ==> Transformed(res, c.menus.value[i], m.menus.value[i]))
      && (c.routes.Some? ==> |m.routes.value| == |c.routes.value|)
  {
    if c.menus.Some? {
      TransformMenusShape(res, c.menus.value);
      TransformMenusTransformed(res, c.menus.value);
    }
  }

  /** Registering a translated manifest fails only on validation: exactly when its id,
      name or version is empty or a menu id repeats in the configured tree. */
  lemma RegisterTransformed(c: ManifestConfig, loaderKeys: Option<seq<string>>, res: Option<IconResolver>)
    ensures var m := TransformManifest(c, loaderKeys, res);
      RegisterOutcome(m) == ValidateManifest(m)
      && (RegisterOutcome(m) == Pass <==> c.id != "" && c.name != "" && Truthy(c.version) && Distinct(ConfigIds(c.menus.GetOr([]))))
  {
    var m := TransformManifest(c, loaderKeys, res);
    ValidateManifestPass(m);
    TransformMenusIds(res, c.menus.GetOr([]));
  }

  // ---------------------------------------------------------------- app ids

  /** The characters an app id keeps in the last fallback. */
  predicate IsIdChar(ch: char) {
    IsAsciiAlnum(ch) || ch == '-' || ch == '_'
  }

  /** The characters of `s` up to its first `/`. */
  function Segment(s: string): (r: string)
    ensures |r| <= |s| && s[..|r|] == r && '/' !in r
    ensures |r| < |s| ==> s[|r|] == '/'
  {
    if s == [] || s[0] == '/' then [] else [s[0]] + Segment(s[1..])
  }

  lemma {:induction false} SegmentOf(a: string, b: string)
    requires '/' !in a
    ensures Segment(a + "/" + b) == a
  {
    if a != [] {
      assert (a + "/" + b)[1..] == a[1..] + "/" + b;
      SegmentOf(a[1..], b);
    }
  }

  function UserApps(): string {
    "user-apps/"
  }

  /** The group `user-apps\/([^/]+)\/` captures when matched at position `i`. */
  function MatchAt(s: string, i: nat): Option<string>
    requires i <= |s|
  {
    if StartsWith(s[i..], UserApps()) then
      var rest := s[i + |UserApps()|..];
      var seg := Segment(rest);
      if seg != "" && |seg| < |rest| then Some(seg) else None
    else None
  }

  /** The position of the leftmost match at or after `i`. */
  function FirstMatch(s: string, i: nat): (r: Option<nat>)
    requires i <= |s|
    ensures r.Some? ==> i <= r.value <= |s| && MatchAt(s, r.value).Some?
    ensures r.Some? ==> forall j :: i <= j < r.value ==> MatchAt(s, j).None?
    ensures r.None? ==> forall k :: i <= k <= |s| ==> MatchAt(s, k).None?
    decreases |s| - i
  {
    if MatchAt(s, i).Some? then Some(i)
    else if i == |s| then None
    else FirstMatch(s, i + 1)
  }

  /** The regular expression's capture, if it matches. */
  function Captured(s: string): Option<string> {
    match FirstMatch(s, 0)
    case Some(k) => MatchAt(s, k)
    case None => None
  }

  /** A segment that is neither empty nor `.` nor `..`. */
  predicate Named(part: string) {
    part != "" && part != "." && part != ".."
  }

  /** The last named part, scanning from the end. */
  function LastNamed(parts: seq<string>): (r: Option<string>)
    ensures r.Some? ==> exists k :: 0 <= k < |parts| && parts[k] == r.value && Named(r.value)
                                    && forall j :: k < j < |parts| ==> !Named(parts[j])
    ensures r.None? ==> forall j :: 0 <= j < |parts| ==> !Named(parts[j])
  {
    if parts == [] then None
    else if Named(parts[|parts| - 1]) then Some(parts[|parts| - 1])
    else
      var r := LastNamed(parts[..|parts| - 1]);
      assert forall j :: 0 <= j < |parts| - 1 ==> parts[..|parts| - 1][j] == parts[j];
      r
  }

  /** The directory parts of a path: every `/`-separated part but the last. */
  function DirParts(path: string): seq<string> {
    var parts := Split(path, '/');
    parts[..|parts| - 1]
  }

  /** `extractAppId`: the directory after `user-apps/`; else the last named directory
      part; else the whole path with every character outside `[A-Za-z0-9_-]` made `-`. */
  function AppIdOf(path: string): string {
    match Captured(path)
    case Some(seg) => seg
    case None =>
      match LastNamed(DirParts(path))
      case Some(p) => p
      case None => ReplaceOthers(path, IsIdChar)
  }

  /** The backward loop over the path's parts, the last one excluded. */
  method ScanParts(parts: seq<string>) returns (r: Option<string>)
    requires |parts| >= 1
    ensures r == LastNamed(parts[..|parts| - 1])
  {
    var i := |parts| - 2;
    while i >= 0
      invariant -1 <= i <= |parts| - 2
      invariant LastNamed(parts[..|parts| - 1]) == LastNamed(parts[..i + 1])
      decreases i + 1
    {
      var part := parts[i];
      assert parts[..i + 1][i] == part && parts[..i + 1][..i] == parts[..i];
      if part != "" && part != "." && part != ".." {
        return Some(part);
      }
      i := i - 1;
    }
    assert parts[..0] == [];
    r := None;
  }

  method ExtractAppId(path: string) returns (id: string)
    ensures id == AppIdOf(path)
  {
    var m := Captured(path);
    if m.Some? {
      return m.value;
    }
    var named := ScanParts(Split(path, '/'));
    if named.Some? {
      return named.value;
    }
    id := ReplaceOthers(path, IsIdChar);
  }

  /** No match can start where the character nine places on is not a `/`. */
  lemma NoMatchAt(s: string, j: nat)
    requires j + 9 < |s| && s[j + 9] != '/'
    ensures MatchAt(s, j).None?
  {
    assert s[j..][9] == s[j + 9];
  }

  /** Matched right after a prefix, the group captures the directory that follows
      `user-apps/`. */
  lemma MatchAfter(p: string, a: string, b: string)
    requires a != "" && '/' !in a
    ensures MatchAt(p + UserApps() + a + "/" + b, |p|) == Some(a)
  {
    var s := p + UserApps() + a + "/" + b;
    assert s[|p|..] == UserApps() + (a + "/" + b);
    assert (UserApps() + (a + "/" + b))[..|UserApps()|] == UserApps();
    assert s[|p| + |UserApps()|..] == a + "/" + b;
    SegmentOf(a, b);
  }

  /** The worked example of the source: a manifest in `user-apps/todo-app/`. */
  lemma ExtractAppIdExample()
    ensures AppIdOf("../../../user-apps/todo-app/nexo.manifest.json") == "todo-app"
  {
    var s := "../../../user-apps/todo-app/nexo.manifest.json";
    ExampleParts(s);
    ExampleFirst(s);
    assert Captured(s) == Some("todo-app");
  }

  lemma ExampleParts(s: string)
    requires s == "../../../user-apps/todo-app/nexo.manifest.json"
    ensures s == "../../../" + UserApps() + "todo-app" + "/" + "nexo.manifest.json"
  {
  }

  lemma ExampleFirst(s: string)
    requires s == "../../../" + UserApps() + "todo-app" + "/" + "nexo.manifest.json"
    ensures FirstMatch(s, 0) == Some(9) && MatchAt(s, 9) == Some("todo-app")
  {
    MatchAfter("../../../", "todo-app", "nexo.manifest.json");
    forall j | 0 <= j < 9 ensures MatchAt(s, j).None? {
      NoMatchAt(s, j);
    }
  }

  /** Whatever the path, the fallback is as long as the path and built only of id
      characters. */
  lemma AppIdFallback(path: string)
    requires Captured(path).None? && LastNamed(DirParts(path)).None?
    ensures |AppIdOf(path)| == |path| && forall i :: 0 <= i < |path| ==> IsIdChar(AppIdOf(path)[i])
  {
  }

  // ---------------------------------------------------------------- createAppLoader

  /** A glob entry: a manifest's module path and what importing it settles with. */
  datatype ManifestSource = ManifestSource(path: string, config: Result<ManifestConfig, Error>)

  /** The registry loader for a source: the translated manifest, or the import's error. */
  function LoaderFor(src: ManifestSource, loaderKeys: Option<seq<string>>, res: Option<IconResolver>): Loader {
    match src.config
    case Success(c) => Loader(Success(BareModule(TransformManifest(c, loaderKeys, res))))
    case Failure(e) => Loader(Failure(e))
  }

  /** The writes `loaders[appId] = …` in the order of the sources. */
  function LoaderWrites(sources: seq<ManifestSource>, loaderKeys: Option<seq<string>>, res: Option<IconResolver>): (w: seq<(string, Loader)>)
    ensures |w| == |sources|
    ensures forall i :: 0 <= i < |sources| ==> w[i] == (AppIdOf(sources[i].path), LoaderFor(sources[i], loaderKeys, res))
  {
    seq(|sources|, i requires 0 <= i < |sources| => (AppIdOf(sources[i].path), LoaderFor(sources[i], loaderKeys, res)))
  }

  /** `Object.entries(loaders)`. */
  function Entries(ids: seq<string>, table: map<string, Loader>): (r: seq<(string, Loader)>)
    requires forall i :: 0 <= i < |ids| ==> ids[i] in table
    ensures |r| == |ids| && forall i :: 0 <= i < |ids| ==> r[i] == (ids[i], table[ids[i]])
  {
    seq(|ids|, i requires 0 <= i < |ids| => (ids[i], table[ids[i]]))
  }

  /** What `createAppLoader` returns, less its methods: the app ids and whether `init`
      loads everything. */
  datatype AppLoaderHandle = AppLoaderHandle(appIds: seq<string>, autoLoad: bool)

  /** The `forEach` filling the `loaders` record. */
  method BuildLoaders(sources: seq<ManifestSource>, loaderKeys: Option<seq<string>>, res: Option<IconResolver>)
    returns (ids: seq<string>, table: map<string, Loader>)
    ensures table == Assign(LoaderWrites(sources, loaderKeys, res))
    ensures ids == KeyOrder(LoaderWrites(sources, loaderKeys, res))
  {
    ids, table := [], map[];
    ghost var w := LoaderWrites(sources, loaderKeys, res);
    for i := 0 to |sources|
      invariant table == Assign(w[..i]) && ids == KeyOrder(w[..i])
    {
      var appId := ExtractAppId(sources[i].path);
      var loader := LoaderFor(sources[i], loaderKeys, res);
      assert w[i] == (appId, loader);
      AssignStep(w, i);
      table := table[appId := loader];
      ids := Upsert(ids, appId);
    }
    assert w[..|sources|] == w;
  }

  /** `createAppLoader`: builds the record and hands it to `registerLoaders`. */
  method CreateAppLoader(registry: AppRegistry, sources: seq<ManifestSource>, loaderKeys: Option<seq<string>>,
                         res: Option<IconResolver>, autoLoad: Option<bool>)
    returns (h: AppLoaderHandle)
    requires registry.Valid()
    modifies registry`loaders, registry`apps, registry`ids
    ensures registry.Valid()
    ensures h.appIds == KeyOrder(LoaderWrites(sources, loaderKeys, res)) && h.autoLoad == autoLoad.GetOr(true)
    ensures registry.loaders == LoaderTable(old(registry.loaders),
      Entries(h.appIds, Assign(LoaderWrites(sources, loaderKeys, res))))
    ensures registry.apps == LoaderApps(old(registry.apps),
      Entries(h.appIds, Assign(LoaderWrites(sources, loaderKeys, res))))
    ensures registry.ids == LoaderIds(old(registry.ids), old(registry.apps),
      Entries(h.appIds, Assign(LoaderWrites(sources, loaderKeys, res))))
  {
    var ids, table := BuildLoaders(sources, loaderKeys, res);
    registry.RegisterLoaders(Entries(ids, table));
    h := AppLoaderHandle(ids, autoLoad.GetOr(true));
  }

  /** Every app id of the table is the id of some source, and holds the loader of the
      last source with that id; every source's id is in the table. */
  lemma LoaderTableFromSources(sources: seq<ManifestSource>, loaderKeys: Option<seq<string>>, res: Option<IconResolver>, id: string)
    ensures id in Assign(LoaderWrites(sources, loaderKeys, res)) <==> exists i :: 0 <= i < |sources| && AppIdOf(sources[i].path) == id
    ensures id in Assign(LoaderWrites(sources, loaderKeys, res)) ==>
      exists i :: LastWrite(LoaderWrites(sources, loaderKeys, res), i, id, Assign(LoaderWrites(sources, loaderKeys, res))[id])
  {
    var w := LoaderWrites(sources, loaderKeys, res);
    if id in Assign(w) {
      AssignLast(w, id);
    }
  }

  /** `init`: loads every pending app when auto-loading (the default), as
      `loadAllPending` does; `log` is what that emits. */
  method Init(h: AppLoaderHandle, registry: AppRegistry) returns (ghost log: seq<Event>)
    requires registry.Valid()
    modifies registry`apps, registry`ids, registry`events, registry`deliveries
    ensures registry.Valid()
    ensures h.autoLoad ==>
      var order := PendingOrder(old(registry.ids), old(registry.apps));
      registry.apps == LoadAll(old(registry.apps), old(registry.loaders), order)
      && registry.ids == LoadAllIds(old(registry.ids), old(registry.loaders), order)
      && registry.Appended(old(registry.events), old(registry.deliveries), log)
      && LoadingIds(log) == WithLoader(order, old(registry.loaders))
      && log == LoadAllLog(old(registry.apps), old(registry.ids), old(registry.loaders), order)
    ensures !h.autoLoad ==>
      registry.apps == old(registry.apps) && registry.ids == old(registry.ids)
      && registry.events == old(registry.events) && registry.deliveries == old(registry.deliveries) && log == []
  {
    log := [];
    if h.autoLoad {
      log := registry.LoadAllPending();
    }
  }

  // ---------------------------------------------------------------- registerApps

  function PriorityKey(m: AppManifest): int {
    KeyOr100(m.priority)
  }

  /** The table after registering `ms` in turn, each failure caught. */
  function RegisterAll(apps: map<string, RegisteredApp>, ms: seq<AppManifest>): map<string, RegisteredApp>
    decreases |ms|
  {
    if ms == [] then apps
    else
      var t := RegisterAll(apps, ms[..|ms| - 1]);
      var m := ms[|ms| - 1];
      if ValidateManifest(m).Pass? then t[m.id := Installed(m, None)] else t
  }

  function RegisterAllIds(ids: seq<string>, ms: seq<AppManifest>): seq<string>
    decreases |ms|
  {
    if ms == [] then ids
    else
      var t := RegisterAllIds(ids, ms[..|ms| - 1]);
      var m := ms[|ms| - 1];
      if ValidateManifest(m).Pass? then Upsert(t, m.id) else t
  }

  /** `registerApps`: a copy of the list sorted stably by `priority ?? 100`, registered
      one after another; a failing registration does not stop the rest and nothing
      propagates. */
  method RegisterApps(registry: AppRegistry, manifests: seq<AppManifest>)
    requires registry.Valid()
    modifies registry`apps, registry`ids, registry`events, registry`deliveries
    ensures registry.Valid()
    ensures registry.apps == RegisterAll(old(registry.apps), SortBy(manifests, PriorityKey))
    ensures registry.ids == RegisterAllIds(old(registry.ids), SortBy(manifests, PriorityKey))
    ensures registry.Appended(old(registry.events), old(registry.deliveries),
      RegisterAllLog(old(registry.apps), old(registry.ids), SortBy(manifests, PriorityKey)))
  {
    var sorted := SortBy(manifests, PriorityKey);
    LoggedNone(registry.listeners, registry.events, registry.deliveries);
    for i := 0 to |sorted|
      invariant registry.Valid()
      invariant RegisteredUpTo(old(registry.apps), old(registry.ids), old(registry.events), old(registry.deliveries),
        registry.listeners, sorted, i, registry.apps, registry.ids, registry.events, registry.deliveries)
    {
      var _ := RegisterTurn(registry, old(registry.apps), old(registry.ids), old(registry.events), old(registry.deliveries), sorted, i);
    }
    assert sorted[..|sorted|] == sorted;
  }

  /** The first `i` registrations of `ms` have run, from tables `apps0`, `ids0` and logs
      `events0`, `deliveries0`: the tables are the folds over them, and the logs grew by
      exactly what they emit. */
  ghost predicate RegisteredUpTo(apps0: map<string, RegisteredApp>, ids0: seq<string>, events0: seq<Event>,
                                 deliveries0: seq<Delivery>, listeners: map<EventType, seq<Listener>>,
                                 ms: seq<AppManifest>, i: nat, apps: map<string, RegisteredApp>, ids: seq<string>,
                                 events: seq<Event>, deliveries: seq<Delivery>)
  {
    i <= |ms| && (forall id :: id in ids0 ==> id in apps0)
    && apps == RegisterAll(apps0, ms[..i]) && ids == RegisterAllIds(ids0, ms[..i])
    && Logged(listeners, events0, deliveries0, events, deliveries, RegisterAllLog(apps0, ids0, ms[..i]))
  }

  /** One registration of a series: `await registry.register(ms[i])`, which emits that
      registration's log and so extends the series'. */
  method RegisterTurn(registry: AppRegistry, ghost apps0: map<string, RegisteredApp>, ghost ids0: seq<string>,
                      ghost events0: seq<Event>, ghost deliveries0: seq<Delivery>, ms: seq<AppManifest>, i: nat)
    returns (o: Outcome<Error>)
    requires registry.Valid() && i < |ms|
    requires RegisteredUpTo(apps0, ids0, events0, deliveries0, registry.listeners, ms, i,
      registry.apps, registry.ids, registry.events, registry.deliveries)
    modifies registry`apps, registry`ids, registry`events, registry`deliveries
    ensures registry.Valid() && o == RegisterOutcome(ms[i])
    ensures RegisteredUpTo(apps0, ids0, events0, deliveries0, registry.listeners, ms, i + 1,
      registry.apps, registry.ids, registry.events, registry.deliveries)
    ensures registry.Appended(old(registry.events), old(registry.deliveries), RegisterLog(ms[i], Catalog(registry.Entries())))
  {
    RegisterAllAt(apps0, ids0, ms, i);
    RegisterAllLogAt(apps0, ids0, ms, i);
    o := registry.Register(ms[i], None);
    LoggedTrans(registry.listeners, events0, deliveries0, old(registry.events), old(registry.deliveries),
      registry.events, registry.deliveries, RegisterAllLog(apps0, ids0, ms[..i]), RegisterLog(ms[i], Catalog(registry.Entries())));
  }

  /** One more registration of `registerApps`' loop. */
  lemma RegisterAllAt(apps: map<string, RegisteredApp>, ids: seq<string>, ms: seq<AppManifest>, i: nat)
    requires i < |ms|
    ensures var m := ms[i];
      RegisterAll(apps, ms[..i + 1])
        == (if ValidateManifest(m).Pass? then RegisterAll(apps, ms[..i])[m.id := Installed(m, None)] else RegisterAll(apps, ms[..i]))
      && RegisterAllIds(ids, ms[..i + 1])
        == (if ValidateManifest(m).Pass? then Upsert(RegisterAllIds(ids, ms[..i]), m.id) else RegisterAllIds(ids, ms[..i]))
  {
    assert ms[..i + 1][..i] == ms[..i];
  }

  /** Every key the fold lists has an entry, when every key listed at the start has one. */
  lemma {:induction false} RegisterAllCovers(apps: map<string, RegisteredApp>, ids: seq<string>, ms: seq<AppManifest>)
    requires forall id :: id in ids ==> id in apps
    ensures forall id :: id in RegisterAllIds(ids, ms) ==> id in RegisterAll(apps, ms)
    decreases |ms|
  {
    if ms != [] {
      RegisterAllCovers(apps, ids, ms[..|ms| - 1]);
    }
  }

  /** What registering `ms` in turn emits: each registration's log, with the three
      update events of the table that registration leaves. */
  function RegisterAllLog(apps: map<string, RegisteredApp>, ids: seq<string>, ms: seq<AppManifest>): seq<Event>
    requires forall id :: id in ids ==> id in apps
    decreases |ms|
  {
    if ms == [] then []
    else
      RegisterAllCovers(apps, ids, ms);
      RegisterAllLog(apps, ids, ms[..|ms| - 1])
        + RegisterLog(ms[|ms| - 1], Catalog(InOrder(RegisterAllIds(ids, ms), RegisterAll(apps, ms))))
  }

  /** One more registration's log. */
  lemma RegisterAllLogAt(apps: map<string, RegisteredApp>, ids: seq<string>, ms: seq<AppManifest>, i: nat)
    requires forall id :: id in ids ==> id in apps
    requires i < |ms|
    ensures var done := ms[..i + 1]; forall id :: id in RegisterAllIds(ids, done) ==> id in RegisterAll(apps, done)
    ensures RegisterAllLog(apps, ids, ms[..i + 1]) == RegisterAllLog(apps, ids, ms[..i])
        + RegisterLog(ms[i], Catalog(InOrder(RegisterAllIds(ids, ms[..i + 1]), RegisterAll(apps, ms[..i + 1]))))
  {
    RegisterAllCovers(apps, ids, ms[..i + 1]);
    assert ms[..i + 1][..i] == ms[..i];
  }

  /** A single registration announces exactly its own manifest, and only on success. */
  lemma RegisterLogAnnounced(m0: AppManifest, es: seq<RegisteredApp>, id: string, m: AppManifest)
    ensures AppRegistered(id, m) in RegisterLog(m0, Catalog(es)) <==>
      m0 == m && m.id == id && RegisterOutcome(m).Pass?
  {
    var cat := Catalog(es);
    if RegisterOutcome(m0).Pass? {
      assert RegisterLog(m0, cat) == [AppRegistered(m0.id, m0), StatusChanged(m0.id, Loaded, None)] + cat;
    } else {
      assert AppRegistered(id, m) !in RegisterLog(m0, cat);
    }
  }

  /** app:registered is emitted for a manifest exactly when some registration of it
      succeeds: the update events never announce an app. */
  lemma {:induction false} RegisterAllLogAnnounced(apps: map<string, RegisteredApp>, ids: seq<string>, ms: seq<AppManifest>,
                                               id: string, m: AppManifest)
    requires forall id :: id in ids ==> id in apps
    ensures AppRegistered(id, m) in RegisterAllLog(apps, ids, ms) <==>
      m.id == id && RegisterOutcome(m).Pass? && m in ms
    decreases |ms|
  {
    if ms != [] {
      var before, last := ms[..|ms| - 1], ms[|ms| - 1];
      RegisterAllCovers(apps, ids, ms);
      var es := InOrder(RegisterAllIds(ids, ms), RegisterAll(apps, ms));
      assert RegisterAllLog(apps, ids, ms) == RegisterAllLog(apps, ids, before) + RegisterLog(last, Catalog(es));
      RegisterAllLogAnnounced(apps, ids, before, id, m);
      RegisterLogAnnounced(last, es, id, m);
      InFront(ms, m);
    }
  }

  /** After `registerApps`, an id has an entry exactly when it had one before or some
      valid manifest of the list carries it. */
  lemma {:induction false} RegisterAllKeys(apps: map<string, RegisteredApp>, ms: seq<AppManifest>, id: string)
    ensures id in RegisterAll(apps, ms) <==>
      id in apps || exists i :: 0 <= i < |ms| && ms[i].id == id && ValidateManifest(ms[i]).Pass?
    decreases |ms|
  {
    if ms != [] {
      var before := ms[..|ms| - 1];
      RegisterAllKeys(apps, before, id);
      if exists i :: 0 <= i < |before| && before[i].id == id && ValidateManifest(before[i]).Pass? {
        var i :| 0 <= i < |before| && before[i].id == id && ValidateManifest(before[i]).Pass?;
        assert ms[i] == before[i];
      }
      if exists i :: 0 <= i < |ms| && ms[i].id == id && ValidateManifest(ms[i]).Pass? {
        var i :| 0 <= i < |ms| && ms[i].id == id && ValidateManifest(ms[i]).Pass?;
        if i < |ms| - 1 {
          assert before[i] == ms[i];
        }
      }
    }
  }

  /** The registrations run in non-decreasing priority, ties in list order, and every
      manifest is tried exactly once. */
  lemma RegisterAppsOrder(manifests: seq<AppManifest>, p: int)
    ensures SortedBy(SortBy(manifests, PriorityKey), PriorityKey)
    ensures multiset(SortBy(manifests, PriorityKey)) == multiset(manifests)
    ensures WithKey(SortBy(manifests, PriorityKey), PriorityKey, p) == WithKey(manifests, PriorityKey, p)
  {
    SortByStable(manifests, PriorityKey, p);
  }

  /** `registerAppFromConfig`: translate, then register. */
  method RegisterAppFromConfig(registry: AppRegistry, c: ManifestConfig, loaderKeys: Option<seq<string>>, res: Option<IconResolver>)
    returns (o: Outcome<Error>)
    requires registry.Valid()
    modifies registry`apps, registry`ids, registry`events, registry`deliveries
    ensures registry.Valid()
    ensures o == ValidateManifest(TransformManifest(c, loaderKeys, res))
    ensures o.Pass? ==> registry.apps == old(registry.apps)[c.id := Installed(TransformManifest(c, loaderKeys, res), None)]
    ensures o.Pass? ==> registry.ids == Upsert(old(registry.ids), c.id)
    ensures o.Fail? ==>
      registry.apps == old(registry.apps) && registry.ids == old(registry.ids)
      && registry.events == old(registry.events) && registry.deliveries == old(registry.deliveries)
    ensures registry.Appended(old(registry.events), old(registry.deliveries),
      RegisterLog(TransformManifest(c, loaderKeys, res), Catalog(registry.Entries())))
  {
    RegisterTransformed(c, loaderKeys, res);
    o := registry.Register(TransformManifest(c, loaderKeys, res), None);
  }
}
