/** The server's module scanner (`apps/server/src/services/module-loader.ts`): a table of
    module manifests read from a directory, sorted by priority, and the menus and routes
    derived from each module's `pages` tree under its base path. The filesystem is an
    input: which paths exist, which manifest files parse to what, and what the modules
    directory lists. */
module ModuleScanner {
  import opened Wrappers
  import opened AppTypes
  import opened Strings
  import opened Seqs
  import opened Sorting

  // ---------------------------------------------------------------- data model

  /** A page of a module manifest, as the server reads it. */
  datatype ServerPage = ServerPage(
    id: string,
    caption: string,
    path: string,
    icon: Option<string>,
    component: Option<string>,
    title: Option<string>,
    description: Option<string>,
    order: Option<int>,
    hidden: Option<bool>,
    badge: Option<Badge>,
    permissions: Option<seq<string>>,
    external: Option<bool>,
    target: Option<Target>,
    children: PageChildren)

  datatype PageChildren = NoPageChildren | PageChildren(pages: seq<ServerPage>)

  datatype AppAssets = AppAssets(js: Option<seq<string>>, css: Option<seq<string>>)

  /** The fields of a module manifest that the server reads. */
  datatype ModuleManifest = ModuleManifest(
    id: string,
    name: string,
    version: Option<string>,
    description: Option<string>,
    icon: Option<string>,
    priority: Option<int>,
    entry: Option<string>,
    basePath: Option<string>,
    assets: Option<AppAssets>,
    pages: Option<seq<ServerPage>>)

  datatype LoadedModule = LoadedModule(id: string, manifest: ModuleManifest, path: string, hasDistFiles: bool)

  datatype ServerMenu = ServerMenu(
    id: string,
    caption: string,
    icon: Option<string>,
    path: string,
    order: Option<int>,
    badge: Option<Badge>,
    permissions: Option<seq<string>>,
    external: Option<bool>,
    target: Option<Target>,
    children: MenuChildren)

  datatype MenuChildren = NoMenuChildren | MenuChildren(menus: seq<ServerMenu>)

  datatype ServerRouteMeta = ServerRouteMeta(title: string, description: Option<string>, permissions: Option<seq<string>>)

  /** A route: its full path, `moduleId:component`, and its meta. */
  datatype ServerRoute = ServerRoute(path: string, component: string, meta: ServerRouteMeta)

  /** One listing entry of the modules directory. */
  datatype DirEntry = DirEntry(name: string, isDirectory: bool)

  /** What the filesystem answers: the listing of the modules directory (`None` when it
      cannot be read), the manifest each readable and parsable manifest file holds, and
      the paths that exist. */
  datatype FileSystem = FileSystem(
    listing: Option<seq<DirEntry>>,
    manifests: map<string, ModuleManifest>,
    existing: set<string>)

  /** `path.join(a, b)` for a relative `b`. */
  function PathJoin(a: string, b: string): string {
    a + "/" + b
  }

  // ---------------------------------------------------------------- joinPaths

  /** `joinPaths`: a root or empty path is the base itself; otherwise one trailing `/`
      of the base is dropped and a `/` is put in front of the path if it lacks one. */
  function JoinPaths(base: string, path: string): string {
    if path == "/" || path == "" then base
    else
      var normalizedBase := DropTrailingSlash(base);
      var normalizedPath := if StartsWith(path, "/") then path else "/" + path;
      normalizedBase + normalizedPath
  }

  lemma JoinPathsRoot(base: string)
    ensures JoinPaths(base, "/") == base && JoinPaths(base, "") == base
  {
  }

  /** For any other path the result is the base less at most one trailing `/`, one `/`,
      and the path less at most one leading `/`; it always ends with the path. */
  lemma JoinPathsShape(base: string, path: string)
    requires path != "/" && path != ""
    ensures JoinPaths(base, path) == DropTrailingSlash(base) + "/" + DropLeadingSlash(path)
    ensures EndsWith(JoinPaths(base, path), path)
  {
    var stem := DropTrailingSlash(base);
    if StartsWith(path, "/") {
      assert DropLeadingSlash(path) == path[1..];
      assert path == "/" + path[1..];
      assert JoinPaths(base, path) == stem + path;
      assert stem + "/" + path[1..] == stem + path;
      SuffixOfAppend(stem, path);
    } else {
      assert DropLeadingSlash(path) == path;
      assert JoinPaths(base, path) == stem + ("/" + path);
      assert stem + "/" + path == stem + ("/" + path);
      SuffixOfAppend(stem + "/", path);
    }
  }

  lemma SuffixOfAppend(a: string, b: string)
    ensures EndsWith(a + b, b)
  {
    assert (a + b)[|a|..] == b;
  }

  /** A base without a trailing `/` is a prefix of every path joined onto it. */
  lemma JoinPathsPrefix(base: string, path: string)
    requires !EndsWith(base, "/")
    ensures StartsWith(JoinPaths(base, path), base)
  {
    var r := JoinPaths(base, path);
    if !(path == "/" || path == "") {
      var tail := if StartsWith(path, "/") then path else "/" + path;
      assert r == base + tail;
      assert r[..|base|] == base;
    }
  }

  // ---------------------------------------------------------------- page walks

  predicate IsHidden(p: ServerPage) {
    p.hidden == Some(true)
  }

  /** Every page of the tree, at any depth, in pre-order, paired with its full path:
      each page's path joined onto its parent's full path. */
  function Walk(pages: seq<ServerPage>, base: string): seq<(ServerPage, string)>
    decreases pages
  {
    if pages == [] then [] else PageWalk(pages[0], base) + Walk(pages[1..], base)
  }

  function PageWalk(p: ServerPage, base: string): seq<(ServerPage, string)>
    decreases p
  {
    var full := JoinPaths(base, p.path);
    [(p, full)] + match p.children
                  case NoPageChildren => []
                  case PageChildren(ch) => Walk(ch, full)
  }

  /** The same walk, skipping hidden pages and everything below them. */
  function VisibleWalk(pages: seq<ServerPage>, base: string): seq<(ServerPage, string)>
    decreases pages
  {
    if pages == [] then [] else VisiblePageWalk(pages[0], base) + VisibleWalk(pages[1..], base)
  }

  function VisiblePageWalk(p: ServerPage, base: string): seq<(ServerPage, string)>
    decreases p
  {
    if IsHidden(p) then []
    else
      var full := JoinPaths(base, p.path);
      [(p, full)] + match p.children
                    case NoPageChildren => []
                    case PageChildren(ch) => VisibleWalk(ch, full)
  }

  /** The visible walk is the full walk with pages left out, and none of it is hidden. */
  lemma {:induction false} VisibleWalkSpec(pages: seq<ServerPage>, base: string)
    ensures IsSubsequence(VisibleWalk(pages, base), Walk(pages, base))
    ensures forall i :: 0 <= i < |VisibleWalk(pages, base)| ==> !IsHidden(VisibleWalk(pages, base)[i].0)
    decreases pages
  {
    if pages != [] {
      VisiblePageWalkSpec(pages[0], base);
      VisibleWalkSpec(pages[1..], base);
      SubsequenceAppend(VisiblePageWalk(pages[0], base), PageWalk(pages[0], base),
        VisibleWalk(pages[1..], base), Walk(pages[1..], base));
      var a: seq<(ServerPage, string)>, b: seq<(ServerPage, string)> := VisiblePageWalk(pages[0], base), VisibleWalk(pages[1..], base);
      forall i | 0 <= i < |a + b| ensures !IsHidden((a + b)[i].0) {
        if i >= |a| {
          assert (a + b)[i] == b[i - |a|];
        } else {
          assert (a + b)[i] == a[i];
        }
      }
    }
  }

  lemma {:induction false} VisiblePageWalkSpec(p: ServerPage, base: string)
    ensures IsSubsequence(VisiblePageWalk(p, base), PageWalk(p, base))
    ensures forall i :: 0 <= i < |VisiblePageWalk(p, base)| ==> !IsHidden(VisiblePageWalk(p, base)[i].0)
    decreases p
  {
    if !IsHidden(p) {
      var full := JoinPaths(base, p.path);
      var vs: seq<(ServerPage, string)> := match p.children case NoPageChildren => [] case PageChildren(ch) => VisibleWalk(ch, full);
      var ws: seq<(ServerPage, string)> := match p.children case NoPageChildren => [] case PageChildren(ch) => Walk(ch, full);
      if p.children.PageChildren? {
        VisibleWalkSpec(p.children.pages, full);
      }
      assert VisiblePageWalk(p, base) == [(p, full)] + vs;
      assert PageWalk(p, base) == [(p, full)] + ws;
      SubsequenceAppend([(p, full)], [(p, full)], vs, ws);
      forall i | 0 <= i < |[(p, full)] + vs| ensures !IsHidden(([(p, full)] + vs)[i].0) {
        if i > 0 {
          assert ([(p, full)] + vs)[i] == vs[i - 1];
        }
      }
    }
  }

  // ---------------------------------------------------------------- menus

  /** `extractMenusFromPages`. */
  function ExtractMenus(pages: seq<ServerPage>, base: string): seq<ServerMenu>
    decreases pages
  {
    if pages == [] then []
    else (if IsHidden(pages[0]) then [] else [PageMenu(pages[0], base)]) + ExtractMenus(pages[1..], base)
  }

  function PageMenu(p: ServerPage, base: string): ServerMenu
    decreases p
  {
    var full := JoinPaths(base, p.path);
    ServerMenu(p.id, p.caption, p.icon, full, p.order, p.badge, p.permissions, p.external, p.target,
      match p.children
      case NoPageChildren => NoMenuChildren
      case PageChildren(ch) => MenuChildren(ExtractMenus(ch, full)))
  }

  /** The ids and paths of a menu tree in pre-order. */
  function MenuWalk(ms: seq<ServerMenu>): seq<(string, string)>
    decreases ms
  {
    if ms == [] then [] else ItemWalk(ms[0]) + MenuWalk(ms[1..])
  }

  function ItemWalk(m: ServerMenu): seq<(string, string)>
    decreases m
  {
    [(m.id, m.path)] + match m.children
                       case NoMenuChildren => []
                       case MenuChildren(ch) => MenuWalk(ch)
  }

  function IdsAndPaths(w: seq<(ServerPage, string)>): (r: seq<(string, string)>)
    ensures |r| == |w| && forall i :: 0 <= i < |w| ==> r[i] == (w[i].0.id, w[i].1)
  {
    seq(|w|, i requires 0 <= i < |w| => (w[i].0.id, w[i].1))
  }

  lemma IdsAndPathsAppend(a: seq<(ServerPage, string)>, b: seq<(ServerPage, string)>)
    ensures IdsAndPaths(a + b) == IdsAndPaths(a) + IdsAndPaths(b)
  {
    assert forall i :: |a| <= i < |a + b| ==> (a + b)[i] == b[i - |a|];
  }

  /** The menus list, at every depth and in order, exactly the visible pages, each at
      its full path: hidden pages vanish with their subtrees, and a nested page's path
      is joined onto its parent's full path. */
  lemma {:induction false} ExtractMenusWalk(pages: seq<ServerPage>, base: string)
    ensures MenuWalk(ExtractMenus(pages, base)) == IdsAndPaths(VisibleWalk(pages, base))
    decreases pages
  {
    if pages != [] {
      ExtractMenusWalk(pages[1..], base);
      var p := pages[0];
      var head := if IsHidden(p) then [] else [PageMenu(p, base)];
      var rest := ExtractMenus(pages[1..], base);
      MenuWalkAppend(head, rest);
      IdsAndPathsAppend(VisiblePageWalk(p, base), VisibleWalk(pages[1..], base));
      if !IsHidden(p) {
        PageMenuWalk(p, base);
        assert MenuWalk(head) == ItemWalk(PageMenu(p, base)) by {
          assert head[1..] == [];
        }
      }
    }
  }

  lemma {:induction false} PageMenuWalk(p: ServerPage, base: string)
    requires !IsHidden(p)
    ensures ItemWalk(PageMenu(p, base)) == IdsAndPaths(VisiblePageWalk(p, base))
    decreases p
  {
    var full := JoinPaths(base, p.path);
    var vs: seq<(ServerPage, string)> := match p.children case NoPageChildren => [] case PageChildren(ch) => VisibleWalk(ch, full);
    assert VisiblePageWalk(p, base) == [(p, full)] + vs;
    IdsAndPathsAppend([(p, full)], vs);
    assert IdsAndPaths([(p, full)]) == [(p.id, full)];
    match p.children {
      case NoPageChildren =>
        assert ItemWalk(PageMenu(p, base)) == [(p.id, full)];
      case PageChildren(ch) =>
        ExtractMenusWalk(ch, full);
        assert ItemWalk(PageMenu(p, base)) == [(p.id, full)] + MenuWalk(ExtractMenus(ch, full));
    }
  }

  lemma {:induction false} MenuWalkAppend(a: seq<ServerMenu>, b: seq<ServerMenu>)
    ensures MenuWalk(a + b) == MenuWalk(a) + MenuWalk(b)
  {
    if a == [] {
      assert a + b == b;
    } else {
      assert (a + b)[1..] == a[1..] + b;
      MenuWalkAppend(a[1..], b);
    }
  }

  /** A menu has children exactly when its page has, and sits at the joined path. */
  lemma PageMenuShape(p: ServerPage, base: string)
    ensures PageMenu(p, base).children.MenuChildren? <==> p.children.PageChildren?
    ensures PageMenu(p, base).path == JoinPaths(base, p.path)
    ensures PageMenu(p, base).id == p.id && PageMenu(p, base).caption == p.caption
  {
  }

  // ---------------------------------------------------------------- routes

  /** The route a page with a component yields. */
  function PageRoute(p: ServerPage, full: string, moduleId: string): ServerRoute
    requires Truthy(p.component)
  {
    ServerRoute(full, moduleId + ":" + p.component.value,
      ServerRouteMeta(OrElse(p.title.GetOr(""), p.caption), p.description, p.permissions))
  }

  /** The routes of a walk: one per page that declares a component, in walk order. */
  function WalkRoutes(w: seq<(ServerPage, string)>, moduleId: string): seq<ServerRoute> {
    if w == [] then []
    else (if Truthy(w[0].0.component) then [PageRoute(w[0].0, w[0].1, moduleId)] else [])
         + WalkRoutes(w[1..], moduleId)
  }

  lemma {:induction false} WalkRoutesAppend(a: seq<(ServerPage, string)>, b: seq<(ServerPage, string)>, moduleId: string)
    ensures WalkRoutes(a + b, moduleId) == WalkRoutes(a, moduleId) + WalkRoutes(b, moduleId)
  {
    if a == [] {
      assert a + b == b;
    } else {
      var head := if Truthy(a[0].0.component) then [PageRoute(a[0].0, a[0].1, moduleId)] else [];
      assert (a + b)[0] == a[0] && (a + b)[1..] == a[1..] + b;
      assert WalkRoutes(a + b, moduleId) == head + WalkRoutes(a[1..] + b, moduleId);
      assert WalkRoutes(a, moduleId) == head + WalkRoutes(a[1..], moduleId);
      WalkRoutesAppend(a[1..], b, moduleId);
    }
  }

  /** Every route comes from a page of the walk with a component, and every such page
      yields its route. */
  lemma {:induction false} WalkRoutesMember(w: seq<(ServerPage, string)>, moduleId: string, r: ServerRoute)
    ensures r in WalkRoutes(w, moduleId) <==>
      exists i :: 0 <= i < |w| && Truthy(w[i].0.component) && r == PageRoute(w[i].0, w[i].1, moduleId)
  {
    if w != [] {
      WalkRoutesMember(w[1..], moduleId, r);
      if exists i :: 0 <= i < |w| && Truthy(w[i].0.component) && r == PageRoute(w[i].0, w[i].1, moduleId) {
        var i :| 0 <= i < |w| && Truthy(w[i].0.component) && r == PageRoute(w[i].0, w[i].1, moduleId);
        if i > 0 {
          assert w[1..][i - 1] == w[i];
        }
      }
      if exists i :: 0 <= i < |w[1..]| && Truthy(w[1..][i].0.component) && r == PageRoute(w[1..][i].0, w[1..][i].1, moduleId) {
        var i :| 0 <= i < |w[1..]| && Truthy(w[1..][i].0.component) && r == PageRoute(w[1..][i].0, w[1..][i].1, moduleId);
        assert w[i + 1] == w[1..][i];
      }
    }
  }

  function PagesSize(ps: seq<ServerPage>): nat
    decreases ps
  {
    if ps == [] then 0 else PageSize(ps[0]) + PagesSize(ps[1..])
  }

  function PageSize(p: ServerPage): nat
    decreases p
  {
    1 + match p.children
        case NoPageChildren => 0
        case PageChildren(ch) => PagesSize(ch)
  }

  lemma {:induction false} WalkAt(ps: seq<ServerPage>, base: string, i: nat)
    requires i < |ps|
    ensures Walk(ps[..i + 1], base) == Walk(ps[..i], base) + PageWalk(ps[i], base)
  {
    WalkAppend(ps[..i], [ps[i]], base);
    assert ps[..i + 1] == ps[..i] + [ps[i]];
    assert Walk([ps[i]], base) == PageWalk(ps[i], base) by {
      assert [ps[i]][1..] == [];
    }
  }

  lemma {:induction false} WalkAppend(a: seq<ServerPage>, b: seq<ServerPage>, base: string)
    ensures Walk(a + b, base) == Walk(a, base) + Walk(b, base)
  {
    if a == [] {
      assert a + b == b;
    } else {
      assert (a + b)[1..] == a[1..] + b;
      WalkAppend(a[1..], b, base);
    }
  }

  /** `extractRoutesFromPages`: the loop over pages pushing each page's route and then its
      children's routes yields the routes of the full walk, hidden pages included. */
  method ExtractRoutes(pages: seq<ServerPage>, moduleId: string, base: string) returns (routes: seq<ServerRoute>)
    ensures routes == WalkRoutes(Walk(pages, base), moduleId)
    decreases PagesSize(pages), 1
  {
    routes := [];
    for i := 0 to |pages|
      invariant routes == WalkRoutes(Walk(pages[..i], base), moduleId)
    {
      PageSizeBound(pages, i);
      var own := PageRoutes(pages[i], moduleId, base);
      WalkAt(pages, base, i);
      WalkRoutesAppend(Walk(pages[..i], base), PageWalk(pages[i], base), moduleId);
      routes := routes + own;
    }
    assert pages[..|pages|] == pages;
  }

  /** One turn of that loop: the page's own route, if it has a component, then its
      children's routes under its full path. */
  method PageRoutes(page: ServerPage, moduleId: string, base: string) returns (routes: seq<ServerRoute>)
    ensures routes == WalkRoutes(PageWalk(page, base), moduleId)
    decreases PageSize(page), 0
  {
    var fullPath := JoinPaths(base, page.path);
    routes := [];
    if page.component.Some? && page.component.value != "" {
      routes := routes + [PageRoute(page, fullPath, moduleId)];
    }
    if page.children.PageChildren? {
      var sub := ExtractRoutes(page.children.pages, moduleId, fullPath);
      routes := routes + sub;
    }
    PageWalkRoutes(page, base, moduleId);
  }

  /** `AppTypes.PageSizeBound` for server pages, which are a type of their own. */
  lemma {:induction false} PageSizeBound(ps: seq<ServerPage>, i: nat)
    requires i < |ps|
    ensures PageSize(ps[i]) <= PagesSize(ps)
    decreases i
  {
    if i > 0 {
      assert ps[1..][i - 1] == ps[i];
      PageSizeBound(ps[1..], i - 1);
    }
  }

  lemma PageWalkRoutes(p: ServerPage, base: string, moduleId: string)
    ensures var full := JoinPaths(base, p.path);
      WalkRoutes(PageWalk(p, base), moduleId)
      == (if Truthy(p.component) then [PageRoute(p, full, moduleId)] else [])
         + match p.children
           case NoPageChildren => []
           case PageChildren(ch) => WalkRoutes(Walk(ch, full), moduleId)
  {
    var full := JoinPaths(base, p.path);
    var rest: seq<(ServerPage, string)> := match p.children case NoPageChildren => [] case PageChildren(ch) => Walk(ch, full);
    assert PageWalk(p, base) == [(p, full)] + rest;
    WalkRoutesAppend([(p, full)], rest, moduleId);
    assert [(p, full)][1..] == [];
  }

  // ---------------------------------------------------------------- module menus

  /** `createModuleMenu`. */
  function ModuleMenu(m: LoadedModule): (r: Option<ServerMenu>)
    ensures r.Some? <==> m.manifest.pages.Some? && Truthy(m.manifest.basePath)
    ensures r.Some? ==> r.value.id == m.manifest.id && r.value.path == m.manifest.basePath.value
                        && r.value.order == m.manifest.priority
  {
    var mf := m.manifest;
    if mf.pages.None? || !Truthy(mf.basePath) then None
    else
      var basePath := mf.basePath.value;
      var pages := mf.pages.value;
      if |pages| == 1 && pages[0].path == "/" then
        var page := pages[0];
        Some(ServerMenu(mf.id, OrElse(page.caption, mf.name), if Truthy(mf.icon) then mf.icon else page.icon,
          basePath, mf.priority, None, None, None, None, NoMenuChildren))
      else
        Some(ServerMenu(mf.id, mf.name, mf.icon, basePath, mf.priority, None, None, None, None,
          MenuChildren(ExtractMenus(pages, basePath))))
  }

  /** A module with one page at `/` becomes a childless entry at its base path, named
      after the page (or the module); any other module with pages and a base path becomes
      a parent entry holding the extracted menus. */
  lemma ModuleMenuShape(m: LoadedModule)
    requires m.manifest.pages.Some? && Truthy(m.manifest.basePath)
    ensures var pages := m.manifest.pages.value;
      var r := ModuleMenu(m).value;
      if |pages| == 1 && pages[0].path == "/" then
        r.children == NoMenuChildren && r.caption == OrElse(pages[0].caption, m.manifest.name)
      else
        r.children == MenuChildren(ExtractMenus(pages, m.manifest.basePath.value)) && r.caption == m.manifest.name
  {
  }

  function MenusOf(m: LoadedModule): seq<ServerMenu> {
    match ModuleMenu(m) case None => [] case Some(x) => [x]
  }

  function RoutesOf(m: LoadedModule): seq<ServerRoute> {
    if m.manifest.pages.Some? && Truthy(m.manifest.basePath) then
      WalkRoutes(Walk(m.manifest.pages.value, m.manifest.basePath.value), m.id)
    else []
  }

  function ServerOrderKey(m: ServerMenu): int {
    KeyOr100(m.order)
  }

  function PriorityKey(m: LoadedModule): int {
    KeyOr100(m.manifest.priority)
  }

  /** Only modules with pages and a non-empty base path contribute menus or routes. */
  lemma ContributingModules(ms: seq<LoadedModule>, x: ServerMenu, r: ServerRoute)
    ensures x in Flatten(ms, MenusOf) <==>
      exists i :: 0 <= i < |ms| && ms[i].manifest.pages.Some? && Truthy(ms[i].manifest.basePath) && ModuleMenu(ms[i]) == Some(x)
    ensures r in Flatten(ms, RoutesOf) ==>
      exists i :: 0 <= i < |ms| && ms[i].manifest.pages.Some? && Truthy(ms[i].manifest.basePath) && r in RoutesOf(ms[i])
  {
    FlattenMember(ms, MenusOf, x);
    FlattenMember(ms, RoutesOf, r);
  }

  // ---------------------------------------------------------------- dist files

  /** `checkDistFiles`: with an entry file, whether it exists; otherwise false for an
      absent or empty `assets.js`, and else whether every listed file exists. */
  predicate DistReady(existing: set<string>, modulePath: string, m: ModuleManifest) {
    if Truthy(m.entry) then PathJoin(modulePath, m.entry.value) in existing
    else if m.assets.None? || m.assets.value.js.None? || m.assets.value.js.value == [] then false
    else forall i :: 0 <= i < |m.assets.value.js.value| ==> PathJoin(modulePath, m.assets.value.js.value[i]) in existing
  }

  /** The loop over `assets.js` that stops at the first missing file. */
  method CheckDistFiles(existing: set<string>, modulePath: string, m: ModuleManifest) returns (ok: bool)
    ensures ok == DistReady(existing, modulePath, m)
  {
    if m.entry.Some? && m.entry.value != "" {
      return PathJoin(modulePath, m.entry.value) in existing;
    }
    if m.assets.None? || m.assets.value.js.None? || |m.assets.value.js.value| == 0 {
      return false;
    }
    var js := m.assets.value.js.value;
    for i := 0 to |js|
      invariant forall k :: 0 <= k < i ==> PathJoin(modulePath, js[k]) in existing
    {
      if PathJoin(modulePath, js[i]) !in existing {
        return false;
      }
    }
    ok := true;
  }

  /** With an entry file only that file matters; the legacy files are then irrelevant. */
  lemma DistReadyEntry(existing: set<string>, modulePath: string, m: ModuleManifest, a: Option<AppAssets>)
    requires Truthy(m.entry)
    ensures DistReady(existing, modulePath, m) == DistReady(existing, modulePath, m.(assets := a))
    ensures DistReady(existing, modulePath, m) <==> PathJoin(modulePath, m.entry.value) in existing
  {
  }

  // ---------------------------------------------------------------- the loader

  /** The module a directory yields: `None` when its manifest cannot be read or parsed. */
  function ModuleAt(fs: FileSystem, modulesPath: string, dirName: string): (r: Option<LoadedModule>)
    ensures r.Some? ==> r.value.id == r.value.manifest.id
  {
    var modulePath := PathJoin(modulesPath, dirName);
    var manifestPath := PathJoin(modulePath, "manifest.json");
    if manifestPath !in fs.manifests then None
    else
      var m := fs.manifests[manifestPath];
      Some(LoadedModule(m.id, m, modulePath, DistReady(fs.existing, modulePath, m)))
  }

  /** The table in key order. */
  function InOrder(ids: seq<string>, modules: map<string, LoadedModule>): (r: seq<LoadedModule>)
    requires forall i :: 0 <= i < |ids| ==> ids[i] in modules
    ensures |r| == |ids| && forall i :: 0 <= i < |ids| ==> r[i] == modules[ids[i]]
  {
    seq(|ids|, i requires 0 <= i < |ids| => modules[ids[i]])
  }

  /** The directories a listing names, in order. */
  function Directories(entries: seq<DirEntry>): seq<string> {
    if entries == [] then []
    else (if entries[0].isDirectory then [entries[0].name] else []) + Directories(entries[1..])
  }

  /** The table after loading the directories `dirs` in turn into an empty one. */
  function ScanTable(fs: FileSystem, modulesPath: string, dirs: seq<string>): map<string, LoadedModule>
    decreases |dirs|
  {
    if dirs == [] then map[]
    else
      var t := ScanTable(fs, modulesPath, dirs[..|dirs| - 1]);
      match ModuleAt(fs, modulesPath, dirs[|dirs| - 1])
      case None => t
      case Some(x) => t[x.id := x]
  }

  function ScanIds(fs: FileSystem, modulesPath: string, dirs: seq<string>): seq<string>
    decreases |dirs|
  {
    if dirs == [] then []
    else
      var t := ScanIds(fs, modulesPath, dirs[..|dirs| - 1]);
      match ModuleAt(fs, modulesPath, dirs[|dirs| - 1])
      case None => t
      case Some(x) => Upsert(t, x.id)
  }

  /** After a scan, a module is in the table exactly when some directory yields a
      manifest with its id, and it holds what the last such directory yielded. */
  lemma ScanTableSpec(fs: FileSystem, modulesPath: string, dirs: seq<string>, id: string)
    ensures id in ScanTable(fs, modulesPath, dirs) <==>
      exists i :: 0 <= i < |dirs| && ModuleAt(fs, modulesPath, dirs[i]).Some? && ModuleAt(fs, modulesPath, dirs[i]).value.id == id
    ensures id in ScanTable(fs, modulesPath, dirs) ==>
      exists i :: 0 <= i < |dirs| && ModuleAt(fs, modulesPath, dirs[i]) == Some(ScanTable(fs, modulesPath, dirs)[id])
        && forall j :: i < j < |dirs| ==> ModuleAt(fs, modulesPath, dirs[j]).None? || ModuleAt(fs, modulesPath, dirs[j]).value.id != id
  {
    ScanTableMember(fs, modulesPath, dirs, id);
    if id in ScanTable(fs, modulesPath, dirs) {
      ScanTableLast(fs, modulesPath, dirs, id);
    }
  }

  lemma {:induction false} ScanTableMember(fs: FileSystem, modulesPath: string, dirs: seq<string>, id: string)
    ensures id in ScanTable(fs, modulesPath, dirs) <==>
      exists i :: 0 <= i < |dirs| && ModuleAt(fs, modulesPath, dirs[i]).Some? && ModuleAt(fs, modulesPath, dirs[i]).value.id == id
    decreases |dirs|
  {
    if dirs != [] {
      var before := dirs[..|dirs| - 1];
      ScanTableMember(fs, modulesPath, before, id);
      var last := |dirs| - 1;
      if exists i :: 0 <= i < |before| && ModuleAt(fs, modulesPath, before[i]).Some? && ModuleAt(fs, modulesPath, before[i]).value.id == id {
        var i :| 0 <= i < |before| && ModuleAt(fs, modulesPath, before[i]).Some? && ModuleAt(fs, modulesPath, before[i]).value.id == id;
        assert dirs[i] == before[i];
      }
      if exists i :: 0 <= i < |dirs| && ModuleAt(fs, modulesPath, dirs[i]).Some? && ModuleAt(fs, modulesPath, dirs[i]).value.id == id {
        var i :| 0 <= i < |dirs| && ModuleAt(fs, modulesPath, dirs[i]).Some? && ModuleAt(fs, modulesPath, dirs[i]).value.id == id;
        if i < last {
          assert before[i] == dirs[i];
        }
      }
    }
  }

  /** A module in the table is what the last directory yielding its id yielded. */
  lemma {:induction false} ScanTableLast(fs: FileSystem, modulesPath: string, dirs: seq<string>, id: string)
    requires id in ScanTable(fs, modulesPath, dirs)
    ensures exists i :: 0 <= i < |dirs| && ModuleAt(fs, modulesPath, dirs[i]) == Some(ScanTable(fs, modulesPath, dirs)[id])
                        && forall j :: i < j < |dirs| ==> ModuleAt(fs, modulesPath, dirs[j]).None? || ModuleAt(fs, modulesPath, dirs[j]).value.id != id
    decreases |dirs|
  {
    var before, last := dirs[..|dirs| - 1], |dirs| - 1;
    var m := ModuleAt(fs, modulesPath, dirs[last]);
    if m.Some? && m.value.id == id {
      assert ModuleAt(fs, modulesPath, dirs[last]) == Some(ScanTable(fs, modulesPath, dirs)[id]);
    } else {
      assert ScanTable(fs, modulesPath, dirs)[id] == ScanTable(fs, modulesPath, before)[id];
      ScanTableLast(fs, modulesPath, before, id);
      var i :| 0 <= i < |before| && ModuleAt(fs, modulesPath, before[i]) == Some(ScanTable(fs, modulesPath, before)[id])
        && forall j :: i < j < |before| ==> ModuleAt(fs, modulesPath, before[j]).None? || ModuleAt(fs, modulesPath, before[j]).value.id != id;
      assert dirs[i] == before[i];
      forall j | i < j < |dirs|
        ensures ModuleAt(fs, modulesPath, dirs[j]).None? || ModuleAt(fs, modulesPath, dirs[j]).value.id != id
      {
        if j < last {
          assert dirs[j] == before[j];
        }
      }
    }
  }

  class ModuleLoader {
    const modulesPath: string
    var ids: seq<string>
    var modules: map<string, LoadedModule>

    /** The key order lists each key once, and each module is stored under its own id. */
    ghost predicate Valid()
      reads this`ids, this`modules
    {
      Distinct(ids)
      && (forall id :: id in modules <==> id in ids)
      && (forall id | id in modules :: modules[id].id == id)
    }

    constructor (modulesPath: string)
      ensures Valid()
      ensures this.modulesPath == modulesPath && ids == [] && modules == map[]
    {
      this.modulesPath := modulesPath;
      ids, modules := [], map[];
    }

    /** `scanModules`: clears the table and loads every directory of the listing in
        order; an unreadable directory leaves the table empty. */
    method ScanModules(fs: FileSystem)
      modifies this`ids, this`modules
      ensures Valid()
      ensures fs.listing.None? ==> ids == [] && modules == map[]
      ensures fs.listing.Some? ==>
        modules == ScanTable(fs, modulesPath, Directories(fs.listing.value))
        && ids == ScanIds(fs, modulesPath, Directories(fs.listing.value))
    {
      ids, modules := [], map[];
      if fs.listing.None? {
        return;
      }
      var entries := fs.listing.value;
      ghost var dirs: seq<string> := [];
      for i := 0 to |entries|
        invariant Valid()
        invariant dirs == Directories(entries[..i])
        invariant modules == ScanTable(fs, modulesPath, dirs) && ids == ScanIds(fs, modulesPath, dirs)
      {
        DirectoriesAt(entries, i);
        if entries[i].isDirectory {
          var _ := LoadModule(fs, entries[i].name);
          dirs := dirs + [entries[i].name];
          assert dirs[..|dirs| - 1] == Directories(entries[..i]);
        }
      }
      assert entries[..|entries|] == entries;
    }

    /** `loadModule`: reads and parses the directory's manifest, checks its dist files and
        stores the module under the manifest's id; an unreadable manifest changes nothing. */
    method LoadModule(fs: FileSystem, dirName: string) returns (r: Option<LoadedModule>)
      requires Valid()
      modifies this`ids, this`modules
      ensures Valid()
      ensures r == ModuleAt(fs, modulesPath, dirName)
      ensures r.None? ==> modules == old(modules) && ids == old(ids)
      ensures r.Some? ==> modules == old(modules)[r.value.id := r.value] && ids == Upsert(old(ids), r.value.id)
    {
      var modulePath := PathJoin(modulesPath, dirName);
      var manifestPath := PathJoin(modulePath, "manifest.json");
      if manifestPath !in fs.manifests {
        return None;
      }
      var manifest := fs.manifests[manifestPath];
      var hasDistFiles := CheckDistFiles(fs.existing, modulePath, manifest);
      var loaded := LoadedModule(manifest.id, manifest, modulePath, hasDistFiles);
      modules := modules[manifest.id := loaded];
      ids := Upsert(ids, manifest.id);
      r := Some(loaded);
    }

    /** `getModules`: the modules in key order, stably sorted by `priority ?? 100`. */
    method GetModules() returns (r: seq<LoadedModule>)
      requires Valid()
      ensures r == SortBy(InOrder(ids, modules), PriorityKey)
    {
      r := SortBy(InOrder(ids, modules), PriorityKey);
    }

    method GetModule(id: string) returns (r: Option<LoadedModule>)
      ensures r == if id in modules then Some(modules[id]) else None
    {
      r := if id in modules then Some(modules[id]) else None;
    }

    method GetModulePath(id: string) returns (r: Option<string>)
      ensures r == if id in modules then Some(modules[id].path) else None
    {
      r := if id in modules then Some(modules[id].path) else None;
    }

    /** `getAllMenus`: one entry per contributing module in priority order, then stably
        sorted by `order ?? 100`. */
    method GetAllMenus() returns (r: seq<ServerMenu>)
      requires Valid()
      ensures r == SortBy(Flatten(SortBy(InOrder(ids, modules), PriorityKey), MenusOf), ServerOrderKey)
    {
      var mods := GetModules();
      var menus: seq<ServerMenu> := [];
      for i := 0 to |mods|
        invariant menus == Flatten(mods[..i], MenusOf)
      {
        var mo := mods[i];
        FlattenAt(mods, i, MenusOf);
        if mo.manifest.pages.Some? && mo.manifest.basePath.Some? && mo.manifest.basePath.value != "" {
          var moduleMenu := ModuleMenu(mo);
          if moduleMenu.Some? {
            menus := menus + [moduleMenu.value];
          }
        }
      }
      assert mods[..|mods|] == mods;
      r := SortBy(menus, ServerOrderKey);
    }

    /** `getAllRoutes`: the routes of every contributing module, in priority order. */
    method GetAllRoutes() returns (r: seq<ServerRoute>)
      requires Valid()
      ensures r == Flatten(SortBy(InOrder(ids, modules), PriorityKey), RoutesOf)
    {
      var mods := GetModules();
      r := [];
      for i := 0 to |mods|
        invariant r == Flatten(mods[..i], RoutesOf)
      {
        var mo := mods[i];
        FlattenAt(mods, i, RoutesOf);
        if mo.manifest.pages.Some? && mo.manifest.basePath.Some? && mo.manifest.basePath.value != "" {
          var routes := ExtractRoutes(mo.manifest.pages.value, mo.id, mo.manifest.basePath.value);
          r := r + routes;
        }
      }
      assert mods[..|mods|] == mods;
    }
  }

  lemma DirectoriesAt(entries: seq<DirEntry>, i: nat)
    requires i < |entries|
    ensures Directories(entries[..i + 1]) == Directories(entries[..i]) + (if entries[i].isDirectory then [entries[i].name] else [])
  {
    DirectoriesAppend(entries[..i], [entries[i]]);
    assert entries[..i + 1] == entries[..i] + [entries[i]];
    assert [entries[i]][1..] == [];
  }

  lemma {:induction false} DirectoriesAppend(a: seq<DirEntry>, b: seq<DirEntry>)
    ensures Directories(a + b) == Directories(a) + Directories(b)
  {
    if a == [] {
      assert a + b == b;
    } else {
      assert (a + b)[1..] == a[1..] + b;
      DirectoriesAppend(a[1..], b);
    }
  }
}
