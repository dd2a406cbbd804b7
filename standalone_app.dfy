/** Standalone apps (`packages/core/src/standalone/create-standalone-app.tsx`): the routes
    generated from an app's pages, with their joined paths and the final catch-all, and the
    provider configuration built from its manifest. */
module StandaloneRouting {
  import opened Wrappers
  import opened AppTypes
  import opened Strings

  /** A generated route element: a page's component at a path, the not-found page, or a
      redirect, both of the last two at `*`. */
  datatype StandaloneRoute =
    | PageRoute(key: string, path: string, component: string)
    | NotFoundRoute
    | RedirectRoute(to: string)

  /** A page's full path: the parent's path and the page's, with runs of `/` collapsed; the
      page's path alone when the parent's is empty. */
  function FullPath(parentPath: string, path: string): string {
    if parentPath != "" then CollapseSlashes(parentPath + path) else path
  }

  /** Under a non-empty parent the full path has no `//`, keeps every other character of
      the concatenation in order, and is non-empty; under the empty parent it is verbatim. */
  lemma FullPathSpec(parentPath: string, path: string)
    ensures parentPath == "" ==> FullPath(parentPath, path) == path
    ensures parentPath != "" ==>
      NoDoubleSlash(FullPath(parentPath, path)) && FullPath(parentPath, path) != ""
      && Without(FullPath(parentPath, path), '/') == Without(parentPath + path, '/')
  {
    if parentPath != "" {
      CollapseSlashesSpec(parentPath + path);
    }
  }

  /** The pages in the order `processPages` visits them, each with its full path. */
  function Walk(pages: seq<Page>, parentPath: string): seq<(Page, string)>
    decreases pages
  {
    if pages == [] then [] else PageWalk(pages[0], parentPath) + Walk(pages[1..], parentPath)
  }

  function PageWalk(p: Page, parentPath: string): seq<(Page, string)>
    decreases p
  {
    var full := FullPath(parentPath, p.path);
    [(p, full)] + match p.children
                  case NoSubPages => []
                  case SubPages(ch) => Walk(ch, full)
  }

  /** `page.component && components[page.component]`. */
  predicate Routed(p: Page, components: set<string>) {
    Truthy(p.component) && p.component.value in components
  }

  /** The routes of a walk: one for every page with a known component. */
  function WalkRoutes(w: seq<(Page, string)>, components: set<string>): seq<StandaloneRoute> {
    if w == [] then []
    else (if Routed(w[0].0, components) then [PageRoute(w[0].0.id, w[0].1, w[0].0.component.value)] else [])
         + WalkRoutes(w[1..], components)
  }

  lemma {:induction false} WalkRoutesAppend(a: seq<(Page, string)>, b: seq<(Page, string)>, components: set<string>)
    ensures WalkRoutes(a + b, components) == WalkRoutes(a, components) + WalkRoutes(b, components)
  {
    if a == [] {
      assert a + b == b;
    } else {
      assert (a + b)[1..] == a[1..] + b;
      WalkRoutesAppend(a[1..], b, components);
    }
  }

  /** Every route is the route of a walked page with a known component, and every such
      page has its route. */
  lemma {:induction false} WalkRoutesMember(w: seq<(Page, string)>, components: set<string>, r: StandaloneRoute)
    ensures r in WalkRoutes(w, components) <==>
      exists i :: 0 <= i < |w| && Routed(w[i].0, components) && r == PageRoute(w[i].0.id, w[i].1, w[i].0.component.value)
  {
    if w != [] {
      WalkRoutesMember(w[1..], components, r);
      if exists i :: 0 <= i < |w| && Routed(w[i].0, components) && r == PageRoute(w[i].0.id, w[i].1, w[i].0.component.value) {
        var i :| 0 <= i < |w| && Routed(w[i].0, components) && r == PageRoute(w[i].0.id, w[i].1, w[i].0.component.value);
        if i > 0 {
          assert w[1..][i - 1] == w[i];
        }
      }
      if exists i :: 0 <= i < |w[1..]| && Routed(w[1..][i].0, components) && r == PageRoute(w[1..][i].0.id, w[1..][i].1, w[1..][i].0.component.value) {
        var i :| 0 <= i < |w[1..]| && Routed(w[1..][i].0, components) && r == PageRoute(w[1..][i].0.id, w[1..][i].1, w[1..][i].0.component.value);
        assert w[i + 1] == w[1..][i];
      }
    }
  }

  /** `ModuleScanner.WalkAppend` for the standalone walk over `Page`s. */
  lemma {:induction false} WalkAppend(a: seq<Page>, b: seq<Page>, parentPath: string)
    ensures Walk(a + b, parentPath) == Walk(a, parentPath) + Walk(b, parentPath)
  {
    if a == [] {
      assert a + b == b;
    } else {
      assert (a + b)[1..] == a[1..] + b;
      WalkAppend(a[1..], b, parentPath);
    }
  }

  lemma WalkAt(ps: seq<Page>, parentPath: string, i: nat)
    requires i < |ps|
    ensures Walk(ps[..i + 1], parentPath) == Walk(ps[..i], parentPath) + PageWalk(ps[i], parentPath)
  {
    WalkAppend(ps[..i], [ps[i]], parentPath);
    assert ps[..i + 1] == ps[..i] + [ps[i]];
    assert [ps[i]][1..] == [];
  }

  lemma PageWalkRoutes(p: Page, parentPath: string, components: set<string>)
    ensures var full := FullPath(parentPath, p.path);
      WalkRoutes(PageWalk(p, parentPath), components)
      == (if Routed(p, components) then [PageRoute(p.id, full, p.component.value)] else [])
         + match p.children
           case NoSubPages => []
           case SubPages(ch) => WalkRoutes(Walk(ch, full), components)
  {
    var full := FullPath(parentPath, p.path);
    var rest: seq<(Page, string)> := match p.children case NoSubPages => [] case SubPages(ch) => Walk(ch, full);
    assert PageWalk(p, parentPath) == [(p, full)] + rest;
    WalkRoutesAppend([(p, full)], rest, components);
    assert [(p, full)][1..] == [];
  }

  /** `processPages`: for each page, its route if its component is known, then its
      children's routes under its full path, whether or not it had a route itself. */
  method ProcessPages(pages: seq<Page>, components: set<string>, parentPath: string) returns (routes: seq<StandaloneRoute>)
    ensures routes == WalkRoutes(Walk(pages, parentPath), components)
    decreases PagesSize(pages), 1
  {
    routes := [];
    for i := 0 to |pages|
      invariant routes == WalkRoutes(Walk(pages[..i], parentPath), components)
    {
      PageSizeBound(pages, i);
      var own := ProcessPage(pages[i], components, parentPath);
      WalkAt(pages, parentPath, i);
      WalkRoutesAppend(Walk(pages[..i], parentPath), PageWalk(pages[i], parentPath), components);
      routes := routes + own;
    }
    assert pages[..|pages|] == pages;
  }

  /** One turn of that loop. */
  method ProcessPage(page: Page, components: set<string>, parentPath: string) returns (routes: seq<StandaloneRoute>)
    ensures routes == WalkRoutes(PageWalk(page, parentPath), components)
    decreases PageSize(page), 0
  {
    var fullPath := if parentPath != "" then CollapseSlashes(parentPath + page.path) else page.path;
    routes := [];
    if page.component.Some? && page.component.value != "" && page.component.value in components {
      routes := routes + [PageRoute(page.id, fullPath, page.component.value)];
    }
    if page.children.SubPages? {
      var sub := ProcessPages(page.children.pages, components, fullPath);
      routes := routes + sub;
    }
    PageWalkRoutes(page, parentPath, components);
  }

  /** Under a non-empty parent path every walked path has no `//`. */
  lemma {:induction false} WalkCollapsed(pages: seq<Page>, parentPath: string)
    requires parentPath != ""
    ensures forall i :: 0 <= i < |Walk(pages, parentPath)| ==> NoDoubleSlash(Walk(pages, parentPath)[i].1)
    decreases pages
  {
    if pages != [] {
      PageWalkCollapsed(pages[0], parentPath);
      WalkCollapsed(pages[1..], parentPath);
    }
  }

  lemma {:induction false} PageWalkCollapsed(p: Page, parentPath: string)
    requires parentPath != ""
    ensures forall i :: 0 <= i < |PageWalk(p, parentPath)| ==> NoDoubleSlash(PageWalk(p, parentPath)[i].1)
    decreases p
  {
    var full := FullPath(parentPath, p.path);
    FullPathSpec(parentPath, p.path);
    match p.children {
      case NoSubPages =>
      case SubPages(ch) => WalkCollapsed(ch, full);
    }
  }

  /** The top-level pages are walked at their own paths: each heads its own walk and is
      among the pairs the whole walk lists. */
  lemma {:induction false} WalkTopLevel(pages: seq<Page>, i: nat)
    requires i < |pages|
    ensures PageWalk(pages[i], "")[0] == (pages[i], pages[i].path)
    ensures (pages[i], pages[i].path) in Walk(pages, "")
    decreases i
  {
    if i == 0 {
      assert Walk(pages, "")[0] == PageWalk(pages[0], "")[0];
    } else {
      assert pages[1..][i - 1] == pages[i];
      WalkTopLevel(pages[1..], i - 1);
    }
  }

  /** The route after the pages': the not-found page if one is given, else a redirect to
      the first page if there is one, else nothing. */
  function CatchAll(pages: seq<Page>, notFound: bool): (r: seq<StandaloneRoute>)
    ensures |r| <= 1
    ensures notFound ==> r == [NotFoundRoute]
    ensures !notFound && pages != [] ==> r == [RedirectRoute(pages[0].path)]
    ensures !notFound && pages == [] ==> r == []
  {
    if notFound then [NotFoundRoute]
    else if |pages| > 0 then [RedirectRoute(pages[0].path)]
    else []
  }

  predicate IsCatchAll(r: StandaloneRoute) {
    r.NotFoundRoute? || r.RedirectRoute?
  }

  /** The walk yields no catch-all of its own. */
  lemma {:induction false} WalkRoutesPlain(w: seq<(Page, string)>, components: set<string>)
    ensures forall i :: 0 <= i < |WalkRoutes(w, components)| ==> WalkRoutes(w, components)[i].PageRoute?
  {
    if w != [] {
      WalkRoutesPlain(w[1..], components);
    }
  }

  /** `generateRoutes`. */
  method GenerateRoutes(pages: seq<Page>, components: set<string>, notFound: bool) returns (routes: seq<StandaloneRoute>)
    ensures routes == WalkRoutes(Walk(pages, ""), components) + CatchAll(pages, notFound)
  {
    routes := ProcessPages(pages, components, "");
    if notFound {
      routes := routes + [NotFoundRoute];
    } else if |pages| > 0 {
      var firstPage := pages[0];
      routes := routes + [RedirectRoute(firstPage.path)];
    }
  }

  /** There is a catch-all exactly when a not-found page is given or there are pages; it
      is the last route, and no other route is one. */
  lemma GeneratedCatchAll(pages: seq<Page>, components: set<string>, notFound: bool)
    ensures var routes := WalkRoutes(Walk(pages, ""), components) + CatchAll(pages, notFound);
      (routes != [] && IsCatchAll(routes[|routes| - 1]) <==> notFound || pages != [])
      && forall i :: 0 <= i < |routes| - 1 ==> !IsCatchAll(routes[i])
  {
    WalkRoutesPlain(Walk(pages, ""), components);
  }

  /** What the provider is given (`StandaloneConfig`), less the user shown in the sidebar. */
  datatype StandaloneConfig = StandaloneConfig(
    appId: string,
    appName: string,
    appIcon: Option<string>,
    pages: Option<seq<Page>>,
    iconResolver: Option<IconResolver>)

  /** `createStandaloneApp`: the provider configuration and the routes for the manifest's
      pages (none when it has none). */
  method CreateStandaloneApp(manifest: ManifestConfig, components: set<string>, iconResolver: Option<IconResolver>, notFound: bool)
    returns (config: StandaloneConfig, routes: seq<StandaloneRoute>)
    ensures config.appId == manifest.id && config.appName == manifest.name
    ensures config.appIcon == manifest.icon && config.pages == manifest.pages && config.iconResolver == iconResolver
    ensures routes == WalkRoutes(Walk(manifest.pages.GetOr([]), ""), components) + CatchAll(manifest.pages.GetOr([]), notFound)
  {
    config := StandaloneConfig(manifest.id, manifest.name, manifest.icon, manifest.pages, iconResolver);
    routes := GenerateRoutes(manifest.pages.GetOr([]), components, notFound);
  }
}
