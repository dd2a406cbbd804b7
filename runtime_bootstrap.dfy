/** The React runtime's entry point (`packages/react-runtime/src/bootstrap.tsx`): the routes
    of an app's pages, two levels deep, the sanitised app id, the choice between embedded
    and standalone rendering, the mount/unmount root state, and the route-change messages
    an embedded app follows. */
module RuntimeBootstrap {
  import opened Wrappers
  import opened AppTypes
  import opened Strings
  import opened Seqs

  /** A generated route element: a page's component at the page's own path, or the
      fallback redirect at `*`. */
  datatype RuntimeRoute = PageRoute(key: string, path: string, component: string) | Fallback(to: string)

  /** `page.component ? pageComponents[page.component] : null` is a component. */
  predicate HasComponent(p: Page, components: set<string>) {
    Truthy(p.component) && p.component.value in components
  }

  function OwnRoute(p: Page, components: set<string>): (r: seq<RuntimeRoute>)
    ensures |r| <= 1
  {
    if HasComponent(p, components) then [PageRoute(p.id, p.path, p.component.value)] else []
  }

  function OwnOf(components: set<string>): Page -> seq<RuntimeRoute> {
    c => OwnRoute(c, components)
  }

  /** The routes of a top-level page: its own, then its direct children's (theirs only). */
  function TopRoutes(p: Page, components: set<string>): seq<RuntimeRoute> {
    OwnRoute(p, components)
    + match p.children
      case NoSubPages => []
      case SubPages(ch) => Flatten(ch, OwnOf(components))
  }

  function TopOf(components: set<string>): Page -> seq<RuntimeRoute> {
    p => TopRoutes(p, components)
  }

  /** `generateRoutes` without its fallback. */
  function PageRoutes(pages: Option<seq<Page>>, components: set<string>): seq<RuntimeRoute> {
    match pages
    case None => []
    case Some(ps) => Flatten(ps, TopOf(components))
  }

  /** `generateRoutes`' fallback: a redirect to the first page whenever there is one. */
  function FallbackRoute(pages: Option<seq<Page>>): seq<RuntimeRoute> {
    if pages.Some? && |pages.value| > 0 then [Fallback(pages.value[0].path)] else []
  }

  /** `generateRoutes`: the loop over the pages, then the fallback. */
  method GenerateRoutes(pages: Option<seq<Page>>, components: set<string>) returns (routes: seq<RuntimeRoute>)
    ensures routes == PageRoutes(pages, components) + FallbackRoute(pages)
  {
    routes := [];
    if pages.Some? {
      var ps := pages.value;
      for i := 0 to |ps|
        invariant routes == Flatten(ps[..i], TopOf(components))
      {
        var own := PageLoop(ps[i], components);
        FlattenAt(ps, i, TopOf(components));
        routes := routes + own;
      }
      assert ps[..|ps|] == ps;
    }
    if pages.Some? && |pages.value| > 0 {
      routes := routes + [Fallback(pages.value[0].path)];
    }
  }

  /** One turn of the outer loop: the page's route, then the inner loop over its children,
      which does not look at their children. */
  method PageLoop(page: Page, components: set<string>) returns (routes: seq<RuntimeRoute>)
    ensures routes == TopRoutes(page, components)
  {
    routes := [];
    if page.component.Some? && page.component.value != "" && page.component.value in components {
      routes := routes + [PageRoute(page.id, page.path, page.component.value)];
    }
    if page.children.SubPages? {
      var ch := page.children.pages;
      ghost var before := routes;
      for j := 0 to |ch|
        invariant routes == before + Flatten(ch[..j], OwnOf(components))
      {
        var child := ch[j];
        FlattenAt(ch, j, OwnOf(components));
        if child.component.Some? && child.component.value != "" && child.component.value in components {
          routes := routes + [PageRoute(child.id, child.path, child.component.value)];
        }
      }
      assert ch[..|ch|] == ch;
    }
  }

  /** A route comes from a top-level page or from a direct child of one, with a component,
      at that page's own path; every such page has its route, and nothing deeper does. */
  lemma PageRoutesMember(ps: seq<Page>, components: set<string>, r: RuntimeRoute)
    ensures r in PageRoutes(Some(ps), components) <==>
      (exists i :: 0 <= i < |ps| && r in OwnRoute(ps[i], components))
      || (exists i, j :: 0 <= i < |ps| && ps[i].children.SubPages? && 0 <= j < |ps[i].children.pages|
                         && r in OwnRoute(ps[i].children.pages[j], components))
  {
    var f := TopOf(components);
    var g := OwnOf(components);
    FlattenMember(ps, f, r);
    forall i | 0 <= i < |ps| && ps[i].children.SubPages?
      ensures r in f(ps[i]) <==> r in OwnRoute(ps[i], components) || exists j :: 0 <= j < |ps[i].children.pages| && r in g(ps[i].children.pages[j])
    {
      FlattenMember(ps[i].children.pages, g, r);
    }
  }

  /** There is a fallback exactly when there are pages, whether or not any page has a
      component; it is the last route and redirects to the first page. */
  lemma FallbackSpec(pages: Option<seq<Page>>, components: set<string>)
    ensures var routes := PageRoutes(pages, components) + FallbackRoute(pages);
      (routes != [] && routes[|routes| - 1].Fallback? <==> pages.Some? && pages.value != [])
      && (pages.Some? && pages.value != [] ==> routes[|routes| - 1] == Fallback(pages.value[0].path))
  {
    if pages.Some? {
      PlainRoutes(pages.value, components);
    }
  }

  lemma {:induction false} PlainRoutes(ps: seq<Page>, components: set<string>)
    ensures forall r :: r in Flatten(ps, TopOf(components)) ==> r.PageRoute?
  {
    forall r | r in Flatten(ps, TopOf(components)) ensures r.PageRoute? {
      FlattenMember(ps, TopOf(components), r);
      var i :| 0 <= i < |ps| && r in TopRoutes(ps[i], components);
      if ps[i].children.SubPages? && r !in OwnRoute(ps[i], components) {
        FlattenMember(ps[i].children.pages, OwnOf(components), r);
      }
    }
  }

  /** `manifest.id.replace(/[^a-zA-Z0-9]/g, "-")`. */
  function SanitizeId(id: string): (r: string)
    ensures |r| == |id|
    ensures forall i :: 0 <= i < |id| ==> (IsAsciiAlnum(id[i]) ==> r[i] == id[i]) && (!IsAsciiAlnum(id[i]) ==> r[i] == '-')
    ensures forall i :: 0 <= i < |r| ==> IsAsciiAlnum(r[i]) || r[i] == '-'
  {
    ReplaceOthers(id, IsAsciiAlnum)
  }

  /** Sanitising is idempotent: a sanitised id is left as it is. */
  lemma SanitizeIdIdempotent(id: string)
    ensures SanitizeId(SanitizeId(id)) == SanitizeId(id)
  {
  }

  datatype Mode = Standalone | Embedded

  /** `manifest.standalone?.enabled && !isInWujie`. */
  function ChooseMode(standalone: Option<StandaloneOptions>, embedded: bool): (m: Mode)
    ensures m == Standalone <==> standalone.Some? && standalone.value.enabled == Some(true) && !embedded
  {
    if standalone.Some? && standalone.value.enabled == Some(true) && !embedded then Standalone else Embedded
  }

  /** `handleRouteChange`: the path to navigate to, if the message carries one. */
  function RouteChangeTarget(path: string): (r: Option<string>)
    ensures r.Some? <==> path != ""
    ensures r.Some? ==> r.value == path
  {
    if path != "" then Some(path) else None
  }

  /** The bus event an embedded app listens on for route changes. */
  function RouteChangeEvent(appId: string): (e: string)
    ensures StartsWith(e, appId) && EndsWith(e, "-route-change")
  {
    appId + "-route-change"
  }

  /** The closure variable `root` of `bootstrap`, and how often a root was created. */
  class RuntimeRoot {
    const mode: Mode
    var root: Option<Mode>
    var created: nat

    /** `bootstrap`'s tail: inside the host only `mount`/`unmount` are exposed; otherwise
        it mounts at once. */
    constructor (mode: Mode, embedded: bool, containerExists: bool)
      ensures this.mode == mode
      ensures root == (if !embedded && containerExists then Some(mode) else None)
      ensures created == (if !embedded && containerExists then 1 else 0)
    {
      this.mode := mode;
      root, created := None, 0;
      new;
      if !embedded {
        Mount(containerExists);
      }
    }

    /** `mount`: a root rendering the chosen app, created only when the container exists
        and none is held. */
    method Mount(containerExists: bool)
      modifies this
      ensures containerExists && old(root).None? ==> root == Some(mode) && created == old(created) + 1
      ensures !(containerExists && old(root).None?) ==> root == old(root) && created == old(created)
    {
      if containerExists && root.None? {
        root := Some(mode);
        created := created + 1;
      }
    }

    /** `unmount`: drops the root, if any. */
    method Unmount()
      modifies this
      ensures root.None? && created == old(created)
    {
      if root.Some? {
        root := None;
      }
    }
  }

  /** A second mount creates nothing: mounting is idempotent. */
  method MountTwice(r: RuntimeRoot, containerExists: bool)
    modifies r
    ensures r.root == (if containerExists && old(r.root).None? then Some(r.mode) else old(r.root))
    ensures r.created == old(r.created) + (if containerExists && old(r.root).None? then 1 else 0)
  {
    r.Mount(containerExists);
    r.Mount(containerExists);
  }
}
