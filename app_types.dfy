/** The client-side data model of the platform (`packages/core/src/types/app.ts`):
    pages, menu items, routes, users, app statuses, manifests and registry entries.
    Optional fields are `Option`s; a JavaScript value that is "falsy" is spelled out
    wherever the code tests truthiness. */
module AppTypes {
  import opened Wrappers

  datatype Badge = BadgeText(text: string) | BadgeNumber(number: int)

  datatype Target = Blank | Self

  /** A page of an app's manifest: one entry that yields both a menu item and a route.
      The source's `label` field is called `caption` here (`label` is a Dafny keyword). */
  datatype Page = Page(
    id: string,
    caption: string,
    path: string,
    icon: Option<string>,
    component: Option<string>,
    children: SubPages,
    order: Option<int>,
    hidden: bool,
    badge: Option<Badge>,
    permissions: Option<seq<string>>,
    title: Option<string>,
    description: Option<string>,
    external: Option<bool>,
    target: Option<Target>)

  /** The optional `children` array of a page. A dedicated datatype rather than an
      `Option` so that recursion over the page tree is seen to terminate. */
  datatype SubPages = NoSubPages | SubPages(pages: seq<Page>)

  /** A rendered icon: the icon's name as text, or an element built from a named
      icon component. */
  datatype Icon = IconName(name: string) | IconElement(component: string)

  datatype MenuItem = MenuItem(
    id: string,
    caption: string,
    icon: Option<Icon>,
    path: string,
    children: SubMenus,
    order: Option<int>,
    hidden: Option<bool>,
    badge: Option<Badge>,
    permissions: Option<seq<string>>,
    external: Option<bool>,
    target: Option<Target>)

  /** The optional `children` array of a menu item. */
  datatype SubMenus = NoSubMenus | SubMenus(items: seq<MenuItem>)

  /** A route's component: the "render nothing" placeholder, a lazily loaded component
      named by its loader key, or a component given by name. */
  datatype Component = Placeholder | Lazy(loaderKey: string) | Bound(name: string)

  datatype RouteMeta = RouteMeta(
    title: Option<string>,
    description: Option<string>,
    permissions: Option<seq<string>>)

  datatype Route = Route(
    path: string,
    component: Component,
    meta: Option<RouteMeta>,
    children: Option<seq<Route>>)

  datatype PermissionConfig = PermissionConfig(id: string, name: string, description: Option<string>)

  datatype UserInfo = UserInfo(
    id: string,
    name: string,
    avatar: Option<string>,
    permissions: seq<string>,
    roles: seq<string>)

  datatype AppStatus = Pending | Loading | Loaded | Failed | Disabled

  /** The errors the core throws, and the ones thrown by code it calls. */
  datatype Error =
    | MissingId
    | MissingName
    | MissingVersion
    | MenusNotArray
    | RoutesNotArray
    | DuplicateMenuId(menuId: string)
    | LoaderNotFound(appId: string)
    | NameRequired
    | VersionRequired
    | Thrown(message: string)

  /** A lifecycle hook that is present: the outcome its promise settles with. */
  type Hook = Outcome<Error>

  /** The runtime manifest. `menus` and `routes` are declared as arrays but a manifest
      arriving from a loader need not carry them, hence `Option`. */
  datatype AppManifest = AppManifest(
    id: string,
    name: string,
    version: Option<string>,
    description: Option<string>,
    icon: Option<Icon>,
    author: Option<string>,
    basePath: Option<string>,
    menus: Option<seq<MenuItem>>,
    routes: Option<seq<Route>>,
    permissions: Option<seq<PermissionConfig>>,
    tags: Option<seq<string>>,
    priority: Option<int>,
    setup: Option<Hook>,
    teardown: Option<Hook>)

  /** A manifest with only id, name and version set and empty menus and routes. */
  function BareManifest(id: string, name: string, version: Option<string>): AppManifest {
    AppManifest(id, name, version, None, None, None, None, Some([]), Some([]), None, None, None, None, None)
  }

  datatype RegisteredApp = RegisteredApp(
    manifest: AppManifest,
    active: bool,
    status: AppStatus,
    error: Option<Error>,
    sourcePath: Option<string>)

  /** A menu item as a JSON manifest declares it: its icon is a name. */
  datatype MenuConfig = MenuConfig(
    id: string,
    caption: string,
    icon: Option<string>,
    path: string,
    children: MenuConfigs,
    order: Option<int>,
    hidden: Option<bool>,
    badge: Option<Badge>,
    permissions: Option<seq<string>>,
    external: Option<bool>,
    target: Option<Target>)

  datatype MenuConfigs = NoMenuConfigs | MenuConfigs(items: seq<MenuConfig>)

  /** A route as a JSON manifest declares it: its component is named by an entry. */
  datatype RouteEntry = RouteEntry(path: string, entry: Option<string>, meta: Option<RouteMeta>, children: Option<seq<RouteEntry>>)

  /** An app manifest as written in JSON (`AppManifestConfig`), less the fields the core
      never reads. */
  datatype ManifestConfig = ManifestConfig(
    id: string,
    name: string,
    version: Option<string>,
    description: Option<string>,
    icon: Option<string>,
    author: Option<string>,
    basePath: Option<string>,
    menus: Option<seq<MenuConfig>>,
    routes: Option<seq<RouteEntry>>,
    permissions: Option<seq<PermissionConfig>>,
    tags: Option<seq<string>>,
    priority: Option<int>,
    pages: Option<seq<Page>>,
    standalone: Option<StandaloneOptions>)

  /** The `standalone` section of a manifest: whether the app may run on its own. */
  datatype StandaloneOptions = StandaloneOptions(enabled: Option<bool>)

  /** An icon resolver: what it renders for an icon name (`None` for a nullish result). */
  type IconResolver = string -> Option<Icon>

  /** JavaScript truthiness of an optional string: present and non-empty. */
  predicate Truthy(s: Option<string>) {
    s.Some? && s.value != ""
  }

  /** `a || b` on strings. */
  function OrElse(a: string, b: string): string {
    if a != "" then a else b
  }

  /** `priority ?? 100` and `order ?? 100`: the sort key the core uses everywhere. */
  function KeyOr100(k: Option<int>): int {
    k.GetOr(100)
  }

  /** Number of items in a menu forest: the measure for loops that recurse into children. */
  function MenusSize(ms: seq<MenuItem>): nat
    decreases ms
  {
    if ms == [] then 0 else MenuSize(ms[0]) + MenusSize(ms[1..])
  }

  function MenuSize(m: MenuItem): nat
    decreases m
  {
    1 + match m.children
        case NoSubMenus => 0
        case SubMenus(ch) => MenusSize(ch)
  }

  lemma {:induction false} MenusSizeChild(ms: seq<MenuItem>, i: nat)
    requires i < |ms| && ms[i].children.SubMenus?
    ensures MenusSize(ms[i].children.items) < MenusSize(ms)
    decreases i
  {
    if i > 0 {
      assert ms[1..][i - 1] == ms[i];
      MenusSizeChild(ms[1..], i - 1);
    }
  }

  /** Number of pages in a page forest. */
  function PagesSize(ps: seq<Page>): nat
    decreases ps
  {
    if ps == [] then 0 else PageSize(ps[0]) + PagesSize(ps[1..])
  }

  function PageSize(p: Page): nat
    decreases p
  {
    1 + match p.children
        case NoSubPages => 0
        case SubPages(ch) => PagesSize(ch)
  }

  lemma {:induction false} PagesSizeChild(ps: seq<Page>, i: nat)
    requires i < |ps| && ps[i].children.SubPages?
    ensures PagesSize(ps[i].children.pages) < PagesSize(ps)
    decreases i
  {
    if i > 0 {
      assert ps[1..][i - 1] == ps[i];
      PagesSizeChild(ps[1..], i - 1);
    }
  }

  /** A page of a list is no larger than the list: the measure the page walks
      decrease by. */
  lemma {:induction false} PageSizeBound(ps: seq<Page>, i: nat)
    requires i < |ps|
    ensures PageSize(ps[i]) <= PagesSize(ps)
    decreases i
  {
    if i > 0 {
      assert ps[1..][i - 1] == ps[i];
      PageSizeBound(ps[1..], i - 1);
    }
  }

  lemma {:induction false} MenuSizeBound(ms: seq<MenuItem>, i: nat)
    requires i < |ms|
    ensures MenuSize(ms[i]) <= MenusSize(ms)
    decreases i
  {
    if i > 0 {
      assert ms[1..][i - 1] == ms[i];
      MenuSizeBound(ms[1..], i - 1);
    }
  }
}
