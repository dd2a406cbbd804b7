/** The standalone provider (`packages/core/src/standalone/StandaloneProvider.tsx`): the
    sidebar menus an app running on its own derives from its pages, and the sidebar's
    open/closed state. */
module StandaloneMenus {
  import opened Wrappers
  import opened AppTypes
  import opened Seqs

  /** `page.icon ? iconResolver?.(page.icon) ?? page.icon : undefined`. */
  function PageIcon(res: Option<IconResolver>, icon: Option<string>): (r: Option<Icon>)
    ensures !Truthy(icon) ==> r.None?
    ensures Truthy(icon) && res.Some? && res.value(icon.value).Some? ==> r == res.value(icon.value)
    ensures Truthy(icon) && (res.None? || res.value(icon.value).None?) ==> r == Some(IconName(icon.value))
  {
    if !Truthy(icon) then None
    else if res.Some? && res.value(icon.value).Some? then res.value(icon.value)
    else Some(IconName(icon.value))
  }

  predicate Shown(p: Page) {
    !p.hidden
  }

  /** `transformPagesToMenus`: hidden pages are filtered out, the rest mapped in order. */
  function PagesToMenus(res: Option<IconResolver>, ps: seq<Page>): (r: seq<MenuItem>)
    ensures |r| <= |ps|
    decreases ps
  {
    if ps == [] then []
    else (if ps[0].hidden then [] else [PageToMenu(res, ps[0])]) + PagesToMenus(res, ps[1..])
  }

  /** One page as a menu item: its own path, no visibility flag, and children exactly when
      the page has children. */
  function PageToMenu(res: Option<IconResolver>, p: Page): (m: MenuItem)
    ensures m.id == p.id && m.caption == p.caption && m.path == p.path && m.hidden.None?
    ensures m.order == p.order && m.badge == p.badge && m.permissions == p.permissions
    ensures m.icon == PageIcon(res, p.icon)
    ensures m.external == p.external && m.target == p.target
    ensures m.children.SubMenus? <==> p.children.SubPages?
    decreases p
  {
    MenuItem(p.id, p.caption, PageIcon(res, p.icon), p.path,
      match p.children
      case NoSubPages => NoSubMenus
      case SubPages(ch) => SubMenus(PagesToMenus(res, ch)),
      p.order, None, p.badge, p.permissions, p.external, p.target)
  }

  function MapPages(res: Option<IconResolver>, ps: seq<Page>): (r: seq<MenuItem>)
    ensures |r| == |ps| && forall i :: 0 <= i < |ps| ==> r[i] == PageToMenu(res, ps[i])
  {
    seq(|ps|, i requires 0 <= i < |ps| => PageToMenu(res, ps[i]))
  }

  lemma MapPagesCons(res: Option<IconResolver>, p: Page, ps: seq<Page>)
    ensures MapPages(res, [p] + ps) == [PageToMenu(res, p)] + MapPages(res, ps)
  {
    var l, r := MapPages(res, [p] + ps), [PageToMenu(res, p)] + MapPages(res, ps);
    forall i | 0 <= i < |l| ensures l[i] == r[i] {
      if i > 0 {
        assert ([p] + ps)[i] == ps[i - 1];
      }
    }
  }

  /** At the top level the menus are the shown pages, in their order, each mapped. */
  lemma {:induction false} PagesToMenusTop(res: Option<IconResolver>, ps: seq<Page>)
    ensures PagesToMenus(res, ps) == MapPages(res, Filter(ps, Shown))
  {
    if ps != [] {
      PagesToMenusTop(res, ps[1..]);
      var f := Filter(ps[1..], Shown);
      assert PagesToMenus(res, ps) == (if ps[0].hidden then [] else [PageToMenu(res, ps[0])]) + PagesToMenus(res, ps[1..]);
      assert Filter(ps, Shown) == (if Shown(ps[0]) then [ps[0]] else []) + f;
      if Shown(ps[0]) {
        MapPagesCons(res, ps[0], f);
      } else {
        assert [] + f == f;
      }
    }
  }

  /** The (id, path) pairs of a menu tree in pre-order. */
  function MenuEntries(ms: seq<MenuItem>): seq<(string, string)>
    decreases ms
  {
    if ms == [] then []
    else [(ms[0].id, ms[0].path)]
         + (match ms[0].children case NoSubMenus => [] case SubMenus(ch) => MenuEntries(ch))
         + MenuEntries(ms[1..])
  }

  /** The (id, path) pairs of the pages reached without passing a hidden page, each with
      its own path. */
  function ShownEntries(ps: seq<Page>): seq<(string, string)>
    decreases ps
  {
    if ps == [] then []
    else if ps[0].hidden then ShownEntries(ps[1..])
    else [(ps[0].id, ps[0].path)]
         + (match ps[0].children case NoSubPages => [] case SubPages(ch) => ShownEntries(ch))
         + ShownEntries(ps[1..])
  }

  /** At every depth a hidden page and its whole subtree are gone, the rest keep their
      order, and each path is the page's own with no parent prefix. */
  lemma {:induction false} PagesToMenusEntries(res: Option<IconResolver>, ps: seq<Page>)
    ensures MenuEntries(PagesToMenus(res, ps)) == ShownEntries(ps)
    decreases ps
  {
    if ps != [] {
      PagesToMenusEntries(res, ps[1..]);
      var rest := PagesToMenus(res, ps[1..]);
      if !ps[0].hidden {
        var m := PageToMenu(res, ps[0]);
        var r := [m] + rest;
        assert PagesToMenus(res, ps) == r;
        assert r[0] == m && r[1..] == rest;
        match ps[0].children {
          case NoSubPages =>
          case SubPages(ch) => PagesToMenusEntries(res, ch);
        }
      } else {
        assert PagesToMenus(res, ps) == [] + rest == rest;
      }
    }
  }

  /** The sidebar's `useState`. */
  class Sidebar {
    var open: bool

    /** Open unless `defaultSidebarOpen` is `false`. */
    constructor (defaultOpen: Option<bool>)
      ensures open == defaultOpen.GetOr(true)
    {
      open := defaultOpen.GetOr(true);
    }

    method ToggleSidebar()
      modifies this
      ensures open == !old(open)
    {
      open := !open;
    }

    method SetSidebarOpen(b: bool)
      modifies this
      ensures open == b
    {
      open := b;
    }
  }

  /** The provider's menus: from the configured pages, none when there are none. */
  function ProviderMenus(pages: Option<seq<Page>>, res: Option<IconResolver>): (r: seq<MenuItem>)
    ensures pages.None? ==> r == []
    ensures pages.Some? ==> r == PagesToMenus(res, pages.value)
  {
    PagesToMenus(res, pages.GetOr([]))
  }
}
