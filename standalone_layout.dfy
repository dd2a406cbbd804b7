/** The standalone layout's breadcrumb (`packages/core/src/standalone/StandaloneLayout.tsx`):
    the app name, followed by the caption of the menu item at the current path. */
module StandaloneBreadcrumb {
  import opened Wrappers
  import opened AppTypes

  /** A breadcrumb item `{ label, path? }`. */
  datatype Crumb = Crumb(caption: string, path: Option<string>)

  /** The menu items in pre-order: each item, then its children, then its next sibling. */
  function Preorder(ms: seq<MenuItem>): seq<MenuItem>
    decreases ms
  {
    if ms == [] then [] else ItemPreorder(ms[0]) + Preorder(ms[1..])
  }

  function ItemPreorder(m: MenuItem): seq<MenuItem>
    decreases m
  {
    [m] + match m.children
          case NoSubMenus => []
          case SubMenus(ch) => Preorder(ch)
  }

  /** The caption of the first item of `w` whose path is `path`. */
  function FirstAt(w: seq<MenuItem>, path: string): (r: Option<string>)
    ensures r.Some? <==> exists i :: 0 <= i < |w| && w[i].path == path
  {
    if w == [] then None
    else if w[0].path == path then Some(w[0].caption)
    else
      var r := FirstAt(w[1..], path);
      assert forall i :: 1 <= i < |w| ==> w[1..][i - 1] == w[i];
      r
  }

  /** `w[i]` has the path, and no earlier item has. */
  predicate FirstWithPath(w: seq<MenuItem>, i: nat, path: string) {
    i < |w| && w[i].path == path && forall j :: 0 <= j < i ==> w[j].path != path
  }

  /** The caption found is the one of the first item with the path. */
  lemma {:induction false} FirstAtSpec(w: seq<MenuItem>, path: string)
    requires FirstAt(w, path).Some?
    ensures exists i: nat :: FirstWithPath(w, i, path) && FirstAt(w, path) == Some(w[i].caption)
  {
    if w[0].path == path {
      assert FirstWithPath(w, 0, path);
    } else {
      FirstAtSpec(w[1..], path);
      var i: nat :| FirstWithPath(w[1..], i, path) && FirstAt(w[1..], path) == Some(w[1..][i].caption);
      assert w[1..][i] == w[i + 1];
      assert forall j :: 1 <= j < i + 1 ==> w[j] == w[1..][j - 1];
      assert FirstWithPath(w, i + 1, path);
    }
  }

  lemma {:induction false} FirstAtAppend(a: seq<MenuItem>, b: seq<MenuItem>, path: string)
    ensures FirstAt(a + b, path) == if FirstAt(a, path).Some? then FirstAt(a, path) else FirstAt(b, path)
  {
    if a == [] {
      assert a + b == b;
    } else {
      assert (a + b)[0] == a[0] && (a + b)[1..] == a[1..] + b;
      FirstAtAppend(a[1..], b, path);
    }
  }

  lemma {:induction false} PreorderAppend(a: seq<MenuItem>, b: seq<MenuItem>)
    ensures Preorder(a + b) == Preorder(a) + Preorder(b)
  {
    if a == [] {
      assert a + b == b;
    } else {
      assert (a + b)[1..] == a[1..] + b;
      PreorderAppend(a[1..], b);
    }
  }

  lemma PreorderAt(ms: seq<MenuItem>, i: nat)
    requires i < |ms|
    ensures Preorder(ms[..i + 1]) == Preorder(ms[..i]) + ItemPreorder(ms[i])
  {
    PreorderAppend(ms[..i], [ms[i]]);
    assert ms[..i + 1] == ms[..i] + [ms[i]];
    assert [ms[i]][1..] == [];
  }

  /** One turn of `findMenuItem`'s loop, when no earlier item has the path: the search
      ends at this item's subtree if it has the path, and moves on otherwise. */
  lemma FirstAtStep(items: seq<MenuItem>, i: nat, path: string)
    requires i < |items| && FirstAt(Preorder(items[..i]), path).None?
    ensures FirstAt(ItemPreorder(items[i]), path).Some? ==>
      FirstAt(Preorder(items), path) == FirstAt(ItemPreorder(items[i]), path)
    ensures FirstAt(ItemPreorder(items[i]), path).None? ==> FirstAt(Preorder(items[..i + 1]), path).None?
  {
    var before, own, after := Preorder(items[..i]), ItemPreorder(items[i]), Preorder(items[i + 1..]);
    PreorderAt(items, i);
    FirstAtAppend(before, own, path);
    if FirstAt(own, path).Some? {
      assert items == items[..i + 1] + items[i + 1..];
      PreorderAppend(items[..i + 1], items[i + 1..]);
      assert Preorder(items) == (before + own) + after;
      FirstAtAppend(before + own, after, path);
    }
  }

  /** `findMenuItem`: the loop over the items, returning at the first with the path and
      otherwise searching its children before moving on. */
  method FindMenuItem(items: seq<MenuItem>, path: string) returns (found: Option<string>)
    ensures found == FirstAt(Preorder(items), path)
    decreases MenusSize(items), 1
  {
    for i := 0 to |items|
      invariant FirstAt(Preorder(items[..i]), path).None?
    {
      MenuSizeBound(items, i);
      var own := FindInItem(items[i], path);
      FirstAtStep(items, i, path);
      if own.Some? {
        return own;
      }
    }
    assert items[..|items|] == items;
    found := None;
  }

  /** One turn of that loop. */
  method FindInItem(item: MenuItem, path: string) returns (found: Option<string>)
    ensures found == FirstAt(ItemPreorder(item), path)
    decreases MenuSize(item), 0
  {
    var rest: seq<MenuItem> := match item.children case NoSubMenus => [] case SubMenus(ch) => Preorder(ch);
    assert ItemPreorder(item) == [item] + rest;
    assert ([item] + rest)[1..] == rest;
    if item.path == path {
      return Some(item.caption);
    }
    if item.children.SubMenus? {
      found := FindMenuItem(item.children.items, path);
    } else {
      found := None;
    }
  }

  /** `generateBreadcrumb`: the caller's items unchanged, if given; otherwise the app
      name, then the found item's caption. */
  method GenerateBreadcrumb(custom: Option<seq<Crumb>>, appName: string, menus: seq<MenuItem>, currentPath: string)
    returns (items: seq<Crumb>)
    ensures custom.Some? ==> items == custom.value
    ensures custom.None? ==> items == DefaultBreadcrumb(appName, menus, currentPath)
  {
    if custom.Some? {
      return custom.value;
    }
    items := [Crumb(appName, None)];
    var currentItem := FindMenuItem(menus, currentPath);
    if currentItem.Some? {
      items := items + [Crumb(currentItem.value, None)];
    }
  }

  function DefaultBreadcrumb(appName: string, menus: seq<MenuItem>, currentPath: string): seq<Crumb> {
    [Crumb(appName, None)]
    + match FirstAt(Preorder(menus), currentPath)
      case Some(c) => [Crumb(c, None)]
      case None => []
  }

  /** The default breadcrumb starts with the app name; it has a second item exactly when
      some item at any depth has the current path, and that item is the caption of the
      first such item in pre-order. */
  lemma DefaultBreadcrumbSpec(appName: string, menus: seq<MenuItem>, currentPath: string)
    ensures var b := DefaultBreadcrumb(appName, menus, currentPath);
      (|b| == 1 || |b| == 2) && b[0] == Crumb(appName, None)
      && (|b| == 2 <==> exists i :: 0 <= i < |Preorder(menus)| && Preorder(menus)[i].path == currentPath)
      && (|b| == 2 ==> exists i: nat :: FirstWithPath(Preorder(menus), i, currentPath) && b[1].caption == Preorder(menus)[i].caption)
  {
    var w := Preorder(menus);
    var b := DefaultBreadcrumb(appName, menus, currentPath);
    if FirstAt(w, currentPath).Some? {
      FirstAtSpec(w, currentPath);
      var i: nat :| FirstWithPath(w, i, currentPath) && FirstAt(w, currentPath) == Some(w[i].caption);
      assert b == [Crumb(appName, None), Crumb(w[i].caption, None)];
      assert |b| == 2;
      assert exists k :: 0 <= k < |Preorder(menus)| && Preorder(menus)[k].path == currentPath by {
        assert 0 <= i < |w| && w[i].path == currentPath;
      }
      assert |b| == 2 <==> exists k :: 0 <= k < |Preorder(menus)| && Preorder(menus)[k].path == currentPath;
    } else {
      assert b == [Crumb(appName, None)];
    }
  }

  /** Pre-order lists every item of the tree, nested ones included: an item's children
      come right after it. */
  lemma {:induction false} PreorderChildren(ms: seq<MenuItem>, i: nat)
    requires i < |ms| && ms[i].children.SubMenus?
    ensures forall m :: m in Preorder(ms[i].children.items) ==> m in Preorder(ms)
    decreases i
  {
    if i == 0 {
      assert Preorder(ms) == ([ms[0]] + Preorder(ms[0].children.items)) + Preorder(ms[1..]);
    } else {
      assert ms[1..][i - 1] == ms[i];
      PreorderChildren(ms[1..], i - 1);
      assert Preorder(ms) == ItemPreorder(ms[0]) + Preorder(ms[1..]);
    }
  }
}
