/** The permission layer (`packages/core/src/registry/permission-manager.ts`): one current
    user, permission checks against it, menu and route filtering, and a set of listeners
    told about every change of user. The checks and filters read only the current user,
    which they take here as a parameter. */
module Permissions {
  import opened Wrappers
  import opened AppTypes
  import opened Seqs

  // ---------------------------------------------------------------- checks

  /** `checkPermission`: no user has no permission; an admin has every permission;
      anyone else has exactly the listed ones. */
  predicate CheckPermission(user: Option<UserInfo>, p: string) {
    if user.None? then false
    else if "admin" in user.value.roles then true
    else p in user.value.permissions
  }

  /** `checkPermissions`: every permission of the list (an empty list passes). */
  predicate CheckPermissions(user: Option<UserInfo>, ps: seq<string>) {
    if ps == [] then true else CheckPermission(user, ps[0]) && CheckPermissions(user, ps[1..])
  }

  /** `checkAnyPermission`: some permission of the list (an empty list passes). */
  predicate CheckAnyPermission(user: Option<UserInfo>, ps: seq<string>) {
    if ps == [] then true else SomePermission(user, ps)
  }

  predicate SomePermission(user: Option<UserInfo>, ps: seq<string>) {
    ps != [] && (CheckPermission(user, ps[0]) || SomePermission(user, ps[1..]))
  }

  /** Without a user nothing is permitted, yet the empty requirement lists pass. */
  lemma NoUser(p: string)
    ensures !CheckPermission(None, p)
    ensures CheckPermissions(None, []) && CheckAnyPermission(None, [])
  {
  }

  /** The admin role bypasses the permission list; otherwise it is plain membership. */
  lemma AdminBypass(u: UserInfo, p: string)
    ensures "admin" in u.roles ==> CheckPermission(Some(u), p)
    ensures "admin" !in u.roles ==> (CheckPermission(Some(u), p) <==> p in u.permissions)
  {
  }

  /** `checkPermissions` is the conjunction of `checkPermission` over the list. */
  lemma {:induction false} CheckPermissionsAll(user: Option<UserInfo>, ps: seq<string>)
    ensures CheckPermissions(user, ps) <==> forall i :: 0 <= i < |ps| ==> CheckPermission(user, ps[i])
  {
    if ps != [] {
      CheckPermissionsAll(user, ps[1..]);
      assert forall i :: 1 <= i < |ps| ==> ps[i] == ps[1..][i - 1];
    }
  }

  /** `checkAnyPermission` on a non-empty list is the disjunction of `checkPermission`. */
  lemma {:induction false} CheckAnyPermissionSome(user: Option<UserInfo>, ps: seq<string>)
    ensures SomePermission(user, ps) <==> exists i :: 0 <= i < |ps| && CheckPermission(user, ps[i])
  {
    if ps != [] {
      CheckAnyPermissionSome(user, ps[1..]);
      if exists i :: 0 <= i < |ps| && CheckPermission(user, ps[i]) {
        var i :| 0 <= i < |ps| && CheckPermission(user, ps[i]);
        if i > 0 {
          assert ps[1..][i - 1] == ps[i];
        }
      }
      if SomePermission(user, ps[1..]) {
        var i :| 0 <= i < |ps[1..]| && CheckPermission(user, ps[1..][i]);
        assert ps[i + 1] == ps[1..][i];
      }
    }
  }

  /** Having all of a list implies having any of it. */
  lemma AllImpliesAny(user: Option<UserInfo>, ps: seq<string>)
    ensures CheckPermissions(user, ps) ==> CheckAnyPermission(user, ps)
  {
    if ps != [] && CheckPermissions(user, ps) {
      CheckPermissionsAll(user, ps);
      CheckAnyPermissionSome(user, ps);
      assert CheckPermission(user, ps[0]);
    }
  }

  // ---------------------------------------------------------------- filters

  /** An unset or empty requirement list passes; otherwise `checkPermissions` decides. */
  predicate Allowed(user: Option<UserInfo>, required: Option<seq<string>>) {
    required.None? || required.value == [] || CheckPermissions(user, required.value)
  }

  /** `filterMenus`: keeps permitted items, filters their children, and then drops every
      item whose children list came out empty. */
  function FilterMenus(user: Option<UserInfo>, ms: seq<MenuItem>): seq<MenuItem>
    decreases ms
  {
    if ms == [] then []
    else
      (match FilterItem(user, ms[0]) case None => [] case Some(m) => [m]) + FilterMenus(user, ms[1..])
  }

  /** The fate of one item: dropped, or kept with its children filtered. */
  function FilterItem(user: Option<UserInfo>, m: MenuItem): Option<MenuItem>
    decreases m
  {
    if !Allowed(user, m.permissions) then None
    else match m.children
         case NoSubMenus => Some(m)
         case SubMenus(ch) =>
           var kept := FilterMenus(user, ch);
           if kept == [] then None else Some(m.(children := SubMenus(kept)))
  }

  /** `a` agrees with `b` in every field but the children. */
  predicate SameButChildren(a: MenuItem, b: MenuItem) {
    a.(children := b.children) == b
  }

  /** `a` is `b` with items left out, the rest in order, each possibly with other children. */
  predicate Embedded(a: seq<MenuItem>, b: seq<MenuItem>)
    decreases |b|
  {
    a == [] || (b != [] && ((SameButChildren(a[0], b[0]) && Embedded(a[1..], b[1..])) || Embedded(a, b[1..])))
  }

  /** Every item of the tree is permitted and no children list is empty. */
  predicate DeepClean(user: Option<UserInfo>, ms: seq<MenuItem>)
    decreases ms
  {
    ms != [] ==> ItemClean(user, ms[0]) && DeepClean(user, ms[1..])
  }

  predicate ItemClean(user: Option<UserInfo>, m: MenuItem)
    decreases m
  {
    Allowed(user, m.permissions)
    && match m.children
       case NoSubMenus => true
       case SubMenus(ch) => ch != [] && DeepClean(user, ch)
  }

  /** The survivors of `filterMenus` are the input's items in order, each permitted;
      no item in the result, at any depth, is unpermitted or has an empty children list
      (an item whose input children was `[]` is dropped too). */
  lemma {:induction false} FilterMenusSpec(user: Option<UserInfo>, ms: seq<MenuItem>)
    ensures Embedded(FilterMenus(user, ms), ms)
    ensures DeepClean(user, FilterMenus(user, ms))
    ensures forall i :: 0 <= i < |FilterMenus(user, ms)| ==> Allowed(user, FilterMenus(user, ms)[i].permissions)
    decreases ms
  {
    if ms != [] {
      FilterMenusSpec(user, ms[1..]);
      FilterItemSpec(user, ms[0]);
      var rest := FilterMenus(user, ms[1..]);
      var r := FilterMenus(user, ms);
      match FilterItem(user, ms[0]) {
        case None =>
          assert r == rest;
        case Some(m) =>
          assert r == [m] + rest;
          assert r[0] == m && r[1..] == rest;
          forall i | 0 <= i < |r| ensures Allowed(user, r[i].permissions) {
            if i > 0 {
              assert r[i] == rest[i - 1];
            }
          }
      }
    }
  }

  lemma {:induction false} FilterItemSpec(user: Option<UserInfo>, m: MenuItem)
    ensures FilterItem(user, m).Some? ==>
      var k := FilterItem(user, m).value;
      SameButChildren(k, m) && ItemClean(user, k) && (k.children.SubMenus? <==> m.children.SubMenus?)
    decreases m
  {
    if m.children.SubMenus? {
      FilterMenusSpec(user, m.children.items);
    }
  }

  lemma {:induction false} FilterMenusAppend(user: Option<UserInfo>, a: seq<MenuItem>, b: seq<MenuItem>)
    ensures FilterMenus(user, a + b) == FilterMenus(user, a) + FilterMenus(user, b)
  {
    if a == [] {
      assert a + b == b;
    } else {
      assert (a + b)[0] == a[0] && (a + b)[1..] == a[1..] + b;
      FilterMenusAppend(user, a[1..], b);
      Assoc(match FilterItem(user, a[0]) case None => [] case Some(m) => [m], FilterMenus(user, a[1..]), FilterMenus(user, b));
    }
  }

  /** Item `i`'s fate, in its place among the survivors: an unpermitted item is dropped;
      a permitted item without children is kept unchanged; a permitted item with
      children is kept, with its children filtered, exactly when some child survives. */
  lemma FilterMenusAt(user: Option<UserInfo>, ms: seq<MenuItem>, i: nat)
    requires i < |ms|
    ensures FilterMenus(user, ms) == FilterMenus(user, ms[..i]) + FilterMenus(user, [ms[i]]) + FilterMenus(user, ms[i + 1..])
    ensures !Allowed(user, ms[i].permissions) ==> FilterMenus(user, [ms[i]]) == []
    ensures Allowed(user, ms[i].permissions) && ms[i].children.NoSubMenus? ==> FilterMenus(user, [ms[i]]) == [ms[i]]
    ensures Allowed(user, ms[i].permissions) && ms[i].children.SubMenus? ==>
      var kept := FilterMenus(user, ms[i].children.items);
      FilterMenus(user, [ms[i]]) == if kept == [] then [] else [ms[i].(children := SubMenus(kept))]
  {
    assert ms == ms[..i] + [ms[i]] + ms[i + 1..];
    FilterMenusAppend(user, ms[..i], [ms[i]]);
    FilterMenusAppend(user, ms[..i] + [ms[i]], ms[i + 1..]);
    assert [ms[i]][1..] == [];
  }

  /** A tree that is already clean passes through `filterMenus` unchanged. */
  lemma {:induction false} FilterMenusClean(user: Option<UserInfo>, ms: seq<MenuItem>)
    requires DeepClean(user, ms)
    ensures FilterMenus(user, ms) == ms
    decreases ms
  {
    if ms != [] {
      FilterMenusClean(user, ms[1..]);
      FilterItemClean(user, ms[0]);
      assert ms == [ms[0]] + ms[1..];
    }
  }

  lemma {:induction false} FilterItemClean(user: Option<UserInfo>, m: MenuItem)
    requires ItemClean(user, m)
    ensures FilterItem(user, m) == Some(m)
    decreases m
  {
    if m.children.SubMenus? {
      FilterMenusClean(user, m.children.items);
    }
  }

  /** For a fixed user, filtering the filtered menus changes nothing. */
  lemma FilterMenusIdempotent(user: Option<UserInfo>, ms: seq<MenuItem>)
    ensures FilterMenus(user, FilterMenus(user, ms)) == FilterMenus(user, ms)
  {
    FilterMenusSpec(user, ms);
    FilterMenusClean(user, FilterMenus(user, ms));
  }

  predicate RouteAllowed(user: Option<UserInfo>, r: Route) {
    r.meta.None? || Allowed(user, r.meta.value.permissions)
  }

  /** `filterRoutes`: a flat filter on each route's own `meta.permissions`; children are
      not looked at. */
  function FilterRoutes(user: Option<UserInfo>, rs: seq<Route>): (r: seq<Route>)
    ensures forall x :: x in r <==> x in rs && RouteAllowed(user, x)
    ensures IsSubsequence(r, rs)
    ensures forall x :: multiset(r)[x] == if RouteAllowed(user, x) then multiset(rs)[x] else 0
  {
    FilterSubsequence(rs, x => RouteAllowed(user, x));
    FilterMultiset(rs, x => RouteAllowed(user, x));
    Filter(rs, x => RouteAllowed(user, x))
  }

  // ---------------------------------------------------------------- the manager

  /** A subscribed callback; `throws` says whether calling it throws. */
  datatype Subscriber = Subscriber(id: nat, throws: bool)

  /** One call of a subscriber with the user, and whether it threw. */
  datatype Call = Call(subscriber: Subscriber, user: Option<UserInfo>, threw: bool)

  /** `notifyListeners`: every subscriber, in subscription order, is called with the
      user; a throwing one is caught and the next is still called. */
  function NotifyUser(subs: seq<Subscriber>, u: Option<UserInfo>): (calls: seq<Call>)
    ensures |calls| == |subs|
    ensures forall i :: 0 <= i < |subs| ==> calls[i] == Call(subs[i], u, subs[i].throws)
  {
    seq(|subs|, i requires 0 <= i < |subs| => Call(subs[i], u, subs[i].throws))
  }

  /** A subscriber is called by a notification exactly when it is subscribed. */
  lemma NotifyUserCalls(subs: seq<Subscriber>, u: Option<UserInfo>, s: Subscriber)
    ensures (exists i :: 0 <= i < |subs| && NotifyUser(subs, u)[i].subscriber == s) <==> s in subs
  {
    if s in subs {
      var i :| 0 <= i < |subs| && subs[i] == s;
      assert NotifyUser(subs, u)[i].subscriber == s;
    }
  }

  class PermissionManager {
    var currentUser: Option<UserInfo>
    var subscribers: seq<Subscriber>
    var calls: seq<Call>

    ghost predicate Valid()
      reads this`subscribers
    {
      Distinct(subscribers)
    }

    constructor ()
      ensures Valid()
      ensures currentUser == None && subscribers == [] && calls == []
    {
      currentUser, subscribers, calls := None, [], [];
    }

    /** `setUser`, followed by the notification of every subscriber. */
    method SetUser(u: Option<UserInfo>)
      modifies this`currentUser, this`calls
      ensures currentUser == u
      ensures calls == old(calls) + NotifyUser(subscribers, u)
    {
      currentUser := u;
      ghost var c0 := calls;
      for i := 0 to |subscribers|
        invariant currentUser == u
        invariant calls == c0 + NotifyUser(subscribers[..i], u)
      {
        calls := calls + [Call(subscribers[i], u, subscribers[i].throws)];
        assert NotifyUser(subscribers[..i + 1], u) == NotifyUser(subscribers[..i], u) + [Call(subscribers[i], u, subscribers[i].throws)];
      }
      assert subscribers[..|subscribers|] == subscribers;
    }

    method GetUser() returns (u: Option<UserInfo>)
      ensures u == currentUser
    {
      u := currentUser;
    }

    /** `subscribe`: adds the callback to the set. */
    method Subscribe(s: Subscriber)
      requires Valid()
      modifies this`subscribers
      ensures Valid()
      ensures subscribers == Upsert(old(subscribers), s)
    {
      subscribers := Upsert(subscribers, s);
    }

    /** The function `subscribe` returns: removes the callback from the set. */
    method Unsubscribe(s: Subscriber)
      requires Valid()
      modifies this`subscribers
      ensures Valid()
      ensures subscribers == Remove(old(subscribers), s) && s !in subscribers
    {
      RemoveDistinct(subscribers, s);
      subscribers := Remove(subscribers, s);
    }
  }
}
