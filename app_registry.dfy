/** The app registry (`packages/core/src/registry/app-registry.ts`): a table of apps
    keyed by id, a table of loaders, listener sets per event type, and the platform
    configuration. The table's key order (a JavaScript `Map` iterates in insertion order)
    is kept in `ids`. Every emitted event is appended to `events`, and every call of a
    listener to `deliveries`. Lifecycle hooks and loaders are values carrying the outcome
    their promise settles with. */
module Registry {
  import opened Wrappers
  import opened AppTypes
  import opened Seqs
  import opened Sorting

  // ---------------------------------------------------------------- events

  datatype EventType =
    | RegisteredEvent | UnregisteredEvent | LoadedEvent | ErrorEvent
    | StatusChangedEvent | MenuUpdatedEvent | RouteUpdatedEvent | PermissionUpdatedEvent

  /** An emitted event with its payload. `StatusChanged` and `ActiveChanged` are the two
      payload shapes of "app:status-changed". */
  datatype Event =
    | AppRegistered(appId: string, manifest: AppManifest)
    | AppUnregistered(appId: string)
    | AppLoaded(appId: string)
    | AppErrored(appId: string, cause: Error)
    | StatusChanged(appId: string, status: AppStatus, failure: Option<Error>)
    | ActiveChanged(appId: string, active: bool)
    | MenusUpdated(menus: seq<MenuItem>)
    | RoutesUpdated(routes: seq<Route>)
    | PermissionsUpdated(permissions: seq<PermissionConfig>)
  {
    function Type(): EventType {
      match this
      case AppRegistered(_, _) => RegisteredEvent
      case AppUnregistered(_) => UnregisteredEvent
      case AppLoaded(_) => LoadedEvent
      case AppErrored(_, _) => ErrorEvent
      case StatusChanged(_, _, _) => StatusChangedEvent
      case ActiveChanged(_, _) => StatusChangedEvent
      case MenusUpdated(_) => MenuUpdatedEvent
      case RoutesUpdated(_) => RouteUpdatedEvent
      case PermissionsUpdated(_) => PermissionUpdatedEvent
    }
  }

  /** A subscribed callback, identified by `id`; `throws` says whether calling it throws. */
  datatype Listener = Listener(id: nat, throws: bool)

  /** One call of a listener with an event, and whether that call threw. */
  datatype Delivery = Delivery(listener: Listener, event: Event, threw: bool)

  function ListenersFor(listeners: map<EventType, seq<Listener>>, t: EventType): seq<Listener> {
    if t in listeners then listeners[t] else []
  }

  /** The calls `emit` makes: every listener of the event's type, in subscription order. */
  function Notify(ls: seq<Listener>, e: Event): (d: seq<Delivery>)
    ensures |d| == |ls|
    ensures forall i :: 0 <= i < |ls| ==> d[i] == Delivery(ls[i], e, ls[i].throws)
  {
    seq(|ls|, i requires 0 <= i < |ls| => Delivery(ls[i], e, ls[i].throws))
  }

  /** The calls made by emitting `evs` one after another. */
  function NotifyAll(listeners: map<EventType, seq<Listener>>, evs: seq<Event>): seq<Delivery> {
    if evs == [] then []
    else NotifyAll(listeners, evs[..|evs| - 1]) + Notify(ListenersFor(listeners, evs[|evs| - 1].Type()), evs[|evs| - 1])
  }

  lemma {:induction false} NotifyAllAppend(listeners: map<EventType, seq<Listener>>, a: seq<Event>, b: seq<Event>)
    ensures NotifyAll(listeners, a + b) == NotifyAll(listeners, a) + NotifyAll(listeners, b)
    decreases |b|
  {
    if b == [] {
      assert a + b == a;
    } else {
      var b' := b[..|b| - 1];
      assert (a + b)[..|a + b| - 1] == a + b';
      assert (a + b)[|a + b| - 1] == b[|b| - 1];
      NotifyAllAppend(listeners, a, b');
    }
  }

  lemma NotifyAllSingle(listeners: map<EventType, seq<Listener>>, e: Event)
    ensures NotifyAll(listeners, [e]) == Notify(ListenersFor(listeners, e.Type()), e)
  {
    assert [e][..0] == [];
  }

  /** The log `(events1, deliveries1)` is `(events0, deliveries0)` followed by `evs`
      and the listener calls emitting them made. */
  predicate Logged(listeners: map<EventType, seq<Listener>>, events0: seq<Event>, deliveries0: seq<Delivery>,
                   events1: seq<Event>, deliveries1: seq<Delivery>, evs: seq<Event>)
  {
    events1 == events0 + evs && deliveries1 == deliveries0 + NotifyAll(listeners, evs)
  }

  lemma LoggedTrans(listeners: map<EventType, seq<Listener>>, e0: seq<Event>, d0: seq<Delivery>,
                    e1: seq<Event>, d1: seq<Delivery>, e2: seq<Event>, d2: seq<Delivery>, a: seq<Event>, b: seq<Event>)
    requires Logged(listeners, e0, d0, e1, d1, a) && Logged(listeners, e1, d1, e2, d2, b)
    ensures Logged(listeners, e0, d0, e2, d2, a + b)
  {
    NotifyAllAppend(listeners, a, b);
    Assoc(e0, a, b);
    Assoc(d0, NotifyAll(listeners, a), NotifyAll(listeners, b));
  }

  /** Emitting nothing logs nothing. */
  lemma LoggedNone(listeners: map<EventType, seq<Listener>>, e: seq<Event>, d: seq<Delivery>)
    ensures Logged(listeners, e, d, e, d, [])
  {
    assert e + [] == e && d + [] == d;
  }

  /** A throwing listener does not keep later listeners from being called: every
      subscribed listener is called exactly once, in order, whatever the others do. */
  lemma NotifyReachesAll(ls: seq<Listener>, e: Event, i: nat)
    requires i < |ls|
    ensures Notify(ls, e)[i].listener == ls[i] && Notify(ls, e)[i].event == e
    ensures ls[i].throws ==> Notify(ls, e)[i].threw
    ensures forall j :: i < j < |ls| ==> Notify(ls, e)[j].listener == ls[j]
  {
  }

  // ---------------------------------------------------------------- loaders and config

  /** What a loader's promise resolves to: `{ default: manifest }` or the manifest itself. */
  datatype LoadedModule = DefaultExport(exported: AppManifest) | BareModule(manifest: AppManifest)

  /** `"default" in module ? module.default : module`. */
  function ManifestOf(m: LoadedModule): AppManifest {
    match m
    case DefaultExport(x) => x
    case BareModule(x) => x
  }

  /** A stored loader: the outcome of calling it. */
  datatype Loader = Loader(result: Result<LoadedModule, Error>)

  datatype PlatformConfig = PlatformConfig(
    name: string,
    version: string,
    basePath: Option<string>,
    userAppsPath: Option<string>,
    remoteRegistry: Option<string>)

  const DefaultConfig := PlatformConfig("Nexo Platform", "1.0.0", None, Some("/user-apps"), None)

  /** `Partial<PlatformConfig>`: `None` is a key the caller did not give. */
  datatype PartialConfig = PartialConfig(
    name: Option<string>,
    version: Option<string>,
    basePath: Option<string>,
    userAppsPath: Option<string>,
    remoteRegistry: Option<string>)

  function Pick<T>(given: Option<T>, current: T): T {
    if given.Some? then given.value else current
  }

  function PickOpt<T>(given: Option<T>, current: Option<T>): Option<T> {
    if given.Some? then given else current
  }

  /** `{ ...config, ...partial }`: every given key wins, every other key is kept. */
  function Merge(c: PlatformConfig, p: PartialConfig): (r: PlatformConfig)
    ensures p.name.Some? ==> r.name == p.name.value
    ensures p.name.None? ==> r.name == c.name
    ensures p.version.Some? ==> r.version == p.version.value
    ensures p.version.None? ==> r.version == c.version
    ensures r.basePath == if p.basePath.Some? then p.basePath else c.basePath
    ensures r.userAppsPath == if p.userAppsPath.Some? then p.userAppsPath else c.userAppsPath
    ensures r.remoteRegistry == if p.remoteRegistry.Some? then p.remoteRegistry else c.remoteRegistry
  {
    PlatformConfig(Pick(p.name, c.name), Pick(p.version, c.version), PickOpt(p.basePath, c.basePath),
      PickOpt(p.userAppsPath, c.userAppsPath), PickOpt(p.remoteRegistry, c.remoteRegistry))
  }

  /** Configuring twice with the same keys is the same as configuring once. */
  lemma MergeIdempotent(c: PlatformConfig, p: PartialConfig)
    ensures Merge(Merge(c, p), p) == Merge(c, p)
  {
  }

  // ---------------------------------------------------------------- validation

  /** The menu ids of a forest in the order the validator visits them: pre-order, each
      item before its children, siblings in order. */
  function MenuIds(ms: seq<MenuItem>): seq<string>
    decreases ms
  {
    if ms == [] then [] else ItemIds(ms[0]) + MenuIds(ms[1..])
  }

  function ItemIds(m: MenuItem): seq<string>
    decreases m
  {
    [m.id] + match m.children
             case NoSubMenus => []
             case SubMenus(ch) => MenuIds(ch)
  }

  lemma {:induction false} MenuIdsAppend(a: seq<MenuItem>, b: seq<MenuItem>)
    ensures MenuIds(a + b) == MenuIds(a) + MenuIds(b)
  {
    if a == [] {
      assert a + b == b;
    } else {
      assert (a + b)[1..] == a[1..] + b;
      MenuIdsAppend(a[1..], b);
    }
  }

  function ChildIds(m: MenuItem): seq<string> {
    match m.children
    case NoSubMenus => []
    case SubMenus(ch) => MenuIds(ch)
  }

  /** Where item `i` and its subtree sit in the walk over a forest. */
  lemma {:induction false} MenuIdsAt(ms: seq<MenuItem>, i: nat)
    requires i < |ms|
    ensures ItemIds(ms[i]) == [ms[i].id] + ChildIds(ms[i])
    ensures MenuIds(ms[..i + 1]) == MenuIds(ms[..i]) + ItemIds(ms[i])
    ensures MenuIds(ms) == MenuIds(ms[..i + 1]) + MenuIds(ms[i + 1..])
  {
    var m := ms[i];
    assert ItemIds(m) == [m.id] + ChildIds(m) by {
      match m.children {
        case NoSubMenus =>
        case SubMenus(ch) =>
      }
    }
    assert MenuIds([m]) == ItemIds(m) by {
      assert [m][1..] == [];
    }
    assert ms[..i + 1] == ms[..i] + [m];
    MenuIdsAppend(ms[..i], [m]);
    assert ms[..i + 1] + ms[i + 1..] == ms;
    MenuIdsAppend(ms[..i + 1], ms[i + 1..]);
  }

  /** Threading the shared `Set` through a walk over `ids`: the first id already in the
      set is the duplicate; otherwise the final set. */
  function Thread(ids: seq<string>, seen: set<string>): Result<set<string>, string> {
    if ids == [] then Success(seen)
    else if ids[0] in seen then Failure(ids[0])
    else Thread(ids[1..], seen + {ids[0]})
  }

  lemma ThreadCons(x: string, rest: seq<string>, seen: set<string>)
    ensures Thread([x] + rest, seen) == if x in seen then Failure(x) else Thread(rest, seen + {x})
  {
    assert ([x] + rest)[0] == x && ([x] + rest)[1..] == rest;
  }

  lemma {:induction false} ThreadAppend(a: seq<string>, b: seq<string>, seen: set<string>)
    ensures Thread(a + b, seen) == match Thread(a, seen)
                                   case Failure(d) => Failure(d)
                                   case Success(s) => Thread(b, s)
  {
    if a == [] {
      assert a + b == b;
    } else {
      assert (a + b)[1..] == a[1..] + b;
      assert (a + b)[0] == a[0];
      if a[0] !in seen {
        ThreadAppend(a[1..], b, seen + {a[0]});
      }
    }
  }

  /** The walk succeeds exactly when no id repeats and none was seen before; the set it
      ends with is everything seen. */
  lemma {:induction false} ThreadSuccess(ids: seq<string>, seen: set<string>)
    ensures Thread(ids, seen).Success? <==> Distinct(ids) && forall k :: 0 <= k < |ids| ==> ids[k] !in seen
    ensures Thread(ids, seen).Success? ==> Thread(ids, seen).value == seen + set k | 0 <= k < |ids| :: ids[k]
  {
    if ids != [] {
      ThreadSuccess(ids[1..], seen + {ids[0]});
      var t := ids[1..];
      assert forall k :: 0 <= k < |t| ==> t[k] == ids[k + 1];
      if Distinct(ids) && forall k :: 0 <= k < |ids| ==> ids[k] !in seen {
        assert Distinct(t) by {
          forall i, j | 0 <= i < j < |t| ensures t[i] != t[j] {
            assert t[i] == ids[i + 1] && t[j] == ids[j + 1];
          }
        }
        forall k | 0 <= k < |t| ensures t[k] !in seen + {ids[0]} {
          assert t[k] == ids[k + 1];
        }
      }
      if Thread(ids, seen).Success? {
        assert ids[0] !in seen;
        forall i, j | 0 <= i < j < |ids| ensures ids[i] != ids[j] {
          if i == 0 {
            assert ids[j] == t[j - 1];
          } else {
            assert ids[i] == t[i - 1] && ids[j] == t[j - 1];
          }
        }
        forall k | 0 <= k < |ids| ensures ids[k] !in seen {
          if k > 0 {
            assert ids[k] == t[k - 1];
          }
        }
        var s1 := set k | 0 <= k < |t| :: t[k];
        var s0 := set k | 0 <= k < |ids| :: ids[k];
        assert s0 == {ids[0]} + s1 by {
          forall x | x in s0 ensures x in {ids[0]} + s1 {
            var k :| 0 <= k < |ids| && ids[k] == x;
            if k > 0 {
              assert t[k - 1] == x;
            }
          }
          forall x | x in s1 ensures x in s0 {
            var k :| 0 <= k < |t| && t[k] == x;
            assert ids[k + 1] == x;
          }
        }
      }
    }
  }

  /** The duplicate the walk reports is the id at the first position that repeats an
      earlier id or one seen before. */
  lemma {:induction false} ThreadFailure(ids: seq<string>, seen: set<string>)
    requires Thread(ids, seen).Failure?
    ensures exists j :: 0 <= j < |ids| && ids[j] == Thread(ids, seen).error
                        && (ids[j] in seen || ids[j] in ids[..j])
                        && Thread(ids[..j], seen).Success?
  {
    if ids[0] in seen {
      assert ids[..0] == [];
    } else {
      ThreadFailure(ids[1..], seen + {ids[0]});
      var t := ids[1..];
      var j :| 0 <= j < |t| && t[j] == Thread(t, seen + {ids[0]}).error
               && (t[j] in seen + {ids[0]} || t[j] in t[..j])
               && Thread(t[..j], seen + {ids[0]}).Success?;
      assert ids[..j + 1] == [ids[0]] + t[..j];
      assert ids[j + 1] == t[j];
      assert ids[..j + 1][1..] == t[..j];
      if t[j] in t[..j] {
        var k :| 0 <= k < j && t[..j][k] == t[j];
        assert ids[..j + 1][k + 1] == t[j];
      } else if t[j] == ids[0] {
        assert ids[..j + 1][0] == t[j];
      }
    }
  }

  /** `validateManifest`, as the outcome it settles with. The checks run in source order. */
  function ValidateManifest(m: AppManifest): Outcome<Error> {
    if m.id == "" then Fail(MissingId)
    else if m.name == "" then Fail(MissingName)
    else if !Truthy(m.version) then Fail(MissingVersion)
    else if m.menus.None? then Fail(MenusNotArray)
    else if m.routes.None? then Fail(RoutesNotArray)
    else match Thread(MenuIds(m.menus.value), {})
         case Failure(d) => Fail(DuplicateMenuId(d))
         case Success(_) => Pass
  }

  /** A manifest passes validation exactly when its id, name and version are non-empty,
      it has menus and routes, and no menu id repeats anywhere in its menu tree. */
  lemma ValidateManifestPass(m: AppManifest)
    ensures ValidateManifest(m) == Pass <==>
      m.id != "" && m.name != "" && Truthy(m.version) && m.menus.Some? && m.routes.Some?
      && Distinct(MenuIds(m.menus.value))
  {
    if m.menus.Some? {
      ThreadSuccess(MenuIds(m.menus.value), {});
    }
  }

  /** `d` occurs at a position `j` that repeats an earlier element, and no element
      repeats before `j`. */
  predicate FirstRepeat(ids: seq<string>, d: string) {
    exists j :: 0 <= j < |ids| && ids[j] == d && d in ids[..j] && Distinct(ids[..j])
  }

  /** A rejected manifest names the first repeated menu id of the pre-order walk. */
  lemma ValidateManifestDuplicate(m: AppManifest, d: string)
    requires ValidateManifest(m) == Fail(DuplicateMenuId(d))
    ensures m.menus.Some? && FirstRepeat(MenuIds(m.menus.value), d)
  {
    var ids := MenuIds(m.menus.value);
    assert Thread(ids, {}) == Failure(d);
    ThreadFailure(ids, {});
    var j :| 0 <= j < |ids| && ids[j] == d && (ids[j] in {} || ids[j] in ids[..j]) && Thread(ids[..j], {}).Success?;
    ThreadSuccess(ids[..j], {});
    assert 0 <= j < |ids| && ids[j] == d && d in ids[..j] && Distinct(ids[..j]);
  }

  /** The outcome `register` settles with. */
  function RegisterOutcome(m: AppManifest): Outcome<Error> {
    if ValidateManifest(m).Fail? then ValidateManifest(m)
    else if m.setup.Some? && m.setup.value.Fail? then m.setup.value
    else Pass
  }

  /** The outcome `loadAndRegister` settles with, given a stored loader. */
  function LoadOutcome(l: Loader): Outcome<Error> {
    match l.result
    case Failure(e) => Fail(e)
    case Success(mod) => RegisterOutcome(ManifestOf(mod))
  }

  /** The events that end `loadAndRegister(appId)`: app:loaded, or the status change to
      error and app:error, both carrying the error it rejects with. */
  function LoadTail(appId: string, o: Outcome<Error>): seq<Event> {
    if o.Pass? then [AppLoaded(appId)] else [StatusChanged(appId, Failed, Some(o.error)), AppErrored(appId, o.error)]
  }

  /** The table after the `try` block of `loadAndRegister`: what `register` stored, if
      the loader resolved and the manifest passed validation. */
  function Registered(apps: map<string, RegisteredApp>, l: Loader): (r: map<string, RegisteredApp>)
    ensures apps.Keys <= r.Keys
  {
    match l.result
    case Failure(_) => apps
    case Success(mod) =>
      var m := ManifestOf(mod);
      if ValidateManifest(m).Pass? then apps[m.id := Installed(m, None)] else apps
  }

  function RegisteredIds(ids: seq<string>, l: Loader): seq<string> {
    match l.result
    case Failure(_) => ids
    case Success(mod) =>
      var m := ManifestOf(mod);
      if ValidateManifest(m).Pass? then Upsert(ids, m.id) else ids
  }

  /** The table after `loadAndRegister(appId)` with stored loader `l`. The entry for
      `appId` ends in error with the error the call rejects with; on success the
      registered manifest's entry is loaded and active, and an `appId` entry under
      another id stays loading. No other entry changes. */
  function AfterLoad(apps: map<string, RegisteredApp>, appId: string, l: Loader): (r: map<string, RegisteredApp>)
    requires appId in apps
    ensures appId in r
    ensures LoadOutcome(l).Fail? ==> r[appId].status == Failed && r[appId].error == Some(LoadOutcome(l).error)
    ensures LoadOutcome(l).Pass? ==>
      var m := ManifestOf(l.result.value);
      m.id in r && r[m.id] == RegisteredApp(m, true, Loaded, None, None)
      && (m.id != appId ==> r[appId] == apps[appId].(status := Loading))
    ensures forall k | k in apps && k != appId && (l.result.Failure? || k != ManifestOf(l.result.value).id) :: k in r && r[k] == apps[k]
  {
    var reg := Registered(apps[appId := apps[appId].(status := Loading)], l);
    match LoadOutcome(l)
    case Pass => reg
    case Fail(e) => reg[appId := reg[appId].(status := Failed, error := Some(e))]
  }

  /** The entry `register` stores: loaded and active, or in error when setup rejects. */
  function Installed(m: AppManifest, sourcePath: Option<string>): RegisteredApp {
    if m.setup.Some? && m.setup.value.Fail? then
      RegisteredApp(m, true, Failed, Some(m.setup.value.error), sourcePath)
    else RegisteredApp(m, true, Loaded, None, sourcePath)
  }

  /** The pending entry `registerLoader` creates for an unknown id. */
  function PlaceholderEntry(appId: string): RegisteredApp {
    RegisteredApp(BareManifest(appId, appId, Some("0.0.0")), false, Pending, None, None)
  }

  // ---------------------------------------------------------------- what a load logs

  /** What `register(m)` emits, `cat` being the three update events of the table it
      leaves: nothing for a manifest that fails validation, app:error when setup
      rejects, otherwise app:registered, the status change to loaded and `cat`. */
  function RegisterLog(m: AppManifest, cat: seq<Event>): seq<Event> {
    if ValidateManifest(m).Fail? then []
    else if m.setup.Some? && m.setup.value.Fail? then [AppErrored(m.id, m.setup.value.error)]
    else [AppRegistered(m.id, m), StatusChanged(m.id, Loaded, None)] + cat
  }

  /** What the `try` block of `loadAndRegister` emits: nothing when the loader
      rejects, otherwise what `register` emits for the module's manifest. */
  function AttemptLog(l: Loader, cat: seq<Event>): seq<Event> {
    match l.result
    case Failure(_) => []
    case Success(mod) => RegisterLog(ManifestOf(mod), cat)
  }

  /** The update events are emitted only when `register` succeeds: when the load fails,
      the `try` block's events do not depend on them. */
  lemma AttemptLogFail(l: Loader, cat0: seq<Event>, cat1: seq<Event>)
    requires LoadOutcome(l).Fail?
    ensures AttemptLog(l, cat0) == AttemptLog(l, cat1)
  {
  }

  /** Everything `loadAndRegister(appId)` emits with stored loader `l`: the status change
      to loading, the `try` block's events, then app:loaded or the `catch` block's two. */
  function LoadLog(appId: string, l: Loader, cat: seq<Event>): seq<Event> {
    [StatusChanged(appId, Loading, None)] + AttemptLog(l, cat) + LoadTail(appId, LoadOutcome(l))
  }

  /** The ids whose status changes to loading in `evs`, in order. */
  function LoadingIds(evs: seq<Event>): seq<string> {
    if evs == [] then []
    else (if evs[0].StatusChanged? && evs[0].status == Loading then [evs[0].appId] else []) + LoadingIds(evs[1..])
  }

  lemma {:induction false} LoadingIdsAppend(a: seq<Event>, b: seq<Event>)
    ensures LoadingIds(a + b) == LoadingIds(a) + LoadingIds(b)
  {
    if a == [] {
      assert a + b == b;
    } else {
      assert (a + b)[0] == a[0] && (a + b)[1..] == a[1..] + b;
      LoadingIdsAppend(a[1..], b);
    }
  }

  /** `loadAndRegister(appId)` changes one status to loading, `appId`'s, whatever the
      loader and the manifest. */
  lemma LoadLogSpec(appId: string, l: Loader, es: seq<RegisteredApp>)
    ensures LoadingIds(LoadLog(appId, l, Catalog(es))) == [appId]
  {
    var head, mid, tail := [StatusChanged(appId, Loading, None)], AttemptLog(l, Catalog(es)), LoadTail(appId, LoadOutcome(l));
    LoadingIdsAppend(head, mid);
    LoadingIdsAppend(head + mid, tail);
    assert LoadingIds(head) == [appId] by {
      assert head[1..] == [];
    }
    AttemptLogQuiet(l, es);
    LoadingIdsNone(mid);
    LoadingIdsNone(tail);
  }

  /** app:loaded for `appId` is among the events of `loadAndRegister(appId)` exactly
      when it resolves. */
  lemma LoadLogLoaded(appId: string, l: Loader, es: seq<RegisteredApp>)
    ensures AppLoaded(appId) in LoadLog(appId, l, Catalog(es)) <==> LoadOutcome(l).Pass?
  {
    var head, mid, tail := [StatusChanged(appId, Loading, None)], AttemptLog(l, Catalog(es)), LoadTail(appId, LoadOutcome(l));
    AttemptLogQuiet(l, es);
    assert AppLoaded(appId) !in head + mid;
    assert AppLoaded(appId) in tail <==> LoadOutcome(l).Pass?;
  }

  /** The `try` block of `loadAndRegister` changes no status to loading and emits no
      app:loaded. */
  lemma AttemptLogQuiet(l: Loader, es: seq<RegisteredApp>)
    ensures forall e | e in AttemptLog(l, Catalog(es)) :: !(e.StatusChanged? && e.status == Loading) && !e.AppLoaded?
  {
    var cat := Catalog(es);
    assert cat == [MenusUpdated(AllMenus(es)), RoutesUpdated(AllRoutes(es)), PermissionsUpdated(AllPermissions(es))];
    if l.result.Success? {
      var m := ManifestOf(l.result.value);
      if ValidateManifest(m).Pass? && !(m.setup.Some? && m.setup.value.Fail?) {
        assert AttemptLog(l, cat) == [AppRegistered(m.id, m), StatusChanged(m.id, Loaded, None)] + cat;
      }
    }
  }

  /** Events that change no status to loading have no loading ids. */
  lemma {:induction false} LoadingIdsNone(evs: seq<Event>)
    requires forall e | e in evs :: !(e.StatusChanged? && e.status == Loading)
    ensures LoadingIds(evs) == []
  {
    if evs != [] {
      assert forall e | e in evs[1..] :: e in evs;
      LoadingIdsNone(evs[1..]);
    }
  }

  // ---------------------------------------------------------------- loading all pending

  /** The table after `loadAllPending` tried the ids of `order` in turn: an id with a
      stored loader goes through `loadAndRegister`; one without is rejected, which is
      caught and changes nothing. */
  function LoadAll(apps: map<string, RegisteredApp>, loaders: map<string, Loader>, order: seq<string>): map<string, RegisteredApp>
    decreases |order|
  {
    if order == [] then apps
    else
      var a := LoadAll(apps, loaders, order[..|order| - 1]);
      var id := order[|order| - 1];
      if id in loaders && id in a then AfterLoad(a, id, loaders[id]) else a
  }

  /** The key order after `loadAllPending` tried the ids of `order` in turn. */
  function LoadAllIds(ids: seq<string>, loaders: map<string, Loader>, order: seq<string>): seq<string>
    decreases |order|
  {
    if order == [] then ids
    else
      var t := LoadAllIds(ids, loaders, order[..|order| - 1]);
      var id := order[|order| - 1];
      if id in loaders then RegisteredIds(t, loaders[id]) else t
  }

  /** The ids of `order` that have a stored loader, in order. */
  function WithLoader(order: seq<string>, loaders: map<string, Loader>): (r: seq<string>)
    ensures forall id :: id in r <==> id in order && id in loaders
    decreases |order|
  {
    if order == [] then []
    else
      var id := order[|order| - 1];
      WithLoader(order[..|order| - 1], loaders) + (if id in loaders then [id] else [])
  }

  lemma LoadAllAt(apps: map<string, RegisteredApp>, ids: seq<string>, loaders: map<string, Loader>, order: seq<string>, i: nat)
    requires i < |order|
    ensures LoadAll(apps, loaders, order[..i + 1]) ==
      var a := LoadAll(apps, loaders, order[..i]);
      if order[i] in loaders && order[i] in a then AfterLoad(a, order[i], loaders[order[i]]) else a
    ensures LoadAllIds(ids, loaders, order[..i + 1]) ==
      var t := LoadAllIds(ids, loaders, order[..i]);
      if order[i] in loaders then RegisteredIds(t, loaders[order[i]]) else t
    ensures WithLoader(order[..i + 1], loaders) ==
      WithLoader(order[..i], loaders) + (if order[i] in loaders then [order[i]] else [])
  {
    assert order[..i + 1][..i] == order[..i];
  }

  /** Every listed key keeps its entry, and so does every id with a stored loader, while
      `loadAllPending` tries the ids of `order`. */
  lemma {:induction false} LoadAllCovers(apps: map<string, RegisteredApp>, ids: seq<string>,
                                         loaders: map<string, Loader>, order: seq<string>)
    requires forall id :: id in ids ==> id in apps
    requires loaders.Keys <= apps.Keys
    ensures loaders.Keys <= LoadAll(apps, loaders, order).Keys
    ensures forall id :: id in LoadAllIds(ids, loaders, order) ==> id in LoadAll(apps, loaders, order)
    decreases |order|
  {
    if order != [] {
      var pre := order[..|order| - 1];
      LoadAllCovers(apps, ids, loaders, pre);
      var id := order[|order| - 1];
      if id in loaders {
        AfterLoadSettles(LoadAll(apps, loaders, pre), id, loaders[id]);
      }
    }
  }

  /** What `loadAllPending` emits trying the ids of `order` in turn: for an id with a
      stored loader, the log of its `loadAndRegister`, with the three update events of
      the table that call leaves; for an id without one, nothing. */
  function LoadAllLog(apps: map<string, RegisteredApp>, ids: seq<string>, loaders: map<string, Loader>,
                      order: seq<string>): seq<Event>
    requires forall id :: id in ids ==> id in apps
    requires loaders.Keys <= apps.Keys
    decreases |order|
  {
    if order == [] then []
    else
      var id := order[|order| - 1];
      LoadAllCovers(apps, ids, loaders, order);
      LoadAllLog(apps, ids, loaders, order[..|order| - 1])
        + (if id in loaders
           then LoadLog(id, loaders[id], Catalog(InOrder(LoadAllIds(ids, loaders, order), LoadAll(apps, loaders, order))))
           else [])
  }

  /** One more try's log. */
  lemma LoadAllLogAt(apps: map<string, RegisteredApp>, ids: seq<string>, loaders: map<string, Loader>,
                     order: seq<string>, i: nat)
    requires forall id :: id in ids ==> id in apps
    requires loaders.Keys <= apps.Keys
    requires i < |order|
    ensures var done := order[..i + 1]; forall id :: id in LoadAllIds(ids, loaders, done) ==> id in LoadAll(apps, loaders, done)
    ensures LoadAllLog(apps, ids, loaders, order[..i + 1]) == LoadAllLog(apps, ids, loaders, order[..i])
      + (if order[i] in loaders
         then LoadLog(order[i], loaders[order[i]],
                      Catalog(InOrder(LoadAllIds(ids, loaders, order[..i + 1]), LoadAll(apps, loaders, order[..i + 1]))))
         else [])
  {
    LoadAllCovers(apps, ids, loaders, order[..i + 1]);
    assert order[..i + 1][..i] == order[..i];
  }

  /** The ids `loadAllPending` sets loading are, in order, the tried ids that have a
      stored loader. */
  lemma {:induction false} LoadAllLogLoading(apps: map<string, RegisteredApp>, ids: seq<string>,
                                             loaders: map<string, Loader>, order: seq<string>)
    requires forall id :: id in ids ==> id in apps
    requires loaders.Keys <= apps.Keys
    ensures LoadingIds(LoadAllLog(apps, ids, loaders, order)) == WithLoader(order, loaders)
    decreases |order|
  {
    if order != [] {
      var pre, id := order[..|order| - 1], order[|order| - 1];
      LoadAllLogLoading(apps, ids, loaders, pre);
      LoadAllCovers(apps, ids, loaders, order);
      var es := InOrder(LoadAllIds(ids, loaders, order), LoadAll(apps, loaders, order));
      var seg := if id in loaders then LoadLog(id, loaders[id], Catalog(es)) else [];
      LoadingIdsAppend(LoadAllLog(apps, ids, loaders, pre), seg);
      if id in loaders {
        LoadLogSpec(id, loaders[id], es);
      }
    }
  }

  /** Where `loadAllPending` stands after trying the first `i` ids of `order` from the
      table `apps0` and key order `ids0`: the table and key order those tries leave,
      and their log, whose loading ids are the tried ids that have a loader. */
  ghost predicate TriedUpTo(apps0: map<string, RegisteredApp>, ids0: seq<string>, loaders: map<string, Loader>,
                            order: seq<string>, i: nat, apps: map<string, RegisteredApp>, ids: seq<string>, log: seq<Event>)
  {
    i <= |order|
    && (forall id :: id in ids0 ==> id in apps0) && loaders.Keys <= apps0.Keys
    && apps == LoadAll(apps0, loaders, order[..i]) && ids == LoadAllIds(ids0, loaders, order[..i])
    && LoadingIds(log) == WithLoader(order[..i], loaders)
    && log == LoadAllLog(apps0, ids0, loaders, order[..i])
  }

  /** One turn of `loadAllPending` on `appId`, from `apps`/`ids` to `apps1`/`ids1`,
      logging `seg`: with a stored loader, what `loadAndRegister` does, its one loading
      id being `appId`; without one, nothing. */
  ghost predicate LoadTurn(apps: map<string, RegisteredApp>, ids: seq<string>, loaders: map<string, Loader>, appId: string,
                           apps1: map<string, RegisteredApp>, ids1: seq<string>, seg: seq<Event>)
  {
    if appId in loaders then
      appId in apps && apps1 == AfterLoad(apps, appId, loaders[appId])
      && ids1 == RegisteredIds(ids, loaders[appId]) && LoadingIds(seg) == [appId]
      && (forall id :: id in ids1 ==> id in apps1)
      && seg == LoadLog(appId, loaders[appId], Catalog(InOrder(ids1, apps1)))
    else apps1 == apps && ids1 == ids && seg == []
  }

  /** One more turn of `loadAllPending`: trying `order[i]`. */
  lemma TriedStep(apps0: map<string, RegisteredApp>, ids0: seq<string>, loaders: map<string, Loader>,
                  order: seq<string>, i: nat, apps: map<string, RegisteredApp>, ids: seq<string>, log: seq<Event>,
                  apps1: map<string, RegisteredApp>, ids1: seq<string>, seg: seq<Event>)
    requires TriedUpTo(apps0, ids0, loaders, order, i, apps, ids, log) && i < |order|
    requires LoadTurn(apps, ids, loaders, order[i], apps1, ids1, seg)
    ensures TriedUpTo(apps0, ids0, loaders, order, i + 1, apps1, ids1, log + seg)
  {
    LoadAllAt(apps0, ids0, loaders, order, i);
    LoadAllLogAt(apps0, ids0, loaders, order, i);
    LoadingIdsAppend(log, seg);
  }

  lemma LoadAllWhole(apps: map<string, RegisteredApp>, ids: seq<string>, loaders: map<string, Loader>, order: seq<string>)
    ensures LoadAll(apps, loaders, order[..|order|]) == LoadAll(apps, loaders, order)
    ensures LoadAllIds(ids, loaders, order[..|order|]) == LoadAllIds(ids, loaders, order)
    ensures WithLoader(order[..|order|], loaders) == WithLoader(order, loaders)
    ensures (forall id :: id in ids ==> id in apps) && loaders.Keys <= apps.Keys ==>
      LoadAllLog(apps, ids, loaders, order[..|order|]) == LoadAllLog(apps, ids, loaders, order)
  {
    assert order[..|order|] == order;
  }

  /** `loadAndRegister` leaves `appId` loading, loaded or in error and makes no entry
      pending: an entry pending afterwards was pending, unchanged, before. */
  lemma AfterLoadSettles(apps: map<string, RegisteredApp>, appId: string, l: Loader)
    requires appId in apps
    ensures apps.Keys <= AfterLoad(apps, appId, l).Keys
    ensures AfterLoad(apps, appId, l)[appId].status != Pending
    ensures forall k | k in AfterLoad(apps, appId, l) && AfterLoad(apps, appId, l)[k].status == Pending ::
      k in apps && apps[k] == AfterLoad(apps, appId, l)[k]
  {
    var loading := apps[appId := apps[appId].(status := Loading)];
    assert Registered(loading, l).Keys <= AfterLoad(apps, appId, l).Keys;
  }

  /** After `loadAllPending` tried `order`, every tried id with a stored loader has left
      pending, and an entry still pending was pending before and not loaded. */
  lemma {:induction false} LoadAllSettles(apps: map<string, RegisteredApp>, loaders: map<string, Loader>, order: seq<string>)
    requires forall i :: 0 <= i < |order| ==> order[i] in apps
    ensures apps.Keys <= LoadAll(apps, loaders, order).Keys
    ensures forall id | id in order && id in loaders :: LoadAll(apps, loaders, order)[id].status != Pending
    ensures forall id | id in LoadAll(apps, loaders, order) && LoadAll(apps, loaders, order)[id].status == Pending ::
      id in apps && apps[id] == LoadAll(apps, loaders, order)[id]
    decreases |order|
  {
    if order != [] {
      var pre, id := order[..|order| - 1], order[|order| - 1];
      assert forall i :: 0 <= i < |pre| ==> pre[i] == order[i];
      LoadAllSettles(apps, loaders, pre);
      var a := LoadAll(apps, loaders, pre);
      if id in loaders && id in a {
        AfterLoadSettles(a, id, loaders[id]);
      }
      assert order == pre + [id];
    }
  }

  /** Every entry pending when `loadAllPending` starts that has a stored loader is no
      longer pending when it ends; no other entry becomes or stays pending by it. */
  lemma LoadAllPendingSettles(ids: seq<string>, apps: map<string, RegisteredApp>, loaders: map<string, Loader>)
    requires forall id :: id in apps <==> id in ids
    ensures forall id | id in apps && apps[id].status == Pending && id in loaders ::
      id in LoadAll(apps, loaders, PendingOrder(ids, apps)) && LoadAll(apps, loaders, PendingOrder(ids, apps))[id].status != Pending
    ensures forall id | id in LoadAll(apps, loaders, PendingOrder(ids, apps))
                        && LoadAll(apps, loaders, PendingOrder(ids, apps))[id].status == Pending ::
      id in apps && apps[id] == LoadAll(apps, loaders, PendingOrder(ids, apps))[id]
  {
    var order := PendingOrder(ids, apps);
    forall i | 0 <= i < |order|
      ensures order[i] in apps
    {
      PendingOrderSpec(ids, apps, order[i]);
    }
    LoadAllSettles(apps, loaders, order);
    forall id | id in apps && apps[id].status == Pending && id in loaders
      ensures id in LoadAll(apps, loaders, order) && LoadAll(apps, loaders, order)[id].status != Pending
    {
      PendingOrderSpec(ids, apps, id);
    }
  }

  // ---------------------------------------------------------------- sorting menus

  function OrderKey(m: MenuItem): int {
    KeyOr100(m.order)
  }

  /** `sortMenus`: every level sorted by `order ?? 100`, stably. */
  function SortMenus(ms: seq<MenuItem>): seq<MenuItem>
    decreases ms, 1
  {
    SortBy(SortEachChildren(ms), OrderKey)
  }

  /** The `map` step of `sortMenus`: each item with its children sorted. */
  function SortEachChildren(ms: seq<MenuItem>): (r: seq<MenuItem>)
    ensures |r| == |ms|
    ensures forall i :: 0 <= i < |ms| ==> r[i] == SortChildren(ms[i])
    decreases ms, 0
  {
    if ms == [] then [] else [SortChildren(ms[0])] + SortEachChildren(ms[1..])
  }

  function SortChildren(m: MenuItem): MenuItem
    decreases m
  {
    m.(children := match m.children
                   case NoSubMenus => NoSubMenus
                   case SubMenus(ch) => SubMenus(SortMenus(ch)))
  }

  /** Sorted by `order ?? 100` at every level of the tree. */
  predicate DeepSorted(ms: seq<MenuItem>)
    decreases ms, 1
  {
    SortedBy(ms, OrderKey) && AllDeepSorted(ms)
  }

  predicate AllDeepSorted(ms: seq<MenuItem>)
    decreases ms, 0
  {
    ms != [] ==> ItemDeepSorted(ms[0]) && AllDeepSorted(ms[1..])
  }

  predicate ItemDeepSorted(m: MenuItem)
    decreases m
  {
    m.children.SubMenus? ==> DeepSorted(m.children.items)
  }

  lemma {:induction false} AllDeepSortedAt(ms: seq<MenuItem>)
    requires forall i :: 0 <= i < |ms| ==> ItemDeepSorted(ms[i])
    ensures AllDeepSorted(ms)
  {
    if ms != [] {
      assert forall i :: 0 <= i < |ms| - 1 ==> ms[1..][i] == ms[i + 1];
      AllDeepSortedAt(ms[1..]);
    }
  }

  /** The result of `sortMenus` is sorted at every level. */
  lemma {:induction false} SortMenusDeepSorted(ms: seq<MenuItem>)
    ensures DeepSorted(SortMenus(ms))
    decreases ms, 1
  {
    var mapped := SortEachChildren(ms);
    var r := SortMenus(ms);
    forall i | 0 <= i < |r| ensures ItemDeepSorted(r[i]) {
      assert r[i] in multiset(mapped) by {
        assert r[i] in multiset(r);
      }
      var j :| 0 <= j < |mapped| && mapped[j] == r[i];
      SortChildrenDeepSorted(ms[j]);
    }
    AllDeepSortedAt(r);
  }

  lemma {:induction false} SortChildrenDeepSorted(m: MenuItem)
    ensures ItemDeepSorted(SortChildren(m))
    decreases m
  {
    if m.children.SubMenus? {
      SortMenusDeepSorted(m.children.items);
    }
  }

  /** `sortMenus` at one level: a permutation of the input (each item with its children
      sorted), sorted by `order ?? 100`, and keeping the input order among items of
      equal key; by `StableSortIsSortBy` no other sequence has these properties. */
  lemma SortMenusSpec(ms: seq<MenuItem>)
    ensures multiset(SortMenus(ms)) == multiset(SortEachChildren(ms))
    ensures SortedBy(SortMenus(ms), OrderKey)
    ensures forall k :: WithKey(SortMenus(ms), OrderKey, k) == WithKey(SortEachChildren(ms), OrderKey, k)
  {
    forall k ensures WithKey(SortMenus(ms), OrderKey, k) == WithKey(SortEachChildren(ms), OrderKey, k) {
      SortByStable(SortEachChildren(ms), OrderKey, k);
    }
  }

  // ---------------------------------------------------------------- aggregate views

  /** Registry entries in key order. */
  function InOrder(ids: seq<string>, apps: map<string, RegisteredApp>): (r: seq<RegisteredApp>)
    requires forall i :: 0 <= i < |ids| ==> ids[i] in apps
    ensures |r| == |ids|
    ensures forall i :: 0 <= i < |ids| ==> r[i] == apps[ids[i]]
  {
    seq(|ids|, i requires 0 <= i < |ids| => apps[ids[i]])
  }

  /** The registry's invariant over its four tables (see `AppRegistry.Valid`). */
  ghost predicate TableValid(ids: seq<string>, apps: map<string, RegisteredApp>, loaders: map<string, Loader>,
                       listeners: map<EventType, seq<Listener>>)
  {
    Distinct(ids)
    && (forall id :: id in apps <==> id in ids)
    && loaders.Keys <= apps.Keys
    && (forall id | id in apps :: apps[id].manifest.menus.Some? && apps[id].manifest.routes.Some?)
    && (forall t | t in listeners :: Distinct(listeners[t]))
  }

  /** menu:updated and route:updated, which follow a change of status or activity, for
      the table's entries `es` in key order. */
  function Changes(es: seq<RegisteredApp>): seq<Event> {
    [MenusUpdated(AllMenus(es)), RoutesUpdated(AllRoutes(es))]
  }

  /** The three update events that follow a change of the table. */
  function Catalog(es: seq<RegisteredApp>): seq<Event> {
    Changes(es) + [PermissionsUpdated(AllPermissions(es))]
  }

  /** `app.status === "loaded"`. */
  predicate IsLoaded(e: RegisteredApp) {
    e.status == Loaded
  }

  /** Whether an entry's menus and routes are shown. */
  predicate Shown(e: RegisteredApp) {
    e.active && e.status == Loaded
  }

  function MenusIfShown(e: RegisteredApp): seq<MenuItem> {
    if Shown(e) then e.manifest.menus.GetOr([]) else []
  }

  function RoutesIfShown(e: RegisteredApp): seq<Route> {
    if Shown(e) then e.manifest.routes.GetOr([]) else []
  }

  function PermissionsIfLoaded(e: RegisteredApp): seq<PermissionConfig> {
    if e.status == Loaded && e.manifest.permissions.Some? then e.manifest.permissions.value else []
  }

  /** `getAllMenus`. */
  function AllMenus(es: seq<RegisteredApp>): seq<MenuItem> {
    SortMenus(Flatten(es, MenusIfShown))
  }

  /** `getAllRoutes`. */
  function AllRoutes(es: seq<RegisteredApp>): seq<Route> {
    Flatten(es, RoutesIfShown)
  }

  /** `getAllPermissions`. */
  function AllPermissions(es: seq<RegisteredApp>): seq<PermissionConfig> {
    Flatten(es, PermissionsIfLoaded)
  }

  /** Only active, loaded entries contribute routes, and each contributes all of them. */
  lemma AllRoutesMember(es: seq<RegisteredApp>, r: Route)
    ensures r in AllRoutes(es) <==>
      exists i :: 0 <= i < |es| && Shown(es[i]) && r in es[i].manifest.routes.GetOr([])
  {
    FlattenMember(es, RoutesIfShown, r);
  }

  /** Permissions come from every loaded entry that declares them, active or not. */
  lemma AllPermissionsMember(es: seq<RegisteredApp>, p: PermissionConfig)
    ensures p in AllPermissions(es) <==>
      exists i :: 0 <= i < |es| && es[i].status == Loaded && es[i].manifest.permissions.Some?
                  && p in es[i].manifest.permissions.value
  {
    FlattenMember(es, PermissionsIfLoaded, p);
  }

  /** The merged menus are the menus of active, loaded entries, each with its children
      sorted, as a stably sorted permutation. */
  lemma AllMenusSpec(es: seq<RegisteredApp>, m: MenuItem)
    ensures m in SortEachChildren(Flatten(es, MenusIfShown)) <==>
      exists i :: 0 <= i < |es| && Shown(es[i]) && m in SortEachChildren(es[i].manifest.menus.GetOr([]))
    ensures multiset(AllMenus(es)) == multiset(SortEachChildren(Flatten(es, MenusIfShown)))
    ensures DeepSorted(AllMenus(es))
  {
    var flat := Flatten(es, MenusIfShown);
    SortMenusSpec(flat);
    SortMenusDeepSorted(flat);
    SortEachChildrenFlatten(es, m);
  }

  lemma {:induction false} SortEachChildrenFlatten(es: seq<RegisteredApp>, m: MenuItem)
    ensures m in SortEachChildren(Flatten(es, MenusIfShown)) <==>
      exists i :: 0 <= i < |es| && Shown(es[i]) && m in SortEachChildren(es[i].manifest.menus.GetOr([]))
  {
    if es != [] {
      SortEachChildrenFlatten(es[1..], m);
      var head := MenusIfShown(es[0]);
      var tail := Flatten(es[1..], MenusIfShown);
      SortEachChildrenAppend(head, tail);
      if exists i :: 0 <= i < |es[1..]| && Shown(es[1..][i]) && m in SortEachChildren(es[1..][i].manifest.menus.GetOr([])) {
        var i :| 0 <= i < |es[1..]| && Shown(es[1..][i]) && m in SortEachChildren(es[1..][i].manifest.menus.GetOr([]));
        assert es[1..][i] == es[i + 1];
      }
      if exists i :: 0 <= i < |es| && Shown(es[i]) && m in SortEachChildren(es[i].manifest.menus.GetOr([])) {
        var i :| 0 <= i < |es| && Shown(es[i]) && m in SortEachChildren(es[i].manifest.menus.GetOr([]));
        if i > 0 {
          assert es[1..][i - 1] == es[i];
        }
      }
    }
  }

  lemma SortEachChildrenAppend(a: seq<MenuItem>, b: seq<MenuItem>)
    ensures SortEachChildren(a + b) == SortEachChildren(a) + SortEachChildren(b)
  {
    var l, r := SortEachChildren(a + b), SortEachChildren(a) + SortEachChildren(b);
    assert |l| == |r|;
    forall i | 0 <= i < |l| ensures l[i] == r[i] {
      if i < |a| {
        assert (a + b)[i] == a[i];
      } else {
        assert (a + b)[i] == b[i - |a|];
      }
    }
  }

  // ---------------------------------------------------------------- pending entries

  /** The `[id, entry]` pairs of the table in key order whose status is pending. */
  function PendingEntries(ids: seq<string>, apps: map<string, RegisteredApp>): seq<(string, RegisteredApp)> {
    if ids == [] then []
    else (if ids[0] in apps && apps[ids[0]].status == Pending then [(ids[0], apps[ids[0]])] else [])
         + PendingEntries(ids[1..], apps)
  }

  lemma {:induction false} PendingEntriesMember(ids: seq<string>, apps: map<string, RegisteredApp>, id: string)
    ensures (exists p :: p in PendingEntries(ids, apps) && p.0 == id) <==>
      id in ids && id in apps && apps[id].status == Pending
  {
    if ids != [] {
      PendingEntriesMember(ids[1..], apps, id);
      var head := if ids[0] in apps && apps[ids[0]].status == Pending then [(ids[0], apps[ids[0]])] else [];
      assert PendingEntries(ids, apps) == head + PendingEntries(ids[1..], apps);
      if id == ids[0] && id in apps && apps[id].status == Pending {
        assert (id, apps[id]) in PendingEntries(ids, apps);
      }
    }
  }

  function PendingKey(p: (string, RegisteredApp)): int {
    KeyOr100(p.1.manifest.priority)
  }

  function Keys(ps: seq<(string, RegisteredApp)>): (r: seq<string>)
    ensures |r| == |ps| && forall i :: 0 <= i < |ps| ==> r[i] == ps[i].0
  {
    seq(|ps|, i requires 0 <= i < |ps| => ps[i].0)
  }

  lemma KeysAt(ps: seq<(string, RegisteredApp)>, i: nat)
    requires i < |ps|
    ensures Keys(ps[..i + 1]) == Keys(ps[..i]) + [ps[i].0]
  {
  }

  lemma KeysAll(ps: seq<(string, RegisteredApp)>)
    ensures Keys(ps[..|ps|]) == Keys(ps)
  {
    assert ps[..|ps|] == ps;
  }

  /** The order `loadAllPending` tries: the pending entries, stably sorted by
      `priority ?? 100`. */
  function PendingOrder(ids: seq<string>, apps: map<string, RegisteredApp>): seq<string> {
    Keys(SortBy(PendingEntries(ids, apps), PendingKey))
  }

  /** `loadAllPending` tries exactly the entries pending when it starts, by
      non-decreasing priority. */
  lemma PendingOrderSpec(ids: seq<string>, apps: map<string, RegisteredApp>, id: string)
    ensures id in PendingOrder(ids, apps) <==> id in ids && id in apps && apps[id].status == Pending
    ensures var s := SortBy(PendingEntries(ids, apps), PendingKey);
            forall i, j :: 0 <= i < j < |s| ==> KeyOr100(s[i].1.manifest.priority) <= KeyOr100(s[j].1.manifest.priority)
  {
    var pe := PendingEntries(ids, apps);
    var s := SortBy(pe, PendingKey);
    PendingEntriesMember(ids, apps, id);
    KeysMember(s, id);
    SortedMember(pe, s, id);
    assert SortedBy(s, PendingKey);
    forall i, j | 0 <= i < j < |s|
      ensures KeyOr100(s[i].1.manifest.priority) <= KeyOr100(s[j].1.manifest.priority)
    {
      assert PendingKey(s[i]) <= PendingKey(s[j]);
    }
  }

  /** An id is among the keys exactly when some entry carries it. */
  lemma KeysMember(ps: seq<(string, RegisteredApp)>, id: string)
    ensures id in Keys(ps) <==> exists p :: p in ps && p.0 == id
  {
    var ks := Keys(ps);
    if id in ks {
      var i :| 0 <= i < |ks| && ks[i] == id;
      assert ps[i] in ps;
    }
  }

  /** Sorting keeps the entries carrying an id. */
  lemma SortedMember(pe: seq<(string, RegisteredApp)>, s: seq<(string, RegisteredApp)>, id: string)
    requires multiset(s) == multiset(pe)
    ensures (exists p :: p in s && p.0 == id) <==> (exists p :: p in pe && p.0 == id)
  {
    if exists p :: p in s && p.0 == id {
      var p :| p in s && p.0 == id;
      assert p in multiset(s);
      assert p in pe;
    }
    if exists p :: p in pe && p.0 == id {
      var p :| p in pe && p.0 == id;
      assert p in multiset(pe);
      assert p in s;
    }
  }

  // ---------------------------------------------------------------- registering loaders

  /** The key order after `registerLoaders(entries)`. */
  function LoaderIds(ids: seq<string>, apps: map<string, RegisteredApp>, entries: seq<(string, Loader)>): seq<string>
    decreases |entries|
  {
    if entries == [] then ids
    else
      var before := entries[..|entries| - 1];
      var id := entries[|entries| - 1].0;
      var ids' := LoaderIds(ids, apps, before);
      var apps' := LoaderApps(apps, before);
      if id in apps' then ids' else ids' + [id]
  }

  /** The app table after `registerLoaders(entries)`. */
  function LoaderApps(apps: map<string, RegisteredApp>, entries: seq<(string, Loader)>): map<string, RegisteredApp>
    decreases |entries|
  {
    if entries == [] then apps
    else
      var apps' := LoaderApps(apps, entries[..|entries| - 1]);
      var id := entries[|entries| - 1].0;
      if id in apps' then apps' else apps'[id := PlaceholderEntry(id)]
  }

  /** The loader table after `registerLoaders(entries)`. */
  function LoaderTable(loaders: map<string, Loader>, entries: seq<(string, Loader)>): map<string, Loader>
    decreases |entries|
  {
    if entries == [] then loaders
    else LoaderTable(loaders, entries[..|entries| - 1])[entries[|entries| - 1].0 := entries[|entries| - 1].1]
  }

  /** `registerLoaders` keeps every existing entry untouched and adds a pending
      placeholder for each new id, and nothing else. */
  lemma {:induction false} LoaderAppsSpec(apps: map<string, RegisteredApp>, entries: seq<(string, Loader)>, id: string)
    ensures id in LoaderApps(apps, entries) <==> id in apps || exists i :: 0 <= i < |entries| && entries[i].0 == id
    ensures id in apps ==> LoaderApps(apps, entries)[id] == apps[id]
    ensures id in LoaderApps(apps, entries) && id !in apps ==> LoaderApps(apps, entries)[id] == PlaceholderEntry(id)
    decreases |entries|
  {
    if entries != [] {
      var before := entries[..|entries| - 1];
      LoaderAppsSpec(apps, before, id);
      if exists i :: 0 <= i < |before| && before[i].0 == id {
        var i :| 0 <= i < |before| && before[i].0 == id;
        assert entries[i].0 == id;
      }
      if exists i :: 0 <= i < |entries| && entries[i].0 == id {
        var i :| 0 <= i < |entries| && entries[i].0 == id;
        if i < |before| {
          assert before[i].0 == id;
        }
      }
    }
  }

  /** Every given loader is stored; the last one given for an id wins. */
  lemma {:induction false} LoaderTableSpec(loaders: map<string, Loader>, entries: seq<(string, Loader)>, i: nat)
    requires i < |entries|
    requires forall j :: i < j < |entries| ==> entries[j].0 != entries[i].0
    ensures entries[i].0 in LoaderTable(loaders, entries)
    ensures LoaderTable(loaders, entries)[entries[i].0] == entries[i].1
    decreases |entries|
  {
    if i < |entries| - 1 {
      var before := entries[..|entries| - 1];
      assert before[i] == entries[i];
      LoaderTableSpec(loaders, before, i);
    }
  }

  // ---------------------------------------------------------------- the registry

  class AppRegistry {
    var ids: seq<string>
    var apps: map<string, RegisteredApp>
    var loaders: map<string, Loader>
    var listeners: map<EventType, seq<Listener>>
    var config: PlatformConfig
    var events: seq<Event>
    var deliveries: seq<Delivery>

    /** The key order lists each key of the table once; loaders exist only for known
        ids; every entry has menus and routes; a listener set holds a listener once. */
    ghost predicate Valid()
      reads this`ids, this`apps, this`loaders, this`listeners
    {
      TableValid(ids, apps, loaders, listeners)
    }

    /** `events` and `deliveries` grew by exactly `evs` and the calls emitting them made. */
    ghost predicate Appended(events0: seq<Event>, deliveries0: seq<Delivery>, evs: seq<Event>)
      reads this`events, this`deliveries, this`listeners
    {
      Logged(listeners, events0, deliveries0, events, deliveries, evs)
    }

    /** The table's entries in key order. */
    ghost function Entries(): seq<RegisteredApp>
      reads this`ids, this`apps, this`loaders, this`listeners
      requires Valid()
    {
      InOrder(ids, apps)
    }

    constructor ()
      ensures Valid()
      ensures ids == [] && apps == map[] && loaders == map[] && listeners == map[]
      ensures config == DefaultConfig && events == [] && deliveries == []
    {
      ids, apps, loaders, listeners := [], map[], map[], map[];
      config := DefaultConfig;
      events, deliveries := [], [];
    }

    method Configure(p: PartialConfig)
      modifies this`config
      ensures config == Merge(old(config), p)
    {
      config := Merge(config, p);
    }

    method GetConfig() returns (c: PlatformConfig)
      ensures c == config
    {
      c := config;
    }

    /** `emit`: every listener of the event's type is called, a throwing one included. */
    method Emit(e: Event)
      modifies this`events, this`deliveries
      ensures events == old(events) + [e]
      ensures Appended(old(events), old(deliveries), [e])
    {
      var ls := ListenersFor(listeners, e.Type());
      ghost var d0 := deliveries;
      events := events + [e];
      for i := 0 to |ls|
        invariant events == old(events) + [e]
        invariant deliveries == d0 + Notify(ls[..i], e)
      {
        deliveries := deliveries + [Delivery(ls[i], e, ls[i].throws)];
        assert Notify(ls[..i + 1], e) == Notify(ls[..i], e) + [Delivery(ls[i], e, ls[i].throws)];
      }
      assert ls[..|ls|] == ls;
      NotifyAllSingle(listeners, e);
    }

    /** Emits menu:updated and route:updated. */
    method EmitChanges()
      requires Valid()
      modifies this`events, this`deliveries
      ensures Appended(old(events), old(deliveries), Changes(Entries()))
    {
      ghost var e0, d0 := events, deliveries;
      var menus := GetAllMenus();
      Emit(MenusUpdated(menus));
      ghost var e1, d1 := events, deliveries;
      var routes := GetAllRoutes();
      Emit(RoutesUpdated(routes));
      LoggedTrans(listeners, e0, d0, e1, d1, events, deliveries, [MenusUpdated(menus)], [RoutesUpdated(routes)]);
    }

    /** Emits the three update events in order. */
    method EmitCatalog()
      requires Valid()
      modifies this`events, this`deliveries
      ensures Appended(old(events), old(deliveries), Catalog(Entries()))
    {
      ghost var e0, d0 := events, deliveries;
      EmitChanges();
      ghost var e1, d1 := events, deliveries;
      var perms := GetAllPermissions();
      Emit(PermissionsUpdated(perms));
      LoggedTrans(listeners, e0, d0, e1, d1, events, deliveries, Changes(Entries()), [PermissionsUpdated(perms)]);
    }
    method GetAllMenus() returns (r: seq<MenuItem>)
      requires Valid()
      ensures r == AllMenus(Entries())
    {
      var all: seq<MenuItem> := [];
      var entries := InOrder(ids, apps);
      for i := 0 to |entries|
        invariant all == Flatten(entries[..i], MenusIfShown)
      {
        var app := entries[i];
        FlattenAt(entries, i, MenusIfShown);
        if app.active && app.status == Loaded {
          all := all + app.manifest.menus.value;
        }
      }
      assert entries[..|entries|] == entries;
      r := SortMenus(all);
    }

    method GetAllRoutes() returns (r: seq<Route>)
      requires Valid()
      ensures r == AllRoutes(Entries())
    {
      r := [];
      var entries := InOrder(ids, apps);
      for i := 0 to |entries|
        invariant r == Flatten(entries[..i], RoutesIfShown)
      {
        var app := entries[i];
        FlattenAt(entries, i, RoutesIfShown);
        if app.active && app.status == Loaded {
          r := r + app.manifest.routes.value;
        }
      }
      assert entries[..|entries|] == entries;
    }

    method GetAllPermissions() returns (r: seq<PermissionConfig>)
      requires Valid()
      ensures r == AllPermissions(Entries())
    {
      r := [];
      var entries := InOrder(ids, apps);
      for i := 0 to |entries|
        invariant r == Flatten(entries[..i], PermissionsIfLoaded)
      {
        var app := entries[i];
        FlattenAt(entries, i, PermissionsIfLoaded);
        if app.status == Loaded && app.manifest.permissions.Some? {
          r := r + app.manifest.permissions.value;
        }
      }
      assert entries[..|entries|] == entries;
    }

    method GetApp(appId: string) returns (r: Option<RegisteredApp>)
      ensures r == if appId in apps then Some(apps[appId]) else None
    {
      r := if appId in apps then Some(apps[appId]) else None;
    }

    method GetAllApps() returns (r: seq<RegisteredApp>)
      requires Valid()
      ensures r == Entries()
    {
      r := InOrder(ids, apps);
    }

    /** `getLoadedApps`: the loaded entries, in key order. */
    method GetLoadedApps() returns (r: seq<RegisteredApp>)
      requires Valid()
      ensures r == Filter(Entries(), IsLoaded)
      ensures forall e :: e in r <==> e in Entries() && e.status == Loaded
    {
      var all := InOrder(ids, apps);
      r := [];
      for i := 0 to |all|
        invariant r == Filter(all[..i], IsLoaded)
      {
        FilterAt(all, i, IsLoaded);
        if IsLoaded(all[i]) {
          r := r + [all[i]];
        }
      }
      assert all[..|all|] == all;
    }

    /** `registerLoader`: always stores the loader; adds a pending placeholder only for
        an id without an entry. */
    method RegisterLoader(appId: string, loader: Loader)
      requires Valid()
      modifies this`loaders, this`apps, this`ids
      ensures Valid()
      ensures loaders == old(loaders)[appId := loader]
      ensures appId in old(apps) ==> apps == old(apps) && ids == old(ids)
      ensures appId !in old(apps) ==> apps == old(apps)[appId := PlaceholderEntry(appId)] && ids == old(ids) + [appId]
    {
      loaders := loaders[appId := loader];
      if appId !in apps {
        apps := apps[appId := PlaceholderEntry(appId)];
        ids := ids + [appId];
      }
    }

    /** `registerLoaders`: `registerLoader` for each entry of the record, in order. */
    method RegisterLoaders(entries: seq<(string, Loader)>)
      requires Valid()
      modifies this`loaders, this`apps, this`ids
      ensures Valid()
      ensures loaders == LoaderTable(old(loaders), entries)
      ensures apps == LoaderApps(old(apps), entries)
      ensures ids == LoaderIds(old(ids), old(apps), entries)
    {
      for i := 0 to |entries|
        invariant Valid()
        invariant loaders == LoaderTable(old(loaders), entries[..i])
        invariant apps == LoaderApps(old(apps), entries[..i])
        invariant ids == LoaderIds(old(ids), old(apps), entries[..i])
      {
        assert entries[..i + 1][..i] == entries[..i];
        RegisterLoader(entries[i].0, entries[i].1);
      }
      assert entries[..|entries|] == entries;
    }

    /** `register`. A manifest that fails validation changes nothing. Otherwise the
        entry is stored (overwriting any earlier one, keeping its place in key order);
        if setup rejects, the entry stays with status error, app:error is emitted and
        the rejection propagates; otherwise the five success events are emitted. */
    method Register(m: AppManifest, sourcePath: Option<string>) returns (o: Outcome<Error>)
      requires Valid()
      modifies this`apps, this`ids, this`events, this`deliveries
      ensures Valid()
      ensures o == RegisterOutcome(m)
      ensures ValidateManifest(m).Fail? ==>
        apps == old(apps) && ids == old(ids) && events == old(events) && deliveries == old(deliveries)
      ensures ValidateManifest(m).Pass? ==>
        apps == old(apps)[m.id := Installed(m, sourcePath)] && ids == Upsert(old(ids), m.id)
      ensures ValidateManifest(m).Pass? && o.Fail? ==>
        Appended(old(events), old(deliveries), [AppErrored(m.id, o.error)])
      ensures o.Pass? ==>
        Appended(old(events), old(deliveries),
          [AppRegistered(m.id, m), StatusChanged(m.id, Loaded, None)] + Catalog(Entries()))
      ensures Appended(old(events), old(deliveries), RegisterLog(m, Catalog(Entries())))
    {
      o := Validate(m);
      if o.Fail? {
        LoggedNone(listeners, events, deliveries);
        return;
      }
      ValidateManifestPass(m);
      if m.setup.Some? && m.setup.value.Fail? {
        o := m.setup.value;
        StoreFailed(m, sourcePath, o.error);
      } else {
        StoreLoaded(m, sourcePath);
      }
    }

    /** The rejected-setup branch of `register`: the entry is stored with status error and
        app:error is emitted. */
    method StoreFailed(m: AppManifest, sourcePath: Option<string>, e: Error)
      requires Valid() && m.menus.Some? && m.routes.Some?
      modifies this`apps, this`ids, this`events, this`deliveries
      ensures Valid()
      ensures apps == old(apps)[m.id := RegisteredApp(m, true, Failed, Some(e), sourcePath)] && ids == Upsert(old(ids), m.id)
      ensures Appended(old(events), old(deliveries), [AppErrored(m.id, e)])
    {
      Store(m.id, RegisteredApp(m, true, Failed, Some(e), sourcePath));
      Emit(AppErrored(m.id, e));
    }

    /** The successful branch of `register`: the entry is stored as loaded, then
        app:registered, app:status-changed and the three update events follow. */
    method StoreLoaded(m: AppManifest, sourcePath: Option<string>)
      requires Valid() && m.menus.Some? && m.routes.Some?
      modifies this`apps, this`ids, this`events, this`deliveries
      ensures Valid()
      ensures apps == old(apps)[m.id := RegisteredApp(m, true, Loaded, None, sourcePath)] && ids == Upsert(old(ids), m.id)
      ensures Appended(old(events), old(deliveries),
        [AppRegistered(m.id, m), StatusChanged(m.id, Loaded, None)] + Catalog(Entries()))
    {
      Store(m.id, RegisteredApp(m, true, Loaded, None, sourcePath));
      AnnounceLoaded(m);
    }

    /** The events of `register`'s successful branch, after the entry is stored. */
    method AnnounceLoaded(m: AppManifest)
      requires Valid()
      modifies this`events, this`deliveries
      ensures Appended(old(events), old(deliveries),
        [AppRegistered(m.id, m), StatusChanged(m.id, Loaded, None)] + Catalog(Entries()))
    {
      ghost var e0, d0 := events, deliveries;
      Emit(AppRegistered(m.id, m));
      ghost var e1, d1 := events, deliveries;
      Emit(StatusChanged(m.id, Loaded, None));
      ghost var e2, d2 := events, deliveries;
      LoggedTrans(listeners, e0, d0, e1, d1, e2, d2, [AppRegistered(m.id, m)], [StatusChanged(m.id, Loaded, None)]);
      AppendPair(e0, AppRegistered(m.id, m), StatusChanged(m.id, Loaded, None));
      EmitCatalog();
      LoggedTrans(listeners, e0, d0, e2, d2, events, deliveries,
        [AppRegistered(m.id, m), StatusChanged(m.id, Loaded, None)], Catalog(Entries()));
    }

    /** `apps.set(id, entry)`: a new key goes last, an existing one keeps its place. */
    method Store(id: string, entry: RegisteredApp)
      requires Valid()
      requires entry.manifest.menus.Some? && entry.manifest.routes.Some?
      modifies this`apps, this`ids
      ensures Valid()
      ensures apps == old(apps)[id := entry] && ids == Upsert(old(ids), id)
    {
      apps := apps[id := entry];
      ids := Upsert(ids, id);
    }

    /** `validateManifest` followed by the walk over menu ids with one shared set. */
    method Validate(m: AppManifest) returns (o: Outcome<Error>)
      ensures o == ValidateManifest(m)
    {
      if m.id == "" {
        return Fail(MissingId);
      }
      if m.name == "" {
        return Fail(MissingName);
      }
      if !(m.version.Some? && m.version.value != "") {
        return Fail(MissingVersion);
      }
      if m.menus.None? {
        return Fail(MenusNotArray);
      }
      if m.routes.None? {
        return Fail(RoutesNotArray);
      }
      var walk := ValidateMenuIds(m.menus.value, {});
      o := if walk.Failure? then Fail(DuplicateMenuId(walk.error)) else Pass;
    }

    /** The recursive `validateMenuIds` closure: visits items in order, fails on an id
        already in the shared set, adds it, then descends into the children. */
    method ValidateMenuIds(menus: seq<MenuItem>, seen: set<string>) returns (r: Result<set<string>, string>)
      ensures r == Thread(MenuIds(menus), seen)
      decreases MenusSize(menus)
    {
      var cur := seen;
      for i := 0 to |menus|
        invariant Thread(MenuIds(menus[..i]), seen) == Success(cur)
      {
        var menu := menus[i];
        MenuIdsAt(menus, i);
        ThreadAppend(MenuIds(menus[..i]), ItemIds(menu), seen);
        ThreadAppend(MenuIds(menus[..i + 1]), MenuIds(menus[i + 1..]), seen);
        ThreadCons(menu.id, ChildIds(menu), cur);
        if menu.id in cur {
          return Failure(menu.id);
        }
        cur := cur + {menu.id};
        if menu.children.SubMenus? {
          MenusSizeChild(menus, i);
          var sub := ValidateMenuIds(menu.children.items, cur);
          if sub.Failure? {
            return sub;
          }
          cur := sub.value;
        }
      }
      assert menus[..|menus|] == menus;
      r := Success(cur);
    }

    /** `loadAndRegister`. Without a stored loader it fails and changes nothing. Otherwise
        the entry becomes loading; if the loader or `register` fails, the id's entry ends
        with status error and that error, app:error is emitted and the failure
        propagates; if both succeed, app:loaded is emitted. */
    method LoadAndRegister(appId: string) returns (o: Outcome<Error>)
      requires Valid()
      modifies this`apps, this`ids, this`events, this`deliveries
      ensures Valid()
      ensures appId !in old(loaders) ==>
        o == Fail(LoaderNotFound(appId))
        && apps == old(apps) && ids == old(ids) && events == old(events) && deliveries == old(deliveries)
      ensures appId in old(loaders) ==>
        o == LoadOutcome(old(loaders)[appId]) && apps == AfterLoad(old(apps), appId, old(loaders)[appId])
        && ids == RegisteredIds(old(ids), old(loaders)[appId])
        && Appended(old(events), old(deliveries), LoadLog(appId, old(loaders)[appId], Catalog(Entries())))
    {
      if appId !in loaders {
        return Fail(LoaderNotFound(appId));
      }
      o := LoadWith(appId, loaders[appId]);
    }

    /** `loadAndRegister` once the loader is found: status loading, the `try` block,
        then app:loaded or the `catch` block. */
    method LoadWith(appId: string, loader: Loader) returns (o: Outcome<Error>)
      requires Valid() && appId in apps
      modifies this`apps, this`ids, this`events, this`deliveries
      ensures Valid()
      ensures o == LoadOutcome(loader)
      ensures apps == AfterLoad(old(apps), appId, loader)
      ensures ids == RegisteredIds(old(ids), loader)
      ensures Appended(old(events), old(deliveries), LoadLog(appId, loader, Catalog(Entries())))
    {
      ghost var e0, d0 := events, deliveries;
      MarkLoading(appId);
      ghost var a1, e1, d1 := apps, events, deliveries;
      var err := Attempt(loader);
      ghost var e2, d2, cat := events, deliveries, Catalog(Entries());
      assert apps == Registered(a1, loader);
      o := Settle(appId, err);
      if o.Fail? {
        AttemptLogFail(loader, cat, Catalog(Entries()));
      }
      LoggedTrans(listeners, e0, d0, e1, d1, e2, d2, [StatusChanged(appId, Loading, None)], AttemptLog(loader, cat));
      LoggedTrans(listeners, e0, d0, e2, d2, events, deliveries,
        [StatusChanged(appId, Loading, None)] + AttemptLog(loader, cat), LoadTail(appId, o));
    }

    /** The start of `loadAndRegister`'s work: the entry becomes loading. */
    method MarkLoading(appId: string)
      requires Valid() && appId in apps
      modifies this`apps, this`events, this`deliveries
      ensures Valid()
      ensures apps == old(apps)[appId := old(apps)[appId].(status := Loading)]
      ensures Appended(old(events), old(deliveries), [StatusChanged(appId, Loading, None)])
    {
      Update(appId, apps[appId].(status := Loading));
      Emit(StatusChanged(appId, Loading, None));
    }

    /** The end of `loadAndRegister`: app:loaded if the `try` block passed, the `catch`
        block with the error it caught otherwise. */
    method Settle(appId: string, err: Option<Error>) returns (o: Outcome<Error>)
      requires Valid() && appId in apps
      modifies this`apps, this`events, this`deliveries
      ensures Valid()
      ensures o == (if err.None? then Pass else Fail(err.value))
      ensures err.None? ==> apps == old(apps)
      ensures err.Some? ==> apps == old(apps)[appId := old(apps)[appId].(status := Failed, error := err)]
      ensures Appended(old(events), old(deliveries), LoadTail(appId, o))
    {
      if err.None? {
        Emit(AppLoaded(appId));
        o := Pass;
      } else {
        MarkFailed(appId, err.value);
        o := Fail(err.value);
      }
    }

    /** The `catch` block of `loadAndRegister`: the entry goes to error with the error,
        then app:status-changed and app:error are emitted. */
    method MarkFailed(appId: string, e: Error)
      requires Valid() && appId in apps
      modifies this`apps, this`events, this`deliveries
      ensures Valid()
      ensures apps == old(apps)[appId := old(apps)[appId].(status := Failed, error := Some(e))]
      ensures Appended(old(events), old(deliveries), [StatusChanged(appId, Failed, Some(e)), AppErrored(appId, e)])
    {
      Update(appId, apps[appId].(status := Failed, error := Some(e)));
      ghost var e0, d0 := events, deliveries;
      Emit(StatusChanged(appId, Failed, Some(e)));
      ghost var e1, d1 := events, deliveries;
      Emit(AppErrored(appId, e));
      LoggedTrans(listeners, e0, d0, e1, d1, events, deliveries, [StatusChanged(appId, Failed, Some(e))], [AppErrored(appId, e)]);
      AppendPair(e0, StatusChanged(appId, Failed, Some(e)), AppErrored(appId, e));
    }

    /** The `try` block of `loadAndRegister`: calls the loader and registers what it
        yields; `err` is what the `catch` receives. */
    method Attempt(loader: Loader) returns (err: Option<Error>)
      requires Valid()
      modifies this`apps, this`ids, this`events, this`deliveries
      ensures Valid()
      ensures err == (if LoadOutcome(loader).Fail? then Some(LoadOutcome(loader).error) else None)
      ensures apps == Registered(old(apps), loader) && ids == RegisteredIds(old(ids), loader)
      ensures Appended(old(events), old(deliveries), AttemptLog(loader, Catalog(Entries())))
    {
      err := None;
      match loader.result {
        case Failure(e) =>
          err := Some(e);
          LoggedNone(listeners, events, deliveries);
        case Success(mod) =>
          var r := Register(ManifestOf(mod), None);
          if r.Fail? {
            err := Some(r.error);
          }
      }
    }

    /** `loadAllPending`: tries every entry pending at the start, by non-decreasing
        priority; a failure is caught and the next entry is tried. `log` is what the
        calls emit. */
    method LoadAllPending() returns (ghost log: seq<Event>)
      requires Valid()
      modifies this`apps, this`ids, this`events, this`deliveries
      ensures Valid()
      ensures apps == LoadAll(old(apps), old(loaders), PendingOrder(old(ids), old(apps)))
      ensures ids == LoadAllIds(old(ids), old(loaders), PendingOrder(old(ids), old(apps)))
      ensures Appended(old(events), old(deliveries), log)
      ensures LoadingIds(log) == WithLoader(PendingOrder(old(ids), old(apps)), old(loaders))
      ensures log == LoadAllLog(old(apps), old(ids), old(loaders), PendingOrder(old(ids), old(apps)))
    {
      var order := Keys(SortBy(PendingEntries(ids, apps), PendingKey));
      log := [];
      LoggedNone(listeners, events, deliveries);
      for i := 0 to |order|
        invariant Valid()
        invariant TriedUpTo(old(apps), old(ids), loaders, order, i, apps, ids, log)
        invariant Appended(old(events), old(deliveries), log)
      {
        ghost var a, t, e0, d0 := apps, ids, events, deliveries;
        ghost var seg := LoadCaught(order[i]);
        TriedStep(old(apps), old(ids), loaders, order, i, a, t, log, apps, ids, seg);
        LoggedTrans(listeners, old(events), old(deliveries), e0, d0, events, deliveries, log, seg);
        log := log + seg;
      }
      LoadAllWhole(old(apps), old(ids), loaders, order);
    }

    /** One turn of `loadAllPending`'s loop: `loadAndRegister`, its rejection caught.
        `seg` is what it emits. */
    method LoadCaught(appId: string) returns (ghost seg: seq<Event>)
      requires Valid()
      modifies this`apps, this`ids, this`events, this`deliveries
      ensures Valid()
      ensures LoadTurn(old(apps), old(ids), old(loaders), appId, apps, ids, seg)
      ensures appId in old(loaders) ==> seg == LoadLog(appId, old(loaders)[appId], Catalog(Entries()))
      ensures Appended(old(events), old(deliveries), seg)
    {
      var _ := LoadAndRegister(appId);
      if appId in loaders {
        seg := LoadLog(appId, loaders[appId], Catalog(Entries()));
        LoadLogSpec(appId, loaders[appId], Entries());
      } else {
        seg := [];
        LoggedNone(listeners, events, deliveries);
      }
    }

    /** `unregister`. An unknown id changes nothing; a rejecting teardown propagates and
        changes nothing; otherwise the entry, its loader and its key are removed and the
        events are emitted. */
    method Unregister(appId: string) returns (o: Outcome<Error>)
      requires Valid()
      modifies this`apps, this`ids, this`loaders, this`events, this`deliveries
      ensures Valid()
      ensures appId !in old(apps) ==> o == Pass
      ensures o.Fail? ==> appId in old(apps) && old(apps)[appId].manifest.teardown == Some(o)
      ensures (appId !in old(apps) || o.Fail?) ==>
        apps == old(apps) && ids == old(ids) && loaders == old(loaders)
        && events == old(events) && deliveries == old(deliveries)
      ensures appId in old(apps) && o.Pass? ==>
        apps == old(apps) - {appId} && loaders == old(loaders) - {appId} && ids == Remove(old(ids), appId)
        && Appended(old(events), old(deliveries), [AppUnregistered(appId)] + Catalog(Entries()))
      ensures appId in old(apps) ==>
        (o.Fail? <==> old(apps)[appId].manifest.teardown.Some? && old(apps)[appId].manifest.teardown.value.Fail?)
    {
      if appId !in apps {
        return Pass;
      }
      var app := apps[appId];
      if app.manifest.teardown.Some? && app.manifest.teardown.value.Fail? {
        return app.manifest.teardown.value;
      }
      Withdraw(appId);
      o := Pass;
    }

    /** What `unregister` does once teardown has resolved. */
    method Withdraw(appId: string)
      requires Valid()
      modifies this`apps, this`ids, this`loaders, this`events, this`deliveries
      ensures Valid()
      ensures apps == old(apps) - {appId} && loaders == old(loaders) - {appId} && ids == Remove(old(ids), appId)
      ensures Appended(old(events), old(deliveries), [AppUnregistered(appId)] + Catalog(Entries()))
    {
      ghost var e0, d0 := events, deliveries;
      Drop(appId);
      Emit(AppUnregistered(appId));
      ghost var e1, d1 := events, deliveries;
      EmitCatalog();
      LoggedTrans(listeners, e0, d0, e1, d1, events, deliveries, [AppUnregistered(appId)], Catalog(Entries()));
    }

    /** `apps.delete(id)` and `loaders.delete(id)`. */
    method Drop(id: string)
      requires Valid()
      modifies this`apps, this`ids, this`loaders
      ensures Valid()
      ensures apps == old(apps) - {id} && loaders == old(loaders) - {id} && ids == Remove(old(ids), id)
    {
      RemoveDistinct(ids, id);
      apps := apps - {id};
      loaders := loaders - {id};
      ids := Remove(ids, id);
    }

    /** Replaces the entry of a known id. */
    method Update(id: string, entry: RegisteredApp)
      requires Valid() && id in apps
      requires entry.manifest.menus.Some? && entry.manifest.routes.Some?
      modifies this`apps
      ensures Valid()
      ensures apps == old(apps)[id := entry]
    {
      apps := apps[id := entry];
    }

    /** `setAppStatus`: an unknown id changes nothing; otherwise the status is set,
        `active` becomes whether the status is loaded, and three events follow. */
    method SetAppStatus(appId: string, status: AppStatus)
      requires Valid()
      modifies this`apps, this`events, this`deliveries
      ensures Valid()
      ensures appId !in old(apps) ==> apps == old(apps) && events == old(events) && deliveries == old(deliveries)
      ensures appId in old(apps) ==>
        apps == old(apps)[appId := old(apps)[appId].(status := status, active := status == Loaded)]
        && Appended(old(events), old(deliveries), [StatusChanged(appId, status, None)] + Changes(Entries()))
    {
      if appId in apps {
        Update(appId, apps[appId].(status := status, active := status == Loaded));
        ghost var e0, d0 := events, deliveries;
        Emit(StatusChanged(appId, status, None));
        ghost var e1, d1 := events, deliveries;
        EmitChanges();
        LoggedTrans(listeners, e0, d0, e1, d1, events, deliveries, [StatusChanged(appId, status, None)], Changes(Entries()));
      }
    }

    /** `setAppActive`: acts only on a loaded entry. */
    method SetAppActive(appId: string, active: bool)
      requires Valid()
      modifies this`apps, this`events, this`deliveries
      ensures Valid()
      ensures !(appId in old(apps) && old(apps)[appId].status == Loaded) ==>
        apps == old(apps) && events == old(events) && deliveries == old(deliveries)
      ensures appId in old(apps) && old(apps)[appId].status == Loaded ==>
        apps == old(apps)[appId := old(apps)[appId].(active := active)]
        && Appended(old(events), old(deliveries), [ActiveChanged(appId, active)] + Changes(Entries()))
    {
      if appId in apps && apps[appId].status == Loaded {
        Update(appId, apps[appId].(active := active));
        ghost var e0, d0 := events, deliveries;
        Emit(ActiveChanged(appId, active));
        ghost var e1, d1 := events, deliveries;
        EmitChanges();
        LoggedTrans(listeners, e0, d0, e1, d1, events, deliveries, [ActiveChanged(appId, active)], Changes(Entries()));
      }
    }

    /** `on`: adds the listener to the event's set (once). */
    method On(t: EventType, l: Listener)
      requires Valid()
      modifies this`listeners
      ensures Valid()
      ensures listeners == old(listeners)[t := Upsert(ListenersFor(old(listeners), t), l)]
    {
      if t !in listeners {
        listeners := listeners[t := []];
      }
      listeners := listeners[t := Upsert(listeners[t], l)];
    }

    /** The unsubscribe function `on` returns. */
    method Off(t: EventType, l: Listener)
      requires Valid()
      modifies this`listeners
      ensures Valid()
      ensures t !in old(listeners) ==> listeners == old(listeners)
      ensures t in old(listeners) ==> listeners == old(listeners)[t := Remove(old(listeners)[t], l)]
    {
      if t in listeners {
        RemoveDistinct(listeners[t], l);
        listeners := listeners[t := Remove(listeners[t], l)];
      }
    }

    /** `reset`: clears apps, loaders and listeners; the configuration stays. */
    method Reset()
      modifies this`apps, this`ids, this`loaders, this`listeners
      ensures Valid()
      ensures apps == map[] && ids == [] && loaders == map[] && listeners == map[]
    {
      apps, ids, loaders, listeners := map[], [], map[], map[];
    }
  }

}
