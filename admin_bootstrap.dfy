/** The admin shell's start-up (`apps/admin/src/bootstrap.ts`): icon names turned into
    icon components, the server's menus translated for the client and shared out between
    the server's modules by base path, and the modules registered one after another. */
module AdminBootstrap {
  import opened Wrappers
  import opened AppTypes
  import opened Strings
  import opened Seqs
  import opened ModuleScanner
  import opened Registry
  import opened Permissions
  import opened AppLoading

  // ---------------------------------------------------------------- icon names

  /** `part.charAt(0).toUpperCase() + part.slice(1)`. */
  function Capitalize(part: string): (r: string)
    ensures |r| == |part|
    ensures part != "" ==> r[0] == ToUpperAscii(part[0]) && r[1..] == part[1..]
    ensures '-' !in part ==> '-' !in r
  {
    if part == "" then "" else [ToUpperAscii(part[0])] + part[1..]
  }

  function CapitalizeAll(parts: seq<string>): (r: seq<string>)
    ensures |r| == |parts| && forall i :: 0 <= i < |parts| ==> r[i] == Capitalize(parts[i])
  {
    seq(|parts|, i requires 0 <= i < |parts| => Capitalize(parts[i]))
  }

  /** The icon component's name: the `-`-separated parts, each capitalised, joined. */
  function PascalCase(name: string): string {
    Concat(CapitalizeAll(Split(name, '-')))
  }

  lemma {:induction false} ConcatNoDash(parts: seq<string>)
    requires forall i :: 0 <= i < |parts| ==> '-' !in parts[i]
    ensures '-' !in Concat(parts)
  {
    if parts != [] {
      assert forall i :: 0 <= i < |parts[1..]| ==> parts[1..][i] == parts[i + 1];
      ConcatNoDash(parts[1..]);
    }
  }

  lemma {:induction false} ConcatLength(a: seq<string>, b: seq<string>)
    requires |a| == |b| && forall i :: 0 <= i < |a| ==> |a[i]| == |b[i]|
    ensures |Concat(a)| == |Concat(b)|
  {
    if a != [] {
      assert forall i :: 0 <= i < |a[1..]| ==> a[1..][i] == a[i + 1] && b[1..][i] == b[i + 1];
      ConcatLength(a[1..], b[1..]);
    }
  }

  /** The parts of a split, joined with nothing, are the string less its separators. */
  lemma {:induction false} ConcatSplit(s: string, c: char)
    ensures Concat(Split(s, c)) == Without(s, c)
    decreases |s|
  {
    if s != [] {
      ConcatSplit(s[1..], c);
      var rest := Split(s[1..], c);
      if s[0] == c {
        assert ([""] + rest)[1..] == rest;
      } else {
        var parts := [[s[0]] + rest[0]] + rest[1..];
        assert parts[1..] == rest[1..];
        assert Concat(rest) == rest[0] + Concat(rest[1..]);
      }
    }
  }

  lemma {:induction false} SplitWithout(s: string, c: char)
    requires c !in s
    ensures Split(s, c) == [s]
    decreases |s|
  {
    if s != [] {
      assert c !in s[1..];
      SplitWithout(s[1..], c);
      assert s == [s[0]] + s[1..];
    }
  }

  /** The name has no `-`, one letter per letter of the input less its `-`s, and a name
      without `-` is just capitalised. */
  lemma PascalCaseSpec(name: string)
    ensures '-' !in PascalCase(name)
    ensures |PascalCase(name)| == |Without(name, '-')|
    ensures '-' !in name ==> PascalCase(name) == Capitalize(name)
  {
    var parts := Split(name, '-');
    ConcatNoDash(CapitalizeAll(parts));
    ConcatLength(CapitalizeAll(parts), parts);
    ConcatSplit(name, '-');
    if '-' !in name {
      SplitWithout(name, '-');
      assert CapitalizeAll([name]) == [Capitalize(name)];
      assert Concat([Capitalize(name)]) == Capitalize(name) + Concat([]);
    }
  }

  /** `createIconElement`: the icon component of that name, if the icon set has one. */
  function CreateIconElement(icons: set<string>, name: string): (r: Option<Icon>)
    ensures r.None? <==> PascalCase(name) !in icons
    ensures r.Some? ==> r.value == IconElement(PascalCase(name))
  {
    if PascalCase(name) in icons then Some(IconElement(PascalCase(name))) else None
  }

  /** The resolver `setupIconResolver` installs. */
  function IconResolverOf(icons: set<string>): IconResolver {
    name => CreateIconElement(icons, name)
  }

  // ---------------------------------------------------------------- menus

  /** `transformMenus`: each server menu with its icon name made an icon element. */
  function TransformServerMenus(icons: set<string>, ms: seq<ServerMenu>): (r: seq<MenuItem>)
    ensures |r| == |ms|
    ensures forall i :: 0 <= i < |ms| ==> r[i] == TransformServerMenu(icons, ms[i])
    decreases ms
  {
    if ms == [] then []
    else
      var rest := TransformServerMenus(icons, ms[1..]);
      assert forall i :: 1 <= i < |ms| ==> rest[i - 1] == TransformServerMenu(icons, ms[i]) by {
        forall i | 1 <= i < |ms| ensures rest[i - 1] == TransformServerMenu(icons, ms[i]) {
          assert ms[1..][i - 1] == ms[i];
        }
      }
      [TransformServerMenu(icons, ms[0])] + rest
  }

  function TransformServerMenu(icons: set<string>, m: ServerMenu): (r: MenuItem)
    ensures !Truthy(m.icon) ==> r.icon.None?
    ensures Truthy(m.icon) ==> r.icon == CreateIconElement(icons, m.icon.value)
    decreases m
  {
    MenuItem(m.id, m.caption, if Truthy(m.icon) then CreateIconElement(icons, m.icon.value) else None, m.path,
      match m.children
      case NoMenuChildren => NoSubMenus
      case MenuChildren(ch) => SubMenus(TransformServerMenus(icons, ch)),
      m.order, None, m.badge, m.permissions, m.external, m.target)
  }

  /** `t` is what `transformMenus` makes of `m`: no icon without an icon name, otherwise
      `createIconElement` of the name; every other field of `...menu` copied, and the
      children, when present, translated item by item in turn. */
  predicate Translated(icons: set<string>, m: ServerMenu, t: MenuItem)
    decreases m
  {
    t.icon == (if Truthy(m.icon) then CreateIconElement(icons, m.icon.value) else None)
    && t.id == m.id && t.caption == m.caption && t.path == m.path && t.order == m.order
    && t.hidden.None? && t.badge == m.badge && t.permissions == m.permissions
    && t.external == m.external && t.target == m.target
    && match m.children
       case NoMenuChildren => t.children == NoSubMenus
       case MenuChildren(ch) =>
         t.children.SubMenus? && |t.children.items| == |ch|
         && forall i :: 0 <= i < |ch| ==> Translated(icons, ch[i], t.children.items[i])
  }

  /** Every translated menu, at every depth, has its icon made from its icon name and
      every other field copied. */
  lemma {:induction false} TransformServerMenusTranslated(icons: set<string>, ms: seq<ServerMenu>)
    ensures forall i :: 0 <= i < |ms| ==> Translated(icons, ms[i], TransformServerMenus(icons, ms)[i])
    decreases ms
  {
    forall i | 0 <= i < |ms|
      ensures Translated(icons, ms[i], TransformServerMenus(icons, ms)[i])
    {
      TransformServerMenuTranslated(icons, ms[i]);
    }
  }

  lemma {:induction false} TransformServerMenuTranslated(icons: set<string>, m: ServerMenu)
    ensures Translated(icons, m, TransformServerMenu(icons, m))
    decreases m
  {
    match m.children {
      case NoMenuChildren =>
      case MenuChildren(ch) => TransformServerMenusTranslated(icons, ch);
    }
  }

  /** A server menu tree with every icon dropped. */
  function EraseIcons(ms: seq<ServerMenu>): seq<ServerMenu>
    decreases ms
  {
    if ms == [] then []
    else
      [ms[0].(icon := None, children := match ms[0].children
                                       case NoMenuChildren => NoMenuChildren
                                       case MenuChildren(ch) => MenuChildren(EraseIcons(ch)))]
      + EraseIcons(ms[1..])
  }

  /** A client menu tree read back as a server one, without icons. */
  function AsServerMenus(ms: seq<MenuItem>): seq<ServerMenu>
    decreases ms
  {
    if ms == [] then []
    else
      [ServerMenu(ms[0].id, ms[0].caption, None, ms[0].path, ms[0].order, ms[0].badge, ms[0].permissions,
         ms[0].external, ms[0].target,
         match ms[0].children
         case NoSubMenus => NoMenuChildren
         case SubMenus(ch) => MenuChildren(AsServerMenus(ch)))]
      + AsServerMenus(ms[1..])
  }

  /** Apart from icons the translation keeps everything: ids, captions, paths, order,
      badges, permissions, links and the tree's shape at every depth. */
  lemma {:induction false} TransformKeepsMenus(icons: set<string>, ms: seq<ServerMenu>)
    ensures AsServerMenus(TransformServerMenus(icons, ms)) == EraseIcons(ms)
    decreases ms
  {
    if ms != [] {
      var t := TransformServerMenus(icons, ms);
      assert t[0] == TransformServerMenu(icons, ms[0]) && t[1..] == TransformServerMenus(icons, ms[1..]);
      TransformKeepsMenus(icons, ms[1..]);
      match ms[0].children {
        case NoMenuChildren =>
        case MenuChildren(ch) => TransformKeepsMenus(icons, ch);
      }
    }
  }

  function UnderBase(basePath: string): ServerMenu -> bool {
    (m: ServerMenu) => StartsWith(m.path, basePath)
  }

  /** `config.menus.filter((m) => m.path.startsWith(module.basePath))`. */
  function ModuleMenus(menus: seq<ServerMenu>, basePath: string): (r: seq<ServerMenu>)
    ensures forall m :: m in r <==> m in menus && StartsWith(m.path, basePath)
    ensures forall m :: multiset(r)[m] == if StartsWith(m.path, basePath) then multiset(menus)[m] else 0
  {
    FilterMultiset(menus, UnderBase(basePath));
    Filter(menus, UnderBase(basePath))
  }

  /** A module gets exactly the top-level menus whose path starts with its base path, in
      the server's order. */
  lemma ModuleMenusSpec(menus: seq<ServerMenu>, basePath: string)
    ensures IsSubsequence(ModuleMenus(menus, basePath), menus)
    ensures forall m :: m in ModuleMenus(menus, basePath) <==> m in menus && StartsWith(m.path, basePath)
    ensures forall m :: multiset(ModuleMenus(menus, basePath))[m] == if StartsWith(m.path, basePath) then multiset(menus)[m] else 0
  {
    FilterSubsequence(menus, UnderBase(basePath));
  }

  // ---------------------------------------------------------------- registration

  /** A module as `/api/platform/config` lists it: the version and base path are
      copied from its manifest, where both are optional. */
  datatype ModuleInfo = ModuleInfo(id: string, name: string, version: Option<string>, basePath: Option<string>,
                                   hasDistFiles: bool)

  /** The `data` of `/api/platform/config`. */
  datatype ServerPlatform = ServerPlatform(modules: seq<ModuleInfo>, menus: seq<ServerMenu>)

  /** The prefix `startsWith(module.basePath)` tests: an absent base path is converted
      to the string "undefined". */
  function MenuPrefix(basePath: Option<string>): string {
    match basePath
    case Some(b) => b
    case None => "undefined"
  }

  /** What `bootstrap` registers for a module: its menus, and no routes. */
  function ModuleManifest(mo: ModuleInfo, menus: seq<ServerMenu>, icons: set<string>): (m: AppManifest)
    ensures m.id == mo.id && m.name == mo.name && m.version == mo.version && m.basePath == mo.basePath
    ensures m.routes == Some([]) && m.setup.None?
    ensures m.menus == Some(TransformServerMenus(icons, ModuleMenus(menus, MenuPrefix(mo.basePath))))
  {
    AppManifest(mo.id, mo.name, mo.version, None, None, None, mo.basePath,
      Some(TransformServerMenus(icons, ModuleMenus(menus, MenuPrefix(mo.basePath)))), Some([]),
      None, None, None, None, None)
  }

  /** A module listed without a base path is registered with none, and gets no menus
      when every server menu path is absolute. */
  lemma NoBasePathNoMenus(mo: ModuleInfo, menus: seq<ServerMenu>, icons: set<string>)
    requires mo.basePath.None?
    requires forall k :: 0 <= k < |menus| ==> StartsWith(menus[k].path, "/")
    ensures ModuleManifest(mo, menus, icons).basePath.None?
    ensures ModuleManifest(mo, menus, icons).menus == Some([])
  {
    forall k | 0 <= k < |menus|
      ensures !UnderBase("undefined")(menus[k])
    {
      assert menus[k].path[..1] == "/";
      assert StartsWith(menus[k].path, "undefined") ==> menus[k].path[..9][0] == 'u';
    }
    FilterNone(menus, UnderBase("undefined"));
  }

  function Manifests(p: ServerPlatform, icons: set<string>): (r: seq<AppManifest>)
    ensures |r| == |p.modules| && forall i :: 0 <= i < |r| ==> r[i] == ModuleManifest(p.modules[i], p.menus, icons)
  {
    seq(|p.modules|, i requires 0 <= i < |p.modules| => ModuleManifest(p.modules[i], p.menus, icons))
  }

  /** The position of the first registration that throws. */
  function FirstFailure(ms: seq<AppManifest>): (r: Option<nat>)
    ensures r.Some? ==> r.value < |ms| && RegisterOutcome(ms[r.value]).Fail?
                        && forall j :: 0 <= j < r.value ==> RegisterOutcome(ms[j]).Pass?
    ensures r.None? ==> forall j :: 0 <= j < |ms| ==> RegisterOutcome(ms[j]).Pass?
  {
    if ms == [] then None
    else if RegisterOutcome(ms[0]).Fail? then Some(0)
    else
      var r := FirstFailure(ms[1..]);
      assert forall j :: 1 <= j < |ms| ==> ms[1..][j - 1] == ms[j];
      if r.Some? then Some(r.value + 1) else None
  }

  lemma FirstFailureAt(ms: seq<AppManifest>, i: nat)
    requires i < |ms| && RegisterOutcome(ms[i]).Fail?
    requires forall j :: 0 <= j < i ==> RegisterOutcome(ms[j]).Pass?
    ensures FirstFailure(ms) == Some(i) && Attempted(ms) == i + 1
  {
    var f := FirstFailure(ms);
    if f.None? {
    } else if f.value < i {
    } else if f.value > i {
    }
  }

  /** How many registrations run: up to and including the first that throws. */
  function Attempted(ms: seq<AppManifest>): (n: nat)
    ensures n <= |ms|
  {
    match FirstFailure(ms)
    case Some(k) => k + 1
    case None => |ms|
  }

  /** `registry.configure` as the shell calls it. */
  const AdminConfig := PartialConfig(Some("Nexo Platform"), Some("1.0.0"), Some("/"), Some("/modules"), None)

  /** The fixed administrator `bootstrap` signs in. */
  const AdminUser := UserInfo("1", "Admin User", Some("https://github.com/shadcn.png"),
    ["todo:read", "todo:write", "todo:admin", "analytics:view", "analytics:export",
     "analytics:realtime", "settings:profile", "settings:security"],
    ["admin"])

  /** The `for` loop of `bootstrap`: register each module in turn, stopping at the first
      registration that throws. */
  method RegisterModules(registry: AppRegistry, ms: seq<AppManifest>) returns (o: Outcome<Error>)
    requires registry.Valid()
    modifies registry`apps, registry`ids, registry`events, registry`deliveries
    ensures registry.Valid()
    ensures registry.apps == RegisterAll(old(registry.apps), ms[..Attempted(ms)])
    ensures registry.ids == RegisterAllIds(old(registry.ids), ms[..Attempted(ms)])
    ensures registry.Appended(old(registry.events), old(registry.deliveries),
      RegisterAllLog(old(registry.apps), old(registry.ids), ms[..Attempted(ms)]))
    ensures o.Pass? <==> FirstFailure(ms).None?
  {
    LoggedNone(registry.listeners, registry.events, registry.deliveries);
    for i := 0 to |ms|
      invariant registry.Valid()
      invariant forall j :: 0 <= j < i ==> RegisterOutcome(ms[j]).Pass?
      invariant RegisteredUpTo(old(registry.apps), old(registry.ids), old(registry.events), old(registry.deliveries),
        registry.listeners, ms, i, registry.apps, registry.ids, registry.events, registry.deliveries)
    {
      var r := RegisterTurn(registry, old(registry.apps), old(registry.ids), old(registry.events), old(registry.deliveries), ms, i);
      if r.Fail? {
        FirstFailureAt(ms, i);
        assert ms[..Attempted(ms)] == ms[..i + 1];
        return r;
      }
      PassesStep(ms, i);
    }
    assert ms[..|ms|] == ms;
    o := Pass;
  }

  /** The loop's first invariant one turn further, stated apart so the loop body does
      not reason about the quantifier among the registry's state. */
  lemma PassesStep(ms: seq<AppManifest>, i: nat)
    requires i < |ms| && RegisterOutcome(ms[i]).Pass?
    requires forall j :: 0 <= j < i ==> RegisterOutcome(ms[j]).Pass?
    ensures forall j :: 0 <= j < i + 1 ==> RegisterOutcome(ms[j]).Pass?
  {
  }

  /** `bootstrap`: installs the icon resolver, configures the registry, signs in the
      administrator, then registers the fetched modules; a failed fetch or a throwing
      registration is caught and ends the registrations. */
  method Bootstrap(registry: AppRegistry, pm: PermissionManager, slot: IconSlot, icons: set<string>,
                   fetched: Result<ServerPlatform, Error>)
    requires registry.Valid()
    modifies slot, registry`config, registry`apps, registry`ids, registry`events, registry`deliveries
    modifies pm`currentUser, pm`calls
    ensures registry.Valid()
    ensures slot.resolver == Some(IconResolverOf(icons))
    ensures registry.config == Merge(old(registry.config), AdminConfig)
    ensures pm.currentUser == Some(AdminUser)
    ensures pm.calls == old(pm.calls) + NotifyUser(old(pm.subscribers), Some(AdminUser))
    ensures fetched.Failure? ==>
      registry.apps == old(registry.apps) && registry.ids == old(registry.ids)
      && registry.events == old(registry.events) && registry.deliveries == old(registry.deliveries)
    ensures fetched.Success? ==>
      var ms := Manifests(fetched.value, icons);
      registry.apps == RegisterAll(old(registry.apps), ms[..Attempted(ms)])
      && registry.ids == RegisterAllIds(old(registry.ids), ms[..Attempted(ms)])
      && registry.Appended(old(registry.events), old(registry.deliveries),
           RegisterAllLog(old(registry.apps), old(registry.ids), ms[..Attempted(ms)]))
  {
    slot.SetIconResolver(IconResolverOf(icons));
    registry.Configure(AdminConfig);
    pm.SetUser(Some(AdminUser));
    if fetched.Success? {
      var _ := RegisterModules(registry, Manifests(fetched.value, icons));
    }
  }

  /** Registering modules none of which has id `id` leaves `id`'s presence as it was;
      applied to the modules after the first throwing registration, they leave no
      entry of their own. */
  lemma {:induction false} RegisterAllPrefix(apps: map<string, RegisteredApp>, ms: seq<AppManifest>, id: string)
    requires forall i :: 0 <= i < |ms| ==> ms[i].id != id
    ensures id in RegisterAll(apps, ms) <==> id in apps
  {
    RegisterAllKeys(apps, ms, id);
  }

  /** Every module the loop reaches is registered if it validates. */
  lemma AttemptedRegistered(apps: map<string, RegisteredApp>, ms: seq<AppManifest>, i: nat)
    requires i < Attempted(ms) && ValidateManifest(ms[i]).Pass?
    ensures ms[i].id in RegisterAll(apps, ms[..Attempted(ms)])
  {
    RegisterAllKeys(apps, ms[..Attempted(ms)], ms[i].id);
    assert ms[..Attempted(ms)][i] == ms[i];
  }
}
