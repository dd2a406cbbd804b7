/** The platform server's file serving (`apps/server/src/index.ts`): each module is
    mounted at its base path and on a legacy `/modules/<id>/` route; a request becomes a
    file path under the module's `dist` directory, or, in development, a URL on the
    module's dev server. Whether the dev server answers and which files exist are
    inputs. */
module StaticServer {
  import opened Wrappers
  import opened Strings
  import opened Seqs
  import opened AppTypes
  import opened ModuleScanner

  /** The fixed dev-server port table. */
  const DevPorts: map<string, nat> := map["todo-app" := 4001, "analytics-app" := 4002, "settings-app" := 4003]

  /** The suffixes the ladder tests. */
  const Js := ".js"
  const Css := ".css"
  const Json := ".json"
  const Html := ".html"
  const SourceMap := ".map"
  const Svg := ".svg"
  const Png := ".png"

  /** Suffix to content type, in the order the ladder tests them. */
  const ContentTypes: seq<(string, string)> := [
    (Js, "application/javascript"),
    (Css, "text/css"),
    (Json, "application/json"),
    (Html, "text/html"),
    (SourceMap, "application/json"),
    (Svg, "image/svg+xml"),
    (Png, "image/png")]

  const DefaultContentType := "application/octet-stream"

  /** The if/else ladder choosing the `Content-Type` from the full file path. */
  function ContentType(fullPath: string): string {
    if EndsWith(fullPath, Js) then "application/javascript"
    else if EndsWith(fullPath, Css) then "text/css"
    else if EndsWith(fullPath, Json) then "application/json"
    else if EndsWith(fullPath, Html) then "text/html"
    else if EndsWith(fullPath, SourceMap) then "application/json"
    else if EndsWith(fullPath, Svg) then "image/svg+xml"
    else if EndsWith(fullPath, Png) then "image/png"
    else DefaultContentType
  }

  /** The first table entry whose suffix the path has. */
  function Lookup(table: seq<(string, string)>, path: string): string {
    if table == [] then DefaultContentType
    else if EndsWith(path, table[0].0) then table[0].1
    else Lookup(table[1..], path)
  }

  /** A suffix of the table: a dot, then letters only. */
  predicate DotWord(s: string) {
    |s| >= 2 && s[0] == '.' && forall i :: 1 <= i < |s| ==> s[i] != '.'
  }

  /** No path ends with two different dot-words: the last dot fixes both. */
  lemma DotWordsExclusive(path: string, s: string, t: string)
    requires DotWord(s) && DotWord(t) && EndsWith(path, s) && EndsWith(path, t)
    ensures s == t
  {
  }

  lemma {:induction false} LookupStep(table: seq<(string, string)>, i: nat, path: string)
    requires i < |table|
    ensures Lookup(table[i..], path) == if EndsWith(path, table[i].0) then table[i].1 else Lookup(table[i + 1..], path)
  {
    assert table[i..][0] == table[i] && table[i..][1..] == table[i + 1..];
  }

  /** The first matching entry decides. */
  lemma {:induction false} LookupFirst(table: seq<(string, string)>, path: string, k: nat)
    requires k < |table| && EndsWith(path, table[k].0)
    requires forall j :: 0 <= j < k ==> !EndsWith(path, table[j].0)
    ensures Lookup(table, path) == table[k].1
  {
    if k > 0 {
      assert forall j :: 0 <= j < k - 1 ==> table[1..][j] == table[j + 1];
      LookupFirst(table[1..], path, k - 1);
    }
  }

  lemma {:induction false} LookupNone(table: seq<(string, string)>, path: string)
    requires forall j :: 0 <= j < |table| ==> !EndsWith(path, table[j].0)
    ensures Lookup(table, path) == DefaultContentType
  {
    if table != [] {
      assert forall j :: 0 <= j < |table| - 1 ==> table[1..][j] == table[j + 1];
      LookupNone(table[1..], path);
    }
  }

  /** The ladder is the table read top down. */
  lemma ContentTypeTable(fullPath: string)
    ensures ContentType(fullPath) == Lookup(ContentTypes, fullPath)
  {
    var t := ContentTypes;
    assert t[0..] == t;
    LookupStep(t, 0, fullPath);
    LookupStep(t, 1, fullPath);
    LookupStep(t, 2, fullPath);
    LookupStep(t, 3, fullPath);
    if !EndsWith(fullPath, Js) && !EndsWith(fullPath, Css) && !EndsWith(fullPath, Json) && !EndsWith(fullPath, Html) {
      LadderTail(fullPath);
    }
  }

  /** The last three rungs of the ladder and the default. */
  lemma LadderTail(fullPath: string)
    requires !EndsWith(fullPath, Js) && !EndsWith(fullPath, Css) && !EndsWith(fullPath, Json) && !EndsWith(fullPath, Html)
    ensures ContentType(fullPath) == Lookup(ContentTypes[4..], fullPath)
  {
    var t := ContentTypes;
    LookupStep(t, 4, fullPath);
    LookupStep(t, 5, fullPath);
    LookupStep(t, 6, fullPath);
    assert t[7..] == [];
  }

  /** Since no two suffixes can both match, the order of the ladder does not matter: a
      path with one of the listed suffixes gets exactly that suffix's type, and any other
      path gets `application/octet-stream`. */
  lemma ContentTypeBySuffix(fullPath: string, k: nat)
    requires k < |ContentTypes| && EndsWith(fullPath, ContentTypes[k].0)
    ensures ContentType(fullPath) == ContentTypes[k].1
  {
    var t := ContentTypes;
    assert forall j :: 0 <= j < |t| ==> DotWord(t[j].0);
    forall j | 0 <= j < k
      ensures !EndsWith(fullPath, t[j].0)
    {
      if EndsWith(fullPath, t[j].0) {
        DotWordsExclusive(fullPath, t[j].0, t[k].0);
        assert false;
      }
    }
    ContentTypeTable(fullPath);
    LookupFirst(t, fullPath, k);
  }

  lemma ContentTypeOther(fullPath: string)
    requires forall k :: 0 <= k < |ContentTypes| ==> !EndsWith(fullPath, ContentTypes[k].0)
    ensures ContentType(fullPath) == DefaultContentType
  {
    ContentTypeTable(fullPath);
    LookupNone(ContentTypes, fullPath);
  }

  /** `Cache-Control` of a served file. */
  function CacheControl(isDev: bool): string {
    if isDev then "no-cache" else "public, max-age=31536000"
  }

  /** The file path of a request under a mounted base path: the first occurrence of the
      base path removed, then one leading `/`, and `index.html` for what is left empty. */
  function MountedFilePath(requestPath: string, basePath: string): (r: string)
    ensures r != ""
  {
    OrElse(DropLeadingSlash(ReplaceFirst(requestPath, basePath, "")), "index.html")
  }

  /** For a request below the base path the file path is the rest of the request, less
      one leading `/`, and `index.html` for the base path itself or `<base>/`. */
  lemma MountedFilePathBelow(basePath: string, rest: string)
    ensures MountedFilePath(basePath + rest, basePath) == OrElse(DropLeadingSlash(rest), "index.html")
    ensures MountedFilePath(basePath, basePath) == "index.html"
    ensures MountedFilePath(basePath + "/", basePath) == "index.html"
  {
    PrefixReplaced(basePath, rest);
    PrefixReplaced(basePath, "");
    PrefixReplaced(basePath, "/");
    assert basePath + "" == basePath;
  }

  /** The first occurrence of a prefix is at its start. */
  lemma PrefixReplaced(p: string, rest: string)
    ensures ReplaceFirst(p + rest, p, "") == rest
  {
    assert (p + rest)[..|p|] == p;
    assert IndexOf(p + rest, p) == Some(0);
    assert (p + rest)[|p|..] == rest;
  }

  /** The file path on the legacy route: the first `/modules/<id>/` removed, and
      `index.html` for what is left empty; no leading `/` is dropped. */
  function LegacyFilePath(requestPath: string, moduleId: string): (r: string)
    ensures r != ""
  {
    OrElse(ReplaceFirst(requestPath, LegacyPrefix(moduleId), ""), "index.html")
  }

  function LegacyPrefix(moduleId: string): string {
    "/modules/" + moduleId + "/"
  }

  /** The base path used for proxying on the legacy route, `moduleId` being the
      route's parameter. */
  function LegacyBasePath(m: LoadedModule, moduleId: string): (r: string)
    ensures Truthy(m.manifest.basePath) ==> r == m.manifest.basePath.value
    ensures !Truthy(m.manifest.basePath) ==> r == "/modules/" + moduleId
  {
    OrElse(m.manifest.basePath.GetOr(""), "/modules/" + moduleId)
  }

  /** The URL proxied to: every run of `/` collapsed to one. */
  function ProxyUrl(port: nat, basePath: string, filePath: string): string {
    CollapseSlashes(RawProxyUrl(port, basePath, filePath))
  }

  function Scheme(): string {
    "http:"
  }

  function Host(port: nat): string {
    "/localhost:" + NatToString(port)
  }

  /** `http://localhost:<port><basePath>/<filePath>` before collapsing. */
  function RawProxyUrl(port: nat, basePath: string, filePath: string): (r: string)
    ensures r == "http://localhost:" + NatToString(port) + basePath + "/" + filePath
  {
    Scheme() + "/" + Host(port) + basePath + "/" + filePath
  }

  /** The proxy URL has no `//` left, not even after `http:`, and loses no character
      other than `/`. */
  lemma ProxyUrlSpec(port: nat, basePath: string, filePath: string)
    ensures NoDoubleSlash(ProxyUrl(port, basePath, filePath))
    ensures Without(ProxyUrl(port, basePath, filePath), '/') == Without(RawProxyUrl(port, basePath, filePath), '/')
    ensures StartsWith(ProxyUrl(port, basePath, filePath), Scheme() + Host(port))
  {
    var raw := RawProxyUrl(port, basePath, filePath);
    CollapseSlashesSpec(raw);
    var head := Scheme() + "/" + Host(port);
    var tail := basePath + "/" + filePath;
    assert raw == head + tail;
    CollapseSlashesAppend(head, tail);
    CollapseHost(port);
    var r := Scheme() + Host(port);
    assert ProxyUrl(port, basePath, filePath) == r + CollapseSlashes(tail);
    assert (r + CollapseSlashes(tail))[..|r|] == r;
  }

  /** That prefix is `http:/localhost:<port>`. */
  lemma CollapsedOrigin(port: nat)
    ensures Scheme() + Host(port) == "http:/localhost:" + NatToString(port)
  {
  }

  /** The `//` after `http:` becomes `/`; the host and port keep their characters. */
  lemma CollapseHost(port: nat)
    ensures CollapseSlashes(Scheme() + "/" + Host(port)) == Scheme() + Host(port)
  {
    HostNoDoubleSlash(NatToString(port));
    var a := Scheme();
    var host := Host(port);
    assert host[0] == '/';
    assert NoDoubleSlash(a);
    CollapseAfter(a, host);
  }

  lemma CollapseAfter(a: string, x: string)
    requires a != [] && a[|a| - 1] != '/' && NoDoubleSlash(a)
    requires x != [] && x[0] == '/' && NoDoubleSlash(x)
    ensures CollapseSlashes(a + "/" + x) == a + x
  {
    assert a + "/" + x == a + ("/" + x);
    CollapseSlashesAppend(a, "/" + x);
    CollapseSlashesIdentity(a);
    CollapseRunHead(x);
    CollapseSlashesIdentity(x);
  }

  lemma CollapseRunHead(x: string)
    requires x != [] && x[0] == '/'
    ensures CollapseSlashes("/" + x) == CollapseSlashes(x)
  {
    assert ("/" + x)[1..] == x;
  }

  lemma HostNoDoubleSlash(digits: string)
    requires forall i :: 0 <= i < |digits| ==> IsAsciiDigit(digits[i])
    ensures NoDoubleSlash("/localhost:" + digits)
  {
    var single := "/localhost:" + digits;
    forall i | 0 <= i < |single| - 1 ensures !(single[i] == '/' && single[i + 1] == '/') {
      assert single[i + 1] != '/' by {
        if i + 1 >= 11 {
          assert single[i + 1] == digits[i + 1 - 11];
        }
      }
    }
  }

  /** What the server answers. */
  datatype Response =
    | Proxied(url: string)
    | File(fullPath: string, contentType: string, cacheControl: string)
    | JsonError(status: nat, error: string, path: Option<string>)

  /** The environment of one request: production or development, whether the module's
      dev server answers, and which files exist. */
  datatype Environment = Environment(isDev: bool, devServerUp: bool, existing: set<string>)

  /** Proxying is tried only in development and only for ids in the port table. */
  predicate ProxyGate(isDev: bool, moduleId: string) {
    isDev && moduleId in DevPorts && DevPorts[moduleId] != 0
  }

  function DistPath(m: LoadedModule, filePath: string): string {
    PathJoin(PathJoin(m.path, "dist"), filePath)
  }

  /** `serveModuleFile`: the dev server's answer when the gate is open and it answers,
      else the file from `<module path>/dist/<filePath>` when it exists, else nothing. */
  function ServeModuleFile(env: Environment, m: LoadedModule, moduleId: string, filePath: string, basePath: string): (r: Option<Response>)
    ensures r.Some? && r.value.Proxied? <==> ProxyGate(env.isDev, moduleId) && env.devServerUp
    ensures r.Some? && r.value.Proxied? ==> r.value.url == ProxyUrl(DevPorts[moduleId], basePath, filePath)
    ensures !(ProxyGate(env.isDev, moduleId) && env.devServerUp) ==>
      (r.Some? <==> DistPath(m, filePath) in env.existing)
    ensures r.Some? && r.value.File? ==>
      r.value.fullPath == DistPath(m, filePath) && r.value.fullPath in env.existing
      && r.value.contentType == ContentType(r.value.fullPath) && r.value.cacheControl == CacheControl(env.isDev)
    ensures r.None? || r.value.Proxied? || r.value.File?
  {
    if ProxyGate(env.isDev, moduleId) && env.devServerUp then
      Some(Proxied(ProxyUrl(DevPorts[moduleId], basePath, filePath)))
    else
      var fullPath := DistPath(m, filePath);
      if fullPath in env.existing then Some(File(fullPath, ContentType(fullPath), CacheControl(env.isDev)))
      else None
  }

  function OrNotFound(r: Option<Response>, filePath: string): Response {
    match r
    case Some(x) => x
    case None => JsonError(404, "File not found", Some(filePath))
  }

  /** The handler for paths below the base path: the module's answer for the mounted file
      path, or a 404 naming that path when the module has none. */
  function HandleBelowBase(env: Environment, m: LoadedModule, requestPath: string): (r: Response)
    requires Truthy(m.manifest.basePath)
    ensures var basePath := m.manifest.basePath.value;
      var filePath := MountedFilePath(requestPath, basePath);
      (r.JsonError? <==> ServeModuleFile(env, m, m.id, filePath, basePath).None?)
      && (r.JsonError? ==> r == JsonError(404, "File not found", Some(filePath)))
      && (!r.JsonError? ==> Some(r) == ServeModuleFile(env, m, m.id, filePath, basePath))
  {
    var basePath := m.manifest.basePath.value;
    var filePath := MountedFilePath(requestPath, basePath);
    OrNotFound(ServeModuleFile(env, m, m.id, filePath, basePath), filePath)
  }

  /** For a request `<basePath><rest>` the handler below the base path serves `rest`, less
      one leading `/`, or `index.html` when that is empty. */
  lemma HandleBelowBaseRest(env: Environment, m: LoadedModule, rest: string)
    requires Truthy(m.manifest.basePath)
    ensures var basePath := m.manifest.basePath.value;
      var filePath := OrElse(DropLeadingSlash(rest), "index.html");
      HandleBelowBase(env, m, basePath + rest) == OrNotFound(ServeModuleFile(env, m, m.id, filePath, basePath), filePath)
  {
    MountedFilePathBelow(m.manifest.basePath.value, rest);
  }

  /** The handler for `<basePath>` itself, which serves `index.html`: the same answer the
      handler below the base path would give for the base path or `<basePath>/`. */
  function HandleBase(env: Environment, m: LoadedModule): (r: Response)
    requires Truthy(m.manifest.basePath)
    ensures r == HandleBelowBase(env, m, m.manifest.basePath.value)
    ensures r == HandleBelowBase(env, m, m.manifest.basePath.value + "/")
  {
    MountedFilePathBelow(m.manifest.basePath.value, "");
    OrNotFound(ServeModuleFile(env, m, m.id, "index.html", m.manifest.basePath.value), "index.html")
  }

  /** The handler for the legacy `/modules/:moduleId` route: a 404 for an unknown id;
      otherwise the module's answer for the legacy file path, or a 404 naming that path
      when the module has none. */
  function HandleLegacy(env: Environment, modules: map<string, LoadedModule>, moduleId: string, requestPath: string): (r: Response)
    ensures moduleId !in modules <==> r == JsonError(404, "Module not found", None)
    ensures moduleId in modules ==>
      var m := modules[moduleId];
      var filePath := LegacyFilePath(requestPath, moduleId);
      var s := ServeModuleFile(env, m, moduleId, filePath, LegacyBasePath(m, moduleId));
      (s.None? <==> r == JsonError(404, "File not found", Some(filePath)))
      && (s.Some? ==> Some(r) == s)
  {
    var filePath := LegacyFilePath(requestPath, moduleId);
    if moduleId !in modules then JsonError(404, "Module not found", None)
    else
      var m := modules[moduleId];
      OrNotFound(ServeModuleFile(env, m, moduleId, filePath, LegacyBasePath(m, moduleId)), filePath)
  }

  /** Outside development every answer is a file from the module's `dist` directory or a
      404, and the file is marked cacheable for a year. */
  lemma ProductionServesDist(env: Environment, m: LoadedModule, requestPath: string)
    requires !env.isDev && Truthy(m.manifest.basePath)
    ensures var filePath := MountedFilePath(requestPath, m.manifest.basePath.value);
      var r := HandleBelowBase(env, m, requestPath);
      (r.File? && r.fullPath == DistPath(m, filePath) && r.cacheControl == "public, max-age=31536000"
       && DistPath(m, filePath) in env.existing)
      || (r == JsonError(404, "File not found", Some(filePath)) && DistPath(m, filePath) !in env.existing)
  {
  }

  /** On the legacy route a module without a base path is proxied under
      `/modules/<id>`. */
  lemma LegacyProxyFallback(env: Environment, modules: map<string, LoadedModule>, moduleId: string, requestPath: string)
    requires moduleId in modules && !Truthy(modules[moduleId].manifest.basePath)
    requires ProxyGate(env.isDev, moduleId) && env.devServerUp
    ensures HandleLegacy(env, modules, moduleId, requestPath)
      == Proxied(ProxyUrl(DevPorts[moduleId], "/modules/" + moduleId, LegacyFilePath(requestPath, moduleId)))
  {
  }

  /** A route the server mounts for a module. */
  datatype Mount = BelowBase(pattern: string, moduleId: string) | AtBase(pattern: string, moduleId: string)

  function MountsOf(m: LoadedModule): seq<Mount> {
    if Truthy(m.manifest.basePath) then
      [BelowBase(m.manifest.basePath.value + "/*", m.id), AtBase(m.manifest.basePath.value, m.id)]
    else []
  }

  /** The mounting loop over the modules in priority order: two routes for each module
      with a base path, none for the others. */
  method MountModules(mods: seq<LoadedModule>) returns (mounts: seq<Mount>)
    ensures mounts == Flatten(mods, MountsOf)
  {
    mounts := [];
    for i := 0 to |mods|
      invariant mounts == Flatten(mods[..i], MountsOf)
    {
      var mo := mods[i];
      if mo.manifest.basePath.Some? && mo.manifest.basePath.value != "" {
        var basePath := mo.manifest.basePath.value;
        mounts := mounts + [BelowBase(basePath + "/*", mo.id), AtBase(basePath, mo.id)];
      }
      assert Flatten([mo], MountsOf) == MountsOf(mo);
      assert mods[..i + 1] == mods[..i] + [mo];
      FlattenAppend(mods[..i], [mo], MountsOf);
    }
    assert mods[..|mods|] == mods;
  }

  /** Every mounted route belongs to a module with a base path, under that base path. */
  lemma MountsSpec(mods: seq<LoadedModule>, x: Mount)
    ensures x in Flatten(mods, MountsOf) <==>
      exists i :: 0 <= i < |mods| && Truthy(mods[i].manifest.basePath) && x.moduleId == mods[i].id
        && (x == BelowBase(mods[i].manifest.basePath.value + "/*", mods[i].id)
            || x == AtBase(mods[i].manifest.basePath.value, mods[i].id))
  {
    FlattenMember(mods, MountsOf, x);
  }
}
