/** The manifest helpers of `packages/core/src/helpers/define-app.ts`: `defineApp`, which
    fills in the list fields, and the chainable builder, whose setters write one shared
    manifest object and whose `build` checks it. Chaining (each setter returning the
    builder) is sequencing here. */
module AppBuilding {
  import opened Wrappers
  import opened AppTypes

  /** `defineApp`: the manifest with nullish `menus` and `routes` made empty lists. */
  function DefineApp(m: AppManifest): (r: AppManifest)
    ensures r.menus.Some? && r.routes.Some?
    ensures m.menus.Some? ==> r.menus == m.menus
    ensures m.routes.Some? ==> r.routes == m.routes
    ensures r.(menus := m.menus, routes := m.routes) == m
  {
    m.(menus := Some(m.menus.GetOr([])), routes := Some(m.routes.GetOr([])))
  }

  /** Applying `defineApp` twice is applying it once. */
  lemma DefineAppIdempotent(m: AppManifest)
    ensures DefineApp(DefineApp(m)) == DefineApp(m)
  {
  }

  /** `defineApp` changes nothing about a manifest that already has both lists. */
  lemma DefineAppFixed(m: AppManifest)
    ensures DefineApp(m) == m <==> m.menus.Some? && m.routes.Some?
  {
  }

  /** The builder returned by `createAppBuilder`: its fields are the shared `manifest`
      object's. */
  class AppBuilder {
    const id: string
    var name: Option<string>
    var version: Option<string>
    var description: Option<string>
    var author: Option<string>
    var icon: Option<Icon>
    var menus: seq<MenuItem>
    var routes: seq<Route>
    var setup: Option<Hook>
    var teardown: Option<Hook>
    var tags: Option<seq<string>>

    /** `createAppBuilder(id)`: the id, and empty menus and routes. */
    constructor (id: string)
      ensures this.id == id && menus == [] && routes == []
      ensures name.None? && version.None? && description.None? && author.None? && icon.None?
      ensures setup.None? && teardown.None? && tags.None?
    {
      this.id := id;
      name, version, description, author, icon := None, None, None, None, None;
      menus, routes := [], [];
      setup, teardown, tags := None, None, None;
    }

    /** The object as the `AppManifest` it is cast to; a missing name reads as empty. */
    function Manifest(): (m: AppManifest)
      reads this
      ensures m.id == id && m.version == version && m.menus == Some(menus) && m.routes == Some(routes)
      ensures Truthy(name) ==> m.name == name.value
    {
      AppManifest(id, name.GetOr(""), version, description, icon, author, None,
        Some(menus), Some(routes), None, tags, None, setup, teardown)
    }

    method Name(n: string)
      modifies this
      ensures name == Some(n)
      ensures version == old(version) && menus == old(menus) && routes == old(routes)
      ensures description == old(description) && author == old(author) && icon == old(icon)
      ensures setup == old(setup) && teardown == old(teardown) && tags == old(tags)
    {
      name := Some(n);
    }

    method Version(v: string)
      modifies this
      ensures version == Some(v)
      ensures name == old(name) && menus == old(menus) && routes == old(routes)
      ensures description == old(description) && author == old(author) && icon == old(icon)
      ensures setup == old(setup) && teardown == old(teardown) && tags == old(tags)
    {
      version := Some(v);
    }

    method Description(d: string)
      modifies this
      ensures description == Some(d)
      ensures name == old(name) && version == old(version) && menus == old(menus) && routes == old(routes)
      ensures author == old(author) && icon == old(icon)
      ensures setup == old(setup) && teardown == old(teardown) && tags == old(tags)
    {
      description := Some(d);
    }

    method Author(a: string)
      modifies this
      ensures author == Some(a)
      ensures name == old(name) && version == old(version) && menus == old(menus) && routes == old(routes)
      ensures description == old(description) && icon == old(icon)
      ensures setup == old(setup) && teardown == old(teardown) && tags == old(tags)
    {
      author := Some(a);
    }

    method SetIcon(i: Option<Icon>)
      modifies this
      ensures icon == i
      ensures name == old(name) && version == old(version) && menus == old(menus) && routes == old(routes)
      ensures description == old(description) && author == old(author)
      ensures setup == old(setup) && teardown == old(teardown) && tags == old(tags)
    {
      icon := i;
    }

    /** `menu(m)`: pushes `m` at the end of the menus. */
    method Menu(m: MenuItem)
      modifies this
      ensures menus == old(menus) + [m]
      ensures name == old(name) && version == old(version) && routes == old(routes)
      ensures description == old(description) && author == old(author) && icon == old(icon)
      ensures setup == old(setup) && teardown == old(teardown) && tags == old(tags)
    {
      menus := menus + [m];
    }

    /** `menus(ms)`: replaces the menus wholesale. */
    method Menus(ms: seq<MenuItem>)
      modifies this
      ensures menus == ms
      ensures name == old(name) && version == old(version) && routes == old(routes)
      ensures description == old(description) && author == old(author) && icon == old(icon)
      ensures setup == old(setup) && teardown == old(teardown) && tags == old(tags)
    {
      menus := ms;
    }

    /** `route(r)`: pushes `r` at the end of the routes. */
    method AddRoute(r: Route)
      modifies this
      ensures routes == old(routes) + [r]
      ensures name == old(name) && version == old(version) && menus == old(menus)
      ensures description == old(description) && author == old(author) && icon == old(icon)
      ensures setup == old(setup) && teardown == old(teardown) && tags == old(tags)
    {
      routes := routes + [r];
    }

    /** `routes(rs)`: replaces the routes wholesale. */
    method Routes(rs: seq<Route>)
      modifies this
      ensures routes == rs
      ensures name == old(name) && version == old(version) && menus == old(menus)
      ensures description == old(description) && author == old(author) && icon == old(icon)
      ensures setup == old(setup) && teardown == old(teardown) && tags == old(tags)
    {
      routes := rs;
    }

    method Setup(h: Option<Hook>)
      modifies this
      ensures setup == h
      ensures name == old(name) && version == old(version) && menus == old(menus) && routes == old(routes)
      ensures description == old(description) && author == old(author) && icon == old(icon)
      ensures teardown == old(teardown) && tags == old(tags)
    {
      setup := h;
    }

    method Teardown(h: Option<Hook>)
      modifies this
      ensures teardown == h
      ensures name == old(name) && version == old(version) && menus == old(menus) && routes == old(routes)
      ensures description == old(description) && author == old(author) && icon == old(icon)
      ensures setup == old(setup) && tags == old(tags)
    {
      teardown := h;
    }

    method Tags(ts: seq<string>)
      modifies this
      ensures tags == Some(ts)
      ensures name == old(name) && version == old(version) && menus == old(menus) && routes == old(routes)
      ensures description == old(description) && author == old(author) && icon == old(icon)
      ensures setup == old(setup) && teardown == old(teardown)
    {
      tags := Some(ts);
    }

    /** `build`: the name is checked before the version; on success the result is this
        very object, so a setter called afterwards changes the built manifest too. */
    method Build() returns (r: Result<AppBuilder, Error>)
      ensures !Truthy(name) ==> r == Failure(NameRequired)
      ensures Truthy(name) && !Truthy(version) ==> r == Failure(VersionRequired)
      ensures Truthy(name) && Truthy(version) ==> r == Success(this)
    {
      if name.None? || name.value == "" {
        return Failure(NameRequired);
      }
      if version.None? || version.value == "" {
        return Failure(VersionRequired);
      }
      r := Success(this);
    }
  }

  /** A manifest the builder builds passes the registry's name and version checks. */
  lemma BuiltManifestNamed(b: AppBuilder)
    requires Truthy(b.name) && Truthy(b.version)
    ensures var m := b.Manifest(); m.name != "" && Truthy(m.version)
  {
  }

  /** The builder's manifest is already in `defineApp`'s normal form. */
  lemma BuiltManifestDefined(b: AppBuilder)
    ensures DefineApp(b.Manifest()) == b.Manifest()
  {
  }
}
