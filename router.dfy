/** The router (Routes/Router.swift): one route table per scheme, created on
    first use, a lazily created default table, and dispatch to the table of
    a resource's scheme with an optional fallback to the default table. */
module Routers {
  import opened Common
  import opened Requests
  import opened Definitions
  import opened RouteTables

  /** `Router.defaultScheme` (Router.swift:13). */
  const DefaultScheme: string := "__scheme__"

  /** What routing through one table does, with the table as it is now. */
  function TableOutcome(t: Routes, url: Option<Url>, parameters: Params, executeRouteBlock: bool, unescape: Unescaper)
    : (bool, seq<Event>)
    reads t, set d | d in t.definitions
  {
    Outcome(t.States(), url, parameters, executeRouteBlock, t.RequestOptions(), t.unmatchedHandlerSet, unescape)
  }

  /** The scheme of a resource, when it has a URL with one. */
  function SchemeOf(url: Option<Url>): Option<string> {
    if url.Some? then url.value.scheme else None
  }

  /** How routing may change a router's tables: a table can only be added
      under the default scheme, every registered table stays, and once the
      default table exists nothing changes. */
  predicate Kept(mapping0: map<string, Routes>, default0: Option<Routes>,
                 mapping1: map<string, Routes>, default1: Option<Routes>)
  {
    && mapping1.Keys <= mapping0.Keys + {DefaultScheme}
    && (forall scheme :: scheme in mapping0 ==> scheme in mapping1 && mapping1[scheme] == mapping0[scheme])
    && (default0.Some? ==> default1 == default0 && mapping1 == mapping0)
  }

  /** The table for a resource with the given scheme: the one registered for
      it, otherwise the default table once created. */
  function Resolve(mapping: map<string, Routes>, defaultRoutes: Option<Routes>, scheme: Option<string>): Option<Routes> {
    if scheme.Some? && scheme.value in mapping then Some(mapping[scheme.value]) else defaultRoutes
  }

  /** Changes of that kind compose, and a resource that had a table keeps it. */
  lemma KeptTables(mapping0: map<string, Routes>, default0: Option<Routes>,
                   mapping1: map<string, Routes>, default1: Option<Routes>,
                   mapping2: map<string, Routes>, default2: Option<Routes>, scheme: Option<string>)
    requires Kept(mapping0, default0, mapping1, default1) && Kept(mapping1, default1, mapping2, default2)
    ensures Kept(mapping0, default0, mapping2, default2)
    ensures Resolve(mapping0, default0, scheme).Some? ==>
      Resolve(mapping1, default1, scheme) == Resolve(mapping0, default0, scheme)
  {
  }

  class Router {
    var mapping: map<string, Routes>
    /** The `lazy var default`: `None` until first read. */
    var defaultRoutes: Option<Routes>

    /** Every table is registered under its own scheme, and the default
        table has the default scheme. */
    ghost predicate Valid()
      reads this
    {
      && (forall scheme :: scheme in mapping ==> mapping[scheme].scheme == scheme)
      && (defaultRoutes.Some? ==> defaultRoutes.value.scheme == DefaultScheme)
    }

    /** The table a resource is routed through: the one registered for its
        scheme, otherwise the default one. */
    function TableFor(url: Option<Url>): (t: Option<Routes>)
      reads this
    {
      TableForScheme(SchemeOf(url))
    }

    /** The table for a resource with the given scheme, if any: the one
        registered for it, otherwise the default table once created. */
    function TableForScheme(scheme: Option<string>): (t: Option<Routes>)
      reads this
    {
      Resolve(mapping, defaultRoutes, scheme)
    }

    /** `init()` (Router.swift:19): no tables, no default table yet. */
    constructor()
      ensures mapping == map[] && defaultRoutes.None?
      ensures Valid()
    {
      mapping := map[];
      defaultRoutes := None;
    }

    /** `routes(for scheme:)` (Router.swift:65-73): the registered table, or
        a new empty table for the scheme, registered under it. */
    method RoutesForScheme(scheme: string) returns (routes: Routes)
      requires Valid()
      modifies this
      ensures Valid()
      ensures scheme in old(mapping) ==> routes == old(mapping)[scheme] && mapping == old(mapping)
      ensures scheme !in old(mapping) ==>
        && fresh(routes) && mapping == old(mapping)[scheme := routes]
        && routes.definitions == [] && routes.Valid()
        && !routes.shouldFallback && routes.shouldDecodePlusSymbols
        && !routes.alwaysTreatsHostAsPathComponent && !routes.unmatchedHandlerSet
      ensures routes.scheme == scheme && mapping[scheme] == routes
      ensures defaultRoutes == old(defaultRoutes)
    {
      if scheme in mapping {
        return mapping[scheme];
      }
      routes := new Routes(scheme);
      mapping := mapping[scheme := routes];
    }

    /** The getter of the `lazy var default` (Router.swift:15): the table of
        the default scheme, looked up or created on the first read and kept
        from then on, even when it is later unregistered. */
    method Default() returns (routes: Routes)
      requires Valid()
      modifies this
      ensures Valid()
      ensures defaultRoutes == Some(routes) && routes.scheme == DefaultScheme
      ensures old(defaultRoutes).Some? ==> routes == old(defaultRoutes).value && mapping == old(mapping)
      ensures old(defaultRoutes).None? && DefaultScheme in old(mapping) ==>
        routes == old(mapping)[DefaultScheme] && mapping == old(mapping)
      ensures old(defaultRoutes).None? && DefaultScheme !in old(mapping) ==>
        fresh(routes) && routes.definitions == [] && mapping == old(mapping)[DefaultScheme := routes]
      ensures forall scheme :: scheme in old(mapping) ==> scheme in mapping && mapping[scheme] == old(mapping)[scheme]
      ensures Kept(old(mapping), old(defaultRoutes), mapping, defaultRoutes)
    {
      if defaultRoutes.Some? {
        return defaultRoutes.value;
      }
      routes := RoutesForScheme(DefaultScheme);
      defaultRoutes := Some(routes);
    }

    /** `routes(for resource:)` (Router.swift:57-62): the table registered
        for the resource's scheme; the default table when the resource has no
        URL, the URL no scheme, or no table is registered for it. Only the
        default table can be created. */
    method RoutesForResource(url: Option<Url>) returns (routes: Routes)
      requires Valid()
      modifies this
      ensures Valid()
      ensures TableFor(url) == Some(routes)
      ensures var scheme := SchemeOf(url);
        scheme.Some? && scheme.value in old(mapping) ==>
          routes == old(mapping)[scheme.value] && mapping == old(mapping) && defaultRoutes == old(defaultRoutes)
      ensures var scheme := SchemeOf(url);
        !(scheme.Some? && scheme.value in old(mapping)) ==> defaultRoutes == Some(routes)
      ensures old(defaultRoutes).Some? ==> defaultRoutes == old(defaultRoutes)
      ensures mapping.Keys <= old(mapping.Keys) + {DefaultScheme}
      ensures forall scheme :: scheme in old(mapping) ==> scheme in mapping && mapping[scheme] == old(mapping)[scheme]
      ensures Kept(old(mapping), old(defaultRoutes), mapping, defaultRoutes)
    {
      if url.None? || url.value.scheme.None? {
        routes := Default();
        return;
      }
      var scheme := url.value.scheme.value;
      if scheme in mapping {
        return mapping[scheme];
      }
      routes := Default();
    }

    /** `route(to:parameters:)` (Router.swift:21-32): the resource routed
        through its table, then through the default table when that did not
        route, the table falls back and it is not the default table itself.
        Registered tables stay, only the default table can be created, and a
        resource that had a table keeps it. */
    method RouteTo(url: Option<Url>, parameters: Params, unescape: Unescaper) returns (didRoute: bool, events: seq<Event>)
      requires Valid()
      modifies this
      ensures Valid()
      ensures Kept(old(mapping), old(defaultRoutes), mapping, defaultRoutes)
      ensures old(TableFor(url)).Some? ==> TableFor(url) == old(TableFor(url))
      ensures TableFor(url).Some?
      ensures var t := TableFor(url).value;
        var (first, firstEvents) := TableOutcome(t, url, parameters, true, unescape);
        if !first && t.shouldFallback && Some(t) != defaultRoutes then
          defaultRoutes.Some? &&
          var (second, secondEvents) := TableOutcome(defaultRoutes.value, url, parameters, true, unescape);
          didRoute == second && events == firstEvents + secondEvents
        else
          didRoute == first && events == firstEvents
    {
      ghost var mapping0, default0 := mapping, defaultRoutes;
      var routes := RoutesForResource(url);
      KeptTables(mapping0, default0, mapping, defaultRoutes, mapping, defaultRoutes, SchemeOf(url));
      ghost var first := TableOutcome(routes, url, parameters, true, unescape);
      didRoute, events := routes.Route(url, parameters, unescape);
      assert (didRoute, events) == first;
      if !didRoute && routes.shouldFallback {
        ghost var mapping1, default1 := mapping, defaultRoutes;
        var more;
        didRoute, more := RouteFallback(routes, url, parameters, unescape);
        assert TableOutcome(routes, url, parameters, true, unescape) == first;
        KeptTables(mapping0, default0, mapping1, default1, mapping, defaultRoutes, SchemeOf(url));
        KeptTables(mapping1, default1, mapping, defaultRoutes, mapping, defaultRoutes, SchemeOf(url));
        assert TableFor(url) == Some(routes);
        events := events + more;
      }
    }

    /** The fallback of `route(to:parameters:)` (Router.swift:27-29): the
        default table, created if need be, routes the resource unless it is
        `routes` itself. */
    method RouteFallback(routes: Routes, url: Option<Url>, parameters: Params, unescape: Unescaper)
      returns (didRoute: bool, events: seq<Event>)
      requires Valid()
      modifies this
      ensures Valid()
      ensures Kept(old(mapping), old(defaultRoutes), mapping, defaultRoutes)
      ensures defaultRoutes.Some?
      ensures routes != defaultRoutes.value ==>
        (didRoute, events) == TableOutcome(defaultRoutes.value, url, parameters, true, unescape)
      ensures routes == defaultRoutes.value ==> !didRoute && events == []
    {
      var fallback := Default();
      didRoute, events := false, [];
      if routes != fallback {
        didRoute, events := fallback.Route(url, parameters, unescape);
      }
    }

    /** `canRoute(to:)` (Router.swift:34-44): the same choice of tables,
        checking without calling any handler, and the same frame. */
    method CanRouteTo(url: Option<Url>, unescape: Unescaper) returns (result: bool)
      requires Valid()
      modifies this
      ensures Valid()
      ensures Kept(old(mapping), old(defaultRoutes), mapping, defaultRoutes)
      ensures old(TableFor(url)).Some? ==> TableFor(url) == old(TableFor(url))
      ensures TableFor(url).Some?
      ensures var t := TableFor(url).value;
        var first := TableOutcome(t, url, map[], false, unescape).0;
        if !first && t.shouldFallback && Some(t) != defaultRoutes then
          defaultRoutes.Some? && result == TableOutcome(defaultRoutes.value, url, map[], false, unescape).0
        else
          result == first
    {
      ghost var mapping0, default0 := mapping, defaultRoutes;
      var routes := RoutesForResource(url);
      KeptTables(mapping0, default0, mapping, defaultRoutes, mapping, defaultRoutes, SchemeOf(url));
      result := routes.CanRoute(url, unescape);
      if !result && routes.shouldFallback {
        ghost var mapping1, default1 := mapping, defaultRoutes;
        ghost var states, options := routes.States(), routes.RequestOptions();
        result := CanRouteFallback(routes, url, unescape);
        assert routes.States() == states && routes.RequestOptions() == options;
        KeptTables(mapping0, default0, mapping1, default1, mapping, defaultRoutes, SchemeOf(url));
        KeptTables(mapping1, default1, mapping, defaultRoutes, mapping, defaultRoutes, SchemeOf(url));
      }
    }

    /** The fallback of `canRoute(to:)` (Router.swift:39-41). */
    method CanRouteFallback(routes: Routes, url: Option<Url>, unescape: Unescaper) returns (result: bool)
      requires Valid()
      modifies this
      ensures Valid()
      ensures Kept(old(mapping), old(defaultRoutes), mapping, defaultRoutes)
      ensures defaultRoutes.Some?
      ensures routes != defaultRoutes.value ==> result == TableOutcome(defaultRoutes.value, url, map[], false, unescape).0
      ensures routes == defaultRoutes.value ==> !result
    {
      var fallback := Default();
      result := false;
      if routes != fallback {
        result := fallback.CanRoute(url, unescape);
      }
    }

    /** `unregister(scheme:)` (Router.swift:75-77): only that scheme's table
        goes, so its resources resolve to the default table from then on. */
    method Unregister(scheme: string)
      requires Valid()
      modifies this
      ensures Valid()
      ensures mapping == old(mapping) - {scheme} && defaultRoutes == old(defaultRoutes)
      ensures TableForScheme(Some(scheme)) == defaultRoutes
    {
      mapping := mapping - {scheme};
    }

    /** `unregisterAll()` (Router.swift:79-81): every table goes; the default
        table, once created, is kept. */
    method UnregisterAll()
      requires Valid()
      modifies this
      ensures Valid()
      ensures mapping == map[] && defaultRoutes == old(defaultRoutes)
    {
      mapping := map[];
    }

    /** `definitionMapping` (Router.swift:83-91): each registered scheme with
        the definitions of its table. */
    method DefinitionMapping() returns (result: map<string, seq<Definition>>)
      ensures result.Keys == mapping.Keys
      ensures forall scheme :: scheme in mapping ==> result[scheme] == mapping[scheme].definitions
    {
      result := map[];
      var remaining := mapping.Keys;
      while remaining != {}
        invariant remaining <= mapping.Keys
        invariant result.Keys == mapping.Keys - remaining
        invariant forall scheme :: scheme in result ==> result[scheme] == mapping[scheme].definitions
        decreases remaining
      {
        var scheme :| scheme in remaining;
        result := result[scheme := mapping[scheme].definitions];
        remaining := remaining - {scheme};
      }
    }
  }
}
