/** What the router reads out of a parsed URL (Routes/Extensions/URLComponents+Utilities.swift):
    the query items collected into parameters, and the path to match, with the
    host folded into it and the fragment's query merged into the URL's own. */
module UrlComponents {
  import opened Common
  import opened Strings

  /** One `name=value` pair of a query; a bare `name` has no value. */
  datatype QueryItem = QueryItem(name: string, value: Option<string>)

  /** Foundation's parse of a fragment as a URL of its own. `queryItems` are
      the items of its query, or of its path read as a query when it has no
      query (the router sets the query to the path before reading them). */
  datatype FragmentComponents = FragmentComponents(
    path: string,
    percentEncodedPath: string,
    query: Option<string>,
    queryItems: seq<QueryItem>)

  /** Foundation's parse of a URL string, as far as the router reads it.
      `fragmentComponents` is the parse of `percentEncodedFragment ?? ""`,
      `None` when that string is not a URL. */
  datatype Components = Components(
    host: Option<string>,
    percentEncodedHost: Option<string>,
    percentEncodedPath: string,
    fragment: Option<string>,
    fragmentComponents: Option<FragmentComponents>,
    queryItems: Option<seq<QueryItem>>)

  // ---------------------------------------------------------------- query parameters

  /** One query item added to the parameters: an item without a value is
      skipped, a first value is stored as a string, a second turns the entry
      into a list, later ones are appended to that list. */
  function AddItem(parameters: Params, item: QueryItem): Params {
    match item.value
    case None => parameters
    case Some(v) =>
      if item.name !in parameters then parameters[item.name := Str(v)]
      else
        match parameters[item.name]
        case List(values) => parameters[item.name := List(values + [Str(v)])]
        case _ => parameters[item.name := List([parameters[item.name], Str(v)])]
  }

  /** The items added one after another, starting from no parameters. */
  function QueryParamsOf(items: seq<QueryItem>): Params
    decreases |items|
  {
    if items == [] then map[] else AddItem(QueryParamsOf(items[..|items| - 1]), items[|items| - 1])
  }

  /** `rte_queryParams` (URLComponents+Utilities.swift:12-32): the items of the
      query, an absent query giving none, added in their order. */
  method CollectQueryParams(queryItems: Option<seq<QueryItem>>) returns (parameters: Params)
    ensures parameters == QueryParamsOf(queryItems.GetOr([]))
  {
    parameters := map[];
    var items := queryItems.GetOr([]);
    for i := 0 to |items|
      invariant parameters == QueryParamsOf(items[..i])
    {
      assert items[..i + 1][..i] == items[..i];
      var item := items[i];
      if item.value.None? {
        continue;
      }
      var value := item.value.value;
      if item.name !in parameters {
        parameters := parameters[item.name := Str(value)];
      } else if parameters[item.name].List? {
        var values := parameters[item.name].items;
        values := values + [Str(value)];
        parameters := parameters[item.name := List(values)];
      } else {
        parameters := parameters[item.name := List([parameters[item.name], Str(value)])];
      }
    }
    assert items[..|items|] == items;
  }

  /** The values given to `name`, in the order of the items. */
  function ValuesFor(items: seq<QueryItem>, name: string): seq<string>
    decreases |items|
  {
    if items == [] then []
    else
      var last := items[|items| - 1];
      ValuesFor(items[..|items| - 1], name) +
        (if last.name == name && last.value.Some? then [last.value.value] else [])
  }

  /** A name is a parameter exactly when some item gives it a value; a name
      given one value maps to that string, a name given several maps to the
      list of all of them in order. */
  lemma {:induction false} QueryParamsValues(items: seq<QueryItem>, name: string)
    ensures var vs := ValuesFor(items, name);
      && (name in QueryParamsOf(items) <==> |vs| > 0)
      && (|vs| == 1 ==> QueryParamsOf(items)[name] == Str(vs[0]))
      && (|vs| >= 2 ==> QueryParamsOf(items)[name] == List(StrValues(vs)))
    decreases |items|
  {
    if items != [] {
      var init := items[..|items| - 1];
      var last := items[|items| - 1];
      QueryParamsValues(init, name);
      var vs0 := ValuesFor(init, name);
      var p0 := QueryParamsOf(init);
      assert QueryParamsOf(items) == AddItem(p0, last);
      if last.name == name && last.value.Some? {
        var vs := vs0 + [last.value.value];
        if |vs0| == 1 {
          assert StrValues(vs) == [Str(vs0[0]), Str(last.value.value)];
        } else if |vs0| >= 2 {
          assert StrValues(vs) == StrValues(vs0) + [Str(last.value.value)];
        }
      }
    }
  }

  /** Some item gives `name` a value exactly when its values are not empty. */
  lemma {:induction false} ValuesForPresent(items: seq<QueryItem>, name: string)
    ensures |ValuesFor(items, name)| > 0 <==>
      exists i :: 0 <= i < |items| && items[i].name == name && items[i].value.Some?
    decreases |items|
  {
    if items != [] {
      var init := items[..|items| - 1];
      ValuesForPresent(init, name);
      if exists i :: 0 <= i < |items| && items[i].name == name && items[i].value.Some? {
        var i :| 0 <= i < |items| && items[i].name == name && items[i].value.Some?;
        if i < |init| {
          assert init[i] == items[i];
        }
      }
    }
  }

  // ---------------------------------------------------------------- path

  /** The host is read as the first path component when there is one and
      either the caller asks for it or it looks like an app route rather than
      a domain: not `localhost` and without a dot. */
  predicate FoldsHost(c: Components, treatsHostAsPathComponent: bool) {
    && c.host.Some?
    && c.host.value != ""
    && (treatsHostAsPathComponent || (c.host.value != "localhost" && '.' !in c.host.value))
  }

  /** The components with the host folded into the path when it is read as a
      path component. */
  function FoldHost(c: Components, treatsHostAsPathComponent: bool): Components {
    if FoldsHost(c, treatsHostAsPathComponent) then
      c.(host := Some("/"),
         percentEncodedPath := AppendingPathComponent(c.percentEncodedHost.GetOr(""), c.percentEncodedPath))
    else c
  }

  /** The fragment carries query parameters when its first item has a
      non-empty value. */
  predicate FragmentContainsQueryParams(f: FragmentComponents) {
    |f.queryItems| > 0 && |f.queryItems[0].value.GetOr("")| > 0
  }

  /** The path to match and the components as `rte_path` leaves them. */
  function FoldedPath(c: Components, treatsHostAsPathComponent: bool): (Components, string) {
    var folded := FoldHost(c, treatsHostAsPathComponent);
    if folded.fragment.None? || folded.fragmentComponents.None? then (folded, folded.percentEncodedPath)
    else
      var f := folded.fragmentComponents.value;
      var query := f.query.GetOr(f.path);
      var contains := FragmentContainsQueryParams(f);
      var updated :=
        if contains then folded.(queryItems := Some(folded.queryItems.GetOr([]) + f.queryItems))
        else folded;
      var path :=
        if !contains || f.path != query then folded.percentEncodedPath + "#" + f.percentEncodedPath
        else folded.percentEncodedPath;
      (updated, path)
  }

  /** `rte_path(components:treatsHostAsPathComponent:)` (URLComponents+Utilities.swift:34-74):
      the path to match, with `components` updated in place. */
  method RoutePath(components: Components, treatsHostAsPathComponent: bool)
    returns (updated: Components, path: string)
    ensures (updated, path) == FoldedPath(components, treatsHostAsPathComponent)
  {
    updated := components;
    if updated.host.Some? {
      var host := updated.host.value;
      if host != "" && (treatsHostAsPathComponent || (host != "localhost" && '.' !in host)) {
        var percentEncodedHost := updated.percentEncodedHost.GetOr("");
        updated := updated.(host := Some("/"));
        updated := updated.(percentEncodedPath := AppendingPathComponent(percentEncodedHost, updated.percentEncodedPath));
      }
    }
    assert updated == FoldHost(components, treatsHostAsPathComponent);
    path := updated.percentEncodedPath;
    if updated.fragment.Some? {
      var fragmentContainsQueryParams := false;
      if updated.fragmentComponents.Some? {
        var fragmentComponents := updated.fragmentComponents.value;
        if fragmentComponents.query.None? {
          fragmentComponents := fragmentComponents.(query := Some(fragmentComponents.path));
        }
        if |fragmentComponents.queryItems| > 0 {
          fragmentContainsQueryParams := |fragmentComponents.queryItems[0].value.GetOr("")| > 0;
        }
        if fragmentContainsQueryParams {
          var queryItems: seq<QueryItem> := [];
          if updated.queryItems.Some? {
            queryItems := queryItems + updated.queryItems.value;
          }
          queryItems := queryItems + fragmentComponents.queryItems;
          assert queryItems == updated.queryItems.GetOr([]) + fragmentComponents.queryItems;
          updated := updated.(queryItems := Some(queryItems));
        }
        if !fragmentContainsQueryParams || Some(fragmentComponents.path) != fragmentComponents.query {
          path := path + "#" + fragmentComponents.percentEncodedPath;
        }
      }
    }
  }

  /** Only the host, the path and the query items can change; the host
      becomes `/` exactly when it is folded into the path, which then starts
      with it (less one trailing `/`), then one `/`, then the old path (less
      one leading `/`). */
  lemma HostFolding(c: Components, treatsHostAsPathComponent: bool)
    ensures var (updated, _) := FoldedPath(c, treatsHostAsPathComponent);
      && updated.percentEncodedHost == c.percentEncodedHost
      && updated.fragment == c.fragment
      && updated.fragmentComponents == c.fragmentComponents
      && updated.host == (if FoldsHost(c, treatsHostAsPathComponent) then Some("/") else c.host)
      && (FoldsHost(c, treatsHostAsPathComponent) && c.percentEncodedPath == [] ==>
            updated.percentEncodedPath == c.percentEncodedHost.GetOr(""))
      && (FoldsHost(c, treatsHostAsPathComponent) && c.percentEncodedHost.GetOr("") == [] ==>
            updated.percentEncodedPath == c.percentEncodedPath)
      && (FoldsHost(c, treatsHostAsPathComponent) && c.percentEncodedHost.GetOr("") != [] && c.percentEncodedPath != [] ==>
            var host := c.percentEncodedHost.GetOr("");
            var path := c.percentEncodedPath;
            var folded := updated.percentEncodedPath;
            var k := if host[|host| - 1] == '/' then |host| - 1 else |host|;
            && k < |folded| && folded[..k] == host[..k] && folded[k] == '/'
            && folded[k + 1..] == (if path[0] == '/' then path[1..] else path))
      && (!FoldsHost(c, treatsHostAsPathComponent) ==> updated.percentEncodedPath == c.percentEncodedPath)
  {
    if c.percentEncodedHost.GetOr("") != [] && c.percentEncodedPath != [] {
      AppendingPathComponentJoins(c.percentEncodedHost.GetOr(""), c.percentEncodedPath);
    }
  }

  /** The path is the (folded) path, followed by `#` and the fragment's path
      unless the fragment was read as a query that is not its path; without a
      fragment the path is the (folded) path alone. */
  lemma FragmentSuffix(c: Components, treatsHostAsPathComponent: bool)
    ensures var folded := FoldHost(c, treatsHostAsPathComponent);
      var (_, path) := FoldedPath(c, treatsHostAsPathComponent);
      && (c.fragment.None? || c.fragmentComponents.None? ==> path == folded.percentEncodedPath)
      && (c.fragment.Some? && c.fragmentComponents.Some? ==>
            var f := c.fragmentComponents.value;
            var suffixed := path == folded.percentEncodedPath + "#" + f.percentEncodedPath;
            suffixed <==> !FragmentContainsQueryParams(f) || (f.query.Some? && f.query.value != f.path))
  {
    var folded := FoldHost(c, treatsHostAsPathComponent);
    if c.fragment.Some? && c.fragmentComponents.Some? {
      var f := c.fragmentComponents.value;
      var path := FoldedPath(c, treatsHostAsPathComponent).1;
      if path == folded.percentEncodedPath + "#" + f.percentEncodedPath {
        assert |path| > |folded.percentEncodedPath|;
      }
    }
  }

  /** The fragment's query items are appended to the URL's own exactly when
      the fragment carries query parameters; otherwise the query is left alone. */
  lemma FragmentQueryMerged(c: Components, treatsHostAsPathComponent: bool)
    ensures var (updated, _) := FoldedPath(c, treatsHostAsPathComponent);
      if c.fragment.Some? && c.fragmentComponents.Some? && FragmentContainsQueryParams(c.fragmentComponents.value)
      then updated.queryItems == Some(c.queryItems.GetOr([]) + c.fragmentComponents.value.queryItems)
      else updated.queryItems == c.queryItems
  {
  }
}
