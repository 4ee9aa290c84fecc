/** The request a URL is matched as (Routes/Request.swift): its path split into
    components and its query read into parameters. */
module Requests {
  import opened Common
  import opened Strings
  import opened UrlComponents
  import opened QueryParams

  /** The routing options of Routes.swift: `+` decoding of values, and reading
      the host as the first path component. */
  datatype Options = Options(decodePlusSymbols: bool, treatHostAsPathComponent: bool)

  /** A URL: its text, its scheme, and Foundation's parse of its text
      (`URLComponents(string: url.absoluteString)`), `None` when that fails. */
  datatype Url = Url(absoluteString: string, scheme: Option<string>, components: Option<Components>)

  datatype Request = Request(
    url: Url,
    queryParams: Params,
    pathComponents: seq<string>,
    additionalParams: Params,
    options: Options)

  /** The request for a URL: the URL, options and extra parameters as given;
      the path components of the folded path and the query parameters of the
      components as folding left them; nothing of either when the URL does
      not parse. */
  function RequestFor(url: Url, options: Options, additionalParams: Params): (r: Request)
    ensures r.url == url && r.options == options && r.additionalParams == additionalParams
    ensures url.components.None? ==> r.pathComponents == [] && r.queryParams == map[]
    ensures url.components.Some? ==> |r.pathComponents| >= 1
  {
    match url.components
    case None => Request(url, map[], [], additionalParams, options)
    case Some(c) =>
      var (updated, path) := FoldedPath(c, options.treatHostAsPathComponent);
      Request(url, QueryParamsOf(updated.queryItems.GetOr([])), TrimmedPathComponents(path), additionalParams, options)
  }

  /** `Request.init(url:options:additionalParams:)` (Request.swift:18-35). */
  method NewRequest(url: Url, options: Options, additionalParams: Params) returns (request: Request)
    ensures request == RequestFor(url, options, additionalParams)
  {
    if url.components.Some? {
      var components := url.components.value;
      var path;
      components, path := RoutePath(components, options.treatHostAsPathComponent);
      var pathComponents := TrimmedPathComponents(path);
      var queryParams := CollectQueryParams(components.queryItems);
      request := Request(url, queryParams, pathComponents, additionalParams, options);
    } else {
      request := Request(url, map[], [], additionalParams, options);
    }
  }

  /** The path components of a parsed URL hold no `/`, and joined with `/`
      they give the folded path without its leading and trailing slashes. */
  lemma RequestPathComponents(url: Url, options: Options, additionalParams: Params)
    requires url.components.Some?
    ensures var r := RequestFor(url, options, additionalParams);
      var path := FoldedPath(url.components.value, options.treatHostAsPathComponent).1;
      && Join(r.pathComponents, '/') == TrimSlashes(path)
      && (forall i :: 0 <= i < |r.pathComponents| ==> '/' !in r.pathComponents[i])
  {
    var path := FoldedPath(url.components.value, options.treatHostAsPathComponent).1;
    TrimmedPathComponentsSpec(path);
  }

  /** Every name the URL's own query gives a value is a query parameter, and
      so is every name the fragment gives a value when the fragment carries
      query parameters. */
  lemma RequestQueryNames(url: Url, options: Options, additionalParams: Params, name: string)
    requires url.components.Some?
    ensures var c := url.components.value;
      var r := RequestFor(url, options, additionalParams);
      var own := c.queryItems.GetOr([]);
      && ((exists i :: 0 <= i < |own| && own[i].name == name && own[i].value.Some?) ==> name in r.queryParams)
      && (c.fragment.Some? && c.fragmentComponents.Some? && FragmentContainsQueryParams(c.fragmentComponents.value) ==>
            var fragmentItems := c.fragmentComponents.value.queryItems;
            (exists i :: 0 <= i < |fragmentItems| && fragmentItems[i].name == name && fragmentItems[i].value.Some?) ==>
              name in r.queryParams)
  {
    var c := url.components.value;
    var own := c.queryItems.GetOr([]);
    var updated := FoldedPath(c, options.treatHostAsPathComponent).0;
    var items := updated.queryItems.GetOr([]);
    FragmentQueryMerged(c, options.treatHostAsPathComponent);
    QueryParamsValues(items, name);
    ValuesForPresent(items, name);
    if exists i :: 0 <= i < |own| && own[i].name == name && own[i].value.Some? {
      var i :| 0 <= i < |own| && own[i].name == name && own[i].value.Some?;
      assert items[i] == own[i];
    }
    if c.fragment.Some? && c.fragmentComponents.Some? && FragmentContainsQueryParams(c.fragmentComponents.value) {
      var fragmentItems := c.fragmentComponents.value.queryItems;
      assert items == own + fragmentItems;
      if exists i :: 0 <= i < |fragmentItems| && fragmentItems[i].name == name && fragmentItems[i].value.Some? {
        var i :| 0 <= i < |fragmentItems| && fragmentItems[i].name == name && fragmentItems[i].value.Some?;
        assert items[|own| + i] == fragmentItems[i];
      }
    }
  }

  /** Collected query parameters are strings or lists, never anything else. */
  lemma {:induction false} QueryParamsAreStrings(items: seq<QueryItem>)
    ensures StringsOrLists(QueryParamsOf(items))
    decreases |items|
  {
    if items != [] {
      QueryParamsAreStrings(items[..|items| - 1]);
    }
  }

  /** So a request's query parameters can always be decoded. */
  lemma RequestQueryParamsAreStrings(url: Url, options: Options, additionalParams: Params)
    ensures StringsOrLists(RequestFor(url, options, additionalParams).queryParams)
  {
    if url.components.Some? {
      var updated := FoldedPath(url.components.value, options.treatHostAsPathComponent).0;
      QueryParamsAreStrings(updated.queryItems.GetOr([]));
    }
  }
}
