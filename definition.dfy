/** One registered route (Routes/Definition.swift): a pattern split into
    components, matched against a request's path components, with the
    variables it captures merged into the parameters handed to its handler;
    and the match result (Routes/Response.swift). */
module Definitions {
  import opened Common
  import opened Strings
  import opened QueryParams
  import opened Requests

  /** The reserved parameter keys (Definition.swift:12-17). */
  const PatternKey: string := "__pattern__"
  const SchemeKey: string := "__scheme__"
  const UrlKey: string := "__url__"
  const WildcardKey: string := "__wildcard__"

  /** A route handler: given the parameters, it accepts (true) or declines. */
  type Handler = Params -> bool

  /** `removingPercentEncoding`: the decoded string, `None` for malformed input. */
  type Unescaper = string -> Option<string>

  /** The result of matching one definition (Response.swift:11-22). */
  datatype Response = Response(isMatch: bool, parameters: Params)

  /** `Response.invalid`: no match and no parameters. */
  const Invalid := Response(false, map[])

  /** What a definition holds, as a value. */
  datatype DefinitionState = DefinitionState(
    pattern: string,
    priority: int,
    handler: Option<Handler>,
    scheme: Option<string>,
    components: seq<string>)

  // ---------------------------------------------------------------- components

  /** The pattern without one leading `/`, split on `/`. */
  function PatternComponents(pattern: string): (r: seq<string>)
    ensures |r| >= 1
  {
    var normalizedPattern := if |pattern| > 0 && pattern[0] == '/' then pattern[1..] else pattern;
    Split(normalizedPattern, '/')
  }

  /** No component holds a `/`, and joining them with `/` gives the pattern
      back without one leading `/`; so `"/"` gives `[""]`. */
  lemma PatternComponentsSpec(pattern: string)
    ensures var r := PatternComponents(pattern);
      && (forall i :: 0 <= i < |r| ==> '/' !in r[i])
      && Join(r, '/') == (if |pattern| > 0 && pattern[0] == '/' then pattern[1..] else pattern)
    ensures PatternComponents("/") == [""]
  {
    var normalizedPattern := if |pattern| > 0 && pattern[0] == '/' then pattern[1..] else pattern;
    SplitPieces(normalizedPattern, '/');
  }

  /** A component naming a variable starts with `:`. */
  predicate IsVariable(component: string) {
    |component| > 0 && component[0] == ':'
  }

  /** `variableName(for:)` (Definition.swift:117-129): the component without
      its leading `:` and then without one trailing `#`, each removed only
      when more than one character remains. */
  function VariableName(value: string): (name: string)
    ensures var start := if |value| > 1 && value[0] == ':' then 1 else 0;
      && start + |name| <= |value| && name == value[start..start + |name|]
      && start + |name| >= |value| - 1
      && (start + |name| < |value| ==> value[|value| - 1] == '#')
      && (|value| - start > 1 && value[|value| - 1] == '#' ==> start + |name| == |value| - 1)
    ensures |value| > 0 ==> |name| > 0
  {
    var name := if |value| > 1 && value[0] == ':' then value[1..] else value;
    if |name| > 1 && name[|name| - 1] == '#' then name[..|name| - 1] else name
  }

  /** `variableValue(for:)` (Definition.swift:131-139): the percent-decoded
      component (the component itself when it does not decode) without one
      trailing `#`, removed only when more than one character remains. */
  function VariableValue(value: string, unescape: Unescaper): (r: string)
    ensures var decoded := unescape(value).GetOr(value);
      && r <= decoded && |r| >= |decoded| - 1
      && (|r| < |decoded| <==> |decoded| > 1 && decoded[|decoded| - 1] == '#')
  {
    var variable := unescape(value).GetOr(value);
    if |variable| > 1 && variable[|variable| - 1] == '#' then variable[..|variable| - 1] else variable
  }

  /** The value a variable captures from a request component. */
  function CapturedValue(component: string, decodePlusSymbols: bool, unescape: Unescaper): Value {
    Str(RouteVariableValue(VariableValue(component, unescape), decodePlusSymbols))
  }

  // ---------------------------------------------------------------- matching

  /** The loop of `variables(for:)` from component `index` on, with the
      variables captured so far: `None` when the request does not match. */
  function Captures(pattern: seq<string>, request: seq<string>, index: nat, variables: Params,
                    decodePlusSymbols: bool, unescape: Unescaper): Option<Params>
    decreases |pattern| - index
  {
    if index >= |pattern| then Some(variables)
    else
      var component := pattern[index];
      var isWildcard := component == "*";
      if index >= |request| && !isWildcard then None
      else if IsVariable(component) then
        // The request has a component here: a variable is never the wildcard.
        var captured := CapturedValue(request[index], decodePlusSymbols, unescape);
        Captures(pattern, request, index + 1, variables[VariableName(component) := captured], decodePlusSymbols, unescape)
      else if isWildcard then
        if |request| >= index then Some(variables[WildcardKey := List(StrValues(request[index..]))])
        else None
      else if component != request[index] then None
      else Captures(pattern, request, index + 1, variables, decodePlusSymbols, unescape)
  }

  /** The index of the first `*` component, or the number of components. */
  function FirstWildcard(pattern: seq<string>): (w: nat)
    ensures w <= |pattern|
    ensures w < |pattern| ==> pattern[w] == "*"
    ensures forall k :: 0 <= k < w ==> pattern[k] != "*"
    decreases |pattern|
  {
    if pattern == [] then 0
    else if pattern[0] == "*" then 0
    else 1 + FirstWildcard(pattern[1..])
  }

  /** A request matches a pattern when it reaches at least up to the first
      wildcard (or the end of the pattern) and, before that, every component
      is a variable or equals the request component at its index. */
  predicate ComponentsMatch(pattern: seq<string>, request: seq<string>) {
    var w := FirstWildcard(pattern);
    w <= |request| && forall j :: 0 <= j < w ==> IsVariable(pattern[j]) || pattern[j] == request[j]
  }

  lemma {:induction false} CapturesSomeFrom(pattern: seq<string>, request: seq<string>, index: nat, variables: Params,
                                            decodePlusSymbols: bool, unescape: Unescaper)
    requires index <= FirstWildcard(pattern) && index <= |request|
    ensures var w := FirstWildcard(pattern);
      Captures(pattern, request, index, variables, decodePlusSymbols, unescape).Some? <==>
        (w <= |request| && forall j :: index <= j < w ==> IsVariable(pattern[j]) || pattern[j] == request[j])
    decreases |pattern| - index
  {
    if index < |pattern| && pattern[index] != "*" && index < |request| {
      var component := pattern[index];
      var next := if IsVariable(component)
        then variables[VariableName(component) := CapturedValue(request[index], decodePlusSymbols, unescape)]
        else variables;
      CapturesSomeFrom(pattern, request, index + 1, next, decodePlusSymbols, unescape);
    }
  }

  /** The loop of `variables(for:)` finds a match exactly when the request
      matches the pattern in the sense of `ComponentsMatch`. */
  lemma CapturesSome(pattern: seq<string>, request: seq<string>, decodePlusSymbols: bool, unescape: Unescaper)
    ensures Captures(pattern, request, 0, map[], decodePlusSymbols, unescape).Some? <==> ComponentsMatch(pattern, request)
  {
    CapturesSomeFrom(pattern, request, 0, map[], decodePlusSymbols, unescape);
  }

  /** No variable from `from` up to (not including) `to` is named `name`. */
  predicate NotNamedBetween(pattern: seq<string>, from: int, to: int, name: string)
    requires 0 <= from && to <= |pattern|
  {
    forall j :: from <= j < to && IsVariable(pattern[j]) ==> VariableName(pattern[j]) != name
  }

  /** One step of the walk over a component that is not a wildcard, within
      the request: a literal must equal the request component, a variable
      captures it. */
  lemma CapturesStep(pattern: seq<string>, request: seq<string>, index: nat, variables: Params,
                     decodePlusSymbols: bool, unescape: Unescaper)
    requires index < |pattern| && index < |request| && pattern[index] != "*"
    requires Captures(pattern, request, index, variables, decodePlusSymbols, unescape).Some?
    ensures !IsVariable(pattern[index]) ==> pattern[index] == request[index]
    ensures Captures(pattern, request, index, variables, decodePlusSymbols, unescape) ==
      Captures(pattern, request, index + 1, Captured(pattern, request, index, variables, decodePlusSymbols, unescape),
               decodePlusSymbols, unescape)
  {
  }

  /** The variables after component `index`: its capture added when it is
      a variable. */
  function Captured(pattern: seq<string>, request: seq<string>, index: nat, variables: Params,
                    decodePlusSymbols: bool, unescape: Unescaper): Params
    requires index < |pattern| && index < |request|
  {
    if IsVariable(pattern[index])
    then variables[VariableName(pattern[index]) := CapturedValue(request[index], decodePlusSymbols, unescape)]
    else variables
  }

  /** A match reaches the first wildcard, whose key then holds the request
      components from there on. */
  lemma {:induction false} CapturedWildcard(pattern: seq<string>, request: seq<string>, index: nat, variables: Params,
                                            decodePlusSymbols: bool, unescape: Unescaper)
    requires index <= FirstWildcard(pattern) && index <= |request|
    requires Captures(pattern, request, index, variables, decodePlusSymbols, unescape).Some?
    ensures var out := Captures(pattern, request, index, variables, decodePlusSymbols, unescape).value;
      var w := FirstWildcard(pattern);
      && w <= |request|
      && (w < |pattern| ==> WildcardKey in out && out[WildcardKey] == List(StrValues(request[w..])))
    decreases |pattern| - index
  {
    if index < |pattern| && pattern[index] != "*" {
      CapturesStep(pattern, request, index, variables, decodePlusSymbols, unescape);
      CapturedWildcard(pattern, request, index + 1, Captured(pattern, request, index, variables, decodePlusSymbols, unescape),
                       decodePlusSymbols, unescape);
    }
  }

  /** A match keeps every key it started with and makes every variable
      before the first wildcard a key. */
  lemma {:induction false} CapturedNames(pattern: seq<string>, request: seq<string>, index: nat, variables: Params,
                                         decodePlusSymbols: bool, unescape: Unescaper)
    requires index <= FirstWildcard(pattern) && index <= |request|
    requires Captures(pattern, request, index, variables, decodePlusSymbols, unescape).Some?
    ensures var out := Captures(pattern, request, index, variables, decodePlusSymbols, unescape).value;
      && (forall k :: k in variables ==> k in out)
      && (forall j :: index <= j < FirstWildcard(pattern) && IsVariable(pattern[j]) ==> VariableName(pattern[j]) in out)
    decreases |pattern| - index
  {
    if index < |pattern| && pattern[index] != "*" {
      CapturesStep(pattern, request, index, variables, decodePlusSymbols, unescape);
      CapturedNames(pattern, request, index + 1, Captured(pattern, request, index, variables, decodePlusSymbols, unescape),
                    decodePlusSymbols, unescape);
    }
  }

  /** The value of a captured variable is the one captured by the last
      variable of that name before the first wildcard, unless the wildcard
      key overwrites it; a key no such variable names keeps the value it
      started with. */
  lemma {:induction false} CapturedLastValues(pattern: seq<string>, request: seq<string>, index: nat, variables: Params,
                                              decodePlusSymbols: bool, unescape: Unescaper)
    requires index <= FirstWildcard(pattern) && index <= |request|
    requires Captures(pattern, request, index, variables, decodePlusSymbols, unescape).Some?
    ensures var out := Captures(pattern, request, index, variables, decodePlusSymbols, unescape).value;
      var w := FirstWildcard(pattern);
      && w <= |request|
      && (forall j :: (index <= j < w && IsVariable(pattern[j]) && NotNamedBetween(pattern, j + 1, w, VariableName(pattern[j]))
                       && !(w < |pattern| && VariableName(pattern[j]) == WildcardKey)) ==>
            VariableName(pattern[j]) in out && out[VariableName(pattern[j])] == CapturedValue(request[j], decodePlusSymbols, unescape))
      && (forall k :: (k in variables && NotNamedBetween(pattern, index, w, k) && !(w < |pattern| && k == WildcardKey)) ==>
            k in out && out[k] == variables[k])
    decreases |pattern| - index
  {
    CapturedWildcard(pattern, request, index, variables, decodePlusSymbols, unescape);
    var w := FirstWildcard(pattern);
    if index < |pattern| && pattern[index] != "*" {
      CapturesStep(pattern, request, index, variables, decodePlusSymbols, unescape);
      var next := Captured(pattern, request, index, variables, decodePlusSymbols, unescape);
      CapturedLastValues(pattern, request, index + 1, next, decodePlusSymbols, unescape);
      var out := Captures(pattern, request, index + 1, next, decodePlusSymbols, unescape).value;
      forall j | index <= j < w && IsVariable(pattern[j]) && NotNamedBetween(pattern, j + 1, w, VariableName(pattern[j]))
                 && !(w < |pattern| && VariableName(pattern[j]) == WildcardKey)
        ensures VariableName(pattern[j]) in out && out[VariableName(pattern[j])] == CapturedValue(request[j], decodePlusSymbols, unescape)
      {
        if j == index {
          var name := VariableName(pattern[index]);
          assert name in next && next[name] == CapturedValue(request[index], decodePlusSymbols, unescape);
        }
      }
      forall k | k in variables && NotNamedBetween(pattern, index, w, k) && !(w < |pattern| && k == WildcardKey)
        ensures k in out && out[k] == variables[k]
      {
        assert IsVariable(pattern[index]) ==> VariableName(pattern[index]) != k;
        assert k in next && next[k] == variables[k];
        assert NotNamedBetween(pattern, index + 1, w, k);
      }
    }
  }

  // ---------------------------------------------------------------- parameters

  /** `matchParameters(for:routeVariables:)` (Definition.swift:141-164) as a
      value: decoded query parameters, overwritten by the route variables,
      then by the caller's parameters, then the pattern, the URL and (when
      set) the scheme. */
  function MergedParameters(pattern: string, scheme: Option<string>, request: Request, routeVariables: Params): Params
    requires request.options.decodePlusSymbols ==> StringsOrLists(request.queryParams)
  {
    var query := RouteQueryParams(request.queryParams, request.options.decodePlusSymbols);
    var merged := (query + routeVariables + request.additionalParams)
      [PatternKey := Str(pattern)][UrlKey := Str(request.url.absoluteString)];
    if scheme.Some? then merged[SchemeKey := Str(scheme.value)] else merged
  }

  /** The precedence of the merged parameters, key by key: the scheme, then
      the URL, then the pattern, then the caller's parameters, then the route
      variables, then the query; a key none of them has is absent. */
  lemma MergedParametersAt(pattern: string, scheme: Option<string>, request: Request, routeVariables: Params, k: string)
    requires request.options.decodePlusSymbols ==> StringsOrLists(request.queryParams)
    ensures var m := MergedParameters(pattern, scheme, request, routeVariables);
      var query := RouteQueryParams(request.queryParams, request.options.decodePlusSymbols);
      && (k in m <==> k in query || k in routeVariables || k in request.additionalParams
                      || k == PatternKey || k == UrlKey || (k == SchemeKey && scheme.Some?))
      && (k in m ==>
            m[k] == if k == SchemeKey && scheme.Some? then Str(scheme.value)
                    else if k == UrlKey then Str(request.url.absoluteString)
                    else if k == PatternKey then Str(pattern)
                    else if k in request.additionalParams then request.additionalParams[k]
                    else if k in routeVariables then routeVariables[k]
                    else query[k])
  {
  }

  /** `forEach { parameters[$0.key] = $0.value }`: every entry written over
      the parameters, one key at a time. */
  method AssignEach(parameters: Params, entries: Params) returns (result: Params)
    ensures result == parameters + entries
  {
    result := parameters;
    var remaining := entries.Keys;
    while remaining != {}
      invariant remaining <= entries.Keys
      invariant result == parameters + map k | k in entries.Keys - remaining :: entries[k]
      decreases remaining
    {
      var key :| key in remaining;
      result := result[key := entries[key]];
      remaining := remaining - {key};
    }
    assert entries == map k | k in entries.Keys - remaining :: entries[k];
  }

  // ---------------------------------------------------------------- responses

  /** `response(for:)` (Definition.swift:101-115) as a value. */
  function ResponseOf(d: DefinitionState, request: Request, unescape: Unescaper): Response
    requires request.options.decodePlusSymbols ==> StringsOrLists(request.queryParams)
  {
    if |request.pathComponents| != |d.components| && "*" !in d.components then Invalid
    else
      match Captures(d.components, request.pathComponents, 0, map[], request.options.decodePlusSymbols, unescape)
      case None => Invalid
      case Some(routeVariables) => Response(true, MergedParameters(d.pattern, d.scheme, request, routeVariables))
  }

  /** A definition matches exactly when the request has as many components
      as the pattern, or the pattern has a wildcard, and the components match;
      a literal component before the first wildcard then equals the request
      component at its index. A match reports the pattern, the URL and the
      scheme when set; a mismatch has no parameters. */
  lemma ResponseMatch(d: DefinitionState, request: Request, unescape: Unescaper)
    requires request.options.decodePlusSymbols ==> StringsOrLists(request.queryParams)
    ensures var r := ResponseOf(d, request, unescape);
      && (r.isMatch <==> (|request.pathComponents| == |d.components| || "*" in d.components)
                         && ComponentsMatch(d.components, request.pathComponents))
      && (!r.isMatch ==> r == Invalid)
      && (r.isMatch && "*" !in d.components ==> |request.pathComponents| == |d.components|)
      && (r.isMatch ==> forall j :: 0 <= j < FirstWildcard(d.components) && !IsVariable(d.components[j]) ==>
            j < |request.pathComponents| && request.pathComponents[j] == d.components[j])
      && (r.isMatch ==>
            && PatternKey in r.parameters && UrlKey in r.parameters
            && r.parameters[UrlKey] == Str(request.url.absoluteString)
            && (d.scheme.Some? ==> r.parameters[SchemeKey] == Str(d.scheme.value)))
  {
    CapturesSome(d.components, request.pathComponents, request.options.decodePlusSymbols, unescape);
  }

  /** On a match, the wildcard key holds the request components from the
      first `*` on and every variable before it is a parameter, unless the
      caller's parameters or a reserved key take its place. */
  lemma ResponseCaptures(d: DefinitionState, request: Request, unescape: Unescaper)
    requires request.options.decodePlusSymbols ==> StringsOrLists(request.queryParams)
    requires ResponseOf(d, request, unescape).isMatch
    ensures var r := ResponseOf(d, request, unescape);
      var w := FirstWildcard(d.components);
      && w <= |request.pathComponents|
      && (w < |d.components| && WildcardKey !in request.additionalParams ==>
            WildcardKey in r.parameters && r.parameters[WildcardKey] == List(StrValues(request.pathComponents[w..])))
      && (forall j :: 0 <= j < w && IsVariable(d.components[j]) ==> VariableName(d.components[j]) in r.parameters)
  {
    var decode := request.options.decodePlusSymbols;
    var routeVariables := Captures(d.components, request.pathComponents, 0, map[], decode, unescape).value;
    CapturedWildcard(d.components, request.pathComponents, 0, map[], decode, unescape);
    CapturedNames(d.components, request.pathComponents, 0, map[], decode, unescape);
    MergedParametersAt(d.pattern, d.scheme, request, routeVariables, WildcardKey);
  }

  /** Whether a definition with this handler accepts the parameters: a
      missing handler always does. */
  predicate Accepts(handler: Option<Handler>, parameters: Params) {
    handler.None? || handler.value(parameters)
  }

  // ---------------------------------------------------------------- the class

  class Definition {
    const pattern: string
    const priority: int
    const handler: Option<Handler>
    var scheme: Option<string>
    /** Set once by the constructor. */
    const patternPathComponents: seq<string>

    function State(): DefinitionState
      reads this
    {
      DefinitionState(pattern, priority, handler, scheme, patternPathComponents)
    }

    /** The components are those of the pattern. */
    ghost predicate Valid()
      reads this
    {
      patternPathComponents == PatternComponents(pattern)
    }

    /** `init(pattern:priority:handler:)` (Definition.swift:26-37): no scheme
        yet, and the pattern split into components. */
    constructor(pattern: string, priority: int, handler: Option<Handler>)
      ensures this.pattern == pattern && this.priority == priority && this.handler == handler
      ensures scheme == None
      ensures patternPathComponents == PatternComponents(pattern)
      ensures Valid()
    {
      this.pattern := pattern;
      this.priority := priority;
      this.handler := handler;
      var normalizedPattern := pattern;
      if |pattern| > 0 && pattern[0] == '/' {
        normalizedPattern := pattern[1..];
      }
      this.patternPathComponents := Split(normalizedPattern, '/');
      this.scheme := None;
    }

    /** `handle(parameters:)` (Definition.swift:39-44): the handler's verdict,
        and acceptance when there is no handler. */
    method Handle(parameters: Params) returns (accepted: bool)
      ensures handler.None? ==> accepted
      ensures handler.Some? ==> accepted == handler.value(parameters)
      ensures accepted == Accepts(handler, parameters)
    {
      if handler.Some? {
        return handler.value(parameters);
      }
      return true;
    }

    /** `configure(scheme:)` (Definition.swift:46-48). */
    method Configure(scheme: string)
      modifies this
      ensures this.scheme == Some(scheme)
    {
      this.scheme := Some(scheme);
    }

    /** `variables(for:)` (Definition.swift:50-99): the variables captured by
        walking the pattern components, or `None` on a mismatch. */
    method Variables(request: Request, unescape: Unescaper) returns (result: Option<Params>)
      ensures result == Captures(patternPathComponents, request.pathComponents, 0, map[],
                                 request.options.decodePlusSymbols, unescape)
    {
      var variables: Params := map[];
      var isMatch := true;
      var index := 0;
      var decode := request.options.decodePlusSymbols;
      ghost var spec := Captures(patternPathComponents, request.pathComponents, 0, map[], decode, unescape);
      while index < |patternPathComponents|
        invariant 0 <= index <= |patternPathComponents|
        invariant isMatch
        invariant spec == Captures(patternPathComponents, request.pathComponents, index, variables, decode, unescape)
        decreases |patternPathComponents| - index
      {
        var patternComponent := patternPathComponents[index];
        var urlComponent := "";
        var isPatternComponentWildcard := patternComponent == "*";
        if index < |request.pathComponents| {
          urlComponent := request.pathComponents[index];
        } else if !isPatternComponentWildcard {
          isMatch := false;
          break;
        }
        // From here on a variable or literal component has a request
        // component: only the wildcard may run past the request.
        if IsVariable(patternComponent) {
          var name := VariableName(patternComponent);
          var value := VariableValue(urlComponent, unescape);
          variables := variables[name := Str(RouteVariableValue(value, decode))];
        } else if isPatternComponentWildcard {
          var minRequiredParams := index;
          if |request.pathComponents| >= minRequiredParams {
            variables := variables[WildcardKey := List(StrValues(request.pathComponents[index..]))];
            isMatch := true;
          } else {
            isMatch := false;
          }
          break;
        } else if urlComponent != patternComponent {
          isMatch := false;
          break;
        }
        index := index + 1;
      }
      if !isMatch {
        return None;
      }
      return Some(variables);
    }

    /** `matchParameters(for:routeVariables:)` (Definition.swift:141-164). */
    method MatchParameters(request: Request, routeVariables: Params) returns (parameters: Params)
      requires request.options.decodePlusSymbols ==> StringsOrLists(request.queryParams)
      ensures parameters == MergedParameters(pattern, scheme, request, routeVariables)
    {
      parameters := map[];
      var decodePlusSymbols := request.options.decodePlusSymbols;
      var query := RouteQueryParams(request.queryParams, decodePlusSymbols);
      parameters := AssignEach(parameters, query);
      assert parameters == query;
      parameters := AssignEach(parameters, routeVariables);
      parameters := AssignEach(parameters, request.additionalParams);
      assert parameters == query + routeVariables + request.additionalParams;
      parameters := parameters[PatternKey := Str(pattern)];
      parameters := parameters[UrlKey := Str(request.url.absoluteString)];
      if scheme.Some? {
        parameters := parameters[SchemeKey := Str(scheme.value)];
      }
    }

    /** `response(for:)` (Definition.swift:101-115). */
    method ResponseFor(request: Request, unescape: Unescaper) returns (response: Response)
      requires request.options.decodePlusSymbols ==> StringsOrLists(request.queryParams)
      ensures response == ResponseOf(State(), request, unescape)
    {
      var patternContainsWildcard := "*" in patternPathComponents;
      if |request.pathComponents| != |patternPathComponents| && !patternContainsWildcard {
        return Invalid;
      }
      var routeVariables := Variables(request, unescape);
      if routeVariables.None? {
        return Invalid;
      }
      var matchParams := MatchParameters(request, routeVariables.value);
      return Response(true, matchParams);
    }

    /** `==` (Definition.swift:167-173): same scheme, pattern, components and
        priority; the handler is not compared. */
    predicate Equals(other: Definition)
      reads this, other
    {
      && scheme == other.scheme
      && pattern == other.pattern
      && patternPathComponents == other.patternPathComponents
      && priority == other.priority
    }
  }

  /** Two definitions built from the same pattern and priority are equal,
      whatever their handlers, exactly while they have the same scheme; so
      configuring one of them with a scheme makes them differ. */
  lemma EqualitySpec(a: Definition, b: Definition)
    requires a.Valid() && b.Valid()
    ensures a.Equals(b) <==> a.scheme == b.scheme && a.pattern == b.pattern && a.priority == b.priority
    ensures a.pattern == b.pattern && a.priority == b.priority && a.scheme.None? && b.scheme.Some? ==> !a.Equals(b)
  {
  }

  /** The states of a list of definitions, in order. */
  function StatesOf(ds: seq<Definition>): (r: seq<DefinitionState>)
    reads set d | d in ds
    ensures |r| == |ds|
    ensures forall i :: 0 <= i < |ds| ==> r[i] == ds[i].State()
  {
    seq(|ds|, i reads ds requires 0 <= i < |ds| => ds[i].State())
  }
}
