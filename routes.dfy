/** A route table for one scheme (Routes/Routes.swift): an ordered list of
    definitions, kept in priority order on insertion, and dispatch by a
    linear scan in which a declining handler lets the scan go on. */
module RouteTables {
  import opened Common
  import opened QueryParams
  import opened Patterns
  import opened Requests
  import opened Definitions

  /** What dispatch does that a caller can see: a handler called with the
      matched parameters and its verdict, or the unmatched handler called
      with the URL and the caller's parameters. */
  datatype Event =
    | Handled(pattern: string, parameters: Params, accepted: bool)
    | Unmatched(url: Url, parameters: Params)

  // ---------------------------------------------------------------- priority insertion

  /** The index of the first definition of lower priority, or the length. */
  function FirstLower(states: seq<DefinitionState>, priority: int): (index: nat)
    ensures index <= |states|
    decreases |states|
  {
    if states == [] then 0
    else if states[0].priority < priority then 0
    else 1 + FirstLower(states[1..], priority)
  }

  /** Every definition before `k` has at least the priority, and the one at
      `k`, if any, has a lower one. */
  predicate LowerFirstAt(states: seq<DefinitionState>, priority: int, k: nat) {
    && k <= |states|
    && (forall j :: 0 <= j < k ==> states[j].priority >= priority)
    && (k < |states| ==> states[k].priority < priority)
  }

  /** The first lower priority is where nothing lower comes before. */
  lemma {:induction false} FirstLowerSpec(states: seq<DefinitionState>, priority: int)
    ensures LowerFirstAt(states, priority, FirstLower(states, priority))
    decreases |states|
  {
    if states != [] && states[0].priority >= priority {
      FirstLowerSpec(states[1..], priority);
      var k := FirstLower(states[1..], priority);
      assert forall j :: 1 <= j < k + 1 ==> states[j] == states[1..][j - 1];
      assert k < |states[1..]| ==> states[k + 1] == states[1..][k];
    }
  }

  /** ... and it is the only such place. */
  lemma {:induction false} FirstLowerUnique(states: seq<DefinitionState>, priority: int, k: nat)
    requires LowerFirstAt(states, priority, k)
    ensures FirstLower(states, priority) == k
    decreases |states|
  {
    if k > 0 {
      assert states[0].priority >= priority;
      assert forall j :: 0 <= j < k - 1 ==> states[1..][j] == states[j + 1];
      FirstLowerUnique(states[1..], priority, k - 1);
    }
  }

  /** Where `add(definition:)` puts a definition of the given priority: at
      the end for priority 0 or an empty table, otherwise immediately before
      the first definition of lower priority, or at the end when there is none. */
  function InsertionIndex(states: seq<DefinitionState>, priority: int): (index: nat)
    ensures index <= |states|
  {
    if priority == 0 || states == [] then |states| else FirstLower(states, priority)
  }

  /** The insertion index, characterised: priority 0 appends; any other
      priority lands after every definition of at least that priority (so
      after those of equal priority: insertion order is kept among them) and
      before a definition of lower priority, and nowhere else. */
  lemma InsertionIndexSpec(states: seq<DefinitionState>, priority: int, k: nat)
    ensures priority == 0 ==> InsertionIndex(states, priority) == |states|
    ensures priority != 0 ==> LowerFirstAt(states, priority, InsertionIndex(states, priority))
    ensures priority != 0 && LowerFirstAt(states, priority, k) ==> InsertionIndex(states, priority) == k
  {
    FirstLowerSpec(states, priority);
    if priority != 0 && LowerFirstAt(states, priority, k) && states != [] {
      FirstLowerUnique(states, priority, k);
    }
  }

  function Insert<T>(xs: seq<T>, index: nat, x: T): (r: seq<T>)
    requires index <= |xs|
    ensures |r| == |xs| + 1
  {
    xs[..index] + [x] + xs[index..]
  }

  /** Where each element of a sequence with one element inserted comes from. */
  lemma InsertIndexing<T>(xs: seq<T>, index: nat, x: T)
    requires index <= |xs|
    ensures forall k :: 0 <= k < |xs| + 1 ==>
      Insert(xs, index, x)[k] == if k < index then xs[k] else if k == index then x else xs[k - 1]
  {
    var r := Insert(xs, index, x);
    forall k | 0 <= k < |xs| + 1
      ensures r[k] == if k < index then xs[k] else if k == index then x else xs[k - 1]
    {
      if k < index {
        assert r[k] == xs[..index][k];
      } else if k > index {
        assert r[k] == xs[index..][k - index - 1];
      }
    }
  }

  /** Regrouping a concatenation, proved apart from the loops that use it. */
  lemma AppendAssociative<T>(a: seq<T>, b: seq<T>, c: seq<T>)
    ensures a + b + c == a + (b + c)
  {
  }

  /** One definition added by priority. */
  function InsertByPriority(states: seq<DefinitionState>, s: DefinitionState): seq<DefinitionState> {
    Insert(states, InsertionIndex(states, s.priority), s)
  }

  /** Definitions added by priority one after another. */
  function InsertAllByPriority(states: seq<DefinitionState>, news: seq<DefinitionState>): seq<DefinitionState>
    decreases |news|
  {
    if news == [] then states
    else InsertByPriority(InsertAllByPriority(states, news[..|news| - 1]), news[|news| - 1])
  }

  /** With a block of definitions of priority p already in at p's place,
      the next one of priority p goes right after the block. */
  lemma InsertionAfterBlock(states: seq<DefinitionState>, block: seq<DefinitionState>, priority: int)
    requires forall k :: 0 <= k < |block| ==> block[k].priority == priority
    ensures var index := InsertionIndex(states, priority);
      InsertionIndex(states[..index] + block + states[index..], priority) == index + |block|
  {
    var index := InsertionIndex(states, priority);
    InsertionIndexSpec(states, priority, 0);
    var before := states[..index] + block + states[index..];
    var k := index + |block|;
    if priority != 0 {
      assert forall j :: 0 <= j < index ==> before[j] == states[j];
      assert forall j :: index <= j < k ==> before[j] == block[j - index];
      assert k < |before| ==> before[k] == states[index];
      assert LowerFirstAt(before, priority, k);
      InsertionIndexSpec(before, priority, k);
    }
  }

  /** Definitions of one priority added one after another form a block, in
      their order, at the place the first of them would go. */
  lemma {:induction false} InsertBlock(states: seq<DefinitionState>, news: seq<DefinitionState>, priority: int)
    requires forall k :: 0 <= k < |news| ==> news[k].priority == priority
    ensures var index := InsertionIndex(states, priority);
      InsertAllByPriority(states, news) == states[..index] + news + states[index..]
    decreases |news|
  {
    var index := InsertionIndex(states, priority);
    if news != [] {
      var init := news[..|news| - 1];
      var last := news[|news| - 1];
      InsertBlock(states, init, priority);
      var before := states[..index] + init + states[index..];
      InsertionAfterBlock(states, init, priority);
      var k := index + |init|;
      assert InsertAllByPriority(states, news) == Insert(before, k, last);
      assert before[..k] == states[..index] + init;
      assert before[k..] == states[index..];
      assert init + [last] == news;
    }
  }

  /** Inserting a definition of non-zero priority into a table ordered by
      non-increasing priority keeps it ordered. */
  lemma InsertionKeepsOrder(states: seq<DefinitionState>, s: DefinitionState)
    requires s.priority != 0
    requires forall i, j :: 0 <= i < j < |states| ==> states[i].priority >= states[j].priority
    ensures var r := InsertByPriority(states, s);
      forall i, j :: 0 <= i < j < |r| ==> r[i].priority >= r[j].priority
  {
    var index := InsertionIndex(states, s.priority);
    InsertionIndexSpec(states, s.priority, 0);
    var r := InsertByPriority(states, s);
    assert forall i :: 0 <= i < index ==> r[i] == states[i];
    assert r[index] == s;
    assert forall i :: index < i < |r| ==> r[i] == states[i - 1];
  }

  /** The definitions `add(pattern:priority:handler:)` creates, configured. */
  function NewStates(patterns: seq<string>, priority: int, handler: Option<Handler>, scheme: string): (r: seq<DefinitionState>)
    ensures |r| == |patterns|
    ensures forall k :: 0 <= k < |r| ==> r[k].priority == priority
  {
    seq(|patterns|, k requires 0 <= k < |patterns| =>
      DefinitionState(patterns[k], priority, handler, Some(scheme), PatternComponents(patterns[k])))
  }

  /** The patterns a raw pattern registers: its expansion, or the pattern
      itself when it has no optional groups. */
  function Alternatives(pattern: string): (r: seq<string>)
    requires GroupsClosed(pattern)
    ensures |r| >= 1
  {
    var expanded := Expansion(pattern);
    if expanded != [] then expanded else [pattern]
  }

  /** The definitions `add(patterns:handler:)` appends, pattern by pattern. */
  function Registered(patterns: seq<string>, handler: Option<Handler>, scheme: string): seq<DefinitionState>
    requires forall k :: 0 <= k < |patterns| ==> GroupsClosed(patterns[k])
    decreases |patterns|
  {
    if patterns == [] then []
    else
      Registered(patterns[..|patterns| - 1], handler, scheme) +
        NewStates(Alternatives(patterns[|patterns| - 1]), 0, handler, scheme)
  }

  // ---------------------------------------------------------------- removal

  /** The index of the last definition with the given pattern. */
  function LastWithPattern(ds: seq<Definition>, pattern: string): (r: Option<nat>)
    ensures r.Some? ==> r.value < |ds| && ds[r.value].pattern == pattern
    ensures r.Some? ==> forall j :: r.value < j < |ds| ==> ds[j].pattern != pattern
    ensures r.None? ==> forall j :: 0 <= j < |ds| ==> ds[j].pattern != pattern
    decreases |ds|
  {
    if ds == [] then None
    else if ds[|ds| - 1].pattern == pattern then Some(|ds| - 1)
    else LastWithPattern(ds[..|ds| - 1], pattern)
  }

  function RemoveAt<T>(xs: seq<T>, index: Option<nat>): (r: seq<T>)
    requires index.Some? ==> index.value < |xs|
  {
    if index.None? then xs else xs[..index.value] + xs[index.value + 1..]
  }

  // ---------------------------------------------------------------- dispatch

  /** The definition matches the request. */
  predicate MatchesAt(s: DefinitionState, request: Request, unescape: Unescaper)
    requires request.options.decodePlusSymbols ==> StringsOrLists(request.queryParams)
  {
    ResponseOf(s, request, unescape).isMatch
  }

  /** The definition matches the request and its handler accepts. */
  predicate AcceptedAt(s: DefinitionState, request: Request, unescape: Unescaper)
    requires request.options.decodePlusSymbols ==> StringsOrLists(request.queryParams)
  {
    var response := ResponseOf(s, request, unescape);
    response.isMatch && Accepts(s.handler, response.parameters)
  }

  /** The scan of `route(resource:parameters:executeRouteBlock:)` from
      definition `i` on: whether it routed and the handler calls it made. */
  function DispatchFrom(states: seq<DefinitionState>, request: Request, executeRouteBlock: bool,
                        unescape: Unescaper, i: nat): (bool, seq<Event>)
    requires request.options.decodePlusSymbols ==> StringsOrLists(request.queryParams)
    requires i <= |states|
    decreases |states| - i
  {
    if i == |states| then (false, [])
    else
      var response := ResponseOf(states[i], request, unescape);
      if !response.isMatch then DispatchFrom(states, request, executeRouteBlock, unescape, i + 1)
      else if !executeRouteBlock then (true, [])
      else
        var accepted := Accepts(states[i].handler, response.parameters);
        var event := Handled(states[i].pattern, response.parameters, accepted);
        if accepted then (true, [event])
        else
          var (didRoute, events) := DispatchFrom(states, request, executeRouteBlock, unescape, i + 1);
          (didRoute, [event] + events)
  }

  /** The result and the calls of routing a resource through a table with
      these definitions and settings. */
  function Outcome(states: seq<DefinitionState>, url: Option<Url>, parameters: Params, executeRouteBlock: bool,
                   options: Options, unmatchedHandlerSet: bool, unescape: Unescaper): (bool, seq<Event>)
  {
    match url
    case None => (false, [])
    case Some(u) =>
      RequestQueryParamsAreStrings(u, options, parameters);
      var request := RequestFor(u, options, parameters);
      var (didRoute, events) := DispatchFrom(states, request, executeRouteBlock, unescape, 0);
      if !didRoute && executeRouteBlock && unmatchedHandlerSet then (didRoute, events + [Unmatched(u, parameters)])
      else (didRoute, events)
  }

  /** The indices from `i` on at which `flags` holds, in increasing order. */
  function TrueIndices(flags: seq<bool>, i: nat): (m: seq<nat>)
    requires i <= |flags|
    ensures forall k :: 0 <= k < |m| ==> i <= m[k] < |flags|
    decreases |flags| - i
  {
    if i == |flags| then []
    else if flags[i] then [i] + TrueIndices(flags, i + 1)
    else TrueIndices(flags, i + 1)
  }

  /** Those indices are exactly where the flags hold, each once, in
      increasing order. */
  lemma {:induction false} TrueIndicesSpec(flags: seq<bool>, i: nat)
    requires i <= |flags|
    ensures forall k :: 0 <= k < |TrueIndices(flags, i)| ==> flags[TrueIndices(flags, i)[k]]
    ensures forall k, l :: 0 <= k < l < |TrueIndices(flags, i)| ==> TrueIndices(flags, i)[k] < TrueIndices(flags, i)[l]
    ensures forall j :: i <= j < |flags| && flags[j] ==> j in TrueIndices(flags, i)
    decreases |flags| - i
  {
    if i < |flags| {
      TrueIndicesSpec(flags, i + 1);
      var rest := TrueIndices(flags, i + 1);
      if flags[i] {
        var m := [i] + rest;
        assert forall k :: 1 <= k < |m| ==> m[k] == rest[k - 1];
      }
    }
  }

  /** Whether each definition matches the request. */
  function MatchFlags(states: seq<DefinitionState>, request: Request, unescape: Unescaper): (flags: seq<bool>)
    requires request.options.decodePlusSymbols ==> StringsOrLists(request.queryParams)
    ensures |flags| == |states|
    ensures forall j :: 0 <= j < |states| ==> flags[j] == MatchesAt(states[j], request, unescape)
  {
    seq(|states|, j requires 0 <= j < |states| => MatchesAt(states[j], request, unescape))
  }

  /** The indices from `i` on of the definitions that match, in increasing order. */
  function MatchIndices(states: seq<DefinitionState>, request: Request, unescape: Unescaper, i: nat): (m: seq<nat>)
    requires request.options.decodePlusSymbols ==> StringsOrLists(request.queryParams)
    requires i <= |states|
    ensures forall k :: 0 <= k < |m| ==> i <= m[k] < |states|
  {
    TrueIndices(MatchFlags(states, request, unescape), i)
  }

  /** The matching indices are exactly the matching definitions from `i` on,
      each once, in increasing order. */
  lemma MatchIndicesSpec(states: seq<DefinitionState>, request: Request, unescape: Unescaper, i: nat)
    requires request.options.decodePlusSymbols ==> StringsOrLists(request.queryParams)
    requires i <= |states|
    ensures forall k :: 0 <= k < |MatchIndices(states, request, unescape, i)| ==>
      MatchesAt(states[MatchIndices(states, request, unescape, i)[k]], request, unescape)
    ensures forall k, l :: 0 <= k < l < |MatchIndices(states, request, unescape, i)| ==>
      MatchIndices(states, request, unescape, i)[k] < MatchIndices(states, request, unescape, i)[l]
    ensures forall j :: i <= j < |states| && MatchesAt(states[j], request, unescape) ==>
      j in MatchIndices(states, request, unescape, i)
  {
    var flags := MatchFlags(states, request, unescape);
    TrueIndicesSpec(flags, i);
    var m := TrueIndices(flags, i);
    forall k | 0 <= k < |m| ensures MatchesAt(states[m[k]], request, unescape) {
      assert flags[m[k]];
    }
  }

  /** Checking without executing calls no handler and succeeds exactly when
      some definition matches. */
  lemma {:induction false} CheckSpec(states: seq<DefinitionState>, request: Request, unescape: Unescaper, i: nat)
    requires request.options.decodePlusSymbols ==> StringsOrLists(request.queryParams)
    requires i <= |states|
    ensures var (didRoute, events) := DispatchFrom(states, request, false, unescape, i);
      && events == []
      && (didRoute <==> exists j :: i <= j < |states| && MatchesAt(states[j], request, unescape))
    decreases |states| - i
  {
    if i < |states| {
      CheckSpec(states, request, unescape, i + 1);
    }
  }

  /** Executing routes exactly when some matching definition's handler
      accepts; only handlers are called, every call but an accepting last
      one declines, and when nothing accepts every matching definition was
      tried. */
  lemma {:induction false} DispatchSpec(states: seq<DefinitionState>, request: Request, unescape: Unescaper, i: nat)
    requires request.options.decodePlusSymbols ==> StringsOrLists(request.queryParams)
    requires i <= |states|
    ensures var (didRoute, events) := DispatchFrom(states, request, true, unescape, i);
      && (didRoute <==> exists j :: i <= j < |states| && AcceptedAt(states[j], request, unescape))
      && (forall k :: 0 <= k < |events| ==> events[k].Handled?)
      && (forall k :: 0 <= k < |events| ==> (events[k].accepted <==> didRoute && k == |events| - 1))
      && (!didRoute ==> |events| == |MatchIndices(states, request, unescape, i)|)
      && (didRoute ==> |events| > 0)
    decreases |states| - i
  {
    if i < |states| {
      DispatchSpec(states, request, unescape, i + 1);
      var here := DispatchFrom(states, request, true, unescape, i);
      var rest := DispatchFrom(states, request, true, unescape, i + 1);
      var flags := MatchFlags(states, request, unescape);
      var response := ResponseOf(states[i], request, unescape);
      if !response.isMatch {
        assert here == rest;
        assert TrueIndices(flags, i) == TrueIndices(flags, i + 1);
        assert !AcceptedAt(states[i], request, unescape);
      } else if Accepts(states[i].handler, response.parameters) {
        assert here.1 == [Handled(states[i].pattern, response.parameters, true)];
        assert AcceptedAt(states[i], request, unescape);
      } else {
        var event := Handled(states[i].pattern, response.parameters, false);
        assert TrueIndices(flags, i) == [i] + TrueIndices(flags, i + 1);
        assert here.0 == rest.0 && here.1 == [event] + rest.1;
        assert !AcceptedAt(states[i], request, unescape);
        assert forall k :: 1 <= k < |here.1| ==> here.1[k] == rest.1[k - 1];
      }
    }
  }

  /** The call of a matching definition's handler with its matched parameters. */
  function Call(s: DefinitionState, request: Request, unescape: Unescaper): Event
    requires request.options.decodePlusSymbols ==> StringsOrLists(request.queryParams)
  {
    var response := ResponseOf(s, request, unescape);
    Handled(s.pattern, response.parameters, Accepts(s.handler, response.parameters))
  }

  /** The events are the calls of the definitions at the first indices of `m`, in order. */
  predicate CallsAt(states: seq<DefinitionState>, request: Request, unescape: Unescaper, m: seq<nat>, events: seq<Event>)
    requires request.options.decodePlusSymbols ==> StringsOrLists(request.queryParams)
    requires forall k :: 0 <= k < |m| ==> m[k] < |states|
  {
    && |events| <= |m|
    && forall k :: 0 <= k < |events| ==> events[k] == Call(states[m[k]], request, unescape)
  }

  /** `j` is the first definition from `i` on whose handler accepts. */
  predicate FirstAccepting(states: seq<DefinitionState>, request: Request, unescape: Unescaper, i: nat, j: nat)
    requires request.options.decodePlusSymbols ==> StringsOrLists(request.queryParams)
  {
    && i <= j < |states|
    && AcceptedAt(states[j], request, unescape)
    && forall j' :: i <= j' < j ==> !AcceptedAt(states[j'], request, unescape)
  }

  /** A definition whose handler does not accept leaves the first accepting one first. */
  lemma FirstAcceptingFrom(states: seq<DefinitionState>, request: Request, unescape: Unescaper, i: nat, j: nat)
    requires request.options.decodePlusSymbols ==> StringsOrLists(request.queryParams)
    requires i < |states| && !AcceptedAt(states[i], request, unescape)
    requires FirstAccepting(states, request, unescape, i + 1, j)
    ensures FirstAccepting(states, request, unescape, i, j)
  {
    forall j' | i <= j' < j ensures !AcceptedAt(states[j'], request, unescape) {
      assert j' == i || i + 1 <= j';
    }
  }

  /** The handlers called are those of the matching definitions in table
      order, each with its definition's pattern and matched parameters. */
  lemma {:induction false} DispatchCalls(states: seq<DefinitionState>, request: Request, unescape: Unescaper, i: nat)
    requires request.options.decodePlusSymbols ==> StringsOrLists(request.queryParams)
    requires i <= |states|
    ensures CallsAt(states, request, unescape, MatchIndices(states, request, unescape, i),
                    DispatchFrom(states, request, true, unescape, i).1)
    decreases |states| - i
  {
    if i < |states| {
      DispatchCalls(states, request, unescape, i + 1);
      var here := DispatchFrom(states, request, true, unescape, i);
      var rest := DispatchFrom(states, request, true, unescape, i + 1);
      var flags := MatchFlags(states, request, unescape);
      var restMatches := TrueIndices(flags, i + 1);
      var response := ResponseOf(states[i], request, unescape);
      if !response.isMatch {
        assert here == rest;
        assert TrueIndices(flags, i) == restMatches;
      } else {
        var m := [i] + restMatches;
        assert TrueIndices(flags, i) == m;
        if Accepts(states[i].handler, response.parameters) {
          assert here.1 == [Call(states[i], request, unescape)];
        } else {
          assert here.1 == [Call(states[i], request, unescape)] + rest.1;
          assert forall k :: 1 <= k < |here.1| ==> here.1[k] == rest.1[k - 1] && m[k] == restMatches[k - 1];
        }
      }
    }
  }

  /** The definition that routes is the first one whose handler accepts:
      it is the last one called. */
  lemma {:induction false} DispatchWinner(states: seq<DefinitionState>, request: Request, unescape: Unescaper, i: nat)
    requires request.options.decodePlusSymbols ==> StringsOrLists(request.queryParams)
    requires i <= |states|
    ensures DispatchFrom(states, request, true, unescape, i).0 ==>
      && 0 < |DispatchFrom(states, request, true, unescape, i).1| <= |MatchIndices(states, request, unescape, i)|
      && FirstAccepting(states, request, unescape, i,
           MatchIndices(states, request, unescape, i)[|DispatchFrom(states, request, true, unescape, i).1| - 1])
    decreases |states| - i
  {
    if i < |states| {
      DispatchWinner(states, request, unescape, i + 1);
      var here := DispatchFrom(states, request, true, unescape, i);
      var rest := DispatchFrom(states, request, true, unescape, i + 1);
      var flags := MatchFlags(states, request, unescape);
      var restMatches := TrueIndices(flags, i + 1);
      var response := ResponseOf(states[i], request, unescape);
      if !response.isMatch {
        assert here == rest;
        assert TrueIndices(flags, i) == restMatches;
        assert !AcceptedAt(states[i], request, unescape);
        if here.0 {
          FirstAcceptingFrom(states, request, unescape, i, restMatches[|rest.1| - 1]);
        }
      } else {
        var m := [i] + restMatches;
        assert TrueIndices(flags, i) == m;
        if Accepts(states[i].handler, response.parameters) {
          assert |here.1| == 1 && m[0] == i;
        } else if here.0 {
          assert here.0 == rest.0 && |here.1| == 1 + |rest.1|;
          var w := restMatches[|rest.1| - 1];
          assert m[|here.1| - 1] == w;
          assert !AcceptedAt(states[i], request, unescape);
          FirstAcceptingFrom(states, request, unescape, i, w);
        }
      }
    }
  }

  /** An unresolvable resource routes nowhere and calls nothing; otherwise
      the unmatched handler is called once, last, exactly when executing
      routed nowhere and one is set; checking never calls it. */
  lemma OutcomeSpec(states: seq<DefinitionState>, url: Option<Url>, parameters: Params, executeRouteBlock: bool,
                    options: Options, unmatchedHandlerSet: bool, unescape: Unescaper)
    ensures var (didRoute, events) := Outcome(states, url, parameters, executeRouteBlock, options, unmatchedHandlerSet, unescape);
      && (url.None? ==> !didRoute && events == [])
      && (url.Some? && !didRoute && executeRouteBlock && unmatchedHandlerSet ==>
            |events| > 0 && events[|events| - 1] == Unmatched(url.value, parameters))
      && (forall k :: 0 <= k < |events| && events[k].Unmatched? ==>
            k == |events| - 1 && !didRoute && executeRouteBlock && unmatchedHandlerSet)
  {
    if url.Some? {
      var u := url.value;
      RequestQueryParamsAreStrings(u, options, parameters);
      var request := RequestFor(u, options, parameters);
      if executeRouteBlock {
        DispatchSpec(states, request, unescape, 0);
      } else {
        CheckSpec(states, request, unescape, 0);
      }
    }
  }

  // ---------------------------------------------------------------- the class

  class Routes {
    const scheme: string
    var shouldFallback: bool
    var shouldDecodePlusSymbols: bool
    var alwaysTreatsHostAsPathComponent: bool
    /** Whether an unmatched handler is set; its calls are `Unmatched` events. */
    var unmatchedHandlerSet: bool
    var definitions: seq<Definition>

    /** Every definition is well formed and configured with this table's
        scheme. */
    ghost predicate Valid()
      reads this, set d | d in definitions
    {
      Configured(States(), scheme)
    }

    function States(): seq<DefinitionState>
      reads this, set d | d in definitions
    {
      StatesOf(definitions)
    }

    function RequestOptions(): Options
      reads this
    {
      Options(shouldDecodePlusSymbols, alwaysTreatsHostAsPathComponent)
    }

    /** The settings dispatch reads besides the definitions. */
    function Settings(): (bool, Options, bool)
      reads this
    {
      (shouldFallback, RequestOptions(), unmatchedHandlerSet)
    }

    /** `init(scheme:)` (Routes.swift:14-26). */
    constructor(scheme: string)
      ensures this.scheme == scheme && definitions == []
      ensures !shouldFallback && shouldDecodePlusSymbols && !alwaysTreatsHostAsPathComponent && !unmatchedHandlerSet
      ensures Valid()
    {
      this.scheme := scheme;
      shouldFallback := false;
      shouldDecodePlusSymbols := true;
      alwaysTreatsHostAsPathComponent := false;
      unmatchedHandlerSet := false;
      definitions := [];
    }

    /** `reset()` (Routes.swift:28-32): the decoding options back to their
        defaults and no definitions; fallback and the unmatched handler stay. */
    method Reset()
      modifies this
      ensures shouldDecodePlusSymbols && !alwaysTreatsHostAsPathComponent && definitions == []
      ensures shouldFallback == old(shouldFallback) && unmatchedHandlerSet == old(unmatchedHandlerSet)
      ensures Valid()
    {
      shouldDecodePlusSymbols := true;
      alwaysTreatsHostAsPathComponent := false;
      definitions := [];
    }

    /** The placement part of `add(definition:)` (Routes.swift:39-49):
        priority 0 or an empty table appends; otherwise the definition goes
        before the first definition of lower priority, and is appended when
        the list does not then contain it (a configured definition never
        equals an unconfigured one, so that is when there was none). */
    method PlaceDefinition(definition: Definition)
      requires Valid() && definition.scheme.None? && definition !in definitions
      modifies this
      ensures definitions == Insert(old(definitions), InsertionIndex(old(States()), definition.priority), definition)
      ensures Settings() == old(Settings())
    {
      ghost var states := States();
      ghost var index := InsertionIndex(states, definition.priority);
      InsertionIndexSpec(states, definition.priority, 0);
      if definition.priority == 0 || |definitions| == 0 {
        definitions := definitions + [definition];
      } else {
        ghost var placed := false;
        var i := 0;
        while i < |definitions|
          invariant 0 <= i <= |definitions| && definitions == old(definitions)
          invariant forall j :: 0 <= j < i ==> states[j].priority >= definition.priority
        {
          if definitions[i].priority < definition.priority {
            InsertionIndexSpec(states, definition.priority, i);
            definitions := Insert(definitions, i, definition);
            placed := true;
            break;
          }
          i := i + 1;
        }
        if placed {
          assert definitions[index] == definition && definitions[index].Equals(definition);
        } else {
          InsertionIndexSpec(states, definition.priority, i);
          assert forall k :: 0 <= k < |definitions| ==> !definitions[k].Equals(definition);
        }
        if !ContainsEqual(definitions, definition) {
          definitions := definitions + [definition];
        }
      }
    }

    /** `add(definition:)` (Routes.swift:38-51): the definition inserted at
        its priority's place and configured with the table's scheme. */
    method AddDefinition(definition: Definition)
      requires Valid() && definition.Valid() && definition.scheme.None? && definition !in definitions
      modifies this, definition
      ensures Valid()
      ensures var index := InsertionIndex(old(States()), definition.priority);
        && definitions == Insert(old(definitions), index, definition)
        && States() == Insert(old(States()), index, definition.State())
      ensures definition.State() == old(definition.State()).(scheme := Some(scheme))
      ensures Settings() == old(Settings())
    {
      PlaceDefinition(definition);
      definition.Configure(scheme);
      ghost var index := InsertionIndex(old(States()), definition.priority);
      assert StatesOf(old(definitions)) == old(States());
      StatesOfInsert(old(definitions), index, definition);
      ConfiguredInsert(old(States()), index, definition.State(), scheme);
    }

    /** `add(pattern:priority:handler:)` (Routes.swift:77-90): one definition
        per alternative of the pattern (the pattern itself when it expands to
        nothing), all with the same priority and handler, in expansion order
        and as one block at the place the priority gives; so priority 0
        appends them. */
    method AddPattern(pattern: string, priority: int, handler: Option<Handler>)
      requires GroupsClosed(pattern)
      requires Valid()
      modifies this
      ensures Valid()
      ensures var index := InsertionIndex(old(States()), priority);
        States() == old(States())[..index] + NewStates(Alternatives(pattern), priority, handler, scheme) + old(States())[index..]
      ensures priority == 0 ==> States() == old(States()) + NewStates(Alternatives(pattern), priority, handler, scheme)
      ensures Settings() == old(Settings())
    {
      InsertionIndexSpec(old(States()), priority, 0);
      assert old(States())[..|old(States())|] == old(States());
      var optionalRoutePatterns := ExpandOptionalRoutePatterns(pattern);
      var definition := new Definition(pattern, priority, handler);
      ghost var news := NewStates(Alternatives(pattern), priority, handler, scheme);
      InsertBlock(old(States()), news, priority);
      if |optionalRoutePatterns| > 0 {
        AddAlternatives(optionalRoutePatterns, priority, handler);
        return;
      }
      AddDefinition(definition);
      assert news == [definition.State()];
    }

    /** The `forEach` of `add(pattern:priority:handler:)` (Routes.swift:83-85):
        a definition per alternative, each added by priority in turn. */
    method AddAlternatives(alternatives: seq<string>, priority: int, handler: Option<Handler>)
      requires Valid()
      modifies this
      ensures Valid()
      ensures States() == InsertAllByPriority(old(States()), NewStates(alternatives, priority, handler, scheme))
      ensures Settings() == old(Settings())
    {
      ghost var news := NewStates(alternatives, priority, handler, scheme);
      for k := 0 to |alternatives|
        invariant Valid()
        invariant States() == InsertAllByPriority(old(States()), news[..k])
        invariant Settings() == old(Settings())
      {
        var alternative := new Definition(alternatives[k], priority, handler);
        ghost var before := States();
        AddDefinition(alternative);
        assert alternative.State() == news[k];
        assert news[..k + 1][..k] == news[..k];
      }
      assert news[..|alternatives|] == news;
    }

    /** `add(patterns:handler:)` (Routes.swift:92-96): each pattern added in
        turn with priority 0, so their definitions are appended in order. */
    method AddPatterns(patterns: seq<string>, handler: Option<Handler>)
      requires forall k :: 0 <= k < |patterns| ==> GroupsClosed(patterns[k])
      requires Valid()
      modifies this
      ensures Valid()
      ensures States() == old(States()) + Registered(patterns, handler, scheme)
      ensures Settings() == old(Settings())
    {
      for k := 0 to |patterns|
        invariant Valid()
        invariant States() == old(States()) + Registered(patterns[..k], handler, scheme)
        invariant Settings() == old(Settings())
      {
        ghost var before := States();
        AddPattern(patterns[k], 0, handler);
        ghost var added := NewStates(Alternatives(patterns[k]), 0, handler, scheme);
        assert patterns[..k + 1][..k] == patterns[..k];
        ghost var registered := Registered(patterns[..k], handler, scheme);
        assert Registered(patterns[..k + 1], handler, scheme) == registered + added;
        AppendAssociative(old(States()), registered, added);
      }
      assert patterns[..|patterns|] == patterns;
    }

    /** The `subscript(pattern:)` setter (Routes.swift:64-75): no handler
        removes the pattern, a handler adds it with priority 0. */
    method SetHandler(pattern: string, newValue: Option<Handler>)
      requires newValue.Some? ==> GroupsClosed(pattern)
      requires Valid()
      modifies this
      ensures Valid()
      ensures newValue.None? ==> definitions == RemoveAt(old(definitions), LastWithPattern(old(definitions), pattern))
      ensures newValue.None? ==> States() == RemoveAt(old(States()), LastWithPattern(old(definitions), pattern))
      ensures newValue.Some? ==>
        States() == old(States()) + NewStates(Alternatives(pattern), 0, newValue, scheme)
      ensures Settings() == old(Settings())
    {
      if newValue.None? {
        RemovePattern(pattern);
      } else {
        AddPattern(pattern, 0, newValue);
      }
    }

    /** `remove(pattern:)` (Routes.swift:98-111): the scan runs over every
        definition (the `return` leaves only the closure), so the last one
        with the pattern is removed; nothing changes when there is none. */
    method RemovePattern(pattern: string)
      requires Valid()
      modifies this
      ensures Valid()
      ensures definitions == RemoveAt(old(definitions), LastWithPattern(old(definitions), pattern))
      ensures var r := LastWithPattern(old(definitions), pattern);
        States() == RemoveAt(old(States()), r)
      ensures Settings() == old(Settings())
    {
      var routeIndex := FindLastPattern(definitions, pattern);
      if routeIndex.Some? {
        var index := routeIndex.value;
        definitions := definitions[..index] + definitions[index + 1..];
      }
      assert definitions == RemoveAt(old(definitions), routeIndex);
      StatesOfRemove(old(definitions), routeIndex);
      assert StatesOf(old(definitions)) == old(States());
      ConfiguredRemove(old(States()), routeIndex, scheme);
    }

    /** `canRoute(resource:)` (Routes.swift:113-115). */
    method CanRoute(url: Option<Url>, unescape: Unescaper) returns (result: bool)
      ensures result == Outcome(States(), url, map[], false, RequestOptions(), unmatchedHandlerSet, unescape).0
    {
      var events;
      result, events := RouteWith(url, map[], false, unescape);
    }

    /** `route(resource:parameters:)` (Routes.swift:117-119). */
    method Route(url: Option<Url>, parameters: Params, unescape: Unescaper) returns (didRoute: bool, events: seq<Event>)
      ensures (didRoute, events) == Outcome(States(), url, parameters, true, RequestOptions(), unmatchedHandlerSet, unescape)
    {
      didRoute, events := RouteWith(url, parameters, true, unescape);
    }

    /** `route(resource:parameters:executeRouteBlock:)` (Routes.swift:121-166):
        the request built with the table's options, the scan, and the
        unmatched handler when executing routed nowhere. */
    method RouteWith(url: Option<Url>, parameters: Params, executeRouteBlock: bool, unescape: Unescaper)
      returns (didRoute: bool, events: seq<Event>)
      ensures (didRoute, events) ==
        Outcome(States(), url, parameters, executeRouteBlock, RequestOptions(), unmatchedHandlerSet, unescape)
    {
      if url.None? {
        return false, [];
      }
      var u := url.value;
      var options := Options(shouldDecodePlusSymbols, alwaysTreatsHostAsPathComponent);
      var request := NewRequest(u, options, parameters);
      RequestQueryParamsAreStrings(u, options, parameters);
      var routes := definitions;
      didRoute, events := ScanRoutes(routes, request, executeRouteBlock, unescape);
      if !didRoute && executeRouteBlock && unmatchedHandlerSet {
        events := events + [Unmatched(u, parameters)];
      }
    }
  }

  /** The loop of `route(resource:parameters:executeRouteBlock:)`
      (Routes.swift:141-155) over a snapshot of the definitions: a
      mismatch moves on, a match when only checking routes at once, and a
      match when executing calls the handler, whose acceptance ends the scan. */
  method ScanRoutes(routes: seq<Definition>, request: Request, executeRouteBlock: bool, unescape: Unescaper)
    returns (didRoute: bool, events: seq<Event>)
    requires request.options.decodePlusSymbols ==> StringsOrLists(request.queryParams)
    ensures (didRoute, events) == DispatchFrom(StatesOf(routes), request, executeRouteBlock, unescape, 0)
  {
    didRoute := false;
    events := [];
    ghost var states := StatesOf(routes);
    ghost var spec := DispatchFrom(states, request, executeRouteBlock, unescape, 0);
    var i := 0;
    while i < |routes|
      invariant 0 <= i <= |routes| && !didRoute
      invariant spec.0 == DispatchFrom(states, request, executeRouteBlock, unescape, i).0
      invariant spec.1 == events + DispatchFrom(states, request, executeRouteBlock, unescape, i).1
    {
      var stop, step;
      stop, didRoute, step := ScanStep(routes[i], states, request, executeRouteBlock, unescape, i);
      AppendAssociative(events, step, DispatchFrom(states, request, executeRouteBlock, unescape, i + 1).1);
      events := events + step;
      if stop {
        assert events + [] == events;
        return;
      }
      i := i + 1;
    }
    assert events + [] == events;
  }

  /** One definition of the scan: a mismatch moves on; a match ends the
      scan when only checking, and otherwise calls the handler, whose
      acceptance ends the scan. `stop` says whether the scan ends here. */
  method ScanStep(route: Definition, ghost states: seq<DefinitionState>, request: Request, executeRouteBlock: bool,
                  unescape: Unescaper, ghost i: nat)
    returns (stop: bool, didRoute: bool, step: seq<Event>)
    requires request.options.decodePlusSymbols ==> StringsOrLists(request.queryParams)
    requires i < |states| && states[i] == route.State()
    ensures stop ==> didRoute && DispatchFrom(states, request, executeRouteBlock, unescape, i) == (true, step)
    ensures !stop ==> (
      var rest := DispatchFrom(states, request, executeRouteBlock, unescape, i + 1);
      !didRoute && DispatchFrom(states, request, executeRouteBlock, unescape, i) == (rest.0, step + rest.1))
  {
    var response := route.ResponseFor(request, unescape);
    if !response.isMatch {
      ghost var rest := DispatchFrom(states, request, executeRouteBlock, unescape, i + 1);
      assert [] + rest.1 == rest.1;
      return false, false, [];
    }
    if !executeRouteBlock {
      return true, true, [];
    }
    didRoute := route.Handle(response.parameters);
    step := [Handled(route.pattern, response.parameters, didRoute)];
    stop := didRoute;
  }

  /** Every definition is well formed (its components are those of its
      pattern) and configured with the scheme. */
  predicate Configured(states: seq<DefinitionState>, scheme: string) {
    forall i :: 0 <= i < |states| ==>
      states[i].components == PatternComponents(states[i].pattern) && states[i].scheme == Some(scheme)
  }

  lemma ConfiguredInsert(states: seq<DefinitionState>, index: nat, s: DefinitionState, scheme: string)
    requires index <= |states| && Configured(states, scheme)
    requires s.components == PatternComponents(s.pattern) && s.scheme == Some(scheme)
    ensures Configured(Insert(states, index, s), scheme)
  {
    InsertIndexing(states, index, s);
  }

  lemma ConfiguredRemove(states: seq<DefinitionState>, index: Option<nat>, scheme: string)
    requires (index.Some? ==> index.value < |states|) && Configured(states, scheme)
    ensures Configured(RemoveAt(states, index), scheme)
  {
    RemoveAtIndexing(states, index);
  }

  /** The states of a list with a definition inserted. */
  lemma StatesOfInsert(ds: seq<Definition>, index: nat, d: Definition)
    requires index <= |ds|
    ensures StatesOf(Insert(ds, index, d)) == Insert(StatesOf(ds), index, d.State())
  {
    var r := StatesOf(Insert(ds, index, d));
    var s := StatesOf(ds);
    var t := Insert(s, index, d.State());
    InsertIndexing(ds, index, d);
    InsertIndexing(s, index, d.State());
    forall k | 0 <= k < |r|
      ensures r[k] == t[k]
    {
      var e := Insert(ds, index, d)[k];
      assert r[k] == e.State();
      if k < index {
        assert e == ds[k];
      } else if k > index {
        assert e == ds[k - 1];
      } else {
        assert e == d;
      }
    }
  }

  /** The `enumerated().forEach` of `remove(pattern:)` (Routes.swift:99-106):
      the closure's `return` ends only the current step, so the scan keeps
      the index of the last definition with the pattern. */
  method FindLastPattern(ds: seq<Definition>, pattern: string) returns (routeIndex: Option<nat>)
    ensures routeIndex == LastWithPattern(ds, pattern)
  {
    routeIndex := None;
    for index := 0 to |ds|
      invariant routeIndex == LastWithPattern(ds[..index], pattern)
    {
      assert ds[..index + 1][..index] == ds[..index];
      if ds[index].pattern == pattern {
        routeIndex := Some(index);
      }
    }
    assert ds[..|ds|] == ds;
  }

  /** Where each element of a sequence with one element removed comes from. */
  lemma RemoveAtIndexing<T>(xs: seq<T>, index: Option<nat>)
    requires index.Some? ==> index.value < |xs|
    ensures |RemoveAt(xs, index)| == if index.Some? then |xs| - 1 else |xs|
    ensures index.Some? ==> forall k :: 0 <= k < |xs| - 1 ==>
      RemoveAt(xs, index)[k] == if k < index.value then xs[k] else xs[k + 1]
  {
    if index.Some? {
      var r := RemoveAt(xs, index);
      forall k | 0 <= k < |xs| - 1
        ensures r[k] == if k < index.value then xs[k] else xs[k + 1]
      {
        if k >= index.value {
          assert r[k] == xs[index.value + 1..][k - index.value];
        }
      }
    }
  }

  /** The states of a list with a definition removed. */
  lemma StatesOfRemove(ds: seq<Definition>, index: Option<nat>)
    requires index.Some? ==> index.value < |ds|
    ensures StatesOf(RemoveAt(ds, index)) == RemoveAt(StatesOf(ds), index)
  {
    var r := StatesOf(RemoveAt(ds, index));
    var s := StatesOf(ds);
    var t := RemoveAt(s, index);
    RemoveAtIndexing(ds, index);
    RemoveAtIndexing(s, index);
    if index.Some? {
      forall k | 0 <= k < |r|
        ensures r[k] == t[k]
      {
        var e := RemoveAt(ds, index)[k];
        assert r[k] == e.State();
        if k < index.value {
          assert e == ds[k];
        } else {
          assert e == ds[k + 1];
        }
      }
    }
  }

  /** `_definitions.contains(definition)`: some listed definition equals it. */
  predicate ContainsEqual(ds: seq<Definition>, d: Definition)
    reads d, set x | x in ds
  {
    exists i :: 0 <= i < |ds| && ds[i].Equals(d)
  }
}
