/** `route_queryParams(decodePlusSymbols:)` (Routes/Extensions/Dictionary+Utilities.swift):
    `+`-to-space decoding of every string in a parameter mapping. */
module QueryParams {
  import opened Common
  import opened Strings

  /** The string elements of a list, decoded, in their order; every other
      element is dropped (`compactMap { $0 as? String }` then `map`). */
  function DecodedStrings(items: seq<Value>): (r: seq<Value>)
    ensures |r| <= |items|
    decreases |items|
  {
    if items == [] then []
    else
      (if items[0].Str? then [Str(RouteVariableValue(items[0].s, true))] else []) + DecodedStrings(items[1..])
  }

  /** The strings of a list, in their order. */
  function StringsOf(items: seq<Value>): seq<string>
    decreases |items|
  {
    if items == [] then []
    else (if items[0].Str? then [items[0].s] else []) + StringsOf(items[1..])
  }

  /** Decoding a list keeps exactly its strings, in their order, each with
      `+` replaced by a space. */
  lemma {:induction false} DecodedStringsSpec(items: seq<Value>)
    ensures |DecodedStrings(items)| == |StringsOf(items)|
    ensures forall i :: 0 <= i < |DecodedStrings(items)| ==>
      DecodedStrings(items)[i] == Str(PlusToSpace(StringsOf(items)[i]))
    decreases |items|
  {
    if items != [] {
      DecodedStringsSpec(items[1..]);
      var d, rest := DecodedStrings(items), DecodedStrings(items[1..]);
      var strings, restStrings := StringsOf(items), StringsOf(items[1..]);
      if items[0].Str? {
        assert d == [Str(PlusToSpace(items[0].s))] + rest;
        assert strings == [items[0].s] + restStrings;
        forall i | 1 <= i < |d|
          ensures d[i] == Str(PlusToSpace(strings[i]))
        {
          assert d[i] == rest[i - 1] && strings[i] == restStrings[i - 1];
        }
      } else {
        assert d == rest && strings == restStrings;
      }
    }
  }

  /** A string is kept exactly when it is an element of the list. */
  lemma {:induction false} StringsOfMembers(items: seq<Value>)
    ensures forall s :: s in StringsOf(items) <==> Str(s) in items
    decreases |items|
  {
    if items != [] {
      StringsOfMembers(items[1..]);
      assert items == [items[0]] + items[1..];
    }
  }

  /** One decoded value: a list keeps its decoded strings, a string is
      decoded. Any other value is refused by the caller's precondition. */
  function DecodeValue(v: Value): Value
    requires !v.Other?
  {
    match v
    case List(items) => List(DecodedStrings(items))
    case Str(s) => Str(RouteVariableValue(s, true))
  }

  /** No value the router passes here is anything but a string or a list:
      the source asserts this (Dictionary+Utilities.swift:28-29). */
  predicate StringsOrLists(params: Params) {
    forall k :: k in params ==> !params[k].Other?
  }

  /** `route_queryParams(decodePlusSymbols:)` (Dictionary+Utilities.swift:12-34). */
  function RouteQueryParams(params: Params, decodePlusSymbols: bool): (r: Params)
    requires decodePlusSymbols ==> StringsOrLists(params)
    ensures !decodePlusSymbols ==> r == params
    ensures r.Keys == params.Keys
  {
    if !decodePlusSymbols then params
    else map k | k in params :: DecodeValue(params[k])
  }

  /** With decoding on, a string is `+`-decoded, a list keeps exactly its
      strings, each decoded, and every value is again a string or a list. */
  lemma RouteQueryParamsSpec(params: Params)
    requires StringsOrLists(params)
    ensures var r := RouteQueryParams(params, true);
      && StringsOrLists(r)
      && (forall k :: k in params && params[k].Str? ==> r[k] == Str(PlusToSpace(params[k].s)))
      && (forall k :: k in params && params[k].List? ==>
            r[k].List? && |r[k].items| == |StringsOf(params[k].items)|
            && forall i :: 0 <= i < |r[k].items| ==> r[k].items[i] == Str(PlusToSpace(StringsOf(params[k].items)[i])))
  {
    var r := RouteQueryParams(params, true);
    forall k | k in params && params[k].List?
      ensures r[k].List? && |r[k].items| == |StringsOf(params[k].items)|
      ensures forall i :: 0 <= i < |r[k].items| ==> r[k].items[i] == Str(PlusToSpace(StringsOf(params[k].items)[i]))
    {
      DecodedStringsSpec(params[k].items);
    }
  }

  /** Decoding a decoded list changes nothing. */
  lemma {:induction false} DecodedStringsIdempotent(items: seq<Value>)
    ensures DecodedStrings(DecodedStrings(items)) == DecodedStrings(items)
    decreases |items|
  {
    if items != [] {
      DecodedStringsIdempotent(items[1..]);
      var d := DecodedStrings(items);
      if items[0].Str? {
        PlusToSpaceIdempotent(items[0].s);
        assert d[0] == Str(PlusToSpace(items[0].s));
        assert d[1..] == DecodedStrings(items[1..]);
      } else {
        assert d == DecodedStrings(items[1..]);
      }
    }
  }

  /** Decoding twice is decoding once: decoded strings hold no `+`. */
  lemma RouteQueryParamsIdempotent(params: Params)
    requires StringsOrLists(params)
    ensures RouteQueryParams(RouteQueryParams(params, true), true) == RouteQueryParams(params, true)
  {
    var once := RouteQueryParams(params, true);
    RouteQueryParamsSpec(params);
    var twice := RouteQueryParams(once, true);
    forall k | k in params ensures twice[k] == once[k] {
      match params[k]
      case Str(s) =>
        PlusToSpaceIdempotent(s);
      case List(items) =>
        DecodedStringsIdempotent(items);
    }
  }
}
