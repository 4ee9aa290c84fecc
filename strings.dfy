/** String helpers of the router: splitting on `/`, trimming slashes,
    `+`-to-space decoding and path joining (Routes/Extensions/String+Utilities.swift
    and the Foundation calls it relies on). */
module Strings {

  /** `components(separatedBy:)` for a one-character separator: the pieces
      between separators, so `""` gives `[""]` and `"a//b"` gives `["a", "", "b"]`. */
  function Split(s: string, sep: char): (r: seq<string>)
    ensures |r| >= 1
    decreases |s|
  {
    if s == [] then [""]
    else
      var rest := Split(s[1..], sep);
      if s[0] == sep then [""] + rest
      else [[s[0]] + rest[0]] + rest[1..]
  }

  /** No piece holds the separator, and joining the pieces with it gives the
      string back. */
  lemma {:induction false} SplitPieces(s: string, sep: char)
    ensures forall i :: 0 <= i < |Split(s, sep)| ==> sep !in Split(s, sep)[i]
    ensures Join(Split(s, sep), sep) == s
    decreases |s|
  {
    if s != [] {
      SplitPieces(s[1..], sep);
      var rest := Split(s[1..], sep);
      if s[0] == sep {
        var r := [""] + rest;
        assert r[1..] == rest;
      } else {
        JoinConsHead(s[0], rest, sep);
        var r := [[s[0]] + rest[0]] + rest[1..];
        assert forall i :: 1 <= i < |r| ==> r[i] == rest[i];
      }
    }
  }

  /** `joined(separator:)` for a non-empty list of pieces. */
  function Join(parts: seq<string>, sep: char): string
    requires |parts| >= 1
    decreases |parts|
  {
    if |parts| == 1 then parts[0] else parts[0] + [sep] + Join(parts[1..], sep)
  }

  /** Joining one more piece appends the separator and the piece. */
  lemma {:induction false} JoinSnoc(parts: seq<string>, last: string, sep: char)
    requires |parts| >= 1
    ensures Join(parts + [last], sep) == Join(parts, sep) + [sep] + last
    decreases |parts|
  {
    if |parts| > 1 {
      assert (parts + [last])[1..] == parts[1..] + [last];
      JoinSnoc(parts[1..], last, sep);
    }
  }

  /** A joined string ends as its last piece does, when that is not empty. */
  lemma JoinLast(parts: seq<string>, sep: char)
    requires |parts| >= 1 && parts[|parts| - 1] != []
    ensures var j := Join(parts, sep); |j| > 0 && j[|j| - 1] == parts[|parts| - 1][|parts[|parts| - 1]| - 1]
  {
    if |parts| > 1 {
      var init := parts[..|parts| - 1];
      assert parts == init + [parts[|parts| - 1]];
      JoinSnoc(init, parts[|parts| - 1], sep);
    }
  }

  /** Prepending a character to the first piece prepends it to the joined string. */
  lemma JoinConsHead(c: char, parts: seq<string>, sep: char)
    requires |parts| >= 1
    ensures Join([[c] + parts[0]] + parts[1..], sep) == [c] + Join(parts, sep)
  {
    var p := [[c] + parts[0]] + parts[1..];
    assert p[1..] == parts[1..];
  }

  /** Splitting what `Join` produced gives the pieces back when no piece
      contains the separator. */
  lemma {:induction false} SplitJoin(parts: seq<string>, sep: char)
    requires |parts| >= 1
    requires forall i :: 0 <= i < |parts| ==> sep !in parts[i]
    ensures Split(Join(parts, sep), sep) == parts
    decreases |parts|
  {
    if |parts| == 1 {
      SplitWithoutSeparator(parts[0], sep);
    } else {
      SplitJoin(parts[1..], sep);
      SplitAfterPiece(parts[0], Join(parts[1..], sep), sep);
      assert [parts[0]] + parts[1..] == parts;
    }
  }

  lemma {:induction false} SplitWithoutSeparator(x: string, sep: char)
    requires sep !in x
    ensures Split(x, sep) == [x]
    decreases |x|
  {
    if x != [] {
      SplitWithoutSeparator(x[1..], sep);
      assert [x[0]] + x[1..] == x;
    }
  }

  lemma {:induction false} SplitAfterPiece(x: string, y: string, sep: char)
    requires sep !in x
    ensures Split(x + [sep] + y, sep) == [x] + Split(y, sep)
    decreases |x|
  {
    if x == [] {
      assert x + [sep] + y == [sep] + y;
      assert ([sep] + y)[1..] == y;
    } else {
      assert (x + [sep] + y)[1..] == x[1..] + [sep] + y;
      SplitAfterPiece(x[1..], y, sep);
      assert [x[0]] + x[1..] == x;
    }
  }

  /** The string without its leading `/` characters. */
  function TrimStart(s: string): string
    decreases |s|
  {
    if |s| > 0 && s[0] == '/' then TrimStart(s[1..]) else s
  }

  /** Trimming the front keeps a suffix, drops only slashes, and leaves no
      slash in front. */
  lemma {:induction false} TrimStartSpec(s: string)
    ensures var r := TrimStart(s);
      && |r| <= |s| && r == s[|s| - |r|..]
      && (forall k :: 0 <= k < |s| - |r| ==> s[k] == '/')
      && (r == [] || r[0] != '/')
    decreases |s|
  {
    if |s| > 0 && s[0] == '/' {
      TrimStartSpec(s[1..]);
    }
  }

  /** The string without its trailing `/` characters. */
  function TrimEnd(s: string): string
    decreases |s|
  {
    if |s| > 0 && s[|s| - 1] == '/' then TrimEnd(s[..|s| - 1]) else s
  }

  /** Trimming the back keeps a prefix, drops only slashes, and leaves no
      slash at the back. */
  lemma {:induction false} TrimEndSpec(s: string)
    ensures var r := TrimEnd(s);
      && |r| <= |s| && r == s[..|r|]
      && (forall k :: |r| <= k < |s| ==> s[k] == '/')
      && (r == [] || r[|r| - 1] != '/')
    decreases |s|
  {
    if |s| > 0 && s[|s| - 1] == '/' {
      TrimEndSpec(s[..|s| - 1]);
    }
  }

  /** `trimmingCharacters(in: "/")`: every leading and trailing `/` removed. */
  function TrimSlashes(s: string): string {
    TrimEnd(TrimStart(s))
  }

  /** The trimmed string neither starts nor ends with `/`. */
  lemma TrimSlashesEnds(s: string)
    ensures var r := TrimSlashes(s); r == [] || (r[0] != '/' && r[|r| - 1] != '/')
  {
    var t := TrimStart(s);
    TrimStartSpec(s);
    TrimEndSpec(t);
    var r := TrimEnd(t);
    assert r != [] ==> t[0] == r[0];
  }

  /** The trimmed string is empty exactly when the string is all slashes,
      and a string without slashes at its ends is left as it is. */
  lemma TrimSlashesSpec(s: string)
    ensures TrimSlashes(s) == [] <==> forall k :: 0 <= k < |s| ==> s[k] == '/'
    ensures (s == [] || (s[0] != '/' && s[|s| - 1] != '/')) ==> TrimSlashes(s) == s
  {
    var t := TrimStart(s);
    TrimStartSpec(s);
    TrimEndSpec(t);
    assert forall k :: 0 <= k < |t| ==> s[|s| - |t| + k] == t[k];
  }

  /** `route_trimmedPathComponents` (String+Utilities.swift:20-22): the
      slash-trimmed string split on `/`. */
  function TrimmedPathComponents(s: string): (r: seq<string>)
    ensures |r| >= 1
  {
    Split(TrimSlashes(s), '/')
  }

  /** The path components are never empty as a list; joining them gives back
      the trimmed string; no component holds a `/`; only a string that is
      all slashes yields an empty first or last component. */
  lemma TrimmedPathComponentsSpec(s: string)
    ensures var r := TrimmedPathComponents(s);
      && Join(r, '/') == TrimSlashes(s)
      && (forall i :: 0 <= i < |r| ==> '/' !in r[i])
      && (r[0] == [] ==> r == [""])
      && (r[|r| - 1] == [] ==> r == [""])
  {
    var t := TrimSlashes(s);
    var r := Split(t, '/');
    SplitPieces(t, '/');
    TrimSlashesEnds(s);
    JoinEnds(r, '/');
    if |r| == 1 {
      assert r[0] == [] ==> r == [""];
    }
  }

  /** A joined string starts with its first piece and ends with its last one. */
  lemma {:induction false} JoinEnds(parts: seq<string>, sep: char)
    requires |parts| >= 1
    ensures var j := Join(parts, sep);
      && (|parts| > 1 && parts[0] == [] ==> |j| > 0 && j[0] == sep)
      && (|parts| > 1 && parts[|parts| - 1] == [] ==> |j| > 0 && j[|j| - 1] == sep)
      && (|parts| == 1 ==> j == parts[0])
    decreases |parts|
  {
    if |parts| > 1 {
      JoinEnds(parts[1..], sep);
      var tail := parts[1..];
      assert tail[|tail| - 1] == parts[|parts| - 1];
    }
  }

  /** `+` replaced by a space, every other character kept. */
  function PlusToSpace(s: string): (r: string)
    ensures |r| == |s|
    ensures forall i :: 0 <= i < |s| ==> r[i] == (if s[i] == '+' then ' ' else s[i])
    ensures '+' !in r
    decreases |s|
  {
    if s == [] then [] else [if s[0] == '+' then ' ' else s[0]] + PlusToSpace(s[1..])
  }

  /** `route_variableValue(decodePlusSymbols:)` (String+Utilities.swift:12-18):
      the identity when decoding is off, otherwise every `+` becomes a space
      and nothing else changes. */
  function RouteVariableValue(s: string, decodePlusSymbols: bool): (r: string)
    ensures !decodePlusSymbols ==> r == s
    ensures |r| == |s|
    ensures decodePlusSymbols ==>
      '+' !in r && forall i :: 0 <= i < |s| ==> r[i] == (if s[i] == '+' then ' ' else s[i])
  {
    if decodePlusSymbols then PlusToSpace(s) else s
  }

  /** Decoding twice is decoding once: decoded strings hold no `+`. */
  lemma {:induction false} PlusToSpaceIdempotent(s: string)
    ensures PlusToSpace(PlusToSpace(s)) == PlusToSpace(s)
  {
    var once := PlusToSpace(s);
    var twice := PlusToSpace(once);
    assert forall i :: 0 <= i < |once| ==> once[i] != '+';
    assert forall i :: 0 <= i < |once| ==> twice[i] == once[i];
  }

  /** Two non-empty parts meet at exactly one `/`: the result is the base
      less one trailing `/`, then `/`, then the component less one leading `/`. */
  lemma AppendingPathComponentJoins(base: string, component: string)
    requires base != [] && component != []
    ensures var r := AppendingPathComponent(base, component);
      var k := if base[|base| - 1] == '/' then |base| - 1 else |base|;
      && k < |r| && r[..k] == base[..k] && r[k] == '/'
      && r[k + 1..] == (if component[0] == '/' then component[1..] else component)
  {
  }

  /** Appending a component without a leading `/` to a base without a
      trailing `/` puts exactly one `/` between them; appending it to `/`
      gives `/` and the component. */
  lemma AppendingAtOneSlash(base: string, component: string)
    requires component != [] && component[0] != '/'
    ensures base != [] && base[|base| - 1] != '/' ==> AppendingPathComponent(base, component) == base + "/" + component
    ensures AppendingPathComponent("/", component) == "/" + component
  {
    assert "/"[..0] == [];
  }

  /** `NSString.appendingPathComponent` as the router uses it: the two parts
      meet at exactly one `/`; an empty component leaves the base unchanged. */
  function AppendingPathComponent(base: string, component: string): (r: string)
    ensures component == [] ==> r == base
    ensures base == [] ==> r == component
    ensures |base| > 0 && base[0] == '/' ==> |r| > 0 && r[0] == '/'
  {
    if component == [] then base
    else if base == [] then component
    else
      var head := if base[|base| - 1] == '/' then base[..|base| - 1] else base;
      var tail := if component[0] == '/' then component[1..] else component;
      head + "/" + tail
  }
}
