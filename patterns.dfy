/** Optional-group expansion of raw route patterns
    (`route_subpathsForPatterns` and `route_expandOptionalRoutePatterns`,
    Routes/Extensions/String+Utilities.swift:24-117, with Routes/Subpath.swift).
    A raw pattern such as `/(rest/)(app/):object/:id` becomes the concrete
    patterns `/rest/app/:object/:id`, `/app/:object/:id`, `/rest/:object/:id`
    and `/:object/:id`. */
module Patterns {
  import opened Strings
  import opened Combinations

  /** A piece of a raw pattern: text outside the parentheses (required) or
      inside one pair of them (optional), already split into path components. */
  datatype Subpath = Subpath(components: seq<string>, isOptional: bool)

  /** The index of the first `c` in `s`, or `|s|` when there is none
      (where `Scanner.scanUpTo` stops). */
  function IndexOf(s: string, c: char): (r: nat)
    ensures r <= |s|
    ensures r < |s| ==> s[r] == c
    decreases |s|
  {
    if s == [] || s[0] == c then 0 else 1 + IndexOf(s[1..], c)
  }

  /** No `c` comes before the index found. */
  lemma {:induction false} IndexOfFirstOccurrence(s: string, c: char)
    ensures c !in s[..IndexOf(s, c)]
    decreases |s|
  {
    if s != [] && s[0] != c {
      IndexOfFirstOccurrence(s[1..], c);
      assert s[..IndexOf(s, c)] == [s[0]] + s[1..][..IndexOf(s[1..], c)];
    }
  }

  /** The first `c` at position k is what `IndexOf` finds. */
  lemma {:induction false} IndexOfFirst(s: string, c: char, k: nat)
    requires k < |s| && s[k] == c && c !in s[..k]
    ensures IndexOf(s, c) == k
  {
    if k > 0 {
      assert s[..k][0] == s[0];
      assert s[1..][..k - 1] == s[1..k];
      IndexOfFirst(s[1..], c, k - 1);
    }
  }

  /** Every `(` the scanner skips, unless it is the last character, is
      followed by a `)`. The scanner needs this: past an unclosed group it
      moves its scan location beyond the end of the string. */
  predicate GroupsClosed(s: string)
    decreases |s|
  {
    s == [] ||
    var open := IndexOf(s, '(');
    open + 1 >= |s| ||
    var after := s[open + 1..];
    ClosingCheck(after) && GroupsClosed(after[IndexOf(after, ')') + 1..])
  }

  /** The check made after scanning for `)` (String+Utilities.swift:62-64)
      as written: that some text was scanned, i.e. the next `)` (or the end)
      is not the very next character. */
  predicate ClosingCheckAsWritten(after: string) {
    IndexOf(after, ')') > 0
  }

  /** The check as its message intends: a closing `)` follows. */
  predicate ClosingCheck(after: string) {
    IndexOf(after, ')') < |after|
  }

  /** The intended check holds exactly when a `)` follows. */
  lemma ClosingCheckMeansClosed(after: string)
    ensures ClosingCheck(after) <==> ')' in after
  {
    IndexOfFirstOccurrence(after, ')');
    if IndexOf(after, ')') == |after| {
      assert after[..|after|] == after;
    }
  }

  /** The check as written lets the unclosed group of `/a(b` through (the
      scanner then moves past the end of the string) and stops the correctly
      closed, empty group of `/a()`. */
  lemma ClosingCheckAsWrittenMisses()
    ensures ClosingCheckAsWritten("/a(b"[3..]) && ')' !in "/a(b"[3..] && !GroupsClosed("/a(b")
    ensures !ClosingCheckAsWritten("/a()"[3..]) && ')' in "/a()"[3..] && GroupsClosed("/a()")
  {
    UnclosedGroupFound("b");
    EmptyGroupFound("");
    assert "/a(" + "b" == "/a(b";
    assert "/a(" + ")" + "" == "/a()";
  }

  /** After `/a(` with no `)` to follow, the check as written passes while
      the group is unclosed. */
  lemma UnclosedGroupFound(inner: string)
    requires |inner| > 0 && '(' !in inner && ')' !in inner
    ensures var s := "/a(" + inner;
      && s[3..] == inner && ClosingCheckAsWritten(inner) && !GroupsClosed(s)
  {
    var s := "/a(" + inner;
    assert s[3..] == inner;
    assert s[..2] == "/a";
    IndexOfFirst(s, '(', 2);
  }

  /** After `/a(` an immediate `)` fails the check as written although the
      group is closed. */
  lemma EmptyGroupFound(rest: string)
    requires GroupsClosed(rest)
    ensures var s := "/a(" + ")" + rest;
      && s[3..] == ")" + rest && !ClosingCheckAsWritten(s[3..]) && GroupsClosed(s)
  {
    var s := "/a(" + ")" + rest;
    assert s[3..] == ")" + rest;
    assert s[..2] == "/a";
    IndexOfFirst(s, '(', 2);
    assert IndexOf(s[3..], ')') == 0;
    assert s[3..][1..] == rest;
  }

  /** A piece of pattern text as the scanner finds it: outside the groups
      (required) or between one `(` and the next `)` (optional). */
  datatype Scanned = Scanned(text: string, isOptional: bool)

  /** The text before a `(` is kept unless it is empty, `)` or `/`. */
  function RequiredPiece(text: string): seq<Scanned> {
    if |text| > 0 && text != ")" && text != "/" then [Scanned(text, false)] else []
  }

  /** The text between `(` and `)` is kept unless it is empty. */
  function OptionalPiece(text: string): seq<Scanned> {
    if |text| > 0 then [Scanned(text, true)] else []
  }

  /** The pieces scanned from `rest`, left to right. */
  function ScanPieces(rest: string): seq<Scanned>
    requires GroupsClosed(rest)
    decreases |rest|
  {
    if rest == [] then []
    else
      var open := IndexOf(rest, '(');
      var required := RequiredPiece(rest[..open]);
      if open + 1 >= |rest| then required
      else
        var after := rest[open + 1..];
        var close := IndexOf(after, ')');
        required + OptionalPiece(after[..close]) + ScanPieces(after[close + 1..])
  }

  /** A scanned piece becomes a subpath of its slash-trimmed path components. */
  function ToSubpath(piece: Scanned): Subpath {
    Subpath(TrimmedPathComponents(piece.text), piece.isOptional)
  }

  function ToSubpaths(pieces: seq<Scanned>): (r: seq<Subpath>)
    ensures |r| == |pieces|
    ensures forall i :: 0 <= i < |r| ==> r[i] == ToSubpath(pieces[i])
  {
    if pieces == [] then []
    else ToSubpaths(pieces[..|pieces| - 1]) + [ToSubpath(pieces[|pieces| - 1])]
  }

  /** The subpaths of a pattern. */
  function Scan(pattern: string): seq<Subpath>
    requires GroupsClosed(pattern)
  {
    ToSubpaths(ScanPieces(pattern))
  }

  /** Text outside the groups becomes a required piece, the text of each
      group an optional one, in the order they appear: a pattern made of
      required text, a group and more pattern scans as those three parts. */
  lemma ScanGroup(pre: string, inner: string, rest: string)
    requires '(' !in pre && ')' !in inner
    requires GroupsClosed(rest)
    ensures GroupsClosed(pre + "(" + inner + ")" + rest)
    ensures ScanPieces(pre + "(" + inner + ")" + rest) == RequiredPiece(pre) + OptionalPiece(inner) + ScanPieces(rest)
  {
    var s := pre + "(" + inner + ")" + rest;
    assert s[|pre|] == '(';
    assert s[..|pre|] == pre;
    IndexOfFirst(s, '(', |pre|);
    var after := s[|pre| + 1..];
    assert after == inner + ")" + rest;
    assert after[|inner|] == ')';
    assert after[..|inner|] == inner;
    IndexOfFirst(after, ')', |inner|);
    assert after[|inner| + 1..] == rest;
  }

  /** Text with no group scans as (at most) one required piece. */
  lemma ScanWithoutGroup(text: string)
    requires '(' !in text
    ensures GroupsClosed(text)
    ensures ScanPieces(text) == RequiredPiece(text)
  {
    if text != [] {
      assert IndexOf(text, '(') == |text|;
      assert text[..|text|] == text;
    }
  }

  /** One full round of the scanner loop below keeps its invariant: the
      pieces taken so far, then the pieces of the text still to scan, are the
      pieces of the whole pattern. Stated over the piece sequences alone and
      proved apart from the loop's own context. */
  lemma ScanAdvance(whole: seq<Scanned>, taken: seq<Scanned>, rest: seq<Scanned>, required: seq<Scanned>, optional: seq<Scanned>, next: seq<Scanned>)
    requires taken + rest == whole
    requires rest == required + optional + next
    ensures taken + required + optional + next == whole
  {
    assert taken + required + optional + next == taken + (required + optional + next);
  }

  /** `route_subpathsForPatterns` (String+Utilities.swift:24-79): the scanner
      loop. Each round takes the text up to the next `(` as a required
      subpath, skips the `(`, and takes the text up to the next `)` as an
      optional subpath. */
  method SubpathsForPattern(pattern: string) returns (subpaths: seq<Subpath>)
    requires GroupsClosed(pattern)
    ensures subpaths == Scan(pattern)
  {
    subpaths := [];
    ghost var scanned: seq<Scanned> := [];
    var rest := pattern;  // the text from the scan location on
    while rest != []
      invariant GroupsClosed(rest)
      invariant scanned + ScanPieces(rest) == ScanPieces(pattern)
      invariant subpaths == ToSubpaths(scanned)
      decreases |rest|
    {
      var preOptionalSubpath, optionalSubpath, next, atEnd := ScanRound(rest);
      ghost var before := scanned;
      if |preOptionalSubpath| > 0 && preOptionalSubpath != ")" && preOptionalSubpath != "/" {
        subpaths := subpaths + [Subpath(TrimmedPathComponents(preOptionalSubpath), false)];
      }
      scanned := scanned + RequiredPiece(preOptionalSubpath);
      AppendRequired(before, preOptionalSubpath);
      assert subpaths == ToSubpaths(scanned);
      if atEnd {
        break;
      }
      if |optionalSubpath| > 0 {
        subpaths := subpaths + [Subpath(TrimmedPathComponents(optionalSubpath), true)];
      }
      ScanAdvance(ScanPieces(pattern), before, ScanPieces(rest), RequiredPiece(preOptionalSubpath), OptionalPiece(optionalSubpath), ScanPieces(next));
      AppendOptional(scanned, optionalSubpath);
      scanned := scanned + OptionalPiece(optionalSubpath);
      assert subpaths == ToSubpaths(scanned);
      rest := next;
    }
  }

  lemma AppendRequired(scanned: seq<Scanned>, text: string)
    ensures ToSubpaths(scanned + RequiredPiece(text)) == ToSubpaths(scanned) +
      if |text| > 0 && text != ")" && text != "/" then [Subpath(TrimmedPathComponents(text), false)] else []
  {
    if |text| > 0 && text != ")" && text != "/" {
      assert (scanned + RequiredPiece(text))[..|scanned|] == scanned;
    } else {
      assert scanned + RequiredPiece(text) == scanned;
    }
  }

  lemma AppendOptional(scanned: seq<Scanned>, text: string)
    ensures ToSubpaths(scanned + OptionalPiece(text)) == ToSubpaths(scanned) +
      if |text| > 0 then [Subpath(TrimmedPathComponents(text), true)] else []
  {
    if |text| > 0 {
      assert (scanned + OptionalPiece(text))[..|scanned|] == scanned;
    } else {
      assert scanned + OptionalPiece(text) == scanned;
    }
  }

  /** One round of the scanner loop: the text up to the next `(`, then,
      unless the scanner is at the end after skipping that `(`, the text up
      to the next `)` and the text after it. */
  method ScanRound(rest: string) returns (preOptionalSubpath: string, optionalSubpath: string, next: string, atEnd: bool)
    requires GroupsClosed(rest) && rest != []
    ensures atEnd ==> ScanPieces(rest) == RequiredPiece(preOptionalSubpath)
    ensures !atEnd ==> |next| < |rest| && GroupsClosed(next)
    ensures !atEnd ==> ScanPieces(rest) == RequiredPiece(preOptionalSubpath) + OptionalPiece(optionalSubpath) + ScanPieces(next)
  {
    var open := IndexOf(rest, '(');
    preOptionalSubpath := rest[..open];
    if open + 1 >= |rest| {
      return preOptionalSubpath, [], [], true;
    }
    var after := rest[open + 1..];
    var close := IndexOf(after, ')');
    optionalSubpath := after[..close];
    next := after[close + 1..];
    atEnd := false;
    assert GroupsClosed(next);
    ScanGroupRound(rest, open, after, close);
  }

  /** The scan of a text whose first `(` is at `open`, not last, and whose
      text `after` it has its first `)` at `close`, as one round of the loop
      sees it. */
  lemma ScanGroupRound(rest: string, open: nat, after: string, close: nat)
    requires GroupsClosed(rest) && rest != []
    requires open == IndexOf(rest, '(') && open + 1 < |rest|
    requires after == rest[open + 1..] && close == IndexOf(after, ')')
    requires GroupsClosed(after[close + 1..])
    ensures ScanPieces(rest) == RequiredPiece(rest[..open]) + OptionalPiece(after[..close]) + ScanPieces(after[close + 1..])
  {
  }

  /** The required subpaths, as the set the source builds from them. */
  function RequiredSubpaths(subpaths: seq<Subpath>): set<Subpath> {
    set x | x in subpaths && !x.isOptional
  }

  function Elements(c: seq<Subpath>): set<Subpath> {
    set x | x in c
  }

  /** The combinations that hold every required subpath, in their order. */
  function KeepSupersets(combos: seq<seq<Subpath>>, required: set<Subpath>): (r: seq<seq<Subpath>>)
    ensures |r| <= |combos|
  {
    if combos == [] then []
    else (if required <= Elements(combos[0]) then [combos[0]] else []) + KeepSupersets(combos[1..], required)
  }

  /** A combination is kept exactly when it is one of the candidates and
      holds every required subpath. */
  lemma {:induction false} KeepSupersetsSpec(combos: seq<seq<Subpath>>, required: set<Subpath>)
    ensures forall c :: c in KeepSupersets(combos, required) <==> c in combos && required <= Elements(c)
    decreases |combos|
  {
    if combos != [] {
      KeepSupersetsSpec(combos[1..], required);
      assert combos == [combos[0]] + combos[1..];
    }
  }

  /** The order-preserving sub-selections of the subpaths that keep every
      required subpath (String+Utilities.swift:92-98). */
  function ValidCombinations(subpaths: seq<Subpath>): seq<seq<Subpath>> {
    KeepSupersets(AllOrderedCombinations(subpaths), RequiredSubpaths(subpaths))
  }

  /** One combination rendered as a concrete pattern: starting from `/`,
      each subpath's components joined with `/` are appended as a path
      component (String+Utilities.swift:100-110). */
  function Render(combination: seq<Subpath>): (r: string)
    ensures |r| > 0 && r[0] == '/'
  {
    RenderFrom("/", combination)
  }

  function SubpathString(subpath: Subpath): string {
    if subpath.components == [] then "" else Join(subpath.components, '/')
  }

  function RenderFrom(base: string, combination: seq<Subpath>): (r: string)
    requires |base| > 0 && base[0] == '/'
    ensures |r| > 0 && r[0] == '/'
    decreases |combination|
  {
    if combination == [] then base
    else RenderFrom(AppendingPathComponent(base, SubpathString(combination[0])), combination[1..])
  }

  /** Neither starts nor ends with `/` (the text of a scanned subpath). */
  predicate Unslashed(text: string) {
    text == [] || (text[0] != '/' && text[|text| - 1] != '/')
  }

  /** The texts of a combination's subpaths, in order, the empty ones left out. */
  function Texts(combination: seq<Subpath>): (r: seq<string>)
    ensures |r| <= |combination|
    decreases |combination|
  {
    if combination == [] then []
    else
      var text := SubpathString(combination[0]);
      (if text == [] then [] else [text]) + Texts(combination[1..])
  }

  /** `/` followed by the texts joined with `/`. */
  function Slashed(texts: seq<string>): string {
    if texts == [] then "/" else "/" + Join(texts, '/')
  }

  /** Appending a text to the rendering of `done` renders `done` and the text. */
  lemma AppendText(done: seq<string>, text: string)
    requires RenderedTexts(done)
    requires text != [] && Unslashed(text)
    ensures AppendingPathComponent(Slashed(done), text) == Slashed(done + [text])
  {
    if done == [] {
      AppendingAtOneSlash("/", text);
      assert Slashed([text]) == "/" + text;
    } else {
      var joined := Join(done, '/');
      JoinLast(done, '/');
      JoinSnoc(done, text, '/');
      AppendToJoined(joined, text);
    }
  }

  /** The non-empty case of the lemma above, over the joined text alone. */
  lemma AppendToJoined(joined: string, text: string)
    requires joined != [] && joined[|joined| - 1] != '/'
    requires text != [] && text[0] != '/'
    ensures AppendingPathComponent("/" + joined, text) == "/" + (joined + "/" + text)
  {
    var base := "/" + joined;
    assert base[|base| - 1] == joined[|joined| - 1];
    AppendingAtOneSlash(base, text);
    assert base + "/" + text == "/" + (joined + "/" + text);
  }

  /** The rendered texts and the subpath texts both start out right. */
  predicate RenderedTexts(done: seq<string>) {
    forall k :: 0 <= k < |done| ==> done[k] != [] && Unslashed(done[k])
  }

  predicate UnslashedTexts(combination: seq<Subpath>) {
    forall k :: 0 <= k < |combination| ==> Unslashed(SubpathString(combination[k]))
  }

  /** The texts rendered after appending one more (empty texts are not appended). */
  function Appended(done: seq<string>, text: string): seq<string> {
    if text == [] then done else done + [text]
  }

  /** One subpath appended to the rendering of `done`. */
  lemma RenderStep(done: seq<string>, combination: seq<Subpath>)
    requires RenderedTexts(done) && UnslashedTexts(combination) && combination != []
    ensures var more := Appended(done, SubpathString(combination[0]));
      && RenderedTexts(more) && UnslashedTexts(combination[1..])
      && RenderFrom(Slashed(done), combination) == RenderFrom(Slashed(more), combination[1..])
  {
    var text := SubpathString(combination[0]);
    var rest := combination[1..];
    forall k | 0 <= k < |rest| ensures Unslashed(SubpathString(rest[k])) {
      assert rest[k] == combination[k + 1];
    }
    if text != [] {
      AppendText(done, text);
    }
  }

  /** ... and the texts still to render follow on. */
  lemma TextsStep(done: seq<string>, combination: seq<Subpath>)
    requires combination != []
    ensures Appended(done, SubpathString(combination[0])) + Texts(combination[1..]) == done + Texts(combination)
  {
    var text := SubpathString(combination[0]);
    var rest := combination[1..];
    if text != [] {
      assert Texts(combination) == [text] + Texts(rest);
      assert done + [text] + Texts(rest) == done + ([text] + Texts(rest));
    } else {
      assert Texts(combination) == [] + Texts(rest) == Texts(rest);
    }
  }

  /** Rendering on from the rendering of `done` appends the remaining texts. */
  lemma {:induction false} RenderFromSlashed(done: seq<string>, combination: seq<Subpath>)
    requires RenderedTexts(done) && UnslashedTexts(combination)
    ensures RenderFrom(Slashed(done), combination) == Slashed(done + Texts(combination))
    decreases |combination|
  {
    if combination == [] {
      assert done + [] == done;
    } else {
      RenderStep(done, combination);
      TextsStep(done, combination);
      RenderFromSlashed(Appended(done, SubpathString(combination[0])), combination[1..]);
    }
  }

  /** A rendering is `/` followed by the non-empty texts of the subpaths,
      in order, joined with `/`, when no text has a `/` at its ends. */
  lemma RenderJoinsTexts(combination: seq<Subpath>)
    requires UnslashedTexts(combination)
    ensures Render(combination) == Slashed(Texts(combination))
  {
    RenderFromSlashed([], combination);
    assert [] + Texts(combination) == Texts(combination);
  }

  /** The text of a scanned subpath is its piece's text trimmed of slashes. */
  lemma ScannedText(piece: Scanned)
    ensures SubpathString(ToSubpath(piece)) == TrimSlashes(piece.text)
    ensures Unslashed(SubpathString(ToSubpath(piece)))
  {
    TrimmedPathComponentsSpec(piece.text);
    TrimSlashesEnds(piece.text);
  }

  /** No scanned subpath's text has a `/` at its ends. */
  lemma ScannedUnslashed(pattern: string)
    requires GroupsClosed(pattern)
    ensures forall x :: x in Scan(pattern) ==> Unslashed(SubpathString(x))
  {
    var pieces := ScanPieces(pattern);
    forall x | x in Scan(pattern) ensures Unslashed(SubpathString(x)) {
      var j :| 0 <= j < |Scan(pattern)| && Scan(pattern)[j] == x;
      ScannedText(pieces[j]);
    }
  }

  /** A valid combination holds only subpaths it was chosen from. */
  lemma ValidCombinationElements(subpaths: seq<Subpath>, i: nat)
    requires i < |ValidCombinations(subpaths)|
    ensures forall x :: x in ValidCombinations(subpaths)[i] ==> x in subpaths
  {
    var c := ValidCombinations(subpaths)[i];
    var all := AllOrderedCombinations(subpaths);
    KeepSupersetsSpec(all, RequiredSubpaths(subpaths));
    assert c in all;
    var n :| 0 <= n < |all| && all[n] == c;
    CombinationElements(subpaths);
  }

  /** Every valid combination of a pattern's subpaths renders as `/` and
      the slash-trimmed texts of its non-empty subpaths joined with `/`. */
  lemma RenderValidCombination(pattern: string, i: nat)
    requires GroupsClosed(pattern)
    requires i < |ValidCombinations(Scan(pattern))|
    ensures var c := ValidCombinations(Scan(pattern))[i];
      Render(c) == Slashed(Texts(c))
  {
    var c := ValidCombinations(Scan(pattern))[i];
    ScannedUnslashed(pattern);
    ValidCombinationElements(Scan(pattern), i);
    assert UnslashedTexts(c) by {
      forall k | 0 <= k < |c| ensures Unslashed(SubpathString(c[k])) {
        assert c[k] in c;
      }
    }
    RenderJoinsTexts(c);
  }

  /** The rendering loop of String+Utilities.swift:101-109: starting from
      `/`, append each subpath's joined components as a path component. */
  method RenderPattern(combination: seq<Subpath>) returns (routePattern: string)
    ensures routePattern == Render(combination)
  {
    routePattern := "/";
    var j := 0;
    while j < |combination|
      invariant 0 <= j <= |combination|
      invariant |routePattern| > 0 && routePattern[0] == '/'
      invariant RenderFrom(routePattern, combination[j..]) == Render(combination)
    {
      var subpathString := SubpathString(combination[j]);
      assert combination[j..][1..] == combination[j + 1..];
      routePattern := AppendingPathComponent(routePattern, subpathString);
      j := j + 1;
    }
  }

  function RenderAll(combinations: seq<seq<Subpath>>): (r: seq<string>)
    ensures |r| == |combinations|
    ensures forall i :: 0 <= i < |r| ==> r[i] == Render(combinations[i])
  {
    if combinations == [] then [] else [Render(combinations[0])] + RenderAll(combinations[1..])
  }

  predicate LongestFirst(xs: seq<string>) {
    forall i, j :: 0 <= i < j < |xs| ==> |xs[j]| <= |xs[i]|
  }

  function InsertByLength(x: string, sorted: seq<string>): (r: seq<string>)
    ensures |r| == |sorted| + 1
    decreases |sorted|
  {
    if sorted == [] || |sorted[0]| <= |x| then [x] + sorted
    else [sorted[0]] + InsertByLength(x, sorted[1..])
  }

  /** Inserting adds exactly the one string, in front or after the head. */
  lemma {:induction false} InsertByLengthPermutes(x: string, sorted: seq<string>)
    ensures var r := InsertByLength(x, sorted);
      && multiset(r) == multiset(sorted) + multiset{x}
      && (r[0] == x || (sorted != [] && r[0] == sorted[0]))
    decreases |sorted|
  {
    if !(sorted == [] || |sorted[0]| <= |x|) {
      InsertByLengthPermutes(x, sorted[1..]);
      assert sorted == [sorted[0]] + sorted[1..];
    }
  }

  /** Inserting into a longest-first list keeps it longest first. */
  lemma {:induction false} InsertByLengthSorted(x: string, sorted: seq<string>)
    requires LongestFirst(sorted)
    ensures LongestFirst(InsertByLength(x, sorted))
    decreases |sorted|
  {
    if !(sorted == [] || |sorted[0]| <= |x|) {
      var rest := sorted[1..];
      assert LongestFirst(rest) by {
        assert forall i :: 0 <= i < |rest| ==> rest[i] == sorted[i + 1];
      }
      InsertByLengthSorted(x, rest);
      InsertByLengthPermutes(x, rest);
      var tail := InsertByLength(x, rest);
      var r := [sorted[0]] + tail;
      assert |tail[0]| <= |sorted[0]|;
      assert forall j :: 0 <= j < |tail| ==> |tail[j]| <= |sorted[0]|;
      assert forall j :: 1 <= j < |r| ==> r[j] == tail[j - 1];
    }
  }

  /** `sorted(by: { $0.count > $1.count })`, as an insertion sort. */
  function SortByLength(xs: seq<string>): (r: seq<string>)
    ensures |r| == |xs|
    decreases |xs|
  {
    if xs == [] then [] else InsertByLength(xs[0], SortByLength(xs[1..]))
  }

  /** Sorting puts the longest first and keeps the same elements. */
  lemma {:induction false} SortByLengthSpec(xs: seq<string>)
    ensures LongestFirst(SortByLength(xs))
    ensures multiset(SortByLength(xs)) == multiset(xs)
    decreases |xs|
  {
    if xs != [] {
      SortByLengthSpec(xs[1..]);
      InsertByLengthSorted(xs[0], SortByLength(xs[1..]));
      InsertByLengthPermutes(xs[0], SortByLength(xs[1..]));
      assert xs == [xs[0]] + xs[1..];
    }
  }

  /** Every string starts with `/`. */
  predicate Rooted(xs: seq<string>) {
    forall i :: 0 <= i < |xs| ==> |xs[i]| > 0 && xs[i][0] == '/'
  }

  /** Reordering keeps every string rooted. */
  lemma RootedPermutation(xs: seq<string>, ys: seq<string>)
    requires Rooted(xs)
    requires multiset(ys) == multiset(xs)
    ensures Rooted(ys)
  {
    forall i | 0 <= i < |ys| ensures |ys[i]| > 0 && ys[i][0] == '/' {
      assert ys[i] in multiset(ys);
      assert ys[i] in xs;
    }
  }

  /** `route_expandOptionalRoutePatterns` (String+Utilities.swift:81-117):
      no expansion for a pattern without `(` or without subpaths; otherwise
      the rendered valid combinations, longest first. */
  function Expansion(pattern: string): (r: seq<string>)
    requires GroupsClosed(pattern)
  {
    if '(' !in pattern then []
    else
      var subpaths := Scan(pattern);
      if subpaths == [] then [] else SortByLength(RenderAll(ValidCombinations(subpaths)))
  }

  /** Every expanded pattern starts with `/`, and a non-empty expansion holds
      exactly the renderings of the combinations that keep every required
      subpath. */
  lemma ExpansionContents(pattern: string)
    requires GroupsClosed(pattern)
    ensures '(' !in pattern ==> Expansion(pattern) == []
    ensures LongestFirst(Expansion(pattern))
    ensures Rooted(Expansion(pattern))
    ensures Expansion(pattern) != [] ==>
      multiset(Expansion(pattern)) == multiset(RenderAll(ValidCombinations(Scan(pattern))))
  {
    if '(' in pattern && Scan(pattern) != [] {
      var rendered := RenderAll(ValidCombinations(Scan(pattern)));
      var r := SortByLength(rendered);
      assert Expansion(pattern) == r;
      SortByLengthSpec(rendered);
      forall i | 0 <= i < |rendered| ensures |rendered[i]| > 0 && rendered[i][0] == '/' {
        var s := Render(ValidCombinations(Scan(pattern))[i]);
        assert rendered[i] == s;
      }
      RootedPermutation(rendered, r);
    }
  }

  /** The same expansion computed by running the scanner loop. */
  method ExpandOptionalRoutePatterns(pattern: string) returns (patterns: seq<string>)
    requires GroupsClosed(pattern)
    ensures patterns == Expansion(pattern)
  {
    if '(' !in pattern {
      return [];
    }
    var subpaths := SubpathsForPattern(pattern);
    if subpaths == [] {
      return [];
    }
    var requiredSubpaths := RequiredSubpaths(subpaths);
    var allSubpathCombinations := OrderedCombinations(subpaths);
    var validSubpathCombinations := KeepSupersets(allSubpathCombinations, requiredSubpaths);
    assert validSubpathCombinations == ValidCombinations(subpaths);
    var validSubpathRouteStrings := RenderPatterns(validSubpathCombinations);
    patterns := SortByLength(validSubpathRouteStrings);
  }

  /** The `map` of String+Utilities.swift:100-110: each combination rendered. */
  method RenderPatterns(combinations: seq<seq<Subpath>>) returns (routeStrings: seq<string>)
    ensures routeStrings == RenderAll(combinations)
  {
    routeStrings := [];
    var j := 0;
    while j < |combinations|
      invariant 0 <= j <= |combinations|
      invariant |routeStrings| == j
      invariant forall i :: 0 <= i < j ==> routeStrings[i] == Render(combinations[i])
    {
      var routePattern := RenderPattern(combinations[j]);
      ghost var before := routeStrings;
      routeStrings := routeStrings + [routePattern];
      assert forall i :: 0 <= i < j ==> routeStrings[i] == before[i];
      j := j + 1;
    }
  }

  function OptionalCount(subpaths: seq<Subpath>): nat {
    if subpaths == [] then 0
    else OptionalCount(subpaths[..|subpaths| - 1]) + (if subpaths[|subpaths| - 1].isOptional then 1 else 0)
  }

  /** No required subpath occurs twice. */
  predicate RequiredDistinct(subpaths: seq<Subpath>) {
    forall i, j :: 0 <= i < j < |subpaths| && !subpaths[i].isOptional ==> subpaths[i] != subpaths[j]
  }

  lemma {:induction false} KeepConcat(a: seq<seq<Subpath>>, b: seq<seq<Subpath>>, required: set<Subpath>)
    ensures KeepSupersets(a + b, required) == KeepSupersets(a, required) + KeepSupersets(b, required)
    decreases |a|
  {
    if a != [] {
      assert (a + b)[1..] == a[1..] + b;
      KeepConcat(a[1..], b, required);
    } else {
      assert a + b == b;
    }
  }

  /** Extending every combination by `x` keeps exactly those that already
      held every required subpath other than `x`. */
  lemma {:induction false} KeepAppended(combos: seq<seq<Subpath>>, x: Subpath, required: set<Subpath>)
    ensures |KeepSupersets(AppendToEach(combos, x), required)| == |KeepSupersets(combos, required - {x})|
    decreases |combos|
  {
    if combos != [] {
      var appended := AppendToEach(combos, x);
      assert appended[1..] == AppendToEach(combos[1..], x);
      KeepAppended(combos[1..], x, required);
      assert Elements(appended[0]) == Elements(combos[0]) + {x};
    }
  }

  /** No combination is kept when a required subpath is missing from all of them. */
  lemma {:induction false} KeepNone(combos: seq<seq<Subpath>>, x: Subpath, required: set<Subpath>)
    requires x in required
    requires forall i :: 0 <= i < |combos| ==> x !in combos[i]
    ensures KeepSupersets(combos, required) == []
    decreases |combos|
  {
    if combos != [] {
      KeepNone(combos[1..], x, required);
    }
  }

  /** With pairwise-distinct required subpaths, exactly 2^k combinations
      survive, k being the number of optional subpaths: each optional one is
      independently present or absent. */
  lemma {:induction false} ValidCombinationCount(subpaths: seq<Subpath>)
    requires RequiredDistinct(subpaths)
    ensures |ValidCombinations(subpaths)| == Pow2(OptionalCount(subpaths))
    decreases |subpaths|
  {
    if subpaths == [] {
      assert AllOrderedCombinations(subpaths) == [[]];
      assert RequiredSubpaths(subpaths) == {};
      assert KeepSupersets([[]], {}) == [[]];
    } else {
      var n := |subpaths|;
      var init := subpaths[..n - 1];
      var x := subpaths[n - 1];
      assert subpaths == init + [x];
      assert RequiredDistinct(init);
      ValidCombinationCount(init);
      if !x.isOptional {
        forall i | 0 <= i < n - 1 ensures init[i] != x {
          if !init[i].isOptional {
            assert subpaths[i] != subpaths[n - 1];
          }
        }
      }
      ExtendedCount(init, x);
    }
  }

  /** Appending an optional subpath doubles the valid combinations; appending
      a new required one keeps their number. */
  lemma ExtendedCount(init: seq<Subpath>, x: Subpath)
    requires x.isOptional || x !in init
    ensures |ValidCombinations(init + [x])| == (if x.isOptional then 2 else 1) * |ValidCombinations(init)|
  {
    var prefix := AllOrderedCombinations(init);
    var required := RequiredSubpaths(init + [x]);
    ValidSnoc(init, x);
    if x.isOptional {
      RequiredSnoc(init, x);
      assert required == RequiredSubpaths(init);
      assert KeepSupersets(prefix, required) == ValidCombinations(init);
    } else {
      CombinationElements(init);
      KeepNone(prefix, x, required);
      assert |KeepSupersets(prefix, required)| == 0;
    }
  }

  /** The valid combinations after appending `x`: those of the old
      combinations, then those of the old combinations extended by `x`,
      which are as many as the old valid combinations. */
  lemma ValidSnoc(init: seq<Subpath>, x: Subpath)
    requires x.isOptional || x !in init
    ensures var prefix := AllOrderedCombinations(init);
      var required := RequiredSubpaths(init + [x]);
      && |ValidCombinations(init + [x])| ==
        |KeepSupersets(prefix, required)| + |ValidCombinations(init)|
      && (!x.isOptional ==> x in required)
  {
    var prefix := AllOrderedCombinations(init);
    var extended := AppendToEach(prefix, x);
    CombinationsSnoc(init, x);
    var required := RequiredSubpaths(init + [x]);
    RequiredSnoc(init, x);
    KeepConcat(prefix, extended, required);
    KeepAppended(prefix, x, required);
  }

  /** The required subpaths after appending one subpath. */
  lemma RequiredSnoc(init: seq<Subpath>, x: Subpath)
    ensures RequiredSubpaths(init + [x]) == RequiredSubpaths(init) + (if x.isOptional then {} else {x})
    ensures x.isOptional || x !in init ==> RequiredSubpaths(init + [x]) - {x} == RequiredSubpaths(init)
  {
    assert forall y :: y in init + [x] <==> y in init || y == x;
  }

  /** With pairwise-distinct required subpaths and k optional subpaths, a
      pattern with a group expands to exactly 2^k concrete patterns. */
  lemma ExpansionCount(pattern: string)
    requires GroupsClosed(pattern) && '(' in pattern
    requires Scan(pattern) != [] && RequiredDistinct(Scan(pattern))
    ensures |Expansion(pattern)| == Pow2(OptionalCount(Scan(pattern)))
  {
    ValidCombinationCount(Scan(pattern));
    var rendered := RenderAll(ValidCombinations(Scan(pattern)));
    assert |multiset(Expansion(pattern))| == |multiset(rendered)|;
  }
}
