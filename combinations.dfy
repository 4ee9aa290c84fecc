/** Every order-preserving sub-selection of a sequence
    (`route_allOrderedCombinations`, Routes/Extensions/Array+Utilities.swift). */
module Combinations {

  function Pow2(n: nat): (r: nat)
    ensures r >= 1
  {
    if n == 0 then 1 else 2 * Pow2(n - 1)
  }

  /** Each combination extended with `x` at its end. */
  function AppendToEach<T>(combos: seq<seq<T>>, x: T): (r: seq<seq<T>>)
    ensures |r| == |combos|
  {
    if combos == [] then [] else [combos[0] + [x]] + AppendToEach(combos[1..], x)
  }

  /** Entry i of the extended combinations is entry i extended by `x`. */
  lemma {:induction false} AppendToEachAt<T>(combos: seq<seq<T>>, x: T, i: nat)
    requires i < |combos|
    ensures AppendToEach(combos, x)[i] == combos[i] + [x]
    decreases i
  {
    if i > 0 {
      AppendToEachAt(combos[1..], x, i - 1);
    }
  }

  /** Extending the candidates by one combination extends the result by
      that combination extended. */
  lemma {:induction false} AppendToEachSnoc<T>(combos: seq<seq<T>>, c: seq<T>, x: T)
    ensures AppendToEach(combos + [c], x) == AppendToEach(combos, x) + [c + [x]]
    decreases |combos|
  {
    if combos != [] {
      assert (combos + [c])[1..] == combos[1..] + [c];
      AppendToEachSnoc(combos[1..], c, x);
    }
  }

  /** The combinations of all but the last element, followed by the same
      combinations each extended with the last element. The empty sequence
      has exactly one combination, the empty one; in general there are 2^n. */
  function AllOrderedCombinations<T>(s: seq<T>): (r: seq<seq<T>>)
    ensures |r| == Pow2(|s|)
    decreases |s|
  {
    if |s| == 0 then [[]]
    else
      var prefix := AllOrderedCombinations(s[..|s| - 1]);
      prefix + AppendToEach(prefix, s[|s| - 1])
  }

  /** `route_allOrderedCombinations` (Array+Utilities.swift:12-27): the
      combinations of the array without its last element, then each of them
      with the last element appended, one at a time. */
  method OrderedCombinations<T>(s: seq<T>) returns (combinations: seq<seq<T>>)
    ensures combinations == AllOrderedCombinations(s)
    decreases |s|
  {
    if |s| == 0 {
      return [[]];
    }
    var lastObject := s[|s| - 1];
    var subarrayCombinations := OrderedCombinations(s[..|s| - 1]);
    combinations := subarrayCombinations;
    var j := 0;
    while j < |subarrayCombinations|
      invariant 0 <= j <= |subarrayCombinations|
      invariant combinations == subarrayCombinations + AppendToEach(subarrayCombinations[..j], lastObject)
    {
      var combination := subarrayCombinations[j];
      AppendToEachSnoc(subarrayCombinations[..j], combination, lastObject);
      assert subarrayCombinations[..j + 1] == subarrayCombinations[..j] + [combination];
      combinations := combinations + [combination + [lastObject]];
      j := j + 1;
    }
    assert subarrayCombinations[..j] == subarrayCombinations;
  }

  /** The first combination is empty and the last is the whole sequence. */
  lemma {:induction false} CombinationsEnds<T>(s: seq<T>)
    ensures AllOrderedCombinations(s)[0] == []
    ensures AllOrderedCombinations(s)[Pow2(|s|) - 1] == s
    decreases |s|
  {
    if |s| > 0 {
      CombinationsEnds(s[..|s| - 1]);
      CombinationLast(s, 0);
      CombinationLast(s, Pow2(|s|) - 1);
    }
  }

  /** The elements of `s` whose flag in `keep` is set, in their order in `s`:
      an order-preserving sub-selection, named by its flags. */
  function Select<T>(s: seq<T>, keep: seq<bool>): seq<T>
    requires |keep| == |s|
    decreases |s|
  {
    if s == [] then []
    else Select(s[..|s| - 1], keep[..|keep| - 1]) + (if keep[|keep| - 1] then [s[|s| - 1]] else [])
  }

  /** The n binary digits of i, least significant first. */
  function Bits(n: nat, i: nat): (r: seq<bool>)
    requires i < Pow2(n)
    ensures |r| == n
  {
    if n == 0 then []
    else if i < Pow2(n - 1) then Bits(n - 1, i) + [false]
    else Bits(n - 1, i - Pow2(n - 1)) + [true]
  }

  /** The number whose binary digits, least significant first, are `bits`. */
  function Number(bits: seq<bool>): (r: nat)
    ensures r < Pow2(|bits|)
  {
    if bits == [] then 0
    else Number(bits[..|bits| - 1]) + (if bits[|bits| - 1] then Pow2(|bits| - 1) else 0)
  }

  /** The number of digits extended by a most significant one. */
  lemma NumberSnoc(init: seq<bool>, x: bool)
    ensures Number(init + [x]) == Number(init) + (if x then Pow2(|init|) else 0)
  {
    assert (init + [x])[..|init|] == init;
  }

  lemma {:induction false} NumberOfBits(n: nat, i: nat)
    requires i < Pow2(n)
    ensures Number(Bits(n, i)) == i
  {
    if n > 0 {
      var half := Pow2(n - 1);
      var k := if i < half then i else i - half;
      var init := Bits(n - 1, k);
      assert Bits(n, i) == init + [i >= half];
      NumberOfBits(n - 1, k);
      NumberSnoc(init, i >= half);
    }
  }

  lemma {:induction false} BitsOfNumber(bits: seq<bool>)
    ensures Bits(|bits|, Number(bits)) == bits
  {
    if bits != [] {
      var n := |bits|;
      var init := bits[..n - 1];
      var x := bits[n - 1];
      assert bits == init + [x];
      BitsOfNumber(init);
      NumberSnoc(init, x);
      var k := Number(init);
      assert Bits(n, Number(bits)) == Bits(n - 1, k) + [x];
    }
  }

  /** The combinations of a sequence extended by one element. */
  lemma CombinationsSnoc<T>(init: seq<T>, x: T)
    ensures AllOrderedCombinations(init + [x]) ==
      AllOrderedCombinations(init) + AppendToEach(AllOrderedCombinations(init), x)
  {
    assert (init + [x])[..|init|] == init;
  }

  /** Combination number i selects exactly the positions whose bit is set in i. */
  lemma {:induction false} CombinationAt<T>(s: seq<T>, i: nat)
    requires i < Pow2(|s|)
    ensures AllOrderedCombinations(s)[i] == Select(s, Bits(|s|, i))
    decreases |s|
  {
    if |s| > 0 {
      var init := s[..|s| - 1];
      var half := Pow2(|init|);
      var k := if i < half then i else i - half;
      CombinationAt(init, k);
      CombinationLast(s, i);
      var bits := Bits(|s|, i);
      assert bits[..|init|] == Bits(|init|, k);
      assert bits[|init|] == (i >= half);
    }
  }

  /** Combination number i of a non-empty sequence: the combination of all
      but the last element numbered by the lower bits of i, extended by the
      last element when the top bit is set. */
  lemma CombinationLast<T>(s: seq<T>, i: nat)
    requires |s| > 0 && i < Pow2(|s|)
    ensures i < Pow2(|s| - 1) ==>
      AllOrderedCombinations(s)[i] == AllOrderedCombinations(s[..|s| - 1])[i]
    ensures i >= Pow2(|s| - 1) ==>
      AllOrderedCombinations(s)[i] == AllOrderedCombinations(s[..|s| - 1])[i - Pow2(|s| - 1)] + [s[|s| - 1]]
  {
    var prefix := AllOrderedCombinations(s[..|s| - 1]);
    if i >= |prefix| {
      AppendToEachAt(prefix, s[|s| - 1], i - |prefix|);
    }
  }

  /** The combinations enumerate the sub-selections of `s` one to one: every
      choice of positions is combination number `Number(keep)`, and two
      different numbers choose different positions. */
  lemma EachSelectionExactlyOnce<T>(s: seq<T>)
    ensures forall keep :: |keep| == |s| ==>
      Number(keep) < Pow2(|s|) && AllOrderedCombinations(s)[Number(keep)] == Select(s, keep)
    ensures forall i, j :: 0 <= i < Pow2(|s|) && 0 <= j < Pow2(|s|) && Bits(|s|, i) == Bits(|s|, j) ==> i == j
  {
    forall keep | |keep| == |s|
      ensures Number(keep) < Pow2(|s|) && AllOrderedCombinations(s)[Number(keep)] == Select(s, keep)
    {
      SelectionAt(s, keep);
    }
    forall i, j | 0 <= i < Pow2(|s|) && 0 <= j < Pow2(|s|) && Bits(|s|, i) == Bits(|s|, j)
      ensures i == j
    {
      NumberOfBits(|s|, i);
      NumberOfBits(|s|, j);
      assert i == Number(Bits(|s|, i)) == Number(Bits(|s|, j)) == j;
    }
  }

  /** The choice of positions `keep` is combination number `Number(keep)`. */
  lemma SelectionAt<T>(s: seq<T>, keep: seq<bool>)
    requires |keep| == |s|
    ensures Number(keep) < Pow2(|s|) && AllOrderedCombinations(s)[Number(keep)] == Select(s, keep)
  {
    BitsOfNumber(keep);
    CombinationAt(s, Number(keep));
  }

  /** A combination holds only elements of the sequence it was taken from. */
  lemma {:induction false} CombinationElements<T>(s: seq<T>)
    ensures forall i, x :: 0 <= i < Pow2(|s|) && x in AllOrderedCombinations(s)[i] ==> x in s
    decreases |s|
  {
    if |s| > 0 {
      var init := s[..|s| - 1];
      CombinationElements(init);
      var r := AllOrderedCombinations(s);
      var prefix := AllOrderedCombinations(init);
      forall i, x | 0 <= i < Pow2(|s|) && x in r[i] ensures x in s {
        if i < |prefix| {
          assert r[i] == prefix[i];
          assert x in init;
        } else {
          AppendToEachAt(prefix, s[|s| - 1], i - |prefix|);
          assert r[i] == prefix[i - |prefix|] + [s[|s| - 1]];
          if x in prefix[i - |prefix|] {
            assert x in init;
          }
        }
      }
    }
  }
}
