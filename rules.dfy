/**
 * Relocation records and their order. `arraySort` hands the records to
 * `Array.prototype.sort` with one of two three-way comparators: "min" orders
 * by breakpoint ascending, then first < numeric index < last; "max"
 * reverses both. The library sort is modelled as a stable insertion sort.
 */
module Rules {
  import opened Wrappers
  import opened Text
  import opened Dom
  import opened Directive

  /** The engine's type: "min" (min-width queries) or "max" (max-width queries). */
  datatype Mode = Min | Max

  /**
   * One `data-da` element, as `init` records it: the element, its parent at
   * discovery, the resolved destination (`None` when the selector matched
   * nothing), the raw breakpoint string, the place, and the index the
   * element last had in its parent.
   */
  datatype Rule = Rule(
    element: ElemId,
    parent: ElemId,
    destination: Option<ElemId>,
    breakpoint: string,
    place: Place,
    index: int)

  /** `a.breakpoint - b.breakpoint`; a NaN difference counts as 0 for the sort. */
  function BreakpointDiff(a: string, b: string): int
  {
    match (NumberValue(a), NumberValue(b))
    case (Some(x), Some(y)) => x as int - y as int
    case _ => 0
  }

  /** Reference order on places: first, then indices by value, then last. */
  predicate PlaceBefore(p: Place, q: Place) {
    match (p, q)
    case (First, First) => false
    case (First, _) => true
    case (Index(m), Index(n)) => m < n
    case (Index(_), Last) => true
    case (_, _) => false
  }

  /** The "min" comparator of `arraySort`. */
  function CompareMin(a: Rule, b: Rule): (r: int)
    ensures a.breakpoint == b.breakpoint ==>
      (r < 0 <==> PlaceBefore(a.place, b.place)) &&
      (r > 0 <==> PlaceBefore(b.place, a.place)) &&
      (r == 0 <==> a.place == b.place)
    ensures a.breakpoint != b.breakpoint && NumberValue(a.breakpoint).Some? && NumberValue(b.breakpoint).Some? ==>
      (r < 0 <==> NumberValue(a.breakpoint).value < NumberValue(b.breakpoint).value)
  {
    if a.breakpoint == b.breakpoint then
      if a.place == b.place then 0
      else if a.place == First || b.place == Last then -1
      else if a.place == Last || b.place == First then 1
      else a.place.n - b.place.n
    else BreakpointDiff(a.breakpoint, b.breakpoint)
  }

  /** The "max" comparator of `arraySort`. */
  function CompareMax(a: Rule, b: Rule): (r: int)
    ensures a.breakpoint == b.breakpoint ==>
      (r < 0 <==> PlaceBefore(b.place, a.place)) &&
      (r > 0 <==> PlaceBefore(a.place, b.place)) &&
      (r == 0 <==> a.place == b.place)
    ensures a.breakpoint != b.breakpoint && NumberValue(a.breakpoint).Some? && NumberValue(b.breakpoint).Some? ==>
      (r < 0 <==> NumberValue(b.breakpoint).value < NumberValue(a.breakpoint).value)
  {
    if a.breakpoint == b.breakpoint then
      if a.place == b.place then 0
      else if a.place == First || b.place == Last then 1
      else if a.place == Last || b.place == First then -1
      else b.place.n - a.place.n
    else BreakpointDiff(b.breakpoint, a.breakpoint)
  }

  function Compare(mode: Mode, a: Rule, b: Rule): int
  {
    match mode
    case Min => CompareMin(a, b)
    case Max => CompareMax(a, b)
  }

  /** "max" is "min" with the arguments swapped: both orders are reversed. */
  lemma MaxReversesMin(a: Rule, b: Rule)
    ensures CompareMax(a, b) == CompareMin(b, a)
  {
  }

  /** Swapping the arguments negates the result (the comparator is antisymmetric). */
  lemma CompareAntisymmetric(mode: Mode, a: Rule, b: Rule)
    ensures Compare(mode, a, b) == -Compare(mode, b, a)
  {
  }

  /** Records with equal breakpoint and place compare as equal. */
  lemma CompareReflexive(mode: Mode, a: Rule)
    ensures Compare(mode, a, a) == 0
  {
  }

  /**
   * The breakpoints of `rules` all read as numbers, and two different
   * breakpoint strings never have the same value (no "500" beside "0500").
   */
  predicate NumericBreakpoints(rules: seq<Rule>) {
    && (forall i :: 0 <= i < |rules| ==> NumberValue(rules[i].breakpoint).Some?)
    && (forall i, j ::
          (0 <= i < |rules| && 0 <= j < |rules| &&
           NumberValue(rules[i].breakpoint) == NumberValue(rules[j].breakpoint)) ==>
          rules[i].breakpoint == rules[j].breakpoint)
  }

  /** Canonical decimal breakpoints (no leading zeros) satisfy `NumericBreakpoints`. */
  lemma CanonicalBreakpointsAreNumeric(rules: seq<Rule>)
    requires forall i :: 0 <= i < |rules| ==> Canonical(rules[i].breakpoint)
    ensures NumericBreakpoints(rules)
  {
    forall i, j | 0 <= i < |rules| && 0 <= j < |rules| &&
        NumberValue(rules[i].breakpoint) == NumberValue(rules[j].breakpoint)
      ensures rules[i].breakpoint == rules[j].breakpoint
    {
      CanonicalInjective(rules[i].breakpoint, rules[j].breakpoint);
    }
  }

  /** On such breakpoints "compares at most 0" is transitive. */
  lemma CompareTransitive(mode: Mode, a: Rule, b: Rule, c: Rule)
    requires NumericBreakpoints([a, b, c])
    requires Compare(mode, a, b) <= 0 && Compare(mode, b, c) <= 0
    ensures Compare(mode, a, c) <= 0
  {
    var rs := [a, b, c];
    assert rs[0] == a && rs[1] == b && rs[2] == c;
    assert NumberValue(a.breakpoint).Some? && NumberValue(b.breakpoint).Some? && NumberValue(c.breakpoint).Some?;
  }

  /** Each neighbouring pair is in comparator order. */
  predicate Sorted(mode: Mode, s: seq<Rule>) {
    forall i :: 0 <= i < |s| - 1 ==> Compare(mode, s[i], s[i + 1]) <= 0
  }

  /** Every pair, not just neighbours, is in comparator order. */
  predicate SortedPairwise(mode: Mode, s: seq<Rule>) {
    forall i, j :: 0 <= i < j < |s| ==> Compare(mode, s[i], s[j]) <= 0
  }

  /**
   * Insert `x` into `s` after every element that does not compare greater
   * than it (so equal records keep their order).
   */
  function InsertSorted(mode: Mode, s: seq<Rule>, x: Rule): (r: seq<Rule>)
    ensures |r| == |s| + 1
    ensures multiset(r) == multiset(s) + multiset{x}
    ensures r[|r| - 1] == x || (s != [] && r[|r| - 1] == s[|s| - 1])
  {
    if s == [] || Compare(mode, s[|s| - 1], x) <= 0 then
      s + [x]
    else
      var init, last := s[..|s| - 1], s[|s| - 1];
      assert s == init + [last];
      InsertSorted(mode, init, x) + [last]
  }

  lemma {:induction false} InsertSortedKeepsSorted(mode: Mode, s: seq<Rule>, x: Rule)
    requires Sorted(mode, s)
    ensures Sorted(mode, InsertSorted(mode, s, x))
  {
    if s != [] && Compare(mode, s[|s| - 1], x) > 0 {
      var init, last := s[..|s| - 1], s[|s| - 1];
      assert Sorted(mode, init) by {
        forall i | 0 <= i < |init| - 1 ensures Compare(mode, init[i], init[i + 1]) <= 0 {
          assert init[i] == s[i] && init[i + 1] == s[i + 1];
        }
      }
      InsertSortedKeepsSorted(mode, init, x);
      var t := InsertSorted(mode, init, x);
      var r := t + [last];
      assert r == InsertSorted(mode, s, x);
      CompareAntisymmetric(mode, last, x);
      forall i | 0 <= i < |r| - 1 ensures Compare(mode, r[i], r[i + 1]) <= 0 {
        if i < |t| - 1 {
          assert r[i] == t[i] && r[i + 1] == t[i + 1];
        } else {
          assert r[i] == t[|t| - 1] && r[i + 1] == last;
          if t[|t| - 1] != x {
            assert init != [] && t[|t| - 1] == init[|init| - 1] == s[|s| - 2];
          }
        }
      }
    }
  }

  /** `arraySort`: a stable insertion sort under the engine's comparator. */
  function SortRules(mode: Mode, s: seq<Rule>): (r: seq<Rule>)
    ensures |r| == |s|
    ensures multiset(r) == multiset(s)
    ensures Sorted(mode, r)
  {
    if s == [] then []
    else
      assert s == s[..|s| - 1] + [s[|s| - 1]];
      var t := SortRules(mode, s[..|s| - 1]);
      InsertSortedKeepsSorted(mode, t, s[|s| - 1]);
      InsertSorted(mode, t, s[|s| - 1])
  }

  /** Numeric, collision-free breakpoints make neighbour order into full order. */
  lemma {:induction false} SortedIsPairwise(mode: Mode, s: seq<Rule>)
    requires NumericBreakpoints(s)
    requires Sorted(mode, s)
    ensures SortedPairwise(mode, s)
  {
    if |s| > 1 {
      var init := s[..|s| - 1];
      assert NumericBreakpoints(init);
      SortedIsPairwise(mode, init);
      forall i, j | 0 <= i < j < |s| ensures Compare(mode, s[i], s[j]) <= 0 {
        if j < |s| - 1 {
          assert s[i] == init[i] && s[j] == init[j];
        } else if i < |s| - 2 {
          assert Compare(mode, s[i], s[j - 1]) <= 0 by { assert s[i] == init[i] && s[j - 1] == init[j - 1]; }
          var t := [s[i], s[j - 1], s[j]];
          assert NumericBreakpoints(t) by {
            assert forall k :: 0 <= k < 3 ==> t[k] in s;
          }
          CompareTransitive(mode, s[i], s[j - 1], s[j]);
        }
      }
    }
  }
}
