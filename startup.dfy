/**
 * What `init` computes before and while it registers the listeners: one
 * record per element carrying a directive, the sorted records, one listener
 * per distinct media query, and the first call of each listener's handler.
 */
module Startup {
  import opened Wrappers
  import opened Seqs
  import opened Text
  import opened Dom
  import opened Directive
  import opened Rules
  import opened Media
  import opened Adapt

  /**
   * What the document offers `init`: every node carrying a directive has its
   * `data-da` text and its parent, sits among that parent's children, and
   * has a place the engine understands; every selector resolves to an
   * element of the document.
   */
  predicate Collectable(kids: Children, nodes: seq<ElemId>, data: map<ElemId, string>,
                        parents: map<ElemId, ElemId>, selectors: map<string, ElemId>) {
    && (forall n :: n in nodes ==> n in data && n in parents && parents[n] in kids && n in kids[parents[n]])
    && (forall n :: n in nodes ==> ParsePlace(ParseDirective(data[n]).place).Some?)
    && (forall s :: s in selectors ==> selectors[s] in kids)
  }

  /** `document.querySelector(selector)`: `None` for the `null` of a selector that matches nothing. */
  function Resolve(selectors: map<string, ElemId>, selector: string): Option<ElemId> {
    if selector in selectors then Some(selectors[selector]) else None
  }

  /** The record `init` builds for one node. */
  function Record(kids: Children, data: map<ElemId, string>, parents: map<ElemId, ElemId>,
                  selectors: map<string, ElemId>, node: ElemId): (r: Rule)
    requires node in data && node in parents && parents[node] in kids
    requires ParsePlace(ParseDirective(data[node]).place).Some?
    ensures r.element == node && r.parent == parents[node]
    ensures ',' !in r.breakpoint
  {
    var d := ParseDirective(data[node]);
    Rule(node, parents[node], Resolve(selectors, d.selector), d.breakpoint,
      ParsePlace(d.place).value, IndexInParent(kids, parents[node], node))
  }

  /** The records of all nodes, in document order. */
  function Records(kids: Children, nodes: seq<ElemId>, data: map<ElemId, string>,
                   parents: map<ElemId, ElemId>, selectors: map<string, ElemId>): (r: seq<Rule>)
    requires Collectable(kids, nodes, data, parents, selectors)
    ensures |r| == |nodes|
    ensures forall i :: 0 <= i < |nodes| ==> r[i] == Record(kids, data, parents, selectors, nodes[i])
  {
    seq(|nodes|, i requires 0 <= i < |nodes| => Record(kids, data, parents, selectors, nodes[i]))
  }

  /** No two records relocate the same element. */
  predicate DistinctElements(rules: seq<Rule>) {
    forall i, j :: 0 <= i < |rules| && 0 <= j < |rules| && i != j ==> rules[i].element != rules[j].element
  }

  /** The records of distinct nodes are wired to the document and relocate distinct elements. */
  lemma RecordsWellFormed(kids: Children, marked: set<ElemId>, nodes: seq<ElemId>, data: map<ElemId, string>,
                          parents: map<ElemId, ElemId>, selectors: map<string, ElemId>)
    requires WellFormed(kids) && NoDup(nodes) && Collectable(kids, nodes, data, parents, selectors)
    ensures var recs := Records(kids, nodes, data, parents, selectors);
      Wired(Page(kids, marked, recs)) && CommaFree(recs) && DistinctElements(recs)
  {
    var recs := Records(kids, nodes, data, parents, selectors);
    forall i, j | 0 <= i < |recs| && 0 <= j < |recs| && i != j ensures recs[i].element != recs[j].element {
      if i < j {
        assert nodes[i] != nodes[j];
      } else {
        assert nodes[j] != nodes[i];
      }
    }
  }

  lemma MultisetTwice(a: seq<Rule>, i: nat, j: nat)
    requires i < j < |a| && a[i] == a[j]
    ensures multiset(a)[a[i]] >= 2
  {
    assert a == a[..j] + [a[j]] + a[j + 1..];
    assert a[i] in a[..j];
  }

  lemma {:induction false} DistinctOnce(b: seq<Rule>, x: Rule)
    requires DistinctElements(b)
    ensures multiset(b)[x] <= 1
  {
    if b != [] {
      var init := b[..|b| - 1];
      assert b == init + [b[|b| - 1]];
      assert DistinctElements(init);
      DistinctOnce(init, x);
    }
  }

  /** A permutation of records with distinct elements has distinct elements. */
  lemma PermutationKeepsDistinct(a: seq<Rule>, b: seq<Rule>)
    requires multiset(a) == multiset(b) && DistinctElements(b)
    ensures DistinctElements(a)
  {
    forall i, j | 0 <= i < |a| && 0 <= j < |a| && i != j ensures a[i].element != a[j].element {
      if a[i] == a[j] {
        if i < j { MultisetTwice(a, i, j); } else { MultisetTwice(a, j, i); }
        DistinctOnce(b, a[i]);
        assert false;
      }
      assert a[i] in multiset(b) && a[j] in multiset(b);
      var k :| 0 <= k < |b| && b[k] == a[i];
      var l :| 0 <= l < |b| && b[l] == a[j];
      assert k != l;
    }
  }

  /** The listener bound to each entry of `mediaQueries`. */
  function Listeners(mode: Mode, rules: seq<Rule>): (gs: seq<seq<nat>>)
    requires CommaFree(rules)
    ensures |gs| == |MediaQueries(mode, rules)|
    ensures forall q :: 0 <= q < |gs| ==> InRange(rules, gs[q])
  {
    var qs := MediaQueries(mode, rules);
    QueriesSplit(mode, rules);
    seq(|qs|, q requires 0 <= q < |qs| => Group(rules, MediaBreakpoint(qs[q])))
  }

  /** Each entry is some record's `condition,breakpoint` and splits in two. */
  lemma QueriesSplit(mode: Mode, rules: seq<Rule>)
    requires CommaFree(rules)
    ensures var qs := MediaQueries(mode, rules);
      forall q :: 0 <= q < |qs| ==> |Split(qs[q], ',')| > 1
  {
    var qs := MediaQueries(mode, rules);
    forall q | 0 <= q < |qs| ensures |Split(qs[q], ',')| > 1 {
      MediaQueriesShape(mode, rules, q);
      var i :| 0 <= i < |rules| && qs[q] == MediaQuery(mode, rules[i].breakpoint);
      SplitMediaQuery(mode, rules[i].breakpoint);
    }
  }

  /** The listener and the match of entry `q`, from the two halves of the entry. */
  lemma ListenerAt(mode: Mode, rules: seq<Rule>, viewport: string -> bool, q: nat)
    requires CommaFree(rules) && q < |MediaQueries(mode, rules)|
    ensures var parts := Split(MediaQueries(mode, rules)[q], ',');
      && |parts| > 1
      && Listeners(mode, rules)[q] == Group(rules, parts[1])
      && Matches(mode, rules, viewport)[q] == viewport(parts[0])
  {
    QueriesSplit(mode, rules);
  }

  /** `matchMedia(mediaSplit[0]).matches` for every entry, the viewport given as a predicate on conditions. */
  function Matches(mode: Mode, rules: seq<Rule>, viewport: string -> bool): (ms: seq<bool>)
    requires CommaFree(rules)
    ensures |ms| == |MediaQueries(mode, rules)|
  {
    var qs := MediaQueries(mode, rules);
    QueriesSplit(mode, rules);
    seq(|qs|, q requires 0 <= q < |qs| => viewport(Split(qs[q], ',')[0]))
  }

  /** Every listener's positions are in range, and a matching one's records have destinations. */
  predicate StartupOk(rules: seq<Rule>, gs: seq<seq<nat>>, ms: seq<bool>) {
    |gs| == |ms| && forall q :: 0 <= q < |gs| ==> InRange(rules, gs[q]) && (ms[q] ==> Ready(rules, gs[q]))
  }

  lemma StartupOkPrefix(a: seq<Rule>, b: seq<Rule>, gs: seq<seq<nat>>, ms: seq<bool>, n: nat)
    requires StartupOk(a, gs, ms) && SameRules(a, b) && n <= |gs|
    ensures StartupOk(b, gs[..n], ms[..n])
    ensures n < |gs| ==> InRange(b, gs[n]) && (ms[n] ==> Ready(b, gs[n]))
  {
    forall q | 0 <= q < |gs| && ms[q] ensures Ready(b, gs[q]) {
      SameRulesReady(a, b, gs[q]);
    }
  }

  /** The first call of every listener's handler, in the order of `mediaQueries`. */
  function Run(p: Page, gs: seq<seq<nat>>, ms: seq<bool>): (r: Page)
    requires Wired(p) && StartupOk(p.rules, gs, ms)
    ensures Wired(r) && r.kids.Keys == p.kids.Keys && SameRules(p.rules, r.rules)
    decreases |gs|
  {
    if gs == [] then p
    else
      var n := |gs| - 1;
      StartupOkPrefix(p.rules, p.rules, gs, ms, n);
      var q := Run(p, gs[..n], ms[..n]);
      StartupOkPrefix(p.rules, q.rules, gs, ms, n);
      Handle(q, ms[n], gs[n])
  }

  /** The elements of the listeners whose query matches. */
  function Matched(rules: seq<Rule>, gs: seq<seq<nat>>, ms: seq<bool>): (r: set<ElemId>)
    requires StartupOk(rules, gs, ms)
    decreases |gs|
  {
    if gs == [] then {}
    else
      var n := |gs| - 1;
      StartupOkPrefix(rules, rules, gs, ms, n);
      Matched(rules, gs[..n], ms[..n]) + (if ms[n] then Elements(rules, gs[n]) else {})
  }

  lemma {:induction false} MatchedIff(rules: seq<Rule>, gs: seq<seq<nat>>, ms: seq<bool>, x: ElemId)
    requires StartupOk(rules, gs, ms)
    ensures x in Matched(rules, gs, ms) <==>
      exists q, j :: 0 <= q < |gs| && ms[q] && 0 <= j < |gs[q]| && rules[gs[q][j]].element == x
    decreases |gs|
  {
    if gs != [] {
      var n := |gs| - 1;
      StartupOkPrefix(rules, rules, gs, ms, n);
      MatchedIff(rules, gs[..n], ms[..n], x);
      if x in Matched(rules, gs, ms) {
        if x in Matched(rules, gs[..n], ms[..n]) {
          var q, j :| 0 <= q < n && ms[..n][q] && 0 <= j < |gs[..n][q]| && rules[gs[..n][q][j]].element == x;
          assert gs[q][j] == gs[..n][q][j];
        } else {
          var j :| 0 <= j < |gs[n]| && rules[gs[n][j]].element == x;
        }
      } else {
        forall q, j | 0 <= q < |gs| && ms[q] && 0 <= j < |gs[q]| ensures rules[gs[q][j]].element != x {
          if q < n {
            assert gs[..n][q] == gs[q] && ms[..n][q] == ms[q];
          }
        }
      }
    }
  }

  lemma ElementsSameRules(a: seq<Rule>, b: seq<Rule>, g: seq<nat>)
    requires SameRules(a, b) && InRange(a, g)
    ensures InRange(b, g) && Elements(a, g) == Elements(b, g)
  {
    forall j | 0 <= j < |g| ensures a[g[j]].element == b[g[j]].element {
      assert a[g[j]].(index := 0) == b[g[j]].(index := 0);
    }
  }

  /** Listeners whose records relocate disjoint sets of elements, none of them marked. */
  predicate Separate(p: Page, gs: seq<seq<nat>>)
    requires forall q :: 0 <= q < |gs| ==> InRange(p.rules, gs[q])
  {
    && (forall q :: 0 <= q < |gs| ==> Elements(p.rules, gs[q]) !! p.marked)
    && (forall q1, q2 :: 0 <= q1 < q2 < |gs| ==> Elements(p.rules, gs[q1]) !! Elements(p.rules, gs[q2]))
  }

  /** A listener of a separate run finds none of its elements marked when its turn comes. */
  lemma UnmarkedAtTurn(p: Page, gs: seq<seq<nat>>, ms: seq<bool>, n: nat)
    requires Wired(p) && StartupOk(p.rules, gs, ms) && Separate(p, gs) && n < |gs|
    ensures StartupOk(p.rules, gs[..n], ms[..n]) && Separate(p, gs[..n])
    ensures Elements(p.rules, gs[n]) !! p.marked + Matched(p.rules, gs[..n], ms[..n])
  {
    StartupOkPrefix(p.rules, p.rules, gs, ms, n);
    assert forall q :: 0 <= q < n ==> gs[..n][q] == gs[q];
    forall x | x in Elements(p.rules, gs[n]) ensures x !in Matched(p.rules, gs[..n], ms[..n]) {
      MatchedIff(p.rules, gs[..n], ms[..n], x);
    }
  }

  /** One handler of a separate run marks its elements when it matches, and changes no mark otherwise. */
  lemma HandleMarks(p: Page, g: seq<nat>, m: bool, q: Page)
    requires Wired(p) && Wired(q) && SameRules(p.rules, q.rules) && InRange(p.rules, g) && (m ==> Ready(p.rules, g))
    requires Elements(p.rules, g) !! q.marked
    ensures InRange(q.rules, g) && (m ==> Ready(q.rules, g))
    ensures Handle(q, m, g).marked == q.marked + (if m then Elements(p.rules, g) else {})
  {
    ElementsSameRules(p.rules, q.rules, g);
    if m {
      SameRulesReady(p.rules, q.rules, g);
      ActivateMarks(q, g);
    } else {
      assert forall j :: 0 <= j < |g| ==> q.rules[g[j]].element in Elements(q.rules, g);
      DeactivateSkipsUnmarked(q, g);
    }
  }

  /**
   * Running the handlers of separate, initially unmarked listeners marks
   * exactly the elements of the ones whose query matches: a handler that
   * does not match finds nothing of its own marked and moves nothing back.
   */
  lemma {:induction false} RunMarks(p: Page, gs: seq<seq<nat>>, ms: seq<bool>)
    requires Wired(p) && StartupOk(p.rules, gs, ms) && Separate(p, gs)
    ensures Run(p, gs, ms).marked == p.marked + Matched(p.rules, gs, ms)
    decreases |gs|
  {
    if gs != [] {
      var n := |gs| - 1;
      UnmarkedAtTurn(p, gs, ms, n);
      RunMarks(p, gs[..n], ms[..n]);
      var q := Run(p, gs[..n], ms[..n]);
      HandleMarks(p, gs[n], ms[n], q);
      assert Run(p, gs, ms) == Handle(q, ms[n], gs[n]);
      assert Matched(p.rules, gs, ms) == Matched(p.rules, gs[..n], ms[..n]) + (if ms[n] then Elements(p.rules, gs[n]) else {});
    }
  }

  /** A listener's entry is its records' `condition,breakpoint`, and its `matches` is the viewport's verdict on that condition. */
  lemma ListenerCondition(mode: Mode, rules: seq<Rule>, viewport: string -> bool, q: nat, j: nat)
    requires CommaFree(rules) && q < |Listeners(mode, rules)| && j < |Listeners(mode, rules)[q]|
    ensures var a := Listeners(mode, rules)[q][j];
      MediaQueries(mode, rules)[q] == MediaQuery(mode, rules[a].breakpoint)
    ensures var a := Listeners(mode, rules)[q][j];
      Matches(mode, rules, viewport)[q] == viewport(Condition(mode, rules[a].breakpoint))
  {
    var a := Listeners(mode, rules)[q][j];
    GroupsPartition(mode, rules, a);
    SplitMediaQuery(mode, rules[a].breakpoint);
  }

  /** Wherever the viewport matches a record's condition, the record has a destination. */
  predicate DestinationsOk(mode: Mode, rules: seq<Rule>, viewport: string -> bool) {
    forall i :: 0 <= i < |rules| && viewport(Condition(mode, rules[i].breakpoint)) ==> rules[i].destination.Some?
  }

  /** The records `init` works on: wired, comma-free, distinct, unmarked, and with a destination wherever the viewport matches. */
  predicate InitOk(mode: Mode, p: Page, viewport: string -> bool) {
    && Wired(p) && CommaFree(p.rules) && DistinctElements(p.rules)
    && (forall i :: 0 <= i < |p.rules| ==> p.rules[i].element !in p.marked)
    && DestinationsOk(mode, p.rules, viewport)
  }

  lemma ListenersOk(mode: Mode, rules: seq<Rule>, viewport: string -> bool)
    requires CommaFree(rules) && DestinationsOk(mode, rules, viewport)
    ensures StartupOk(rules, Listeners(mode, rules), Matches(mode, rules, viewport))
  {
    var gs := Listeners(mode, rules);
    var ms := Matches(mode, rules, viewport);
    forall q, j | 0 <= q < |gs| && ms[q] && 0 <= j < |gs[q]| ensures rules[gs[q][j]].destination.Some? {
      ListenerCondition(mode, rules, viewport, q, j);
    }
  }

  lemma ListenersSeparate(mode: Mode, p: Page, viewport: string -> bool)
    requires InitOk(mode, p, viewport)
    ensures Separate(p, Listeners(mode, p.rules))
  {
    var rules := p.rules;
    var gs := Listeners(mode, rules);
    var qs := MediaQueries(mode, rules);
    forall q1, q2 | 0 <= q1 < q2 < |gs| ensures Elements(rules, gs[q1]) !! Elements(rules, gs[q2]) {
      forall j1, j2 | 0 <= j1 < |gs[q1]| && 0 <= j2 < |gs[q2]|
        ensures rules[gs[q1][j1]].element != rules[gs[q2][j2]].element
      {
        ListenerCondition(mode, rules, viewport, q1, j1);
        ListenerCondition(mode, rules, viewport, q2, j2);
        assert qs[q1] != qs[q2];
      }
    }
  }

  /** The elements whose breakpoint condition the viewport matches. */
  function Matching(mode: Mode, rules: seq<Rule>, viewport: string -> bool): (r: set<ElemId>) {
    set i | 0 <= i < |rules| && viewport(Condition(mode, rules[i].breakpoint)) :: rules[i].element
  }

  lemma MatchedInMatching(mode: Mode, p: Page, viewport: string -> bool, x: ElemId)
    requires InitOk(mode, p, viewport)
    ensures StartupOk(p.rules, Listeners(mode, p.rules), Matches(mode, p.rules, viewport))
    ensures x in Matched(p.rules, Listeners(mode, p.rules), Matches(mode, p.rules, viewport)) ==> x in Matching(mode, p.rules, viewport)
  {
    var rules := p.rules;
    var gs := Listeners(mode, rules);
    var ms := Matches(mode, rules, viewport);
    ListenersOk(mode, p.rules, viewport);
    MatchedIff(rules, gs, ms, x);
    if x in Matched(rules, gs, ms) {
      var q, j :| 0 <= q < |gs| && ms[q] && 0 <= j < |gs[q]| && rules[gs[q][j]].element == x;
      ListenerCondition(mode, rules, viewport, q, j);
    }
  }

  lemma MatchingInMatched(mode: Mode, p: Page, viewport: string -> bool, x: ElemId)
    requires InitOk(mode, p, viewport)
    ensures StartupOk(p.rules, Listeners(mode, p.rules), Matches(mode, p.rules, viewport))
    ensures x in Matching(mode, p.rules, viewport) ==> x in Matched(p.rules, Listeners(mode, p.rules), Matches(mode, p.rules, viewport))
  {
    var rules := p.rules;
    var gs := Listeners(mode, rules);
    var ms := Matches(mode, rules, viewport);
    var qs := MediaQueries(mode, rules);
    ListenersOk(mode, p.rules, viewport);
    MatchedIff(rules, gs, ms, x);
    if x in Matching(mode, rules, viewport) {
      var a :| 0 <= a < |rules| && viewport(Condition(mode, rules[a].breakpoint)) && rules[a].element == x;
      GroupsPartition(mode, rules, a);
      var q :| 0 <= q < |qs| && qs[q] == MediaQuery(mode, rules[a].breakpoint);
      assert a in gs[q];
      var j :| 0 <= j < |gs[q]| && gs[q][j] == a;
      ListenerCondition(mode, rules, viewport, q, j);
    }
  }

  /** The listeners whose query matches hold exactly the matching elements. */
  lemma MatchedIsMatching(mode: Mode, p: Page, viewport: string -> bool)
    requires InitOk(mode, p, viewport)
    ensures StartupOk(p.rules, Listeners(mode, p.rules), Matches(mode, p.rules, viewport))
    ensures Matched(p.rules, Listeners(mode, p.rules), Matches(mode, p.rules, viewport)) == Matching(mode, p.rules, viewport)
  {
    ListenersOk(mode, p.rules, viewport);
    forall x ensures x in Matched(p.rules, Listeners(mode, p.rules), Matches(mode, p.rules, viewport)) <==> x in Matching(mode, p.rules, viewport) {
      MatchedInMatching(mode, p, viewport, x);
      MatchingInMatched(mode, p, viewport, x);
    }
  }

  /**
   * The first round of handlers leaves marked exactly the elements whose
   * breakpoint condition matches the viewport (on top of what was marked
   * before): each of them has been moved to its destination, every other one
   * has stayed where it was.
   */
  lemma StartupMarksMatching(mode: Mode, p: Page, viewport: string -> bool)
    requires InitOk(mode, p, viewport)
    ensures StartupOk(p.rules, Listeners(mode, p.rules), Matches(mode, p.rules, viewport))
    ensures Run(p, Listeners(mode, p.rules), Matches(mode, p.rules, viewport)).marked
        == p.marked + Matching(mode, p.rules, viewport)
  {
    ListenersOk(mode, p.rules, viewport);
    ListenersSeparate(mode, p, viewport);
    RunMarks(p, Listeners(mode, p.rules), Matches(mode, p.rules, viewport));
    MatchedIsMatching(mode, p, viewport);
  }

  lemma PermutationMembers(a: seq<Rule>, b: seq<Rule>)
    requires multiset(a) == multiset(b)
    ensures forall x :: x in a <==> x in b
  {
    forall x ensures x in a <==> x in b {
      assert x in a <==> x in multiset(a);
      assert x in b <==> x in multiset(b);
    }
  }

  /** A permutation of the records keeps everything `init` relies on. */
  lemma PermutationKeepsInitOk(mode: Mode, p: Page, rules: seq<Rule>, viewport: string -> bool)
    requires InitOk(mode, p, viewport) && multiset(rules) == multiset(p.rules)
    ensures InitOk(mode, p.(rules := rules), viewport)
  {
    PermutationMembers(rules, p.rules);
    PermutationKeepsDistinct(rules, p.rules);
    forall a | 0 <= a < |rules| ensures exists i :: 0 <= i < |p.rules| && p.rules[i] == rules[a] {
      assert rules[a] in p.rules;
    }
  }

  /** ... and the matching elements. */
  lemma PermutationKeepsMatching(mode: Mode, a: seq<Rule>, b: seq<Rule>, viewport: string -> bool)
    requires multiset(a) == multiset(b)
    ensures Matching(mode, a, viewport) == Matching(mode, b, viewport)
  {
    PermutationMembers(a, b);
    forall x | x in Matching(mode, a, viewport) ensures x in Matching(mode, b, viewport) {
      var k :| 0 <= k < |a| && viewport(Condition(mode, a[k].breakpoint)) && a[k].element == x;
      assert a[k] in b;
    }
    forall x | x in Matching(mode, b, viewport) ensures x in Matching(mode, a, viewport) {
      var k :| 0 <= k < |b| && viewport(Condition(mode, b[k].breakpoint)) && b[k].element == x;
      assert b[k] in a;
    }
  }

  /** The listener of a record list depends only on the breakpoints, not on the recorded indices. */
  lemma {:induction false} GroupSameRules(a: seq<Rule>, b: seq<Rule>, breakpoint: string)
    requires SameRules(a, b)
    ensures Group(a, breakpoint) == Group(b, breakpoint)
    decreases |a|
  {
    if a != [] {
      var n := |a| - 1;
      assert SameRules(a[..n], b[..n]);
      GroupSameRules(a[..n], b[..n], breakpoint);
      assert a[n].breakpoint == a[n].(index := 0).breakpoint == b[n].(index := 0).breakpoint;
    }
  }

  /** One more listener: its handler runs on the page the earlier ones left. */
  lemma RunStep(p: Page, gs: seq<seq<nat>>, ms: seq<bool>, n: nat)
    requires Wired(p) && StartupOk(p.rules, gs, ms) && n < |gs|
    ensures StartupOk(p.rules, gs[..n], ms[..n]) && StartupOk(p.rules, gs[..n + 1], ms[..n + 1])
    ensures var q := Run(p, gs[..n], ms[..n]);
      && InRange(q.rules, gs[n]) && (ms[n] ==> Ready(q.rules, gs[n]))
      && Run(p, gs[..n + 1], ms[..n + 1]) == Handle(q, ms[n], gs[n])
  {
    StartupOkPrefix(p.rules, p.rules, gs, ms, n);
    StartupOkPrefix(p.rules, p.rules, gs, ms, n + 1);
    var q := Run(p, gs[..n], ms[..n]);
    StartupOkPrefix(p.rules, q.rules, gs, ms, n);
    assert gs[..n + 1][..n] == gs[..n] && ms[..n + 1][..n] == ms[..n];
  }

  /**
   * Turn `q` of the listener loop, on the page `r` the earlier turns left:
   * the group filtered from `r`'s records is listener `q`, and its handler
   * call extends the run by one listener.
   */
  lemma ListenStep(mode: Mode, p: Page, viewport: string -> bool, q: nat, r: Page)
    requires Wired(p) && CommaFree(p.rules) && DestinationsOk(mode, p.rules, viewport)
    requires q < |MediaQueries(mode, p.rules)|
    requires StartupOk(p.rules, Listeners(mode, p.rules)[..q], Matches(mode, p.rules, viewport)[..q])
    requires r == Run(p, Listeners(mode, p.rules)[..q], Matches(mode, p.rules, viewport)[..q])
    ensures var parts := Split(MediaQueries(mode, p.rules)[q], ',');
      && |parts| > 1
      && var g := Group(r.rules, parts[1]);
      && g == Listeners(mode, p.rules)[q]
      && InRange(r.rules, g) && (viewport(parts[0]) ==> Ready(r.rules, g))
      && StartupOk(p.rules, Listeners(mode, p.rules)[..q + 1], Matches(mode, p.rules, viewport)[..q + 1])
      && Run(p, Listeners(mode, p.rules)[..q + 1], Matches(mode, p.rules, viewport)[..q + 1])
        == Handle(r, viewport(parts[0]), g)
  {
    var gs := Listeners(mode, p.rules);
    var ms := Matches(mode, p.rules, viewport);
    ListenersOk(mode, p.rules, viewport);
    RunStep(p, gs, ms, q);
    ListenerAt(mode, p.rules, viewport, q);
    GroupSameRules(p.rules, r.rules, Split(MediaQueries(mode, p.rules)[q], ',')[1]);
  }

  /**
   * Every node whose breakpoint condition the viewport matches names a
   * destination selector that finds an element (the code dereferences the
   * destination of such a node).
   */
  predicate Resolvable(mode: Mode, nodes: seq<ElemId>, data: map<ElemId, string>,
                       selectors: map<string, ElemId>, viewport: string -> bool) {
    forall n :: n in nodes && n in data && viewport(Condition(mode, ParseDirective(data[n]).breakpoint))
      ==> ParseDirective(data[n]).selector in selectors
  }

  /** `this.оbjects` once `arraySort` has run. */
  function SortedRecords(mode: Mode, kids: Children, nodes: seq<ElemId>, data: map<ElemId, string>,
                         parents: map<ElemId, ElemId>, selectors: map<string, ElemId>): (r: seq<Rule>)
    requires Collectable(kids, nodes, data, parents, selectors)
    ensures multiset(r) == multiset(Records(kids, nodes, data, parents, selectors))
    ensures Sorted(mode, r) && CommaFree(r)
    ensures forall i :: 0 <= i < |r| ==> r[i].parent in kids
    ensures forall i :: 0 <= i < |r| && r[i].destination.Some? ==> r[i].destination.value in kids
  {
    var recs := Records(kids, nodes, data, parents, selectors);
    var r := SortRules(mode, recs);
    RecordsInDocument(kids, nodes, data, parents, selectors, r);
    r
  }

  lemma RecordsInDocument(kids: Children, nodes: seq<ElemId>, data: map<ElemId, string>,
                          parents: map<ElemId, ElemId>, selectors: map<string, ElemId>, r: seq<Rule>)
    requires Collectable(kids, nodes, data, parents, selectors)
    requires multiset(r) == multiset(Records(kids, nodes, data, parents, selectors))
    ensures CommaFree(r)
    ensures forall i :: 0 <= i < |r| ==> r[i].parent in kids
    ensures forall i :: 0 <= i < |r| && r[i].destination.Some? ==> r[i].destination.value in kids
  {
    var recs := Records(kids, nodes, data, parents, selectors);
    PermutationMembers(r, recs);
    forall i | 0 <= i < |r|
      ensures ',' !in r[i].breakpoint && r[i].parent in kids
      ensures r[i].destination.Some? ==> r[i].destination.value in kids
    {
      assert r[i] in recs;
      var k :| 0 <= k < |recs| && recs[k] == r[i];
      assert nodes[k] in nodes;
    }
  }

  /** The sorted records have a destination wherever the viewport matches. */
  /** Every record whose query matches was given a destination. */
  lemma RecordsReady(mode: Mode, kids: Children, nodes: seq<ElemId>, data: map<ElemId, string>,
                     parents: map<ElemId, ElemId>, selectors: map<string, ElemId>, viewport: string -> bool)
    requires Collectable(kids, nodes, data, parents, selectors) && Resolvable(mode, nodes, data, selectors, viewport)
    ensures DestinationsOk(mode, Records(kids, nodes, data, parents, selectors), viewport)
  {
    var recs := Records(kids, nodes, data, parents, selectors);
    forall k | 0 <= k < |recs| && viewport(Condition(mode, recs[k].breakpoint)) ensures recs[k].destination.Some? {
      assert nodes[k] in nodes;
    }
  }

  /** Reordering the records keeps every matching one with a destination. */
  lemma PermutationDestinationsOk(mode: Mode, a: seq<Rule>, b: seq<Rule>, viewport: string -> bool)
    requires multiset(a) == multiset(b) && DestinationsOk(mode, b, viewport)
    ensures DestinationsOk(mode, a, viewport)
  {
    PermutationMembers(a, b);
    forall i | 0 <= i < |a| && viewport(Condition(mode, a[i].breakpoint)) ensures a[i].destination.Some? {
      assert a[i] in b;
    }
  }

  lemma SortedRecordsReady(mode: Mode, kids: Children, nodes: seq<ElemId>, data: map<ElemId, string>,
                           parents: map<ElemId, ElemId>, selectors: map<string, ElemId>, viewport: string -> bool)
    requires Collectable(kids, nodes, data, parents, selectors) && Resolvable(mode, nodes, data, selectors, viewport)
    ensures DestinationsOk(mode, SortedRecords(mode, kids, nodes, data, parents, selectors), viewport)
  {
    RecordsReady(mode, kids, nodes, data, parents, selectors, viewport);
    PermutationDestinationsOk(mode, SortedRecords(mode, kids, nodes, data, parents, selectors),
      Records(kids, nodes, data, parents, selectors), viewport);
  }


  /** The nodes whose breakpoint condition the viewport matches. */
  function MatchingNodes(mode: Mode, nodes: seq<ElemId>, data: map<ElemId, string>, viewport: string -> bool): set<ElemId> {
    set n | n in nodes && n in data && viewport(Condition(mode, ParseDirective(data[n]).breakpoint))
  }

  lemma RecordsMatching(mode: Mode, kids: Children, nodes: seq<ElemId>, data: map<ElemId, string>,
                        parents: map<ElemId, ElemId>, selectors: map<string, ElemId>, viewport: string -> bool)
    requires Collectable(kids, nodes, data, parents, selectors)
    ensures Matching(mode, Records(kids, nodes, data, parents, selectors), viewport) == MatchingNodes(mode, nodes, data, viewport)
  {
    var recs := Records(kids, nodes, data, parents, selectors);
    forall x | x in MatchingNodes(mode, nodes, data, viewport) ensures x in Matching(mode, recs, viewport) {
      var k :| 0 <= k < |nodes| && nodes[k] == x;
      assert recs[k].element == x;
    }
  }

  /** The first round of handlers keeps the relocation state. */
  lemma {:induction false} RunPlaced(p: Page, gs: seq<seq<nat>>, ms: seq<bool>)
    requires Wired(p) && StartupOk(p.rules, gs, ms) && Placed(p)
    ensures Placed(Run(p, gs, ms))
    decreases |gs|
  {
    if gs != [] {
      var n := |gs| - 1;
      RunStep(p, gs, ms, n);
      assert gs[..n + 1] == gs && ms[..n + 1] == ms;
      RunPlaced(p, gs[..n], ms[..n]);
      HandlePlaced(Run(p, gs[..n], ms[..n]), ms[n], gs[n]);
    }
  }

  /**
   * Records collected from distinct, unmarked nodes that sit among their
   * parents' children, in any order, are in the relocation state: each
   * element is unmarked and in its parent.
   */
  lemma RecordsPlaced(kids: Children, marked: set<ElemId>, nodes: seq<ElemId>, data: map<ElemId, string>,
                      parents: map<ElemId, ElemId>, selectors: map<string, ElemId>, r: seq<Rule>)
    requires WellFormed(kids) && Collectable(kids, nodes, data, parents, selectors)
    requires NoDup(nodes) && forall n :: n in nodes ==> n !in marked
    requires multiset(r) == multiset(Records(kids, nodes, data, parents, selectors))
    ensures Wired(Page(kids, marked, r)) && Placed(Page(kids, marked, r))
  {
    var recs := Records(kids, nodes, data, parents, selectors);
    RecordsWellFormed(kids, marked, nodes, data, parents, selectors);
    RecordsInDocument(kids, nodes, data, parents, selectors, r);
    PermutationKeepsDistinct(r, recs);
    PermutationMembers(r, recs);
    forall i | 0 <= i < |r| ensures r[i].element !in marked && r[i].element in kids[r[i].parent] {
      assert r[i] in recs;
      var k :| 0 <= k < |recs| && recs[k] == r[i];
      assert nodes[k] in nodes;
    }
  }

  /**
   * `init` on distinct, unmarked nodes that sit among their parents'
   * children: after the first call of every handler, every matched element
   * sits in its destination and every other one in its parent.
   */
  lemma InitPlaced(mode: Mode, kids: Children, marked: set<ElemId>, nodes: seq<ElemId>, data: map<ElemId, string>,
                   parents: map<ElemId, ElemId>, selectors: map<string, ElemId>, viewport: string -> bool)
    requires WellFormed(kids) && Collectable(kids, nodes, data, parents, selectors)
    requires Resolvable(mode, nodes, data, selectors, viewport)
    requires NoDup(nodes) && forall n :: n in nodes ==> n !in marked
    ensures var r := SortedRecords(mode, kids, nodes, data, parents, selectors);
      && StartupOk(r, Listeners(mode, r), Matches(mode, r, viewport))
      && Placed(Run(Page(kids, marked, r), Listeners(mode, r), Matches(mode, r, viewport)))
  {
    var r := SortedRecords(mode, kids, nodes, data, parents, selectors);
    SortedRecordsReady(mode, kids, nodes, data, parents, selectors, viewport);
    ListenersOk(mode, r, viewport);
    RecordsPlaced(kids, marked, nodes, data, parents, selectors, r);
    RunPlaced(Page(kids, marked, r), Listeners(mode, r), Matches(mode, r, viewport));
  }

  /** `InitPlaced`, for the nodes `init` is given, whenever they are distinct and unmarked. */
  lemma InitPlacedWhenFresh(mode: Mode, kids: Children, marked: set<ElemId>, nodes: seq<ElemId>, data: map<ElemId, string>,
                            parents: map<ElemId, ElemId>, selectors: map<string, ElemId>, viewport: string -> bool)
    requires WellFormed(kids) && Collectable(kids, nodes, data, parents, selectors)
    requires Resolvable(mode, nodes, data, selectors, viewport)
    ensures var r := SortedRecords(mode, kids, nodes, data, parents, selectors);
      && StartupOk(r, Listeners(mode, r), Matches(mode, r, viewport))
      && (NoDup(nodes) && (forall n :: n in nodes ==> n !in marked) ==>
          Placed(Run(Page(kids, marked, r), Listeners(mode, r), Matches(mode, r, viewport))))
  {
    var r := SortedRecords(mode, kids, nodes, data, parents, selectors);
    SortedRecordsReady(mode, kids, nodes, data, parents, selectors, viewport);
    ListenersOk(mode, r, viewport);
    if NoDup(nodes) && (forall n :: n in nodes ==> n !in marked) {
      InitPlaced(mode, kids, marked, nodes, data, parents, selectors, viewport);
    }
  }

  /** The sorted records are wired to the document they were collected from. */
  lemma SortedRecordsWired(mode: Mode, kids: Children, marked: set<ElemId>, nodes: seq<ElemId>, data: map<ElemId, string>,
                           parents: map<ElemId, ElemId>, selectors: map<string, ElemId>)
    requires WellFormed(kids) && Collectable(kids, nodes, data, parents, selectors)
    ensures SortedRecords(mode, kids, nodes, data, parents, selectors) == SortRules(mode, Records(kids, nodes, data, parents, selectors))
    ensures Wired(Page(kids, marked, SortedRecords(mode, kids, nodes, data, parents, selectors)))
  {
  }

  /**
   * `init` on a page whose nodes carry no marker yet: after the first call of
   * every handler, the marked elements are exactly the nodes whose breakpoint
   * condition matches the viewport.
   */
  lemma InitMarks(mode: Mode, kids: Children, marked: set<ElemId>, nodes: seq<ElemId>, data: map<ElemId, string>,
                  parents: map<ElemId, ElemId>, selectors: map<string, ElemId>, viewport: string -> bool)
    requires WellFormed(kids) && Collectable(kids, nodes, data, parents, selectors)
    requires Resolvable(mode, nodes, data, selectors, viewport)
    requires NoDup(nodes) && forall n :: n in nodes ==> n !in marked
    ensures var r := SortedRecords(mode, kids, nodes, data, parents, selectors);
      && StartupOk(r, Listeners(mode, r), Matches(mode, r, viewport))
      && Run(Page(kids, marked, r), Listeners(mode, r), Matches(mode, r, viewport)).marked
        == marked + MatchingNodes(mode, nodes, data, viewport)
  {
    var recs := Records(kids, nodes, data, parents, selectors);
    var r := SortedRecords(mode, kids, nodes, data, parents, selectors);
    var p := Page(kids, marked, recs);
    RecordsWellFormed(kids, marked, nodes, data, parents, selectors);
    SortedRecordsReady(mode, kids, nodes, data, parents, selectors, viewport);
    PermutationMembers(r, recs);
    assert DestinationsOk(mode, recs, viewport) by {
      forall i | 0 <= i < |recs| && viewport(Condition(mode, recs[i].breakpoint)) ensures recs[i].destination.Some? {
        assert nodes[i] in nodes;
      }
    }
    assert InitOk(mode, p, viewport);
    PermutationKeepsInitOk(mode, p, r, viewport);
    StartupMarksMatching(mode, p.(rules := r), viewport);
    PermutationKeepsMatching(mode, r, recs, viewport);
    RecordsMatching(mode, kids, nodes, data, parents, selectors, viewport);
  }
}
