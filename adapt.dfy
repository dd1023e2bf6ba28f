/**
 * What the relocation engine does to the page, as functions of the page:
 * `moveTo` and `moveBack` on the child lists, one pass of `mediaHandler` over
 * a listener's records, and the properties that make relocation reversible.
 */
module Adapt {
  import opened Wrappers
  import opened Seqs
  import opened Dom
  import opened Directive
  import opened Rules

  /** `indexInParent`: the element's index among the parent's element children, or -1. */
  function IndexInParent(kids: Children, parent: ElemId, el: ElemId): (i: int)
    requires parent in kids
    ensures i == -1 <==> el !in kids[parent]
    ensures 0 <= i ==> i < |kids[parent]| && kids[parent][i] == el
  {
    IndexOf(kids[parent], el)
  }

  /**
   * The child `moveTo` inserts before: none (append) for "last" or an index at
   * or past the end, the first child for "first", else the child at the index.
   */
  function Anchor(place: Place, d: seq<ElemId>): (r: Option<ElemId>)
    ensures r.Some? ==> r.value in d
  {
    match place
    case Last => None
    case Index(k) => if k >= |d| then None else Some(d[k])
    case First => if d == [] then None else Some(d[0])
  }

  /** `moveTo` on the child lists (the marker class is handled by the caller). */
  function MovedTo(kids: Children, place: Place, el: ElemId, dest: ElemId): (r: Children)
    requires WellFormed(kids) && dest in kids
  {
    InsertBefore(kids, dest, el, Anchor(place, kids[dest]))
  }

  /** `moveBack` on the child lists: before `parent.children[index]` if it exists, else last. */
  function MovedBack(kids: Children, parent: ElemId, el: ElemId, index: int): (r: Children)
    requires WellFormed(kids) && parent in kids
  {
    var p := kids[parent];
    InsertBefore(kids, parent, el, if 0 <= index < |p| then Some(p[index]) else None)
  }

  /** The index `moveTo` gives an element coming from elsewhere into `n` children. */
  function Target(place: Place, n: nat): (t: nat)
    ensures t <= n
  {
    match place
    case First => 0
    case Last => n
    case Index(k) => if k >= n then n else k
  }

  /**
   * `moveTo` of an element not yet in the destination: it lands at index 0
   * for "first", last for "last" or an index past the end, at index k
   * otherwise; every other list only loses the element.
   */
  lemma MoveToPosition(kids: Children, place: Place, el: ElemId, dest: ElemId)
    requires WellFormed(kids) && dest in kids && el !in kids[dest]
    ensures var r := MovedTo(kids, place, el, dest);
      r[dest] == Insert(kids[dest], Target(place, |kids[dest]|), el)
    ensures var r := MovedTo(kids, place, el, dest);
      forall c :: c in kids && c != dest ==> r[c] == Remove(kids[c], el)
  {
    var d := kids[dest];
    var anchor := Anchor(place, d);
    InsertBeforeShape(kids, dest, el, anchor);
    if anchor.Some? {
      var k := if place.First? then 0 else place.n;
      assert anchor.value == d[k];
      IndexOfUnique(d, k);
    }
  }

  /** `moveBack` of an element not in `parent` puts it at `index`, or last when there is no child there. */
  lemma MoveBackPosition(kids: Children, parent: ElemId, el: ElemId, index: int)
    requires WellFormed(kids) && parent in kids && el !in kids[parent]
    ensures var p := kids[parent];
      MovedBack(kids, parent, el, index)[parent] == Insert(p, if 0 <= index < |p| then index else |p|, el)
    ensures var r := MovedBack(kids, parent, el, index);
      forall c :: c in kids && c != parent ==> r[c] == Remove(kids[c], el)
  {
    var p := kids[parent];
    var anchor := if 0 <= index < |p| then Some(p[index]) else None;
    InsertBeforeShape(kids, parent, el, anchor);
    if anchor.Some? {
      IndexOfUnique(p, index);
    }
  }

  /** Re-inserting the last child at the end changes nothing. */
  lemma AppendLastChild(kids: Children, container: ElemId, el: ElemId)
    requires WellFormed(kids) && container in kids
    requires kids[container] != [] && kids[container][|kids[container]| - 1] == el
    ensures InsertBefore(kids, container, el, None) == kids
  {
    var s := kids[container];
    InsertRemoveAt(s, |s| - 1);
    InsertBeforeShape(kids, container, el, None);
    var r := InsertBefore(kids, container, el, None);
    forall c | c in kids ensures r[c] == kids[c] {
      if c != container {
        assert el !in kids[c];
      }
    }
  }

  /** A second `moveTo` with the same arguments leaves the page as the first one did. */
  lemma MoveToIdempotent(kids: Children, place: Place, el: ElemId, dest: ElemId)
    requires WellFormed(kids) && dest in kids && el !in kids[dest]
    ensures var once := MovedTo(kids, place, el, dest);
      MovedTo(once, place, el, dest) == once
  {
    var d := kids[dest];
    var once := MovedTo(kids, place, el, dest);
    MoveToPosition(kids, place, el, dest);
    var t := Target(place, |d|);
    assert once[dest][t] == el;
    match place
    case Last =>
      AppendLastChild(once, dest, el);
    case First =>
      InsertBeforeItself(once, dest, el);
    case Index(k) =>
      if k >= |d| + 1 {
        AppendLastChild(once, dest, el);
      } else {
        assert Anchor(place, once[dest]) == Some(el);
        InsertBeforeItself(once, dest, el);
      }
  }

  /** The source list through `moveTo` and back. */
  lemma RoundTripParentList(kids: Children, place: Place, el: ElemId, parent: ElemId, dest: ElemId)
    requires WellFormed(kids) && parent in kids && dest in kids && parent != dest && el in kids[parent]
    ensures var moved := MovedTo(kids, place, el, dest);
      MovedBack(moved, parent, el, IndexInParent(kids, parent, el))[parent] == kids[parent]
  {
    var p := kids[parent];
    var i := IndexOf(p, el);
    assert el !in kids[dest];
    var moved := MovedTo(kids, place, el, dest);
    MoveToPosition(kids, place, el, dest);
    MoveBackPosition(moved, parent, el, i);
    InsertRemoveAt(p, i);
  }

  /** The destination list through `moveTo` and back. */
  lemma RoundTripDestList(kids: Children, place: Place, el: ElemId, parent: ElemId, dest: ElemId)
    requires WellFormed(kids) && parent in kids && dest in kids && parent != dest && el in kids[parent]
    ensures var moved := MovedTo(kids, place, el, dest);
      MovedBack(moved, parent, el, IndexInParent(kids, parent, el))[dest] == kids[dest]
  {
    assert el !in kids[dest];
    var moved := MovedTo(kids, place, el, dest);
    MoveToPosition(kids, place, el, dest);
    MoveBackPosition(moved, parent, el, IndexOf(kids[parent], el));
    RemoveInsert(kids[dest], Target(place, |kids[dest]|), el);
  }

  /** One child list through `moveTo` and back. */
  lemma MoveRoundTripList(kids: Children, place: Place, el: ElemId, parent: ElemId, dest: ElemId, c: ElemId)
    requires WellFormed(kids) && parent in kids && dest in kids && parent != dest
    requires el in kids[parent] && c in kids
    ensures var moved := MovedTo(kids, place, el, dest);
      MovedBack(moved, parent, el, IndexInParent(kids, parent, el))[c] == kids[c]
  {
    if c == parent {
      RoundTripParentList(kids, place, el, parent, dest);
    } else if c == dest {
      RoundTripDestList(kids, place, el, parent, dest);
    } else {
      assert el !in kids[dest] && el !in kids[c];
      var moved := MovedTo(kids, place, el, dest);
      MoveToPosition(kids, place, el, dest);
      MoveBackPosition(moved, parent, el, IndexOf(kids[parent], el));
    }
  }

  /**
   * Round trip: take the index just before `moveTo`, then `moveBack` with it,
   * and every child list is exactly as it was.
   */
  lemma MoveRoundTrip(kids: Children, place: Place, el: ElemId, parent: ElemId, dest: ElemId)
    requires WellFormed(kids) && parent in kids && dest in kids && parent != dest
    requires el in kids[parent]
    ensures var moved := MovedTo(kids, place, el, dest);
      MovedBack(moved, parent, el, IndexInParent(kids, parent, el)) == kids
  {
    var back := MovedBack(MovedTo(kids, place, el, dest), parent, el, IndexInParent(kids, parent, el));
    forall c | c in kids ensures back[c] == kids[c] {
      MoveRoundTripList(kids, place, el, parent, dest, c);
    }
  }

  /** The page as the engine sees it: child lists, marked elements, records. */
  datatype Page = Page(kids: Children, marked: set<ElemId>, rules: seq<Rule>)

  /** Every record's parent and (resolved) destination are elements of the document. */
  predicate Wired(p: Page) {
    && WellFormed(p.kids)
    && (forall i :: 0 <= i < |p.rules| ==> p.rules[i].parent in p.kids)
    && (forall i :: 0 <= i < |p.rules| && p.rules[i].destination.Some? ==> p.rules[i].destination.value in p.kids)
  }

  /** The same records, up to their recorded indices. */
  predicate SameRules(a: seq<Rule>, b: seq<Rule>) {
    |a| == |b| && forall i :: 0 <= i < |a| ==> a[i].(index := 0) == b[i].(index := 0)
  }

  /** A listener's record positions are positions of `rules`. */
  predicate InRange(rules: seq<Rule>, g: seq<nat>) {
    forall j :: 0 <= j < |g| ==> g[j] < |rules|
  }

  /** ... and all of them have a destination (`moveTo` dereferences it). */
  predicate Ready(rules: seq<Rule>, g: seq<nat>) {
    InRange(rules, g) && forall j :: 0 <= j < |g| ==> rules[g[j]].destination.Some?
  }

  lemma SameRulesReady(a: seq<Rule>, b: seq<Rule>, g: seq<nat>)
    requires SameRules(a, b) && Ready(a, g)
    ensures Ready(b, g)
  {
    forall j | 0 <= j < |g| ensures b[g[j]].destination.Some? {
      assert a[g[j]].(index := 0) == b[g[j]].(index := 0);
    }
  }

  /** One turn of the "matches" loop: record the index, then `moveTo`. */
  function ActivateOne(p: Page, k: nat): (r: Page)
    requires Wired(p) && k < |p.rules| && p.rules[k].destination.Some?
    ensures Wired(r) && r.kids.Keys == p.kids.Keys && SameRules(p.rules, r.rules)
  {
    var rule := p.rules[k];
    var index := IndexInParent(p.kids, rule.parent, rule.element);
    var r := Page(
      MovedTo(p.kids, rule.place, rule.element, rule.destination.value),
      p.marked + {rule.element},
      p.rules[k := rule.(index := index)]);
    assert forall i :: 0 <= i < |p.rules| ==> r.rules[i].(index := 0) == p.rules[i].(index := 0);
    r
  }

  /** One turn of the "does not match" loop: only a marked element is moved back. */
  function DeactivateOne(p: Page, k: nat): (r: Page)
    requires Wired(p) && k < |p.rules|
    ensures Wired(r) && r.kids.Keys == p.kids.Keys && r.rules == p.rules
  {
    var rule := p.rules[k];
    if rule.element in p.marked then
      Page(MovedBack(p.kids, rule.parent, rule.element, rule.index), p.marked - {rule.element}, p.rules)
    else p
  }

  /** The "matches" branch of `mediaHandler`: the records in listener order. */
  function Activate(p: Page, g: seq<nat>): (r: Page)
    requires Wired(p) && Ready(p.rules, g)
    ensures Wired(r) && r.kids.Keys == p.kids.Keys && SameRules(p.rules, r.rules)
  {
    if g == [] then p
    else
      var init := g[..|g| - 1];
      assert Ready(p.rules, init) by { assert forall j :: 0 <= j < |init| ==> init[j] == g[j]; }
      var q := Activate(p, init);
      SameRulesReady(p.rules, q.rules, g);
      ActivateOne(q, g[|g| - 1])
  }

  /**
   * The "does not match" branch as written: the records in listener order,
   * the same order as activation.
   */
  function DeactivateAsWritten(p: Page, g: seq<nat>): (r: Page)
    requires Wired(p) && InRange(p.rules, g)
    ensures Wired(r) && r.kids.Keys == p.kids.Keys && r.rules == p.rules
  {
    if g == [] then p
    else
      var init := g[..|g| - 1];
      assert InRange(p.rules, init) by { assert forall j :: 0 <= j < |init| ==> init[j] == g[j]; }
      DeactivateOne(DeactivateAsWritten(p, init), g[|g| - 1])
  }

  /** Unfolds one step of `DeactivateAsWritten`. */
  lemma DeactivateAsWrittenSnoc(p: Page, init: seq<nat>, k: nat)
    requires Wired(p) && InRange(p.rules, init + [k])
    ensures InRange(p.rules, init)
    ensures DeactivateAsWritten(p, init + [k]) == DeactivateOne(DeactivateAsWritten(p, init), k)
  {
    var g := init + [k];
    assert g[..|g| - 1] == init;
  }

  /**
   * The "does not match" branch, corrected: the records in reverse listener
   * order, so that the last element moved out is the first moved back.
   */
  function Deactivate(p: Page, g: seq<nat>): (r: Page)
    requires Wired(p) && InRange(p.rules, g)
    ensures Wired(r) && r.kids.Keys == p.kids.Keys && r.rules == p.rules
    decreases |g|
  {
    if g == [] then p
    else
      var init := g[..|g| - 1];
      assert InRange(p.rules, init) by { assert forall j :: 0 <= j < |init| ==> init[j] == g[j]; }
      Deactivate(DeactivateOne(p, g[|g| - 1]), init)
  }

  /**
   * `mediaHandler` as written, with the query's `matches` as a boolean: the
   * "does not match" branch walks the records in listener order.
   */
  function HandleAsWritten(p: Page, matches: bool, g: seq<nat>): (r: Page)
    requires Wired(p) && InRange(p.rules, g) && (matches ==> Ready(p.rules, g))
    ensures Wired(r) && r.kids.Keys == p.kids.Keys && SameRules(p.rules, r.rules)
  {
    if matches then Activate(p, g) else DeactivateAsWritten(p, g)
  }

  /**
   * `mediaHandler`, corrected, with the query's `matches` as a boolean: the
   * "does not match" branch walks the records in reverse listener order.
   */
  function Handle(p: Page, matches: bool, g: seq<nat>): (r: Page)
    requires Wired(p) && InRange(p.rules, g) && (matches ==> Ready(p.rules, g))
    ensures Wired(r) && r.kids.Keys == p.kids.Keys && SameRules(p.rules, r.rules)
  {
    if matches then Activate(p, g) else Deactivate(p, g)
  }

  /** The elements of the records at positions `g`. */
  function Elements(rules: seq<Rule>, g: seq<nat>): (r: set<ElemId>)
    requires InRange(rules, g)
  {
    set j | 0 <= j < |g| :: rules[g[j]].element
  }

  /**
   * Relocation state: a record's element is marked exactly when it sits in
   * its destination, and otherwise sits in its parent; no two records share
   * an element.
   */
  predicate Placed(p: Page)
    requires Wired(p)
  {
    && (forall i, j :: 0 <= i < |p.rules| && 0 <= j < |p.rules| && p.rules[i].element == p.rules[j].element ==> i == j)
    && (forall i :: 0 <= i < |p.rules| && p.rules[i].element in p.marked ==>
          p.rules[i].destination.Some? && p.rules[i].element in p.kids[p.rules[i].destination.value])
    && (forall i :: 0 <= i < |p.rules| && p.rules[i].element !in p.marked ==>
          p.rules[i].element in p.kids[p.rules[i].parent])
  }

  /**
   * Under `Placed`, a record whose destination differs from its parent has its
   * element under exactly one of the two, never both and never neither.
   */
  lemma ExactlyOneHome(p: Page, i: nat)
    requires Wired(p) && Placed(p) && i < |p.rules|
    requires p.rules[i].destination.Some? && p.rules[i].destination.value != p.rules[i].parent
    ensures var r := p.rules[i];
      (r.element in p.kids[r.parent]) != (r.element in p.kids[r.destination.value])
  {
  }

  lemma ActivateOnePlaced(p: Page, k: nat)
    requires Wired(p) && Placed(p) && k < |p.rules| && p.rules[k].destination.Some?
    ensures Placed(ActivateOne(p, k))
  {
    var r := ActivateOne(p, k);
    var el := p.rules[k].element;
    forall i | 0 <= i < |r.rules| && i != k
      ensures r.rules[i].element in r.marked ==> r.rules[i].element in r.kids[r.rules[i].destination.value]
      ensures r.rules[i].element !in r.marked ==> r.rules[i].element in r.kids[r.rules[i].parent]
    {
      assert r.rules[i] == p.rules[i];
      assert p.rules[i].element != el;
    }
  }

  lemma DeactivateOnePlaced(p: Page, k: nat)
    requires Wired(p) && Placed(p) && k < |p.rules|
    ensures Placed(DeactivateOne(p, k))
  {
    var r := DeactivateOne(p, k);
    var el := p.rules[k].element;
    forall i | 0 <= i < |r.rules| && i != k
      ensures r.rules[i].element in r.marked ==> r.rules[i].element in r.kids[r.rules[i].destination.value]
      ensures r.rules[i].element !in r.marked ==> r.rules[i].element in r.kids[r.rules[i].parent]
    {
      assert p.rules[i].element != el;
    }
  }

  /** `mediaHandler` keeps the relocation state consistent, whichever branch runs. */
  lemma {:induction false} HandlePlaced(p: Page, matches: bool, g: seq<nat>)
    requires Wired(p) && Placed(p) && InRange(p.rules, g) && (matches ==> Ready(p.rules, g))
    ensures Placed(Handle(p, matches, g))
    decreases |g|
  {
    if g != [] {
      var init := g[..|g| - 1];
      assert forall j :: 0 <= j < |init| ==> init[j] == g[j];
      if matches {
        HandlePlaced(p, true, init);
        var q := Activate(p, init);
        SameRulesReady(p.rules, q.rules, g);
        ActivateOnePlaced(q, g[|g| - 1]);
      } else {
        DeactivateOnePlaced(p, g[|g| - 1]);
        HandlePlaced(DeactivateOne(p, g[|g| - 1]), false, init);
      }
    }
  }

  /** `mediaHandler` as written keeps the relocation state consistent too, whichever branch runs. */
  lemma HandleAsWrittenPlaced(p: Page, matches: bool, g: seq<nat>)
    requires Wired(p) && Placed(p) && InRange(p.rules, g) && (matches ==> Ready(p.rules, g))
    ensures Placed(HandleAsWritten(p, matches, g))
  {
    if matches {
      HandlePlaced(p, true, g);
    } else {
      DeactivateAsWrittenPlaced(p, g);
    }
  }

  lemma {:induction false} DeactivateAsWrittenPlaced(p: Page, g: seq<nat>)
    requires Wired(p) && Placed(p) && InRange(p.rules, g)
    ensures Placed(DeactivateAsWritten(p, g))
  {
    if g != [] {
      var init := g[..|g| - 1];
      assert forall j :: 0 <= j < |init| ==> init[j] == g[j];
      DeactivateAsWrittenPlaced(p, init);
      DeactivateOnePlaced(DeactivateAsWritten(p, init), g[|g| - 1]);
    }
  }

  /**
   * One deactivation turn unmarks its element and moves nothing but that
   * element, and that only when it was marked.
   */
  lemma DeactivateOneFootprint(p: Page, k: nat)
    requires Wired(p) && k < |p.rules|
    ensures DeactivateOne(p, k).marked == p.marked - {p.rules[k].element}
    ensures var r := DeactivateOne(p, k); var el := p.rules[k].element;
      forall c, x :: c in p.kids && !(x == el && el in p.marked) ==> (x in r.kids[c] <==> x in p.kids[c])
  {
  }

  /** Deactivation (reverse order) unmarks exactly the listener's elements. */
  lemma {:induction false} DeactivateMarks(p: Page, g: seq<nat>)
    requires Wired(p) && InRange(p.rules, g)
    ensures Deactivate(p, g).marked == p.marked - Elements(p.rules, g)
    decreases |g|
  {
    if g != [] {
      var init := g[..|g| - 1];
      var k := g[|g| - 1];
      ElementsSnoc(p.rules, g);
      DeactivateOneFootprint(p, k);
      DeactivateMarks(DeactivateOne(p, k), init);
    }
  }

  /** Deactivation in the code's order unmarks exactly the listener's elements too. */
  lemma {:induction false} DeactivateAsWrittenMarks(p: Page, g: seq<nat>)
    requires Wired(p) && InRange(p.rules, g)
    ensures DeactivateAsWritten(p, g).marked == p.marked - Elements(p.rules, g)
  {
    if g != [] {
      var init := g[..|g| - 1];
      var k := g[|g| - 1];
      ElementsSnoc(p.rules, g);
      DeactivateAsWrittenMarks(p, init);
      DeactivateOneFootprint(DeactivateAsWritten(p, init), k);
    }
  }

  /**
   * Deactivation (reverse order) moves only the listener's elements that were
   * marked: every other element stays under the parent it had.
   */
  lemma {:induction false} DeactivateMovesOnly(p: Page, g: seq<nat>, x: ElemId)
    requires Wired(p) && InRange(p.rules, g)
    requires !(x in Elements(p.rules, g) && x in p.marked)
    ensures var r := Deactivate(p, g);
      forall c :: c in p.kids ==> (x in r.kids[c] <==> x in p.kids[c])
    decreases |g|
  {
    if g != [] {
      var init := g[..|g| - 1];
      var k := g[|g| - 1];
      var q := DeactivateOne(p, k);
      ElementsSnoc(p.rules, g);
      DeactivateOneFootprint(p, k);
      DeactivateMovesOnly(q, init, x);
    }
  }

  /** Deactivation in the code's order also moves only the listener's marked elements. */
  lemma {:induction false} DeactivateAsWrittenMovesOnly(p: Page, g: seq<nat>, x: ElemId)
    requires Wired(p) && InRange(p.rules, g)
    requires !(x in Elements(p.rules, g) && x in p.marked)
    ensures var r := DeactivateAsWritten(p, g);
      forall c :: c in p.kids ==> (x in r.kids[c] <==> x in p.kids[c])
  {
    if g != [] {
      var init := g[..|g| - 1];
      var k := g[|g| - 1];
      var a := DeactivateAsWritten(p, init);
      ElementsSnoc(p.rules, g);
      DeactivateAsWrittenMovesOnly(p, init, x);
      DeactivateAsWrittenMarks(p, init);
      DeactivateOneFootprint(a, k);
    }
  }

  /** Deactivation never touches an element that is not marked. */
  lemma {:induction false} DeactivateSkipsUnmarked(p: Page, g: seq<nat>)
    requires Wired(p) && InRange(p.rules, g)
    requires forall j :: 0 <= j < |g| ==> p.rules[g[j]].element !in p.marked
    ensures Deactivate(p, g) == p && DeactivateAsWritten(p, g) == p
  {
    if g != [] {
      var init := g[..|g| - 1];
      assert forall j :: 0 <= j < |init| ==> init[j] == g[j];
      DeactivateSkipsUnmarked(p, init);
    }
  }

  /** One activation marks its element, moves no other element and rewrites only its own record. */
  lemma ActivateOneFootprint(p: Page, k: nat)
    requires Wired(p) && k < |p.rules| && p.rules[k].destination.Some?
    ensures ActivateOne(p, k).marked == p.marked + {p.rules[k].element}
    ensures var r := ActivateOne(p, k);
      forall c, x :: c in p.kids && x != p.rules[k].element ==> (x in r.kids[c] <==> x in p.kids[c])
    ensures var r := ActivateOne(p, k);
      forall i :: 0 <= i < |p.rules| && i != k ==> r.rules[i] == p.rules[i]
  {
  }

  lemma ElementsSnoc(rules: seq<Rule>, g: seq<nat>)
    requires InRange(rules, g) && g != []
    ensures InRange(rules, g[..|g| - 1])
    ensures Elements(rules, g) == Elements(rules, g[..|g| - 1]) + {rules[g[|g| - 1]].element}
  {
    var init := g[..|g| - 1];
    assert forall j :: 0 <= j < |init| ==> init[j] == g[j];
  }

  /** Unfolds one step of `Activate`. */
  lemma ActivateSnoc(p: Page, g: seq<nat>)
    requires Wired(p) && Ready(p.rules, g) && g != []
    ensures Ready(p.rules, g[..|g| - 1])
    ensures var q := Activate(p, g[..|g| - 1]);
      Ready(q.rules, g) && Activate(p, g) == ActivateOne(q, g[|g| - 1])
  {
    var init := g[..|g| - 1];
    assert forall j :: 0 <= j < |init| ==> init[j] == g[j];
    SameRulesReady(p.rules, Activate(p, init).rules, g);
  }

  /** Unfolds `Activate` on a prefix of a listener, as its loop runs. */
  /** Deactivating the first `i + 1` records: the last of them first, then the rest. */
  lemma DeactivatePrefix(p: Page, g: seq<nat>, i: nat)
    requires Wired(p) && InRange(p.rules, g) && i < |g|
    ensures InRange(p.rules, g[..i]) && InRange(p.rules, g[..i + 1])
    ensures Deactivate(p, g[..i + 1]) == Deactivate(DeactivateOne(p, g[i]), g[..i])
  {
    assert g[..i + 1][..i] == g[..i];
  }

  lemma ActivatePrefix(p: Page, g: seq<nat>, i: nat)
    requires Wired(p) && Ready(p.rules, g) && i < |g|
    ensures Ready(p.rules, g[..i]) && Ready(p.rules, g[..i + 1])
    ensures Ready(Activate(p, g[..i]).rules, g)
    ensures Activate(p, g[..i + 1]) == ActivateOne(Activate(p, g[..i]), g[i])
  {
    assert g[..i + 1][..i] == g[..i];
    ActivateSnoc(p, g[..i + 1]);
    SameRulesReady(p.rules, Activate(p, g[..i]).rules, g);
  }

  /** One activation turn marks the record's element, whatever its recorded index. */
  lemma ActivateOneMarks(rules: seq<Rule>, q: Page, k: nat)
    requires Wired(q) && SameRules(rules, q.rules) && k < |rules| && q.rules[k].destination.Some?
    ensures ActivateOne(q, k).marked == q.marked + {rules[k].element}
  {
    assert q.rules[k].(index := 0) == rules[k].(index := 0);
    ActivateOneFootprint(q, k);
  }

  /** The marks of all but the last record, plus the last one's element, are the marks of all. */
  lemma MarksSnoc(before: set<ElemId>, after: set<ElemId>, rules: seq<Rule>, g: seq<nat>)
    requires InRange(rules, g) && g != []
    requires InRange(rules, g[..|g| - 1]) && after == before + Elements(rules, g[..|g| - 1])
    ensures after + {rules[g[|g| - 1]].element} == before + Elements(rules, g)
  {
    ElementsSnoc(rules, g);
  }

  /** Activation marks exactly the listener's elements. */
  lemma {:induction false} ActivateMarks(p: Page, g: seq<nat>)
    requires Wired(p) && Ready(p.rules, g)
    ensures Activate(p, g).marked == p.marked + Elements(p.rules, g)
  {
    if g != [] {
      var init := g[..|g| - 1];
      ActivateSnoc(p, g);
      ActivateMarks(p, init);
      var q := Activate(p, init);
      ActivateOneMarks(p.rules, q, g[|g| - 1]);
      MarksSnoc(p.marked, q.marked, p.rules, g);
    }
  }

  /** Activation moves no element outside the listener's. */
  lemma {:induction false} ActivateMovesOnly(p: Page, g: seq<nat>)
    requires Wired(p) && Ready(p.rules, g)
    ensures var r := Activate(p, g);
      forall c, x :: c in p.kids && x !in Elements(p.rules, g) ==> (x in r.kids[c] <==> x in p.kids[c])
  {
    if g != [] {
      var init := g[..|g| - 1];
      var k := g[|g| - 1];
      ActivateSnoc(p, g);
      ElementsSnoc(p.rules, g);
      ActivateMovesOnly(p, init);
      var q := Activate(p, init);
      assert q.rules[k].(index := 0) == p.rules[k].(index := 0);
      ActivateOneFootprint(q, k);
    }
  }

  /** Activation rewrites only the listener's records. */
  lemma {:induction false} ActivateKeepsOtherRules(p: Page, g: seq<nat>)
    requires Wired(p) && Ready(p.rules, g)
    ensures var r := Activate(p, g);
      forall i :: 0 <= i < |p.rules| && i !in g ==> r.rules[i] == p.rules[i]
  {
    if g != [] {
      var init := g[..|g| - 1];
      var k := g[|g| - 1];
      ActivateSnoc(p, g);
      ActivateKeepsOtherRules(p, init);
      var q := Activate(p, init);
      ActivateOneFootprint(q, k);
      forall i | 0 <= i < |p.rules| && i !in g ensures Activate(p, g).rules[i] == p.rules[i] {
        assert i != k && i !in init;
        assert q.rules[i] == p.rules[i];
      }
    }
  }

  /** The records at positions `g` are fresh: distinct, unmarked, in parents distinct from their destinations. */
  predicate Fresh(p: Page, g: seq<nat>)
    requires Wired(p) && Ready(p.rules, g)
  {
    && (forall j, l :: 0 <= j < |g| && 0 <= l < |g| && p.rules[g[j]].element == p.rules[g[l]].element ==> j == l)
    && (forall j :: 0 <= j < |g| ==> p.rules[g[j]].element !in p.marked)
    && (forall j :: 0 <= j < |g| ==> p.rules[g[j]].element in p.kids[p.rules[g[j]].parent])
    && (forall j :: 0 <= j < |g| ==> p.rules[g[j]].destination.value != p.rules[g[j]].parent)
  }

  /** Deactivation reads only the child lists, the marks and the records it visits. */
  lemma {:induction false} DeactivateFrame(p1: Page, p2: Page, g: seq<nat>)
    requires Wired(p1) && Wired(p2) && InRange(p1.rules, g) && |p1.rules| == |p2.rules|
    requires p1.kids == p2.kids && p1.marked == p2.marked
    requires forall j :: 0 <= j < |g| ==> p1.rules[g[j]] == p2.rules[g[j]]
    ensures Deactivate(p1, g).kids == Deactivate(p2, g).kids
    ensures Deactivate(p1, g).marked == Deactivate(p2, g).marked
    decreases |g|
  {
    if g != [] {
      var init := g[..|g| - 1];
      assert forall j :: 0 <= j < |init| ==> init[j] == g[j];
      var k := g[|g| - 1];
      DeactivateFrame(DeactivateOne(p1, k), DeactivateOne(p2, k), init);
    }
  }

  /** Moving one fresh record's element out and back restores the child lists and the marks. */
  lemma StepRoundTrip(q: Page, k: nat)
    requires Wired(q) && k < |q.rules| && q.rules[k].destination.Some?
    requires q.rules[k].destination.value != q.rules[k].parent
    requires q.rules[k].element in q.kids[q.rules[k].parent] && q.rules[k].element !in q.marked
    ensures var d := DeactivateOne(ActivateOne(q, k), k);
      d.kids == q.kids && d.marked == q.marked
    ensures var d := DeactivateOne(ActivateOne(q, k), k);
      |d.rules| == |q.rules| && forall i :: 0 <= i < |q.rules| && i != k ==> d.rules[i] == q.rules[i]
  {
    var rule := q.rules[k];
    var a := ActivateOne(q, k);
    var index := IndexInParent(q.kids, rule.parent, rule.element);
    assert a.rules[k] == rule.(index := index);
    MoveRoundTrip(q.kids, rule.place, rule.element, rule.parent, rule.destination.value);
  }

  /** What activating all but the last record leaves for the last one. */
  /** The last record of a fresh listener is none of the others, nor is its element. */
  lemma LastOutsideInit(p: Page, g: seq<nat>)
    requires Wired(p) && Ready(p.rules, g) && Fresh(p, g) && g != [] && NoDup(g)
    ensures Ready(p.rules, g[..|g| - 1])
    ensures g[|g| - 1] !in g[..|g| - 1]
    ensures p.rules[g[|g| - 1]].element !in Elements(p.rules, g[..|g| - 1])
  {
    var init := g[..|g| - 1];
    var el := p.rules[g[|g| - 1]].element;
    assert forall j :: 0 <= j < |init| ==> init[j] == g[j];
    forall j | 0 <= j < |init| ensures p.rules[init[j]].element != el {
      assert init[j] == g[j];
    }
  }

  lemma ActivateInitLeavesLast(p: Page, g: seq<nat>)
    requires Wired(p) && Ready(p.rules, g) && Fresh(p, g) && g != []
    requires NoDup(g)
    ensures Ready(p.rules, g[..|g| - 1])
    ensures var q := Activate(p, g[..|g| - 1]); var k := g[|g| - 1];
      && k < |q.rules| && q.rules[k] == p.rules[k]
      && q.rules[k].element in q.kids[q.rules[k].parent] && q.rules[k].element !in q.marked
  {
    var init := g[..|g| - 1];
    LastOutsideInit(p, g);
    ActivateMarks(p, init);
    ActivateMovesOnly(p, init);
    ActivateKeepsOtherRules(p, init);
  }

  lemma SplitLast(g: seq<nat>)
    requires g != []
    ensures g == g[..|g| - 1] + [g[|g| - 1]]
  {
  }

  /** Freshness and distinctness hold for every prefix of a listener. */
  lemma FreshInit(p: Page, init: seq<nat>, k: nat)
    requires Wired(p) && Ready(p.rules, init + [k]) && Fresh(p, init + [k]) && NoDup(init + [k])
    ensures Ready(p.rules, init) && Fresh(p, init) && NoDup(init)
  {
    var g := init + [k];
    assert forall j :: 0 <= j < |init| ==> init[j] == g[j];
  }

  /** The last turn of the activation loop, undone by the first turn of deactivation. */
  lemma LastStepUndone(p: Page, init: seq<nat>, k: nat)
    requires Wired(p) && Ready(p.rules, init + [k]) && Fresh(p, init + [k]) && NoDup(init + [k])
    ensures Ready(p.rules, init)
    ensures var q := Activate(p, init); var d := DeactivateOne(Activate(p, init + [k]), k);
      && Deactivate(Activate(p, init + [k]), init + [k]) == Deactivate(d, init)
      && d.kids == q.kids && d.marked == q.marked && |d.rules| == |q.rules|
      && forall j :: 0 <= j < |init| ==> d.rules[init[j]] == q.rules[init[j]]
  {
    var g := init + [k];
    assert g[..|g| - 1] == init;
    ActivateInitLeavesLast(p, g);
    var q := Activate(p, init);
    ActivateSnoc(p, g);
    StepRoundTrip(q, k);
  }

  /**
   * Round trip of a whole listener (corrected order): activating fresh
   * records and then deactivating them restores every child list and the
   * marks exactly.
   */
  lemma {:induction false} GroupRoundTrip(p: Page, g: seq<nat>)
    requires Wired(p) && Ready(p.rules, g) && Fresh(p, g) && NoDup(g)
    ensures var q := Deactivate(Activate(p, g), g);
      q.kids == p.kids && q.marked == p.marked
  {
    if g != [] {
      var init := g[..|g| - 1];
      var k := g[|g| - 1];
      SplitLast(g);
      FreshInit(p, init, k);
      LastStepUndone(p, init, k);
      GroupRoundTrip(p, init);
      var d := DeactivateOne(Activate(p, g), k);
      DeactivateFrame(d, Activate(p, init), init);
    }
  }
}

/** A page on which the as-written deactivation order reorders siblings. */
module AdaptExample {
  import opened Wrappers
  import opened Seqs
  import opened Dom
  import opened Directive
  import opened Rules
  import opened Adapt

  /**
   * Parent 1 holds elements 10, 11, 12; destination 2 is empty; elements 10
   * and 11 both go "last" into 2 at the same breakpoint.
   */
  function TwoLastPage(): Page {
    Page(map[1 := [10, 11, 12], 2 := []], {},
      [Rule10(-1), Rule11(-1)])
  }

  /** Both records of the example page are fresh and ready. */
  lemma TwoLastPageFresh()
    ensures var p := TwoLastPage();
      Wired(p) && Ready(p.rules, [0, 1]) && Fresh(p, [0, 1]) && NoDup([0, 1])
  {
    var p := TwoLastPage();
    assert NoDup(p.kids[1]) by {
      forall i, j | 0 <= i < j < 3 ensures p.kids[1][i] != p.kids[1][j] { }
    }
    assert Wired(p);
    var g := [0, 1];
    assert p.rules[g[0]].element == 10 && p.rules[g[1]].element == 11;
    assert 10 in p.kids[1] && 11 in p.kids[1];
  }

  function Rule10(index: int): Rule { Rule(10, 1, Some(2), "767", Last, index) }
  function Rule11(index: int): Rule { Rule(11, 1, Some(2), "767", Last, index) }

  /** Child lists of elements 1 and 2 only. */
  predicate KidsAre(kids: Children, parent: seq<ElemId>, dest: seq<ElemId>) {
    WellFormed(kids) && kids.Keys == {1, 2} && kids[1] == parent && kids[2] == dest
  }

  /** A page with the given children, marks and record indices. */
  predicate Shows(q: Page, parent: seq<ElemId>, dest: seq<ElemId>, marked: set<ElemId>, i10: int, i11: int) {
    Wired(q) && KidsAre(q.kids, parent, dest) && q.marked == marked && q.rules == [Rule10(i10), Rule11(i11)]
  }

  lemma InsertFront(s: seq<ElemId>, x: ElemId)
    ensures Insert(s, 0, x) == [x] + s
  {
  }

  lemma TwoLastStart()
    ensures Shows(TwoLastPage(), [10, 11, 12], [], {}, -1, -1)
  {
    TwoLastPageFresh();
  }

  lemma FirstMoveKids(kids: Children)
    requires KidsAre(kids, [10, 11, 12], [])
    ensures KidsAre(MovedTo(kids, Last, 10, 2), [11, 12], [10])
  {
    assert Remove([10, 11, 12], 10) == [11, 12];
    MoveToPosition(kids, Last, 10, 2);
  }

  /** First turn of activation: 10 goes to the end of 2, recorded at index 0. */
  lemma TwoLastFirstMove(q: Page)
    requires Shows(q, [10, 11, 12], [], {}, -1, -1)
    ensures Shows(ActivateOne(q, 0), [11, 12], [10], {10}, 0, -1)
  {
    var r := ActivateOne(q, 0);
    assert KidsAre(r.kids, [11, 12], [10]) by {
      FirstMoveKids(q.kids);
    }
    assert r.rules == [Rule10(0), Rule11(-1)] by {
      assert IndexOf([10, 11, 12], 10) == 0;
    }
  }

  lemma SecondMoveKids(kids: Children)
    requires KidsAre(kids, [11, 12], [10])
    ensures KidsAre(MovedTo(kids, Last, 11, 2), [12], [10, 11])
  {
    assert Remove([11, 12], 11) == [12];
    MoveToPosition(kids, Last, 11, 2);
  }

  /** Second turn of activation: 11 follows it, also recorded at index 0. */
  lemma TwoLastSecondMove(q: Page)
    requires Shows(q, [11, 12], [10], {10}, 0, -1)
    ensures Shows(ActivateOne(q, 1), [12], [10, 11], {10, 11}, 0, 0)
  {
    SecondMoveKids(q.kids);
    assert IndexOf([11, 12], 11) == 0;
  }

  /** Activation moves 10 and then 11 to the end of 2, each recorded at index 0. */
  lemma TwoLastActivation()
    ensures Ready(TwoLastPage().rules, [0, 1])
    ensures Shows(Activate(TwoLastPage(), [0, 1]), [12], [10, 11], {10, 11}, 0, 0)
  {
    var p := TwoLastPage();
    var g := [0, 1];
    TwoLastPageFresh();
    TwoLastStart();
    assert g[..1] == [0] && [0][..0] == [];
    TwoLastFirstMove(p);
    TwoLastSecondMove(ActivateOne(p, 0));
  }

  lemma FirstBackKids(kids: Children)
    requires KidsAre(kids, [12], [10, 11])
    ensures KidsAre(MovedBack(kids, 1, 10, 0), [10, 12], [11])
  {
    MoveBackPosition(kids, 1, 10, 0);
    InsertFront([12], 10);
    assert Remove([10, 11], 10) == [11];
  }

  /** First turn of the as-written deactivation: 10 goes back before 12. */
  lemma TwoLastFirstBack(q: Page)
    requires Shows(q, [12], [10, 11], {10, 11}, 0, 0)
    ensures Shows(DeactivateOne(q, 0), [10, 12], [11], {11}, 0, 0)
  {
    FirstBackKids(q.kids);
  }

  lemma SecondBackKids(kids: Children)
    requires KidsAre(kids, [10, 12], [11])
    ensures MovedBack(kids, 1, 11, 0)[1] == [11, 10, 12]
  {
    MoveBackPosition(kids, 1, 11, 0);
    InsertFront([10, 12], 11);
    assert [11] + [10, 12] == [11, 10, 12];
  }

  /** Second turn: 11 goes back to index 0, now in front of 10. */
  lemma TwoLastSecondBack(q: Page)
    requires Shows(q, [10, 12], [11], {11}, 0, 0)
    ensures DeactivateOne(q, 1).kids[1] == [11, 10, 12]
  {
    SecondBackKids(q.kids);
  }

  lemma ZeroOne()
    ensures [0, 1] == [0] + [1] && [0] == [] + [0]
  {
  }

  lemma AsWrittenTwoSteps(q: Page)
    requires Wired(q) && |q.rules| == 2
    ensures DeactivateAsWritten(q, [0, 1]) == DeactivateOne(DeactivateOne(q, 0), 1)
  {
    ZeroOne();
    DeactivateAsWrittenSnoc(q, [], 0);
    DeactivateAsWrittenSnoc(q, [0], 1);
  }

  /** The as-written deactivation of the active example leaves 11, 10, 12 under the parent. */
  lemma TwoLastAsWritten(q: Page)
    requires Shows(q, [12], [10, 11], {10, 11}, 0, 0)
    ensures DeactivateAsWritten(q, [0, 1]).kids[1] == [11, 10, 12]
  {
    AsWrittenTwoSteps(q);
    TwoLastFirstBack(q);
    TwoLastSecondBack(DeactivateOne(q, 0));
  }

  /**
   * `moveTo` and `moveBack` within one element do not round-trip: with
   * children 10, 11, 12, moving 12 "first" gives 12, 10, 11, and moving it
   * back before the child at its old index 2 gives 10, 12, 11.
   */
  lemma SameParentNoRoundTrip()
    ensures var kids: Children := map[1 := [10, 11, 12]];
      && WellFormed(kids) && IndexInParent(kids, 1, 12) == 2
      && MovedTo(kids, First, 12, 1) == map[1 := [12, 10, 11]]
      && MovedBack(MovedTo(kids, First, 12, 1), 1, 12, 2) == map[1 := [10, 12, 11]] != kids
  {
    SameParentMoveTo();
    SameParentMoveBack();
    assert [10, 12, 11] != [10, 11, 12] by { assert [10, 12, 11][1] == 12; }
    assert map[1 := [10, 12, 11]][1] != map[1 := [10, 11, 12]][1];
  }

  lemma RemoveTwelve()
    ensures Remove([10, 11, 12], 12) == [10, 11] && Remove([12, 10, 11], 12) == [10, 11]
    ensures IndexOf([10, 11], 10) == 0 && IndexOf([10, 11], 11) == 1 && IndexOf([10, 11, 12], 12) == 2
  {
    assert Remove([12], 12) == [];
    assert [11, 12][1..] == [12] && [10, 11, 12][1..] == [11, 12];
    assert Remove([11, 12], 12) == [11];
    assert [12, 10, 11][1..] == [10, 11] && [10, 11][1..] == [11];
    assert Remove([10, 11], 12) == [10, 11];
  }

  lemma ThreeNoDup(a: ElemId, b: ElemId, c: ElemId)
    requires a != b && b != c && a != c
    ensures NoDup([a, b, c])
  {
    var s := [a, b, c];
    forall i, j | 0 <= i < j < 3 ensures s[i] != s[j] { }
  }

  /** Inserting into the only element of a one-element document. */
  lemma SingleInsert(s: seq<ElemId>, el: ElemId, ref: ElemId)
    requires NoDup(s) && ref in s
    ensures var kids: Children := map[1 := s];
      && WellFormed(kids)
      && InsertBefore(kids, 1, el, Some(ref)) == map[1 := Insert(Remove(s, el), InsertPosition(s, el, Some(ref)), el)]
  {
    var kids: Children := map[1 := s];
    assert kids.Keys == {1};
    assert WellFormed(kids);
    var r := InsertBefore(kids, 1, el, Some(ref));
    var x := Insert(Remove(s, el), InsertPosition(s, el, Some(ref)), el);
    InsertBeforeShape(kids, 1, el, Some(ref));
    assert r.Keys == {1} && r[1] == x;
    assert r == map[1 := x];
  }

  lemma SameParentMoveTo()
    ensures var kids: Children := map[1 := [10, 11, 12]];
      && WellFormed(kids) && IndexInParent(kids, 1, 12) == 2
      && MovedTo(kids, First, 12, 1) == map[1 := [12, 10, 11]]
  {
    var kids: Children := map[1 := [10, 11, 12]];
    ThreeNoDup(10, 11, 12);
    RemoveTwelve();
    assert kids[1][0] == 10;
    assert Anchor(First, kids[1]) == Some(10);
    assert InsertPosition([10, 11, 12], 12, Some(10)) == 0;
    SingleInsert([10, 11, 12], 12, 10);
    assert Insert([10, 11], 0, 12) == [12, 10, 11];
    assert MovedTo(kids, First, 12, 1) == InsertBefore(kids, 1, 12, Some(10));
  }

  lemma SameParentMoveBack()
    ensures var moved: Children := map[1 := [12, 10, 11]];
      WellFormed(moved) && MovedBack(moved, 1, 12, 2) == map[1 := [10, 12, 11]]
  {
    var moved: Children := map[1 := [12, 10, 11]];
    ThreeNoDup(12, 10, 11);
    BackPosition();
    SingleInsert([12, 10, 11], 12, 11);
    MovedBackBefore(moved, 1, 12, 2);
    assert Insert([10, 11], 1, 12) == [10, 12, 11];
  }

  lemma BackPosition()
    ensures Remove([12, 10, 11], 12) == [10, 11]
    ensures InsertPosition([12, 10, 11], 12, Some(11)) == 1
  {
    ThreeNoDup(12, 10, 11);
    RemoveTwelve();
  }

  /** `moveBack` to an index that holds a child inserts before that child. */
  lemma MovedBackBefore(kids: Children, parent: ElemId, el: ElemId, index: nat)
    requires WellFormed(kids) && parent in kids && index < |kids[parent]|
    ensures MovedBack(kids, parent, el, index) == InsertBefore(kids, parent, el, Some(kids[parent][index]))
  {
  }

  /**
   * On the example page, `mediaHandler` as written does not undo itself: the
   * parent's children 10, 11, 12 come back as 11, 10, 12. Deactivating in
   * reverse order restores the page.
   */
  lemma AsWrittenReordersSiblings()
    ensures var p := TwoLastPage();
      Wired(p) && Ready(p.rules, [0, 1])
    ensures var p := TwoLastPage();
      DeactivateAsWritten(Activate(p, [0, 1]), [0, 1]).kids[1] == [11, 10, 12] != p.kids[1]
    ensures var p := TwoLastPage();
      Deactivate(Activate(p, [0, 1]), [0, 1]).kids == p.kids
  {
    TwoLastPageFresh();
    TwoLastActivation();
    TwoLastAsWritten(Activate(TwoLastPage(), [0, 1]));
    GroupRoundTrip(TwoLastPage(), [0, 1]);
  }
}
