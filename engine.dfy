/**
 * The `DynamicAdapt` object: its record list, media-query list and one
 * listener per query, each bound to the records of its breakpoint. The
 * methods change the document step by step; each is proved against the
 * page-level functions of `Adapt`.
 */
module Engine {
  import opened Wrappers
  import opened Seqs
  import opened Text
  import opened Dom
  import opened Directive
  import opened Rules
  import opened Media
  import opened Adapt
  import opened Startup

  /**
   * The listener loop of `init` over the records of `p0`: every breakpoint
   * comma-free, every record that matches has a destination, and `gs`, `ms`
   * the listeners and their matches.
   */
  ghost predicate Setting(mode: Mode, p0: Page, viewport: string -> bool, gs: seq<seq<nat>>, ms: seq<bool>) {
    && CommaFree(p0.rules) && DestinationsOk(mode, p0.rules, viewport)
    && gs == Listeners(mode, p0.rules) && ms == Matches(mode, p0.rules, viewport)
  }

  /**
   * After `q` turns of the listener loop of `init`, with listeners `gs` and
   * matches `ms` for the records of `p0`: the first `q` listeners are
   * recorded in `ls`, and `page` is the run of their first handler calls.
   */
  ghost predicate Turned(p0: Page, gs: seq<seq<nat>>, ms: seq<bool>, q: nat, page: Page, ls: seq<seq<nat>>) {
    && q <= |gs| == |ms| && Wired(p0) && StartupOk(p0.rules, gs[..q], ms[..q])
    && ls == gs[..q] && Wired(page) && page == Run(p0, gs[..q], ms[..q])
  }

  /**
   * One turn of the listener loop, on values: the listener of entry `q` is
   * its breakpoint's group of the current records, and its first handler
   * call extends the run by one listener.
   */
  lemma TurnStep(mode: Mode, p0: Page, viewport: string -> bool, gs: seq<seq<nat>>, ms: seq<bool>,
                 q: nat, page: Page, ls: seq<seq<nat>>)
    requires Setting(mode, p0, viewport, gs, ms)
    requires q < |gs| && Turned(p0, gs, ms, q, page, ls)
    ensures var parts := Split(MediaQueries(mode, p0.rules)[q], ',');
      && |parts| > 1
      && var g := Group(page.rules, parts[1]);
      && InRange(page.rules, g) && (viewport(parts[0]) ==> Ready(page.rules, g))
      && Turned(p0, gs, ms, q + 1, Handle(page, viewport(parts[0]), g), ls + [g])
  {
    ListenStep(mode, p0, viewport, q, page);
    TakeNext(gs, q);
    TakeNext(ms, q);
  }

  /** Positions in range of one record list are in range of any list as long. */
  lemma ListenersInRange(a: seq<Rule>, b: seq<Rule>, gs: seq<seq<nat>>)
    requires |a| == |b| && forall q :: 0 <= q < |gs| ==> InRange(a, gs[q])
    ensures forall q :: 0 <= q < |gs| ==> InRange(b, gs[q])
  {
  }

  class DynamicAdapt {
    /** "min" or "max", fixed by the constructor. */
    const mode: Mode
    const doc: Document
    /** The elements carrying a `data-da` directive, in document order. */
    var nodes: seq<ElemId>
    /** One record per element carrying a directive, sorted after `Init`. */
    var objects: seq<Rule>
    /** The distinct `condition,breakpoint` strings, in record order. */
    var mediaQueries: seq<string>
    /** The record positions each query's listener was bound to. */
    var listeners: seq<seq<nat>>

    /** The page as this engine sees it. */
    function PageOf(): Page
      reads this`objects, doc
    {
      Page(doc.children, doc.marked, objects)
    }

    ghost predicate Valid()
      reads this`objects, doc
    {
      doc.Valid() && Wired(PageOf())
    }

    /** Every listener holds positions of `objects`. */
    ghost predicate Bound()
      reads this`objects, this`listeners
    {
      forall q :: 0 <= q < |listeners| ==> InRange(objects, listeners[q])
    }

    /** `new DynamicAdapt(type)`: only the mode is set before `init`. */
    constructor (mode: Mode, doc: Document)
      requires doc.Valid()
      ensures this.mode == mode && this.doc == doc
      ensures nodes == [] && objects == [] && mediaQueries == [] && listeners == []
      ensures Valid()
    {
      this.mode := mode;
      this.doc := doc;
      nodes := [];
      objects := [];
      mediaQueries := [];
      listeners := [];
    }

    /** `moveTo`: mark the element, then put it at `place` among the destination's children. */
    method MoveTo(place: Place, el: ElemId, dest: ElemId)
      requires doc.Valid() && dest in doc.children
      modifies doc`children, doc`marked
      ensures doc.Valid()
      ensures doc.children == MovedTo(old(doc.children), place, el, dest)
      ensures doc.marked == old(doc.marked) + {el}
    {
      doc.AddMarker(el);
      if place.Last? || (place.Index? && place.n >= |doc.children[dest]|) {
        doc.InsertBeforeEnd(dest, el);
        return;
      }
      if place.First? {
        doc.InsertAfterBegin(dest, el);
        return;
      }
      doc.InsertBeforeBegin(dest, doc.children[dest][place.n], el);
    }

    /** `moveBack`: unmark the element, then put it before `parent.children[index]`, or last. */
    method MoveBack(parent: ElemId, el: ElemId, index: int)
      requires doc.Valid() && parent in doc.children
      modifies doc`children, doc`marked
      ensures doc.Valid()
      ensures doc.children == MovedBack(old(doc.children), parent, el, index)
      ensures doc.marked == old(doc.marked) - {el}
    {
      doc.RemoveMarker(el);
      if 0 <= index < |doc.children[parent]| {
        doc.InsertBeforeBegin(parent, doc.children[parent][index], el);
      } else {
        doc.InsertBeforeEnd(parent, el);
      }
    }

    /** One turn of the "matches" loop of `mediaHandler`. */
    method Activate1(k: nat)
      requires Valid() && k < |objects| && objects[k].destination.Some?
      modifies this`objects, doc`children, doc`marked
      ensures Valid()
      ensures PageOf() == ActivateOne(old(PageOf()), k)
    {
      var rule := objects[k];
      objects := objects[k := rule.(index := IndexInParent(doc.children, rule.parent, rule.element))];
      MoveTo(rule.place, rule.element, rule.destination.value);
    }

    /** One turn of the "does not match" loop: a marked element goes back. */
    method Deactivate1(k: nat)
      requires Valid() && k < |objects|
      modifies doc`children, doc`marked
      ensures Valid()
      ensures PageOf() == DeactivateOne(old(PageOf()), k)
    {
      var rule := objects[k];
      if rule.element in doc.marked {
        MoveBack(rule.parent, rule.element, rule.index);
      }
    }

    /** The "matches" branch of `mediaHandler`: every record of the listener, in order. */
    method ActivateAll(g: seq<nat>)
      requires Valid() && Ready(objects, g)
      modifies this`objects, doc`children, doc`marked
      ensures Valid()
      ensures PageOf() == Activate(old(PageOf()), g)
    {
      var i := 0;
      assert g[..0] == [];
      while i < |g|
        invariant 0 <= i <= |g|
        invariant Valid() && Ready(old(objects), g[..i])
        invariant PageOf() == Activate(old(PageOf()), g[..i])
      {
        ActivatePrefix(old(PageOf()), g, i);
        Activate1(g[i]);
        i := i + 1;
      }
      assert g[..i] == g;
    }

    /**
     * The "does not match" branch: the marked records of the listener go
     * back, last record first (see `DeactivateAsWritten` for the order the
     * code uses).
     */
    method DeactivateAll(g: seq<nat>)
      requires Valid() && InRange(objects, g)
      modifies doc`children, doc`marked
      ensures Valid()
      ensures PageOf() == Deactivate(old(PageOf()), g)
    {
      var i := |g|;
      assert g[..i] == g;
      while i > 0
        invariant 0 <= i <= |g| && Valid() && InRange(objects, g[..i])
        invariant Deactivate(old(PageOf()), g) == Deactivate(PageOf(), g[..i])
      {
        DeactivatePrefix(PageOf(), g, i - 1);
        Deactivate1(g[i - 1]);
        i := i - 1;
      }
    }

    /** The first loop of `init`: one record per node, in document order. */
    method Collect(daNodes: seq<ElemId>, data: map<ElemId, string>, parents: map<ElemId, ElemId>,
                   selectors: map<string, ElemId>)
      requires Collectable(doc.children, daNodes, data, parents, selectors)
      modifies this`nodes, this`objects
      ensures nodes == daNodes
      ensures objects == Records(doc.children, daNodes, data, parents, selectors)
    {
      nodes := daNodes;
      ghost var recs := Records(doc.children, daNodes, data, parents, selectors);
      objects := [];
      for i := 0 to |daNodes|
        invariant nodes == daNodes && objects == recs[..i]
      {
        var rule := Record(doc.children, data, parents, selectors, daNodes[i]);
        TakeNext(recs, i);
        objects := objects + [rule];
      }
      assert recs[..|recs|] == recs;
    }

    /**
     * One turn of the second loop of `init`, for entry `q` of `mediaQueries`:
     * the records whose breakpoint is the entry's, and the first call of
     * their handler.
     */
    method Register(viewport: string -> bool, q: nat) returns (group: seq<nat>)
      requires q < |mediaQueries| && |Split(mediaQueries[q], ',')| > 1
      requires Wired(Page(doc.children, doc.marked, objects))
      requires var parts := Split(mediaQueries[q], ',');
        var g := Group(objects, parts[1]);
        InRange(objects, g) && (viewport(parts[0]) ==> Ready(objects, g))
      modifies this`objects, doc`children, doc`marked
      ensures var parts := Split(mediaQueries[q], ',');
        && group == Group(old(objects), parts[1])
        && Wired(Page(doc.children, doc.marked, objects))
        && Page(doc.children, doc.marked, objects)
           == Handle(Page(old(doc.children), old(doc.marked), old(objects)), viewport(parts[0]), group)
    {
      var mediaSplit := Split(mediaQueries[q], ',');
      var matches := viewport(mediaSplit[0]);
      var mediaBreakpoint := mediaSplit[1];
      group := Group(objects, mediaBreakpoint);
      MediaHandler(matches, group);
    }

    /**
     * The second loop of `init`: for each entry of `mediaQueries`, the
     * listener bound to the records of its breakpoint, and a first call of
     * its handler.
     */
    method Listen(viewport: string -> bool, ghost p0: Page, ghost gs: seq<seq<nat>>, ghost ms: seq<bool>)
      requires Setting(mode, p0, viewport, gs, ms) && mediaQueries == MediaQueries(mode, p0.rules)
      requires Turned(p0, gs, ms, 0, Page(doc.children, doc.marked, objects), listeners)
      modifies this`objects, this`listeners, doc`children, doc`marked
      ensures Turned(p0, gs, ms, |gs|, Page(doc.children, doc.marked, objects), listeners)
    {
      for q := 0 to |mediaQueries|
        invariant Turned(p0, gs, ms, q, Page(doc.children, doc.marked, objects), listeners)
      {
        Turn(viewport, p0, gs, ms, q);
      }
    }

    /** A turn of the loop: the listener of entry `q` is recorded and its handler called. */
    method Turn(viewport: string -> bool, ghost p0: Page, ghost gs: seq<seq<nat>>, ghost ms: seq<bool>, q: nat)
      requires Setting(mode, p0, viewport, gs, ms) && mediaQueries == MediaQueries(mode, p0.rules)
      requires q < |gs| && Turned(p0, gs, ms, q, Page(doc.children, doc.marked, objects), listeners)
      modifies this`objects, this`listeners, doc`children, doc`marked
      ensures Turned(p0, gs, ms, q + 1, Page(doc.children, doc.marked, objects), listeners)
    {
      TurnStep(mode, p0, viewport, gs, ms, q, Page(doc.children, doc.marked, objects), listeners);
      var group := Register(viewport, q);
      listeners := listeners + [group];
    }

    /**
     * The media-query half of `init`: one entry per distinct breakpoint
     * string, then the listener loop.
     */
    method Subscribe(viewport: string -> bool)
      requires Valid() && CommaFree(objects) && DestinationsOk(mode, objects, viewport)
      modifies this`objects, this`mediaQueries, this`listeners, doc`children, doc`marked
      ensures Valid()
      ensures var ms := Matches(mode, old(objects), viewport);
        && mediaQueries == MediaQueries(mode, old(objects))
        && listeners == Listeners(mode, old(objects))
        && StartupOk(old(objects), listeners, ms)
        && PageOf() == Run(old(PageOf()), listeners, ms)
    {
      mediaQueries := MediaQueries(mode, objects);
      ghost var p0 := PageOf();
      ghost var gs := Listeners(mode, objects);
      ghost var ms := Matches(mode, objects, viewport);
      assert gs[..0] == [] && ms[..0] == [];
      listeners := [];
      Listen(viewport, p0, gs, ms);
      assert gs[..|gs|] == gs && ms[..|ms|] == ms;
    }

    /** The first half of `init`: the records of the marked nodes, sorted by `arraySort`. */
    method Prepare(daNodes: seq<ElemId>, data: map<ElemId, string>, parents: map<ElemId, ElemId>,
                   selectors: map<string, ElemId>)
      requires Valid() && Collectable(doc.children, daNodes, data, parents, selectors)
      modifies this`nodes, this`objects
      ensures Valid() && nodes == daNodes
      ensures objects == SortedRecords(mode, doc.children, daNodes, data, parents, selectors)
    {
      Collect(daNodes, data, parents, selectors);
      ArraySort();
      SortedRecordsWired(mode, doc.children, doc.marked, daNodes, data, parents, selectors);
    }

    /**
     * `init`: the records, sorted; one entry per distinct media query; the
     * listeners and their first handler calls. The selectors stand for
     * `document.querySelector`, the viewport for
     * `window.matchMedia(condition).matches`.
     */
    method Init(daNodes: seq<ElemId>, data: map<ElemId, string>, parents: map<ElemId, ElemId>,
                selectors: map<string, ElemId>, viewport: string -> bool)
      requires Valid() && Collectable(doc.children, daNodes, data, parents, selectors)
      requires Resolvable(mode, daNodes, data, selectors, viewport)
      modifies this, doc`children, doc`marked
      ensures Valid() && Bound() && nodes == daNodes
      ensures var sorted := SortedRecords(mode, old(doc.children), daNodes, data, parents, selectors);
        var ms := Matches(mode, sorted, viewport);
        && mediaQueries == MediaQueries(mode, sorted)
        && listeners == Listeners(mode, sorted)
        && StartupOk(sorted, listeners, ms)
        && PageOf() == Run(Page(old(doc.children), old(doc.marked), sorted), listeners, ms)
      ensures NoDup(daNodes) && (forall n :: n in daNodes ==> n !in old(doc.marked)) ==> Placed(PageOf())
    {
      ghost var kids0, marked0 := doc.children, doc.marked;
      Prepare(daNodes, data, parents, selectors);
      ghost var sorted := objects;
      SortedRecordsReady(mode, doc.children, daNodes, data, parents, selectors, viewport);
      Subscribe(viewport);
      assert nodes == daNodes;
      InitPlacedWhenFresh(mode, kids0, marked0, daNodes, data, parents, selectors, viewport);
      ListenersInRange(sorted, objects, listeners);
    }

    /** `mediaHandler`, with the query's `matches` as a boolean. */
    method MediaHandler(matches: bool, g: seq<nat>)
      requires Valid() && InRange(objects, g) && (matches ==> Ready(objects, g))
      modifies this`objects, doc`children, doc`marked
      ensures Valid()
      ensures PageOf() == Handle(old(PageOf()), matches, g)
    {
      if matches {
        ActivateAll(g);
      } else {
        DeactivateAll(g);
      }
    }

    /** `arraySort`: the records in comparator order, none lost or added. */
    method ArraySort()
      modifies this`objects
      ensures objects == SortRules(mode, old(objects))
    {
      objects := SortRules(mode, objects);
    }

    /** A listener firing: the query at position `q` changed to `matches`. */
    method OnChange(q: nat, matches: bool)
      requires Valid() && Bound() && q < |listeners|
      requires matches ==> Ready(objects, listeners[q])
      modifies this`objects, doc`children, doc`marked
      ensures Valid() && Bound() && listeners == old(listeners)
      ensures PageOf() == Handle(old(PageOf()), matches, old(listeners[q]))
      ensures Placed(old(PageOf())) ==> Placed(PageOf())
    {
      ghost var p0 := PageOf();
      MediaHandler(matches, listeners[q]);
      if Placed(p0) {
        HandlePlaced(p0, matches, listeners[q]);
      }
    }
  }
}
