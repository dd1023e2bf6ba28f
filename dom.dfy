/**
 * The part of the DOM the relocation engine touches: for every element, the
 * ordered list of its element children, and the set of elements that carry
 * the engine's marker class. Insertion follows the DOM's "pre-insert": the
 * node is first taken out of wherever it is, then put before a reference
 * child (or at the end when there is none).
 */
module Dom {
  import opened Wrappers
  import opened Seqs

  type ElemId = nat

  /** Each element's element children, in document order. */
  type Children = map<ElemId, seq<ElemId>>

  /** Every element sits at most once under at most one parent. */
  predicate WellFormed(kids: Children) {
    && (forall c :: c in kids ==> NoDup(kids[c]))
    && (forall c, d, x :: c in kids && d in kids && x in kids[c] && x in kids[d] ==> c == d)
  }

  /** Take `el` out of every child list. */
  function Detach(kids: Children, el: ElemId): (r: Children)
    ensures r.Keys == kids.Keys
    ensures forall c :: c in r ==> r[c] == Remove(kids[c], el)
  {
    map c | c in kids :: Remove(kids[c], el)
  }

  /** The element child that follows `el`, if any (`nextElementSibling`). */
  function NextSibling(s: seq<ElemId>, el: ElemId): (r: Option<ElemId>)
    requires el in s
    ensures NoDup(s) && r.Some? ==> r.value in s && r.value != el
  {
    var i := IndexOf(s, el);
    if i + 1 < |s| then Some(s[i + 1]) else None
  }

  /**
   * Where `el` lands among the other children of a list `s` when inserted
   * before `ref`: the index of the reference child once `el` is out of the
   * list (the end when there is none).
   */
  function InsertPosition(s: seq<ElemId>, el: ElemId, ref: Option<ElemId>): (pos: nat)
    requires NoDup(s) && (ref.Some? ==> ref.value in s)
    ensures pos <= |Remove(s, el)|
  {
    var rest := Remove(s, el);
    var anchor := if ref == Some(el) then NextSibling(s, el) else ref;
    if anchor.None? then |rest| else IndexOf(rest, anchor.value)
  }

  /** Detaching `el` and inserting it into one list keeps every list duplicate-free and every parent unique. */
  lemma PlaceWellFormed(kids: Children, container: ElemId, el: ElemId, pos: nat)
    requires WellFormed(kids) && container in kids && pos <= |Remove(kids[container], el)|
    ensures WellFormed(Detach(kids, el)[container := Insert(Remove(kids[container], el), pos, el)])
  {
    var rest := Remove(kids[container], el);
    InsertNoDup(rest, pos, el);
    InsertMembers(rest, pos, el);
    var r := Detach(kids, el)[container := Insert(rest, pos, el)];
    forall c, e, x | c in r && e in r && x in r[c] && x in r[e] ensures c == e {
      if x != el {
        assert x in kids[c] && x in kids[e];
      }
    }
  }

  /** Detaching `el` and inserting it into one list moves `el` and nothing else. */
  lemma PlaceMembers(kids: Children, container: ElemId, el: ElemId, pos: nat)
    requires container in kids && pos <= |Remove(kids[container], el)|
    ensures var r := Detach(kids, el)[container := Insert(Remove(kids[container], el), pos, el)];
      && r.Keys == kids.Keys && el in r[container]
      && (forall c :: c in kids ==> Remove(r[c], el) == Remove(kids[c], el))
      && (forall c, x :: c in kids && x != el ==> (x in r[c] <==> x in kids[c]))
  {
    var rest := Remove(kids[container], el);
    InsertMembers(rest, pos, el);
    RemoveInsert(rest, pos, el);
  }

  /**
   * `container.insertBefore(el, ref)`, `ref == None` meaning append. When the
   * reference child is `el` itself the DOM uses its next sibling instead.
   */
  function InsertBefore(kids: Children, container: ElemId, el: ElemId, ref: Option<ElemId>): (r: Children)
    requires WellFormed(kids) && container in kids
    requires ref.Some? ==> ref.value in kids[container]
    ensures WellFormed(r)
    ensures r.Keys == kids.Keys
    ensures el in r[container]
    ensures forall c :: c in kids ==> Remove(r[c], el) == Remove(kids[c], el)
    ensures forall c, x :: c in kids && x != el ==> (x in r[c] <==> x in kids[c])
  {
    var rest := Remove(kids[container], el);
    var pos := InsertPosition(kids[container], el, ref);
    PlaceWellFormed(kids, container, el, pos);
    PlaceMembers(kids, container, el, pos);
    Detach(kids, el)[container := Insert(rest, pos, el)]
  }

  /** Appending puts `el` last; everything else keeps its order. */
  lemma AppendPosition(kids: Children, container: ElemId, el: ElemId)
    requires WellFormed(kids) && container in kids
    ensures InsertBefore(kids, container, el, None)[container] == Remove(kids[container], el) + [el]
  {
  }

  /** Inserting before a sibling puts `el` immediately in front of it. */
  lemma InsertBeforePosition(kids: Children, container: ElemId, el: ElemId, ref: ElemId)
    requires WellFormed(kids) && container in kids && ref in kids[container] && ref != el
    ensures var s := InsertBefore(kids, container, el, Some(ref))[container];
      IndexOf(s, el) >= 0 && IndexOf(s, el) + 1 == IndexOf(s, ref)
  {
    var rest := Remove(kids[container], el);
    var pos := IndexOf(rest, ref);
    var s := Insert(rest, pos, el);
    assert s == InsertBefore(kids, container, el, Some(ref))[container];
    InsertNoDup(rest, pos, el);
    IndexOfUnique(s, pos);
    IndexOfUnique(s, pos + 1);
  }

  /** The shape of `InsertBefore`: detach `el`, then insert it at `InsertPosition`. */
  lemma InsertBeforeShape(kids: Children, container: ElemId, el: ElemId, ref: Option<ElemId>)
    requires WellFormed(kids) && container in kids
    requires ref.Some? ==> ref.value in kids[container]
    ensures InsertBefore(kids, container, el, ref)
      == Detach(kids, el)[container := Insert(Remove(kids[container], el), InsertPosition(kids[container], el, ref), el)]
  {
  }

  lemma InsertPositionOfItself(s: seq<ElemId>, el: ElemId)
    requires NoDup(s) && el in s
    ensures InsertPosition(s, el, Some(el)) == IndexOf(s, el)
  {
    var i := IndexOf(s, el);
    RemoveAt(s, i);
    var rest := Remove(s, el);
    if i + 1 < |s| {
      assert rest[i] == s[i + 1];
      IndexOfUnique(rest, i);
    }
  }

  /** Inserting an element before itself leaves the document as it was. */
  lemma InsertBeforeItself(kids: Children, container: ElemId, el: ElemId)
    requires WellFormed(kids) && container in kids && el in kids[container]
    ensures InsertBefore(kids, container, el, Some(el)) == kids
  {
    var s := kids[container];
    var i := IndexOf(s, el);
    InsertPositionOfItself(s, el);
    InsertRemoveAt(s, i);
    InsertBeforeShape(kids, container, el, Some(el));
    var r := InsertBefore(kids, container, el, Some(el));
    assert r == Detach(kids, el)[container := s];
    forall c | c in kids ensures r[c] == kids[c] {
      if c != container {
        assert el !in kids[c];
      }
    }
  }

  /** The live document: child lists and the marker class of the engine. */
  class Document {
    var children: Children
    /** Elements whose class list holds the engine's marker class. */
    var marked: set<ElemId>

    ghost predicate Valid()
      reads this
    {
      WellFormed(children)
    }

    constructor (children: Children, marked: set<ElemId>)
      requires WellFormed(children)
      ensures Valid()
      ensures this.children == children && this.marked == marked
    {
      this.children := children;
      this.marked := marked;
    }

    /** `container.insertAdjacentElement('beforeend', el)`. */
    method InsertBeforeEnd(container: ElemId, el: ElemId)
      requires Valid() && container in children
      modifies this`children
      ensures Valid()
      ensures children == InsertBefore(old(children), container, el, None)
    {
      children := InsertBefore(children, container, el, None);
    }

    /** `container.insertAdjacentElement('afterbegin', el)`: before the first child. */
    method InsertAfterBegin(container: ElemId, el: ElemId)
      requires Valid() && container in children
      modifies this`children
      ensures Valid()
      ensures children == InsertBefore(old(children), container, el,
        if old(children[container]) == [] then None else Some(old(children[container][0])))
    {
      var first := if children[container] == [] then None else Some(children[container][0]);
      children := InsertBefore(children, container, el, first);
    }

    /** `child.insertAdjacentElement('beforebegin', el)` for a child of `container`. */
    method InsertBeforeBegin(container: ElemId, child: ElemId, el: ElemId)
      requires Valid() && container in children && child in children[container]
      modifies this`children
      ensures Valid()
      ensures children == InsertBefore(old(children), container, el, Some(child))
    {
      children := InsertBefore(children, container, el, Some(child));
    }

    /** `el.classList.add(marker)`. */
    method AddMarker(el: ElemId)
      modifies this`marked
      ensures marked == old(marked) + {el}
    {
      marked := marked + {el};
    }

    /** `el.classList.remove(marker)`. */
    method RemoveMarker(el: ElemId)
      modifies this`marked
      ensures marked == old(marked) - {el}
    {
      marked := marked - {el};
    }
  }
}
