/**
 * The `:focus-visible` polyfill applied to one scope: a keyboard-modality
 * flag driven by key, pointer and visibility events, and the `focus-visible`
 * class that focus adds and blur takes away again. The class the polyfill
 * adds is tagged with the `data-focus-visible-added` attribute, so that a
 * class the author wrote into the page is never removed.
 */
module FocusVisible {
  import opened Wrappers
  import opened Dom

  /**
   * What the handlers read of a node. `nodeName` is also its `tagName`
   * (upper case for HTML elements); `hasClassList` stands for
   * `'classList' in el && 'contains' in el.classList`.
   */
  datatype Node = Node(
    id: ElemId,
    isDocument: bool,
    nodeName: string,
    hasClassList: bool,
    inputType: string,
    readOnly: bool,
    isContentEditable: bool)

  /** An element's `focus-visible` class and `data-focus-visible-added` attribute. */
  datatype Mark = Mark(hasClass: bool, added: bool)

  /**
   * The closure state of one application of the polyfill: the two flags,
   * whether the initial-pointer-move listeners are installed, and the marks
   * of the elements (an element missing from the map has neither).
   */
  datatype State = State(
    hadKeyboardEvent: bool,
    hadFocusVisibleRecently: bool,
    watching: bool,
    marks: map<ElemId, Mark>)

  /**
   * The events the polyfill listens to. `PointerDown` is a captured
   * mousedown, pointerdown or touchstart; `InitialPointerMove` is any of the
   * nine pointer events of the initial listeners, with its target's
   * `nodeName`; `FocusVisibleTimeout` is the expiry of the 100 ms timer
   * armed by the last blur that removed a class.
   */
  datatype Event =
    | KeyDown(metaKey: bool, altKey: bool, ctrlKey: bool, active: Option<Node>)
    | PointerDown
    | Focus(target: Option<Node>)
    | Blur(target: Option<Node>)
    | VisibilityChange(hidden: bool)
    | InitialPointerMove(targetName: string)
    | FocusVisibleTimeout

  /** The `type` values of an `INPUT` that always shows focus. */
  const InputTypesAllowlist: set<string> :=
    {"text", "search", "url", "tel", "email", "password", "number",
     "date", "month", "week", "time", "datetime", "datetime-local"}

  /** `isValidFocusTarget`: not null, not the document, `HTML` or `BODY`, and with a class list. */
  predicate IsValidFocusTarget(el: Option<Node>) {
    && el.Some?
    && !el.value.isDocument
    && el.value.nodeName != "HTML"
    && el.value.nodeName != "BODY"
    && el.value.hasClassList
  }

  /** `focusTriggersKeyboardModality`: an editable text field or a content-editable element. */
  predicate FocusTriggersKeyboardModality(el: Node) {
    || (el.nodeName == "INPUT" && el.inputType in InputTypesAllowlist && !el.readOnly)
    || (el.nodeName == "TEXTAREA" && !el.readOnly)
    || el.isContentEditable
  }

  /** `String.prototype.toLowerCase` on ASCII letters. */
  function ToLower(s: string): (r: string)
    ensures |r| == |s|
    ensures forall i :: 0 <= i < |s| && !('A' <= s[i] <= 'Z') ==> r[i] == s[i]
    ensures forall i :: 0 <= i < |s| && 'A' <= s[i] <= 'Z' ==> r[i] == (s[i] as int + 32) as char
  {
    if s == [] then []
    else
      var c := if 'A' <= s[0] <= 'Z' then (s[0] as int + 32) as char else s[0];
      [c] + ToLower(s[1..])
  }

  /** The mark of an element; an element never touched has neither class nor attribute. */
  function MarkOf(marks: map<ElemId, Mark>, id: ElemId): (m: Mark) {
    if id in marks then marks[id] else Mark(false, false)
  }

  /**
   * `addFocusVisibleClass`: nothing when the class is already there,
   * otherwise the class together with the attribute.
   */
  function AddFocusVisibleClass(marks: map<ElemId, Mark>, id: ElemId): (r: map<ElemId, Mark>)
    ensures MarkOf(r, id).hasClass
    ensures MarkOf(marks, id).hasClass ==> r == marks
    ensures !MarkOf(marks, id).hasClass ==> MarkOf(r, id).added
    ensures forall x :: x != id ==> MarkOf(r, x) == MarkOf(marks, x)
  {
    if MarkOf(marks, id).hasClass then marks else marks[id := Mark(true, true)]
  }

  /**
   * `removeFocusVisibleClass`: nothing unless the attribute is there,
   * otherwise neither class nor attribute is left.
   */
  function RemoveFocusVisibleClass(marks: map<ElemId, Mark>, id: ElemId): (r: map<ElemId, Mark>)
    ensures !MarkOf(r, id).added
    ensures !MarkOf(marks, id).added ==> r == marks
    ensures MarkOf(marks, id).added ==> !MarkOf(r, id).hasClass
    ensures forall x :: x != id ==> MarkOf(r, x) == MarkOf(marks, x)
  {
    if !MarkOf(marks, id).added then marks else marks[id := Mark(false, false)]
  }

  /** The state right after `applyFocusVisiblePolyfill`: keyboard modality, listeners installed. */
  function Start(marks: map<ElemId, Mark>): (s: State) {
    State(true, false, true, marks)
  }

  /** One handler run: `onKeyDown`, `onPointerDown`, `onFocus`, `onBlur`, `onVisibilityChange`, `onInitialPointerMove`, or the timer. */
  function Step(s: State, e: Event): (r: State) {
    match e
    case KeyDown(meta, alt, ctrl, active) =>
      if meta || alt || ctrl then s
      else
        var marks := if IsValidFocusTarget(active) then AddFocusVisibleClass(s.marks, active.value.id) else s.marks;
        s.(marks := marks, hadKeyboardEvent := true)
    case PointerDown =>
      s.(hadKeyboardEvent := false)
    case Focus(target) =>
      if !IsValidFocusTarget(target) then s
      else if s.hadKeyboardEvent || FocusTriggersKeyboardModality(target.value) then
        s.(marks := AddFocusVisibleClass(s.marks, target.value.id))
      else s
    case Blur(target) =>
      if !IsValidFocusTarget(target) then s
      else
        var m := MarkOf(s.marks, target.value.id);
        if m.hasClass || m.added then
          s.(hadFocusVisibleRecently := true, marks := RemoveFocusVisibleClass(s.marks, target.value.id))
        else s
    case VisibilityChange(hidden) =>
      if !hidden then s
      else s.(hadKeyboardEvent := s.hadKeyboardEvent || s.hadFocusVisibleRecently, watching := true)
    case InitialPointerMove(name) =>
      if !s.watching || (name != "" && ToLower(name) == "html") then s
      else s.(hadKeyboardEvent := false, watching := false)
    case FocusVisibleTimeout =>
      s.(hadFocusVisibleRecently := false)
  }

  /** The handlers run for each event of a trace, in order. */
  function Run(s: State, es: seq<Event>): (r: State)
    decreases |es|
  {
    if es == [] then s else Run(Step(s, es[0]), es[1..])
  }

  /** Every `data-focus-visible-added` attribute sits on an element with the class. */
  predicate Consistent(s: State) {
    forall id :: id in s.marks ==> (s.marks[id].added ==> s.marks[id].hasClass)
  }

  /** A class the author wrote (class without the polyfill's attribute). */
  predicate AuthorClass(s: State, id: ElemId) {
    MarkOf(s.marks, id) == Mark(true, false)
  }

  /** Adding is idempotent: a second `addFocusVisibleClass` changes nothing. */
  lemma AddIdempotent(marks: map<ElemId, Mark>, id: ElemId)
    ensures AddFocusVisibleClass(AddFocusVisibleClass(marks, id), id) == AddFocusVisibleClass(marks, id)
  {
  }

  /** Removing after adding restores an element that had neither class nor attribute. */
  lemma AddThenRemove(marks: map<ElemId, Mark>, id: ElemId)
    requires MarkOf(marks, id) == Mark(false, false)
    ensures forall x :: MarkOf(RemoveFocusVisibleClass(AddFocusVisibleClass(marks, id), id), x) == MarkOf(marks, x)
  {
  }

  /** Every handler keeps the attribute only on elements with the class. */
  lemma StepConsistent(s: State, e: Event)
    requires Consistent(s)
    ensures Consistent(Step(s, e))
  {
  }

  lemma {:induction false} RunConsistent(s: State, es: seq<Event>)
    requires Consistent(s)
    ensures Consistent(Run(s, es))
    decreases |es|
  {
    if es != [] {
      StepConsistent(s, es[0]);
      RunConsistent(Step(s, es[0]), es[1..]);
    }
  }

  /** No handler takes away, or tags, a class the author wrote. */
  lemma StepKeepsAuthorClass(s: State, e: Event, id: ElemId)
    requires AuthorClass(s, id)
    ensures AuthorClass(Step(s, e), id)
  {
  }

  /** Whatever events arrive, an author's `focus-visible` class stays, untagged. */
  lemma {:induction false} RunKeepsAuthorClass(s: State, es: seq<Event>, id: ElemId)
    requires AuthorClass(s, id)
    ensures AuthorClass(Run(s, es), id)
    decreases |es|
  {
    if es != [] {
      StepKeepsAuthorClass(s, es[0], id);
      RunKeepsAuthorClass(Step(s, es[0]), es[1..], id);
    }
  }

  /** A key press without meta, alt or control switches to keyboard modality and marks the focused element. */
  lemma PlainKeyDown(s: State, active: Option<Node>)
    ensures var t := Step(s, KeyDown(false, false, false, active));
      && t.hadKeyboardEvent
      && t.hadFocusVisibleRecently == s.hadFocusVisibleRecently && t.watching == s.watching
      && (IsValidFocusTarget(active) ==> MarkOf(t.marks, active.value.id).hasClass)
      && (!IsValidFocusTarget(active) ==> t.marks == s.marks)
  {
  }

  /** A key press with a modifier is ignored altogether. */
  lemma ModifiedKeyDown(s: State, meta: bool, alt: bool, ctrl: bool, active: Option<Node>)
    requires meta || alt || ctrl
    ensures Step(s, KeyDown(meta, alt, ctrl, active)) == s
  {
  }

  /** A pointer press leaves keyboard modality and touches nothing else. */
  lemma PointerLeavesKeyboard(s: State)
    ensures Step(s, PointerDown) == s.(hadKeyboardEvent := false)
  {
  }

  /**
   * The focus rule: a valid target that lacked the class gets it exactly
   * when the last modality was the keyboard or the element is a text field;
   * the flags and every other element are left alone.
   */
  lemma FocusRule(s: State, target: Option<Node>)
    requires target.Some? && !MarkOf(s.marks, target.value.id).hasClass
    ensures var t := Step(s, Focus(target));
      && (MarkOf(t.marks, target.value.id).hasClass
          <==> IsValidFocusTarget(target) && (s.hadKeyboardEvent || FocusTriggersKeyboardModality(target.value)))
      && t.hadKeyboardEvent == s.hadKeyboardEvent
      && t.hadFocusVisibleRecently == s.hadFocusVisibleRecently
      && (forall x :: x != target.value.id ==> MarkOf(t.marks, x) == MarkOf(s.marks, x))
  {
  }

  /**
   * The blur rule: a valid target loses the polyfill's class (an author's
   * stays), and the "recently" flag records whether it had one or the other.
   */
  lemma BlurRule(s: State, target: Option<Node>)
    requires Consistent(s) && IsValidFocusTarget(target)
    ensures var t := Step(s, Blur(target));
      var m := MarkOf(s.marks, target.value.id);
      && !MarkOf(t.marks, target.value.id).added
      && (MarkOf(t.marks, target.value.id).hasClass <==> m == Mark(true, false))
      && t.hadFocusVisibleRecently == (s.hadFocusVisibleRecently || m.hasClass)
      && t.hadKeyboardEvent == s.hadKeyboardEvent
  {
  }

  /** Focus then blur of an untouched element leaves its mark as it was. */
  lemma FocusThenBlur(s: State, target: Option<Node>)
    requires Consistent(s) && IsValidFocusTarget(target) && MarkOf(s.marks, target.value.id) == Mark(false, false)
    ensures var t := Run(s, [Focus(target), Blur(target)]);
      MarkOf(t.marks, target.value.id) == Mark(false, false)
  {
    var es := [Focus(target), Blur(target)];
    var s1 := Step(s, Focus(target));
    assert es[1..] == [Blur(target)];
    assert Run(s, es) == Run(s1, [Blur(target)]);
    assert Run(s1, [Blur(target)]) == Run(Step(s1, Blur(target)), []);
  }

  /**
   * Switching tabs away right after a blur that removed a class restores
   * keyboard modality, so the refocus shows the class again.
   */
  lemma TabSwitchRestoresKeyboard(s: State, target: Option<Node>)
    requires Consistent(s) && IsValidFocusTarget(target) && MarkOf(s.marks, target.value.id).added
    ensures var t := Run(s, [Blur(target), VisibilityChange(true), Focus(target)]);
      t.hadKeyboardEvent && MarkOf(t.marks, target.value.id).hasClass
  {
    var es := [Blur(target), VisibilityChange(true), Focus(target)];
    var s1 := Step(s, Blur(target));
    var s2 := Step(s1, VisibilityChange(true));
    assert es[1..] == [VisibilityChange(true), Focus(target)];
    assert es[1..][1..] == [Focus(target)];
    assert Run(s, es) == Run(s1, es[1..]);
    assert Run(s1, es[1..]) == Run(s2, [Focus(target)]);
    assert Run(s2, [Focus(target)]) == Run(Step(s2, Focus(target)), []);
  }

  /** Events that can leave keyboard modality. */
  predicate LeavesKeyboard(e: Event) {
    e.PointerDown? || e.InitialPointerMove?
  }

  /** Events that can enter keyboard modality. */
  predicate EntersKeyboard(e: Event) {
    (e.KeyDown? && !(e.metaKey || e.altKey || e.ctrlKey)) || (e.VisibilityChange? && e.hidden)
  }

  /** Keyboard modality lasts until a pointer event. */
  lemma {:induction false} KeyboardPersists(s: State, es: seq<Event>)
    requires s.hadKeyboardEvent
    requires forall i :: 0 <= i < |es| ==> !LeavesKeyboard(es[i])
    ensures Run(s, es).hadKeyboardEvent
    decreases |es|
  {
    if es != [] {
      KeyboardPersists(Step(s, es[0]), es[1..]);
    }
  }

  /** Pointer modality lasts until a plain key press or the tab is hidden. */
  lemma {:induction false} PointerPersists(s: State, es: seq<Event>)
    requires !s.hadKeyboardEvent
    requires forall i :: 0 <= i < |es| ==> !EntersKeyboard(es[i])
    ensures !Run(s, es).hadKeyboardEvent
    decreases |es|
  {
    if es != [] {
      PointerPersists(Step(s, es[0]), es[1..]);
    }
  }

  /** A mouse move over `<html>` (Safari on window blur) does not leave keyboard modality. */
  lemma HtmlPointerMoveIgnored(s: State)
    ensures Step(s, InitialPointerMove("HTML")) == s
  {
    assert ToLower("HTML") == "html";
  }

  /** The first pointer event elsewhere leaves keyboard modality and uninstalls the listeners. */
  lemma FirstPointerMove(s: State, name: string)
    requires s.watching && !(name != "" && ToLower(name) == "html")
    ensures var t := Step(s, InitialPointerMove(name));
      !t.hadKeyboardEvent && !t.watching && t.marks == s.marks
    ensures Step(Step(s, InitialPointerMove(name)), InitialPointerMove(name)) == Step(s, InitialPointerMove(name))
  {
  }

  /**
   * `applyFocusVisiblePolyfill(scope)`: its closure variables as fields, the
   * class lists and attributes of the scope's elements as a map, and one
   * method per handler.
   */
  class Polyfill {
    var hadKeyboardEvent: bool
    var hadFocusVisibleRecently: bool
    /** Whether the initial-pointer-move listeners are installed. */
    var watching: bool
    var marks: map<ElemId, Mark>

    function StateOf(): State
      reads this
    {
      State(hadKeyboardEvent, hadFocusVisibleRecently, watching, marks)
    }

    constructor (marks: map<ElemId, Mark>)
      ensures StateOf() == Start(marks)
    {
      hadKeyboardEvent := true;
      hadFocusVisibleRecently := false;
      watching := true;
      this.marks := marks;
    }

    method AddClass(id: ElemId)
      modifies this`marks
      ensures marks == AddFocusVisibleClass(old(marks), id)
    {
      if MarkOf(marks, id).hasClass {
        return;
      }
      marks := marks[id := Mark(true, true)];
    }

    method RemoveClass(id: ElemId)
      modifies this`marks
      ensures marks == RemoveFocusVisibleClass(old(marks), id)
    {
      if !MarkOf(marks, id).added {
        return;
      }
      marks := marks[id := Mark(false, false)];
    }

    method OnKeyDown(metaKey: bool, altKey: bool, ctrlKey: bool, active: Option<Node>)
      modifies this
      ensures StateOf() == Step(old(StateOf()), KeyDown(metaKey, altKey, ctrlKey, active))
    {
      if metaKey || altKey || ctrlKey {
        return;
      }
      if IsValidFocusTarget(active) {
        AddClass(active.value.id);
      }
      hadKeyboardEvent := true;
    }

    method OnPointerDown()
      modifies this
      ensures StateOf() == Step(old(StateOf()), PointerDown)
    {
      hadKeyboardEvent := false;
    }

    method OnFocus(target: Option<Node>)
      modifies this
      ensures StateOf() == Step(old(StateOf()), Focus(target))
    {
      if !IsValidFocusTarget(target) {
        return;
      }
      if hadKeyboardEvent || FocusTriggersKeyboardModality(target.value) {
        AddClass(target.value.id);
      }
    }

    /** `onBlur`; arming the timer is left to the `FocusVisibleTimeout` event. */
    method OnBlur(target: Option<Node>)
      modifies this
      ensures StateOf() == Step(old(StateOf()), Blur(target))
    {
      if !IsValidFocusTarget(target) {
        return;
      }
      var m := MarkOf(marks, target.value.id);
      if m.hasClass || m.added {
        hadFocusVisibleRecently := true;
        RemoveClass(target.value.id);
      }
    }

    method OnVisibilityChange(hidden: bool)
      modifies this
      ensures StateOf() == Step(old(StateOf()), VisibilityChange(hidden))
    {
      if hidden {
        if hadFocusVisibleRecently {
          hadKeyboardEvent := true;
        }
        watching := true;
      }
    }

    /** `onInitialPointerMove`, which only runs while its listeners are installed. */
    method OnInitialPointerMove(targetName: string)
      modifies this
      ensures StateOf() == Step(old(StateOf()), InitialPointerMove(targetName))
    {
      if !watching {
        return;
      }
      if targetName != "" && ToLower(targetName) == "html" {
        return;
      }
      hadKeyboardEvent := false;
      watching := false;
    }

    /** The callback of the 100 ms timer armed by `onBlur`. */
    method OnTimeout()
      modifies this
      ensures StateOf() == Step(old(StateOf()), FocusVisibleTimeout)
    {
      hadFocusVisibleRecently := false;
    }
  }
}
