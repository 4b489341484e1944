/** The hook's state machine as values: the four pieces of React state, the pending
    `setTimeout` callbacks with a logical clock, the effect of each handler, and how the DOM
    delivers an event to the handlers registered for it. */
module CursorMachine {
  import opened Events
  import opened Registry
  import opened ClassNames

  /** `position`, `clicked`, `linkHovered` and `hidden`. */
  datatype Cursor = Cursor(position: Point, clicked: bool, linkHovered: bool, hidden: bool)

  /** A pending `setTimeout(() => setClicked(false), delay)`, due at `deadline`. */
  datatype Timer = ResetClicked(deadline: int)

  /** The cursor state together with the timers it scheduled and the current time in ms. */
  datatype Machine = Machine(cursor: Cursor, timers: seq<Timer>, now: int)

  /** The result of firing the due timers: the new cursor and the timers still waiting. */
  datatype Expired = Expired(cursor: Cursor, pending: seq<Timer>)

  /** Delay of the reset scheduled by `click`, in ms. */
  const ClickPulse := 50
  /** Delay of the reset scheduled by `dblclick`, in ms. */
  const DoubleClickPulse := 100

  /** The `useState` initial values, at clock time `start`, with nothing scheduled. */
  function Initial(start: int): (m: Machine)
    ensures ClassName(m.cursor.clicked, m.cursor.hidden, m.cursor.linkHovered) == Base
    ensures forall dt: nat :: Advance(m, dt).cursor == m.cursor
  {
    ClassNameNoFlags();
    Machine(Cursor(Point(0, 0), false, false, false), [], start)
  }

  /** What running one handler on event `e` does. No handler moves the clock; only the click
      handlers schedule, one reset each, after the ones already pending; other code's callbacks
      and `NoHandler` change nothing. */
  function Step(m: Machine, h: Handler, e: DomEvent): (r: Machine)
    ensures r.now == m.now
    ensures m.timers <= r.timers
    ensures |r.timers| == |m.timers| + (if h == OnClick || h == OnDoubleClick then 1 else 0)
    ensures h.Foreign? || h == NoHandler ==> r == m
  {
    match h
    case OnMouseMove => m.(cursor := m.cursor.(position := Point(e.clientX, e.clientY)))
    case OnMouseDown => m.(cursor := m.cursor.(clicked := true))
    case OnMouseUp => m.(cursor := m.cursor.(clicked := false))
    case OnClick =>
      m.(cursor := m.cursor.(clicked := true), timers := m.timers + [ResetClicked(m.now + ClickPulse)])
    case OnDoubleClick =>
      m.(cursor := m.cursor.(clicked := true), timers := m.timers + [ResetClicked(m.now + DoubleClickPulse)])
    case OnMouseLeave => m.(cursor := m.cursor.(hidden := true))
    case OnMouseEnter => m.(cursor := m.cursor.(hidden := false))
    case LinkOver(_) => m.(cursor := m.cursor.(linkHovered := true))
    case LinkOut(_) => m.(cursor := m.cursor.(linkHovered := false))
    case Foreign(_) => m
    case NoHandler => m
  }

  /** Handlers run one after another, each on its own event. */
  function Run(m: Machine, steps: seq<(Handler, DomEvent)>): Machine
    decreases |steps|
  {
    if steps == [] then m else Run(Step(m, steps[0].0, steps[0].1), steps[1..])
  }

  /** A timer's callback, `setClicked(false)`. */
  function Fire(c: Cursor, timer: Timer): Cursor
  {
    c.(clicked := false)
  }

  /** Fires, in scheduling order, every timer due at time `t` and keeps the others. */
  function Expire(c: Cursor, ts: seq<Timer>, t: int): Expired
    decreases |ts|
  {
    if ts == [] then Expired(c, [])
    else
      var before := Expire(c, ts[..|ts| - 1], t);
      var last := ts[|ts| - 1];
      if last.deadline <= t then Expired(Fire(before.cursor, last), before.pending)
      else Expired(before.cursor, before.pending + [last])
  }

  /** The clock moves forward by `dt` ms and the timers that came due fire. */
  function Advance(m: Machine, dt: nat): (r: Machine)
    ensures r.now == m.now + dt
    ensures r.cursor == m.cursor.(clicked := r.cursor.clicked)
    ensures r.cursor.clicked ==> m.cursor.clicked
    ensures NoneDue(r.timers, r.now)
  {
    var t := m.now + dt;
    ExpireCursor(m.cursor, m.timers, t);
    ExpireNoneDue(m.cursor, m.timers, t);
    var x := Expire(m.cursor, m.timers, t);
    Machine(x.cursor, x.pending, t)
  }

  /** No timer in `ts` is due at time `t`. */
  predicate NoneDue(ts: seq<Timer>, t: int)
  {
    forall k :: 0 <= k < |ts| ==> ts[k].deadline > t
  }

  /** No timer of `init + [last]` is due exactly when none of `init` is and `last` is not. */
  lemma NoneDueSnoc(init: seq<Timer>, last: Timer, t: int)
    ensures NoneDue(init + [last], t) <==> NoneDue(init, t) && last.deadline > t
  {
    var ts := init + [last];
    if NoneDue(init, t) && last.deadline > t {
      forall k | 0 <= k < |ts| ensures ts[k].deadline > t {
        if k < |init| { assert ts[k] == init[k]; }
      }
    }
    if NoneDue(ts, t) {
      forall k | 0 <= k < |init| ensures init[k].deadline > t {
        assert init[k] == ts[k];
      }
      assert ts[|ts| - 1] == last;
    }
  }

  /** Firing the due timers clears `clicked` exactly when at least one was due and changes
      nothing else in the cursor. */
  lemma {:induction false} ExpireCursor(c: Cursor, ts: seq<Timer>, t: int)
    ensures Expire(c, ts, t).cursor == c.(clicked := c.clicked && NoneDue(ts, t))
    decreases |ts|
  {
    if ts != [] {
      var init := ts[..|ts| - 1];
      var last := ts[|ts| - 1];
      assert ts == init + [last];
      ExpireCursor(c, init, t);
      NoneDueSnoc(init, last, t);
    }
  }

  /** Every timer still scheduled after firing is not yet due. */
  lemma {:induction false} ExpireNoneDue(c: Cursor, ts: seq<Timer>, t: int)
    ensures NoneDue(Expire(c, ts, t).pending, t)
    decreases |ts|
  {
    if ts != [] {
      var init := ts[..|ts| - 1];
      var last := ts[|ts| - 1];
      ExpireNoneDue(c, init, t);
      var before := Expire(c, init, t);
      if last.deadline > t {
        NoneDueSnoc(before.pending, last, t);
      }
    }
  }

  /** The timers still scheduled are precisely those of `ts` not yet due, each as often as it
      was scheduled. */
  lemma {:induction false} ExpireKeeps(c: Cursor, ts: seq<Timer>, t: int)
    ensures forall x :: multiset(Expire(c, ts, t).pending)[x] == (if x.deadline > t then multiset(ts)[x] else 0)
    decreases |ts|
  {
    if ts != [] {
      var init := ts[..|ts| - 1];
      var last := ts[|ts| - 1];
      assert ts == init + [last];
      ExpireKeeps(c, init, t);
    }
  }

  /** Advancing the clock by `dt` clears `clicked` exactly when a pending reset comes due,
      and leaves the position and the other two flags alone. */
  lemma AdvanceMeaning(m: Machine, dt: nat)
    ensures Advance(m, dt).now == m.now + dt
    ensures Advance(m, dt).cursor == m.cursor.(clicked := m.cursor.clicked && NoneDue(m.timers, m.now + dt))
    ensures NoneDue(Advance(m, dt).timers, m.now + dt)
  {
    ExpireCursor(m.cursor, m.timers, m.now + dt);
    ExpireNoneDue(m.cursor, m.timers, m.now + dt);
    ExpireKeeps(m.cursor, m.timers, m.now + dt);
  }

  /** After any run of move events, the position is the last event's coordinates and
      nothing else has changed. */
  lemma {:induction false} MovesEndAtLast(m: Machine, steps: seq<(Handler, DomEvent)>)
    requires |steps| > 0
    requires forall i :: 0 <= i < |steps| ==> steps[i].0 == OnMouseMove
    ensures Run(m, steps) == m.(cursor := m.cursor.(position :=
      Point(steps[|steps| - 1].1.clientX, steps[|steps| - 1].1.clientY)))
    decreases |steps|
  {
    if |steps| > 1 {
      MovesEndAtLast(Step(m, OnMouseMove, steps[0].1), steps[1..]);
    }
  }

  /** A click or double click sets `clicked` at once and schedules one reset, 50 ms or 100 ms on.
      Once that delay has passed the flag is clear; before it, it stays set unless an older reset
      comes due. */
  lemma Pulse(m: Machine, h: Handler, e: DomEvent, dt: nat)
    requires h == OnClick || h == OnDoubleClick
    ensures Step(m, h, e).cursor == m.cursor.(clicked := true)
    ensures Step(m, h, e).timers ==
      m.timers + [ResetClicked(m.now + if h == OnClick then ClickPulse else DoubleClickPulse)]
    ensures dt >= (if h == OnClick then ClickPulse else DoubleClickPulse) ==>
      !Advance(Step(m, h, e), dt).cursor.clicked
    ensures dt < (if h == OnClick then ClickPulse else DoubleClickPulse) ==>
      (Advance(Step(m, h, e), dt).cursor.clicked <==> NoneDue(m.timers, m.now + dt))
  {
    var s := Step(m, h, e);
    var delay := if h == OnClick then ClickPulse else DoubleClickPulse;
    AdvanceMeaning(s, dt);
    var last := ResetClicked(m.now + delay);
    assert s.timers == m.timers + [last];
    assert s.timers[|s.timers| - 1] == last;
    if dt < delay {
      assert NoneDue(s.timers, m.now + dt) <==> NoneDue(m.timers, m.now + dt) by {
        if NoneDue(m.timers, m.now + dt) {
          forall k | 0 <= k < |s.timers| ensures s.timers[k].deadline > m.now + dt {
            if k < |m.timers| { assert s.timers[k] == m.timers[k]; }
          }
        }
        if NoneDue(s.timers, m.now + dt) {
          forall k | 0 <= k < |m.timers| ensures m.timers[k].deadline > m.now + dt {
            assert m.timers[k] == s.timers[k];
          }
        }
      }
    }
  }

  /** The reset scheduled by a click clears `clicked` even when a press came after the click. */
  lemma ResetOverridesLaterPress(m: Machine, click: DomEvent, press: DomEvent, dt: nat)
    requires dt >= ClickPulse
    ensures Step(Step(m, OnClick, click), OnMouseDown, press).cursor.clicked
    ensures !Advance(Step(Step(m, OnClick, click), OnMouseDown, press), dt).cursor.clicked
  {
    var s := Step(Step(m, OnClick, click), OnMouseDown, press);
    AdvanceMeaning(s, dt);
    assert s.timers[|s.timers| - 1] == ResetClicked(m.now + ClickPulse);
  }

  /** Press, wait, release: `clicked` ends clear and no reset is left scheduled. */
  lemma PressRelease(m: Machine, down: DomEvent, up: DomEvent, wait: nat, later: nat)
    requires m.timers == []
    ensures Step(m, OnMouseDown, down).cursor.clicked
    ensures Step(Advance(Step(m, OnMouseDown, down), wait), OnMouseUp, up).timers == []
    ensures !Advance(Step(Advance(Step(m, OnMouseDown, down), wait), OnMouseUp, up), later).cursor.clicked
  {
    var pressed := Advance(Step(m, OnMouseDown, down), wait);
    AdvanceMeaning(Step(m, OnMouseDown, down), wait);
    assert pressed.cursor.clicked;
    assert pressed.timers == [];
    AdvanceMeaning(Step(pressed, OnMouseUp, up), later);
  }

  /** Only `mouseleave`/`pointercancel` and `mouseenter` touch `hidden`; only the anchor handlers
      touch `linkHovered`; only move touches the position. */
  lemma {:induction false} FlagsIndependent(m: Machine, steps: seq<(Handler, DomEvent)>)
    ensures (forall i :: 0 <= i < |steps| ==> steps[i].0 != OnMouseLeave && steps[i].0 != OnMouseEnter) ==>
      Run(m, steps).cursor.hidden == m.cursor.hidden
    ensures (forall i :: 0 <= i < |steps| ==> !steps[i].0.LinkOver? && !steps[i].0.LinkOut?) ==>
      Run(m, steps).cursor.linkHovered == m.cursor.linkHovered
    ensures (forall i :: 0 <= i < |steps| ==> steps[i].0 != OnMouseMove) ==>
      Run(m, steps).cursor.position == m.cursor.position
    decreases |steps|
  {
    if steps != [] {
      var next := Step(m, steps[0].0, steps[0].1);
      FlagsIndependent(next, steps[1..]);
      assert forall i :: 0 <= i < |steps[1..]| ==> steps[1..][i] == steps[i + 1];
    }
  }

  /** Every combination of the three flags can be reached from the initial state. */
  lemma AllCombinationsReachable(start: int, e: DomEvent, clicked: bool, hidden: bool, linkHovered: bool)
    ensures Run(Initial(start), [
      (if clicked then OnMouseDown else OnMouseUp, e),
      (if hidden then OnMouseLeave else OnMouseEnter, e),
      (if linkHovered then LinkOver(0) else LinkOut(0), e)]).cursor
      == Cursor(Point(0, 0), clicked, linkHovered, hidden)
  {
    var steps := [
      (if clicked then OnMouseDown else OnMouseUp, e),
      (if hidden then OnMouseLeave else OnMouseEnter, e),
      (if linkHovered then LinkOver(0) else LinkOut(0), e)];
    var m1 := Step(Initial(start), steps[0].0, e);
    var m2 := Step(m1, steps[1].0, e);
    var m3 := Step(m2, steps[2].0, e);
    assert steps[1..][1..][1..] == [];
    assert Run(Initial(start), steps) == Run(m1, steps[1..]);
    assert Run(m1, steps[1..]) == Run(m2, steps[1..][1..]);
    assert Run(m2, steps[1..][1..]) == m3;
  }

  // ---------------------------------------------------------------------------------------
  // Delivery of DOM events to registered listeners.

  /** The listener runs when the event reaches `at` and its type matches. */
  predicate Matches(l: Listener, at: Target, e: DomEvent)
  {
    l.target == at && l.kind == e.kind
  }

  /** Runs, in registration order, the listeners attached to `at` for the event's type. */
  function DispatchAt(m: Machine, ls: seq<Listener>, at: Target, e: DomEvent): Machine
    decreases |ls|
  {
    if ls == [] then m
    else DispatchAt(if Matches(ls[0], at, e) then Step(m, ls[0].handler, e) else m, ls[1..], at, e)
  }

  /** Delivery: first the listeners on the target, then, for a bubbling event fired at an
      element, those on the document. */
  function Dispatch(m: Machine, ls: seq<Listener>, e: DomEvent): Machine
  {
    var m1 := DispatchAt(m, ls, e.target, e);
    if e.target != Doc && Bubbles(e.kind) then DispatchAt(m1, ls, Doc, e) else m1
  }

  /** The eleven (type, callback) pairs `addEventListeners` puts on the document, in its order:
      the move and enter/leave listeners, then the press/release listeners, then the click ones. */
  const DocumentListeners: seq<Listener> := PointerListeners + ButtonListeners + ClickListeners

  /** Lines 32-36: the move, enter/leave and cancel listeners. */
  const PointerListeners: seq<Listener> := [
    Listener(Doc, MouseMove, OnMouseMove),
    Listener(Doc, PointerMove, OnMouseMove),
    Listener(Doc, MouseEnter, OnMouseEnter),
    Listener(Doc, MouseLeave, OnMouseLeave),
    Listener(Doc, PointerCancel, OnMouseLeave)]

  /** Lines 37-40: the press and release listeners. */
  const ButtonListeners: seq<Listener> := [
    Listener(Doc, MouseDown, OnMouseDown),
    Listener(Doc, PointerDown, OnMouseDown),
    Listener(Doc, MouseUp, OnMouseUp),
    Listener(Doc, PointerUp, OnMouseUp)]

  /** Lines 41-42: the click and double-click listeners. */
  const ClickListeners: seq<Listener> := [
    Listener(Doc, Click, OnClick),
    Listener(Doc, DblClick, OnDoubleClick)]

  /** The two listeners `handleLinkHoverEvents` attaches to one anchor. */
  function AnchorPair(a: nat): seq<Listener>
  {
    [Listener(Element(a), MouseOver, LinkOver(a)), Listener(Element(a), MouseOut, LinkOut(a))]
  }

  /** The listeners `handleLinkHoverEvents` attaches, anchor by anchor in scan order. */
  function AnchorListeners(anchors: seq<nat>): (r: seq<Listener>)
    ensures |r| == 2 * |anchors|
    decreases |anchors|
  {
    if anchors == [] then []
    else AnchorListeners(anchors[..|anchors| - 1]) + AnchorPair(anchors[|anchors| - 1])
  }

  /** The registry once the hook's effect has run on a registry `s`. */
  function Mounted(s: seq<Listener>, anchors: seq<nat>): (r: seq<Listener>)
    ensures s <= r
    ensures |r| <= |s| + |DocumentListeners| + 2 * |anchors|
  {
    AddAllKeeps(s, DocumentListeners);
    AddAllKeeps(AddAll(s, DocumentListeners), AnchorListeners(anchors));
    AddAll(AddAll(s, DocumentListeners), AnchorListeners(anchors))
  }

  /** The document-level event table: which handler each event type on the document reaches. */
  function DocumentHandler(kind: EventType): (h: Handler)
  {
    if kind == MouseMove || kind == PointerMove then OnMouseMove
    else if kind == MouseEnter then OnMouseEnter
    else if kind == MouseLeave || kind == PointerCancel then OnMouseLeave
    else if kind == MouseDown || kind == PointerDown then OnMouseDown
    else if kind == MouseUp || kind == PointerUp then OnMouseUp
    else if kind == Click then OnClick
    else if kind == DblClick then OnDoubleClick
    else NoHandler
  }

  lemma {:induction false} DispatchAtAppend(m: Machine, a: seq<Listener>, b: seq<Listener>, at: Target,
                                            e: DomEvent)
    ensures DispatchAt(m, a + b, at, e) == DispatchAt(DispatchAt(m, a, at, e), b, at, e)
    decreases |a|
  {
    if a == [] {
      assert a + b == b;
    } else {
      assert (a + b)[0] == a[0];
      assert (a + b)[1..] == a[1..] + b;
      DispatchAtAppend(if Matches(a[0], at, e) then Step(m, a[0].handler, e) else m, a[1..], b, at, e);
    }
  }

  /** Listeners that never match, or that belong to other code, leave the state alone. */
  lemma {:induction false} DispatchAtInert(m: Machine, ls: seq<Listener>, at: Target, e: DomEvent)
    requires forall i :: 0 <= i < |ls| ==> Matches(ls[i], at, e) ==> IsForeign(ls[i])
    ensures DispatchAt(m, ls, at, e) == m
    decreases |ls|
  {
    if ls != [] {
      assert forall i :: 0 <= i < |ls[1..]| ==> ls[1..][i] == ls[i + 1];
      DispatchAtInert(m, ls[1..], at, e);
    }
  }

  /** Delivery over listeners none of which matches changes nothing. */
  lemma {:induction false} DispatchAtNoMatch(m: Machine, ls: seq<Listener>, at: Target, e: DomEvent)
    requires forall j :: 0 <= j < |ls| ==> !Matches(ls[j], at, e)
    ensures DispatchAt(m, ls, at, e) == m
    decreases |ls|
  {
    if ls != [] {
      assert !Matches(ls[0], at, e);
      assert forall j :: 0 <= j < |ls[1..]| ==> ls[1..][j] == ls[j + 1];
      DispatchAtNoMatch(m, ls[1..], at, e);
    }
  }

  /** Delivery over listeners of which only entry `k` matches runs that entry's handler once. */
  lemma {:induction false} DispatchAtOnly(m: Machine, ls: seq<Listener>, at: Target, e: DomEvent, k: nat)
    requires k < |ls| && Matches(ls[k], at, e)
    requires forall j :: 0 <= j < |ls| && j != k ==> !Matches(ls[j], at, e)
    ensures DispatchAt(m, ls, at, e) == Step(m, ls[k].handler, e)
    decreases |ls|
  {
    assert forall j :: 0 <= j < |ls[1..]| ==> ls[1..][j] == ls[j + 1];
    if k == 0 {
      DispatchAtNoMatch(Step(m, ls[0].handler, e), ls[1..], at, e);
    } else {
      assert !Matches(ls[0], at, e);
      DispatchAtOnly(m, ls[1..], at, e, k - 1);
    }
  }

  /** The document's eleven listeners run exactly the handler the event table names. */
  lemma DocumentListenersDispatch(m: Machine, e: DomEvent)
    ensures DispatchAt(m, DocumentListeners, Doc, e) == Step(m, DocumentHandler(e.kind), e)
  {
    DispatchAtAppend(m, PointerListeners + ButtonListeners, ClickListeners, Doc, e);
    DispatchAtAppend(m, PointerListeners, ButtonListeners, Doc, e);
    var m1 := DispatchAt(m, PointerListeners, Doc, e);
    PointerDispatch(m, e);
    ButtonDispatch(m1, e);
    ClickDispatch(DispatchAt(m1, ButtonListeners, Doc, e), e);
  }

  /** The event types of each group of document listeners. */
  predicate IsPointerKind(kind: EventType)
  {
    kind == MouseMove || kind == PointerMove || kind == MouseEnter || kind == MouseLeave
      || kind == PointerCancel
  }

  predicate IsButtonKind(kind: EventType)
  {
    kind == MouseDown || kind == PointerDown || kind == MouseUp || kind == PointerUp
  }

  predicate IsClickKind(kind: EventType)
  {
    kind == Click || kind == DblClick
  }

  lemma PointerDispatch(m: Machine, e: DomEvent)
    ensures DispatchAt(m, PointerListeners, Doc, e)
      == if IsPointerKind(e.kind) then Step(m, DocumentHandler(e.kind), e) else m
  {
    var ls := PointerListeners;
    if IsPointerKind(e.kind) {
      if e.kind == MouseMove {
        assert ls[0].handler == DocumentHandler(e.kind);
        DispatchAtOnly(m, ls, Doc, e, 0);
      } else if e.kind == PointerMove {
        assert ls[1].handler == DocumentHandler(e.kind);
        DispatchAtOnly(m, ls, Doc, e, 1);
      } else if e.kind == MouseEnter {
        assert ls[2].handler == DocumentHandler(e.kind);
        DispatchAtOnly(m, ls, Doc, e, 2);
      } else if e.kind == MouseLeave {
        assert ls[3].handler == DocumentHandler(e.kind);
        DispatchAtOnly(m, ls, Doc, e, 3);
      } else {
        assert ls[4].handler == DocumentHandler(e.kind);
        DispatchAtOnly(m, ls, Doc, e, 4);
      }
    } else {
      DispatchAtNoMatch(m, ls, Doc, e);
    }
  }

  lemma ButtonDispatch(m: Machine, e: DomEvent)
    ensures DispatchAt(m, ButtonListeners, Doc, e)
      == if IsButtonKind(e.kind) then Step(m, DocumentHandler(e.kind), e) else m
  {
    var ls := ButtonListeners;
    if IsButtonKind(e.kind) {
      if e.kind == MouseDown {
        assert ls[0].handler == DocumentHandler(e.kind);
        DispatchAtOnly(m, ls, Doc, e, 0);
      } else if e.kind == PointerDown {
        assert ls[1].handler == DocumentHandler(e.kind);
        DispatchAtOnly(m, ls, Doc, e, 1);
      } else if e.kind == MouseUp {
        assert ls[2].handler == DocumentHandler(e.kind);
        DispatchAtOnly(m, ls, Doc, e, 2);
      } else {
        assert ls[3].handler == DocumentHandler(e.kind);
        DispatchAtOnly(m, ls, Doc, e, 3);
      }
    } else {
      DispatchAtNoMatch(m, ls, Doc, e);
    }
  }

  lemma ClickDispatch(m: Machine, e: DomEvent)
    ensures DispatchAt(m, ClickListeners, Doc, e)
      == if IsClickKind(e.kind) then Step(m, DocumentHandler(e.kind), e) else m
  {
    var ls := ClickListeners;
    if IsClickKind(e.kind) {
      if e.kind == Click {
        assert ls[0].handler == DocumentHandler(e.kind);
        DispatchAtOnly(m, ls, Doc, e, 0);
      } else {
        assert ls[1].handler == DocumentHandler(e.kind);
        DispatchAtOnly(m, ls, Doc, e, 1);
      }
    } else {
      DispatchAtNoMatch(m, ls, Doc, e);
    }
  }

  lemma {:induction false} AnchorListenersAppend(a: seq<nat>, b: seq<nat>)
    ensures AnchorListeners(a + b) == AnchorListeners(a) + AnchorListeners(b)
    decreases |b|
  {
    if b == [] {
      assert a + b == a;
    } else {
      var b' := b[..|b| - 1];
      assert (a + b)[..|a + b| - 1] == a + b';
      assert (a + b)[|a + b| - 1] == b[|b| - 1];
      AnchorListenersAppend(a, b');
    }
  }

  lemma DocumentListenersNoDup()
    ensures NoDup(DocumentListeners)
  {
  }

  /** Every listener in `s` belongs to other code. */
  predicate AllForeign(s: seq<Listener>)
  {
    forall l :: l in s ==> IsForeign(l)
  }

  /** The handler an anchor's own listeners run for an event fired at it. */
  function AnchorHandler(a: nat, kind: EventType): Handler
  {
    if kind == MouseOver then LinkOver(a)
    else if kind == MouseOut then LinkOut(a)
    else NoHandler
  }

  /** What an event does to the state when the document carries the hook's eleven listeners
      (`documentWired`) or not, and the scanned `anchors` carry their hover listeners: the
      anchor's own listener first, then, if the event bubbles, the document's. */
  function Reaction(m: Machine, documentWired: bool, anchors: seq<nat>, e: DomEvent): Machine
  {
    if e.target == Doc then
      (if documentWired then Step(m, DocumentHandler(e.kind), e) else m)
    else
      var m1 := if e.target.id in anchors then Step(m, AnchorHandler(e.target.id, e.kind), e) else m;
      if documentWired && Bubbles(e.kind) then Step(m1, DocumentHandler(e.kind), e) else m1
  }

  /** Delivery to anchor `a` over the pair attached to anchor `b`. */
  lemma AnchorPairDispatch(m: Machine, b: nat, a: nat, e: DomEvent)
    ensures DispatchAt(m, AnchorPair(b), Element(a), e) ==
      if a == b then Step(m, AnchorHandler(a, e.kind), e) else m
  {
    var ls := AnchorPair(b);
    if a == b && e.kind == MouseOver {
      DispatchAtOnly(m, ls, Element(a), e, 0);
    } else if a == b && e.kind == MouseOut {
      DispatchAtOnly(m, ls, Element(a), e, 1);
    } else {
      DispatchAtNoMatch(m, ls, Element(a), e);
    }
  }

  /** Delivery to an anchor runs that anchor's hover listener, once, when the scan found it. */
  lemma {:induction false} AnchorListenersDispatch(m: Machine, anchors: seq<nat>, a: nat, e: DomEvent)
    requires NoDup(anchors)
    ensures DispatchAt(m, AnchorListeners(anchors), Element(a), e) ==
      if a in anchors then Step(m, AnchorHandler(a, e.kind), e) else m
    decreases |anchors|
  {
    if anchors != [] {
      var init := anchors[..|anchors| - 1];
      var last := anchors[|anchors| - 1];
      assert anchors == init + [last];
      assert NoDup(init) by {
        forall i, j | 0 <= i < j < |init| ensures init[i] != init[j] {
          assert init[i] == anchors[i] && init[j] == anchors[j];
        }
      }
      assert last !in init by {
        forall i | 0 <= i < |init| ensures init[i] != last {
          assert init[i] == anchors[i];
        }
      }
      AnchorListenersDispatch(m, init, a, e);
      DispatchAtAppend(m, AnchorListeners(init), AnchorPair(last), Element(a), e);
      AnchorPairDispatch(DispatchAt(m, AnchorListeners(init), Element(a), e), last, a, e);
    }
  }

  lemma AnchorListenersNoDup(anchors: seq<nat>)
    requires NoDup(anchors)
    ensures NoDup(AnchorListeners(anchors))
  {
    var r := AnchorListeners(anchors);
    forall i, j | 0 <= i < j < |r| ensures r[i] != r[j] {
      AnchorListenerAt(anchors, i);
      AnchorListenerAt(anchors, j);
      if i / 2 != j / 2 {
        assert anchors[i / 2] != anchors[j / 2];
      }
    }
  }

  /** Entry `i` of the scan's listeners is the over (even) or out (odd) listener of anchor `i / 2`. */
  lemma {:induction false} AnchorListenerAt(anchors: seq<nat>, i: nat)
    requires i < 2 * |anchors|
    ensures |AnchorListeners(anchors)| == 2 * |anchors|
    ensures AnchorListeners(anchors)[i] == AnchorPair(anchors[i / 2])[i % 2]
    decreases |anchors|
  {
    var init := anchors[..|anchors| - 1];
    var last := anchors[|anchors| - 1];
    if i < 2 * |init| {
      AnchorListenerAt(init, i);
      assert anchors[i / 2] == init[i / 2];
    } else {
      assert i / 2 == |init|;
    }
  }

  /** Every listener of the scan is the hook's own and sits on one of the scanned anchors. */
  lemma AnchorListenersOwn(anchors: seq<nat>)
    ensures forall i :: 0 <= i < |AnchorListeners(anchors)| ==>
      && AnchorListeners(anchors)[i].target.Element?
      && AnchorListeners(anchors)[i].target.id in anchors
      && !IsForeign(AnchorListeners(anchors)[i])
  {
    forall i | 0 <= i < |AnchorListeners(anchors)|
      ensures AnchorListeners(anchors)[i].target.Element?
      ensures AnchorListeners(anchors)[i].target.id in anchors
      ensures !IsForeign(AnchorListeners(anchors)[i])
    {
      AnchorListenerAt(anchors, i);
    }
  }

  /** The registry a mounted hook leaves: what was there, then its eleven document listeners,
      then the anchors' listeners. */
  lemma MountedShape(s: seq<Listener>, anchors: seq<nat>)
    requires AllForeign(s) && NoDup(anchors)
    ensures Mounted(s, anchors) == s + DocumentListeners + AnchorListeners(anchors)
  {
    var d := DocumentListeners;
    DocumentListenersNoDup();
    DocumentListenersOwn();
    AddAllFresh(s, d);
    var a := AnchorListeners(anchors);
    AnchorListenersNoDup(anchors);
    AnchorListenersOwn(anchors);
    assert Disjoint(s + d, a) by {
      forall i | 0 <= i < |a| ensures a[i] !in s + d {
        assert a[i] !in s;
        assert forall j :: 0 <= j < |d| ==> d[j] != a[i];
      }
    }
    AddAllFresh(s + d, a);
  }

  /** The eleven document listeners are the hook's own, all on the document, and none of them
      is in a list of foreign entries. */
  lemma DocumentListenersOwn()
    ensures forall i :: 0 <= i < |DocumentListeners| ==>
      DocumentListeners[i].target == Doc && !IsForeign(DocumentListeners[i])
    ensures forall s :: AllForeign(s) ==> Disjoint(s, DocumentListeners)
  {
  }

  /** The registry after the cleanup, `removeEventListeners`, of a mounted hook: the eleven
      document listeners are gone and the anchors' listeners stay. */
  lemma UnmountedShape(s: seq<Listener>, anchors: seq<nat>)
    requires AllForeign(s) && NoDup(anchors)
    ensures RemoveAll(Mounted(s, anchors), DocumentListeners) == s + AnchorListeners(anchors)
    ensures On(RemoveAll(Mounted(s, anchors), DocumentListeners), Doc) == On(s, Doc)
  {
    MountedShape(s, anchors);
    DocumentListenersNoDup();
    var a := AnchorListeners(anchors);
    DocumentListenersOwn();
    AnchorListenersOwn(anchors);
    assert Disjoint(a, DocumentListeners);
    RemoveAllBlock(s, DocumentListeners, a);
    OnAppend(s, a, Doc);
    OnNone(a, Doc);
    assert On(s, Doc) + [] == On(s, Doc);
  }

  /** Delivery over a registry holding other code's listeners, optionally the hook's document
      listeners, and the anchors' hover listeners follows the event table. */
  lemma DispatchFollowsTable(m: Machine, s: seq<Listener>, documentWired: bool, anchors: seq<nat>,
                             e: DomEvent)
    requires AllForeign(s) && NoDup(anchors)
    ensures Dispatch(m, s + (if documentWired then DocumentListeners else []) + AnchorListeners(anchors), e)
      == Reaction(m, documentWired, anchors, e)
  {
    var d := if documentWired then DocumentListeners else [];
    var a := AnchorListeners(anchors);
    forall at: Target, x: Machine
      ensures DispatchAt(x, s + d + a, at, e) ==
        DispatchAt(DispatchAt(x, d, at, e), a, at, e)
    {
      DispatchAtAppend(x, s + d, a, at, e);
      DispatchAtAppend(x, s, d, at, e);
      DispatchAtInert(x, s, at, e);
    }
    AnchorListenersOwn(anchors);
    forall x: Machine ensures DispatchAt(x, a, Doc, e) == x {
      DispatchAtInert(x, a, Doc, e);
    }
    forall x: Machine, id: nat ensures DispatchAt(x, d, Element(id), e) == x {
      assert forall l :: l in DocumentListeners ==> l.target == Doc;
      DispatchAtInert(x, d, Element(id), e);
    }
    forall x: Machine ensures DispatchAt(x, d, Doc, e) ==
      if documentWired then Step(x, DocumentHandler(e.kind), e) else x
    {
      if documentWired { DocumentListenersDispatch(x, e); }
    }
    if e.target.Element? {
      AnchorListenersDispatch(m, anchors, e.target.id, e);
    }
  }

  /** Registering the document listeners on a registry that has none of them, then
      unregistering them, gives back the registry as it was. */
  lemma ListenersRoundTrip(s: seq<Listener>)
    requires Disjoint(s, DocumentListeners)
    ensures RemoveAll(AddAll(s, DocumentListeners), DocumentListeners) == s
  {
    DocumentListenersNoDup();
    AddAllThenRemoveAll(s, DocumentListeners);
  }

  /** With the document listeners gone, only a scanned anchor's own listener reacts. */
  lemma ReactionUnwired(m: Machine, anchors: seq<nat>, e: DomEvent)
    ensures Reaction(m, false, anchors, e) ==
      if e.target.Element? && e.target.id in anchors then Step(m, AnchorHandler(e.target.id, e.kind), e) else m
  {
  }

  /** After the cleanup has run, the registry is what `UnmountedShape` describes, and events
      reach only the anchors' hover listeners, which the cleanup leaves in place:
      `mouseover`/`mouseout` on a scanned anchor still set and clear `linkHovered`, and every
      other event leaves the state alone. */
  lemma AfterUnmount(m: Machine, s: seq<Listener>, anchors: seq<nat>, e: DomEvent)
    requires AllForeign(s) && NoDup(anchors)
    ensures Dispatch(m, s + AnchorListeners(anchors), e) ==
      if e.target.Element? && e.target.id in anchors then Step(m, AnchorHandler(e.target.id, e.kind), e) else m
  {
    assert s + [] + AnchorListeners(anchors) == s + AnchorListeners(anchors);
    DispatchFollowsTable(m, s, false, anchors, e);
    ReactionUnwired(m, anchors, e);
  }

  /** The cleanup as written leaves the hover listeners attached: after unmount, a `mouseover`
      on a scanned anchor still sets `linkHovered`, from any state, the initial one included. */
  lemma UnmountedHoverStillReacts(m: Machine, s: seq<Listener>, anchors: seq<nat>, a: nat, e: DomEvent)
    requires AllForeign(s) && NoDup(anchors) && a in anchors && e.target == Element(a)
    ensures Dispatch(m, RemoveAll(Mounted(s, anchors), DocumentListeners), e)
      == Step(m, AnchorHandler(a, e.kind), e)
  {
    UnmountedShape(s, anchors);
    AfterUnmount(m, s, anchors, e);
  }

  /** The anchor's `mouseover` listener sets `linkHovered` and changes nothing else; its
      `mouseout` listener clears it. */
  lemma AnchorHandlerEffect(m: Machine, a: nat, e: DomEvent)
    ensures e.kind == MouseOver ==> Step(m, AnchorHandler(a, e.kind), e) == m.(cursor := m.cursor.(linkHovered := true))
    ensures e.kind == MouseOut ==> Step(m, AnchorHandler(a, e.kind), e) == m.(cursor := m.cursor.(linkHovered := false))
    ensures e.kind != MouseOver && e.kind != MouseOut ==> Step(m, AnchorHandler(a, e.kind), e) == m
  {
  }

  /** Other code's listeners never touch the hook's state. */
  lemma ForeignInert(m: Machine, s: seq<Listener>, e: DomEvent)
    requires AllForeign(s)
    ensures Dispatch(m, s, e) == m
  {
    DispatchAtInert(m, s, e.target, e);
    DispatchAtInert(m, s, Doc, e);
  }

  /** A complete detach, removing the document listeners and then each scanned anchor's pair,
      gives back the registry the hook was mounted on. */
  lemma DetachRestores(s: seq<Listener>, anchors: seq<nat>)
    requires AllForeign(s) && NoDup(anchors)
    ensures RemoveAll(RemoveAll(Mounted(s, anchors), DocumentListeners), AnchorListeners(anchors)) == s
  {
    UnmountedShape(s, anchors);
    var a := AnchorListeners(anchors);
    AnchorListenersOwn(anchors);
    AnchorListenersNoDup(anchors);
    assert Disjoint(s, a);
    RemoveAllBlock(s, a, []);
    assert s + a + [] == s + a;
    assert s + [] == s;
  }

  /** After a complete detach no event, tracked or not, changes the hook's state. */
  lemma AfterDetach(m: Machine, s: seq<Listener>, anchors: seq<nat>, e: DomEvent)
    requires AllForeign(s) && NoDup(anchors)
    ensures Dispatch(m, RemoveAll(RemoveAll(Mounted(s, anchors), DocumentListeners), AnchorListeners(anchors)), e) == m
  {
    DetachRestores(s, anchors);
    ForeignInert(m, s, e);
  }
}
