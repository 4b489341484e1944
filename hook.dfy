/** `useCustomCursor`: the bypass check, the four pieces of state, the handlers that update
    them, the listener wiring done by the mount effect and undone by its cleanup, and the
    `{ position, className }` value the hook returns. */
module CustomCursorHook {
  import opened Events
  import opened Registry
  import opened ClassNames
  import opened CursorMachine

  /** What the hook returns: `{ position, className }`. */
  datatype HookResult = HookResult(position: Point, className: string)

  /** The hook short-circuits when it is not running in a browser or the device is mobile. */
  predicate Bypassed(isBrowser: bool, isMobile: bool)
  {
    !isBrowser || isMobile
  }

  /** The value returned on a render: the constant zero result in bypass mode, otherwise the
      current position and the class string derived from the three flags. */
  function RenderResult(isBrowser: bool, isMobile: bool, c: Cursor): (r: HookResult)
    ensures Bypassed(isBrowser, isMobile) ==> r.position == Point(0, 0) && r.className == ""
    ensures !Bypassed(isBrowser, isMobile) ==>
      r.position == c.position && |r.className| >= |Base| && r.className[..|Base|] == Base
  {
    if Bypassed(isBrowser, isMobile) then HookResult(Point(0, 0), "")
    else
      HookResult(c.position, ClassName(c.clicked, c.hidden, c.linkHovered))
  }

  /** The two modes can be told apart from the result alone: only bypass mode yields an empty
      class string. */
  lemma BypassObservable(isBrowser: bool, isMobile: bool, c: Cursor)
    ensures RenderResult(isBrowser, isMobile, c).className == "" <==> Bypassed(isBrowser, isMobile)
  {
    if !Bypassed(isBrowser, isMobile) {
      assert |RenderResult(isBrowser, isMobile, c).className| >= |Base|;
    }
  }

  /** Bookkeeping for the anchor scan: anchor `i` adds its two listeners. */
  lemma AnchorStep(s: seq<Listener>, anchors: seq<nat>, i: nat)
    requires i < |anchors|
    ensures AddAll(s, AnchorListeners(anchors[..i + 1])) ==
      Add(Add(AddAll(s, AnchorListeners(anchors[..i])),
        Listener(Element(anchors[i]), MouseOver, LinkOver(anchors[i]))),
        Listener(Element(anchors[i]), MouseOut, LinkOut(anchors[i])))
  {
    var a := anchors[i];
    var done := AnchorListeners(anchors[..i]);
    assert anchors[..i + 1][..i] == anchors[..i];
    assert AnchorListeners(anchors[..i + 1]) == done + AnchorPair(a);
    AddAllAppend(s, done, AnchorPair(a));
    AddAllPair(AddAll(s, done), AnchorPair(a)[0], AnchorPair(a)[1]);
    assert AnchorPair(a) == [AnchorPair(a)[0], AnchorPair(a)[1]];
  }

  /** Bookkeeping for a detach that walks the scanned anchors: anchor `i` loses its two listeners. */
  lemma AnchorRemoveStep(s: seq<Listener>, anchors: seq<nat>, i: nat)
    requires i < |anchors|
    ensures RemoveAll(s, AnchorListeners(anchors[..i + 1])) ==
      Remove(Remove(RemoveAll(s, AnchorListeners(anchors[..i])),
        Listener(Element(anchors[i]), MouseOver, LinkOver(anchors[i]))),
        Listener(Element(anchors[i]), MouseOut, LinkOut(anchors[i])))
  {
    var a := anchors[i];
    var done := AnchorListeners(anchors[..i]);
    assert anchors[..i + 1][..i] == anchors[..i];
    assert AnchorListeners(anchors[..i + 1]) == done + AnchorPair(a);
    RemoveAllAppend(s, done, AnchorPair(a));
    RemoveAllPair(RemoveAll(s, done), AnchorPair(a)[0], AnchorPair(a)[1]);
    assert AnchorPair(a) == [AnchorPair(a)[0], AnchorPair(a)[1]];
  }

  /** One mounted instance of the hook: its React state, the `setTimeout` callbacks it has
      scheduled and the clock they are measured against. */
  class CursorHook {
    var position: Point
    var clicked: bool
    var linkHovered: bool
    var hidden: bool
    var timers: seq<Timer>
    var now: int

    /** The state as a value. */
    function Model(): Machine
      reads this
    {
      Machine(Cursor(position, clicked, linkHovered, hidden), timers, now)
    }

    /** The `useState` calls: position (0, 0), all three flags false; nothing scheduled yet. */
    constructor (start: int)
      ensures position == Point(0, 0) && !clicked && !linkHovered && !hidden
      ensures timers == [] && now == start
      ensures Model() == Initial(start)
    {
      position := Point(0, 0);
      clicked := false;
      linkHovered := false;
      hidden := false;
      timers := [];
      now := start;
    }

    /** `onMouseMove`, for both `mousemove` and `pointermove`. */
    method OnMouseMove(e: DomEvent)
      modifies this
      ensures position == Point(e.clientX, e.clientY)
      ensures clicked == old(clicked) && linkHovered == old(linkHovered) && hidden == old(hidden)
      ensures timers == old(timers) && now == old(now)
      ensures Model() == Step(old(Model()), Handler.OnMouseMove, e)
    {
      position := Point(e.clientX, e.clientY);
    }

    /** `onMouseDown`, for both `mousedown` and `pointerdown`. */
    method OnMouseDown(e: DomEvent)
      modifies this
      ensures clicked
      ensures position == old(position) && linkHovered == old(linkHovered) && hidden == old(hidden)
      ensures timers == old(timers) && now == old(now)
      ensures Model() == Step(old(Model()), Handler.OnMouseDown, e)
    {
      clicked := true;
    }

    /** `onMouseUp`, for both `mouseup` and `pointerup`. */
    method OnMouseUp(e: DomEvent)
      modifies this
      ensures !clicked
      ensures position == old(position) && linkHovered == old(linkHovered) && hidden == old(hidden)
      ensures timers == old(timers) && now == old(now)
      ensures Model() == Step(old(Model()), Handler.OnMouseUp, e)
    {
      clicked := false;
    }

    /** `onClick`: set `clicked` and schedule its reset 50 ms from now. */
    method OnClick(e: DomEvent)
      modifies this
      ensures clicked
      ensures timers == old(timers) + [ResetClicked(now + ClickPulse)]
      ensures position == old(position) && linkHovered == old(linkHovered) && hidden == old(hidden)
      ensures now == old(now)
      ensures Model() == Step(old(Model()), Handler.OnClick, e)
    {
      clicked := true;
      timers := timers + [ResetClicked(now + ClickPulse)];
    }

    /** `onDoubleClick`: set `clicked` and schedule its reset 100 ms from now. */
    method OnDoubleClick(e: DomEvent)
      modifies this
      ensures clicked
      ensures timers == old(timers) + [ResetClicked(now + DoubleClickPulse)]
      ensures position == old(position) && linkHovered == old(linkHovered) && hidden == old(hidden)
      ensures now == old(now)
      ensures Model() == Step(old(Model()), Handler.OnDoubleClick, e)
    {
      clicked := true;
      timers := timers + [ResetClicked(now + DoubleClickPulse)];
    }

    /** `onMouseLeave`, for both `mouseleave` and `pointercancel`. */
    method OnMouseLeave(e: DomEvent)
      modifies this
      ensures hidden
      ensures position == old(position) && clicked == old(clicked) && linkHovered == old(linkHovered)
      ensures timers == old(timers) && now == old(now)
      ensures Model() == Step(old(Model()), Handler.OnMouseLeave, e)
    {
      hidden := true;
    }

    /** `onMouseEnter`. */
    method OnMouseEnter(e: DomEvent)
      modifies this
      ensures !hidden
      ensures position == old(position) && clicked == old(clicked) && linkHovered == old(linkHovered)
      ensures timers == old(timers) && now == old(now)
      ensures Model() == Step(old(Model()), Handler.OnMouseEnter, e)
    {
      hidden := false;
    }

    /** The `mouseover` callback attached to anchor `a`. */
    method OnLinkOver(a: nat, e: DomEvent)
      modifies this
      ensures linkHovered
      ensures position == old(position) && clicked == old(clicked) && hidden == old(hidden)
      ensures timers == old(timers) && now == old(now)
      ensures Model() == Step(old(Model()), LinkOver(a), e)
    {
      linkHovered := true;
    }

    /** The `mouseout` callback attached to anchor `a`. */
    method OnLinkOut(a: nat, e: DomEvent)
      modifies this
      ensures !linkHovered
      ensures position == old(position) && clicked == old(clicked) && hidden == old(hidden)
      ensures timers == old(timers) && now == old(now)
      ensures Model() == Step(old(Model()), LinkOut(a), e)
    {
      linkHovered := false;
    }

    /** The clock moves on by `dt` ms; every scheduled reset that came due runs, in
        scheduling order, and is dropped from the schedule. */
    method Tick(dt: nat)
      modifies this
      ensures now == old(now) + dt
      ensures clicked == (old(clicked) && NoneDue(old(timers), now))
      ensures position == old(position) && linkHovered == old(linkHovered) && hidden == old(hidden)
      ensures NoneDue(timers, now)
      ensures Model() == Advance(old(Model()), dt)
    {
      var t := now + dt;
      var ts := timers;
      ghost var c0 := Model().cursor;
      var pending: seq<Timer> := [];
      for i := 0 to |ts|
        invariant Expire(c0, ts[..i], t) == Expired(Cursor(position, clicked, linkHovered, hidden), pending)
      {
        assert ts[..i + 1][..i] == ts[..i];
        if ts[i].deadline <= t {
          clicked := false;
        } else {
          pending := pending + [ts[i]];
        }
      }
      assert ts[..|ts|] == ts;
      ExpireCursor(c0, ts, t);
      ExpireNoneDue(c0, ts, t);
      timers := pending;
      now := t;
    }

    /** The `{ position, className }` a later render returns. The source repeats the bypass
        check on every call; a bypassed render gives the zero result. */
    method Render(isBrowser: bool, isMobile: bool) returns (r: HookResult)
      ensures r == RenderResult(isBrowser, isMobile, Model().cursor)
      ensures Bypassed(isBrowser, isMobile) ==> r == HookResult(Point(0, 0), "")
      ensures !Bypassed(isBrowser, isMobile) ==> r.position == position
      ensures !Bypassed(isBrowser, isMobile) ==>
        Split(r.className) == [Base]
          + (if clicked then [ClickedName] else [])
          + (if hidden then [HiddenName] else [])
          + (if linkHovered then [LinkHoveredName] else [])
    {
      if Bypassed(isBrowser, isMobile) {
        r := HookResult(Point(0, 0), "");
        return;
      }
      r := HookResult(position, ClassName(clicked, hidden, linkHovered));
      ClassNameWords(clicked, hidden, linkHovered);
    }

    /** `addEventListeners`: the eleven document listeners, in source order, one group of
        listeners after another. */
    method AddListeners(registry: EventRegistry)
      requires registry.Valid()
      modifies registry
      ensures registry.Valid()
      ensures registry.listeners == AddAll(old(registry.listeners), DocumentListeners)
      ensures Model() == old(Model())
    {
      ghost var s := registry.listeners;
      AddPointerListeners(registry);
      AddButtonListeners(registry);
      AddClickListeners(registry);
      AddAllAppend(s, PointerListeners, ButtonListeners);
      AddAllAppend(s, PointerListeners + ButtonListeners, ClickListeners);
    }

    /** Registration of the movement and visibility group: `mousemove`, `pointermove`,
        `mouseenter`, `mouseleave`, `pointercancel`. */
    method AddPointerListeners(registry: EventRegistry)
      requires registry.Valid()
      modifies registry
      ensures registry.Valid()
      ensures registry.listeners == AddAll(old(registry.listeners), PointerListeners)
    {
      ghost var s := registry.listeners;
      registry.AddEventListener(Doc, MouseMove, Handler.OnMouseMove);
      AddedAt(s, PointerListeners, 0);
      registry.AddEventListener(Doc, PointerMove, Handler.OnMouseMove);
      AddedAt(s, PointerListeners, 1);
      registry.AddEventListener(Doc, MouseEnter, Handler.OnMouseEnter);
      AddedAt(s, PointerListeners, 2);
      registry.AddEventListener(Doc, MouseLeave, Handler.OnMouseLeave);
      AddedAt(s, PointerListeners, 3);
      registry.AddEventListener(Doc, PointerCancel, Handler.OnMouseLeave);
      AddedAt(s, PointerListeners, 4);
      assert PointerListeners[..5] == PointerListeners;
    }

    /** Registration of the button group: `mousedown`, `pointerdown`, `mouseup`, `pointerup`. */
    method AddButtonListeners(registry: EventRegistry)
      requires registry.Valid()
      modifies registry
      ensures registry.Valid()
      ensures registry.listeners == AddAll(old(registry.listeners), ButtonListeners)
    {
      ghost var s := registry.listeners;
      registry.AddEventListener(Doc, MouseDown, Handler.OnMouseDown);
      AddedAt(s, ButtonListeners, 0);
      registry.AddEventListener(Doc, PointerDown, Handler.OnMouseDown);
      AddedAt(s, ButtonListeners, 1);
      registry.AddEventListener(Doc, MouseUp, Handler.OnMouseUp);
      AddedAt(s, ButtonListeners, 2);
      registry.AddEventListener(Doc, PointerUp, Handler.OnMouseUp);
      AddedAt(s, ButtonListeners, 3);
      assert ButtonListeners[..4] == ButtonListeners;
    }

    /** Registration of the click group: `click`, `dblclick`. */
    method AddClickListeners(registry: EventRegistry)
      requires registry.Valid()
      modifies registry
      ensures registry.Valid()
      ensures registry.listeners == AddAll(old(registry.listeners), ClickListeners)
    {
      ghost var s := registry.listeners;
      registry.AddEventListener(Doc, Click, Handler.OnClick);
      AddedAt(s, ClickListeners, 0);
      registry.AddEventListener(Doc, DblClick, Handler.OnDoubleClick);
      AddedAt(s, ClickListeners, 1);
      assert ClickListeners[..2] == ClickListeners;
    }

    /** `removeEventListeners`, the effect's cleanup: the same eleven pairs. The scheduled
        resets are left alone. */
    method RemoveListeners(registry: EventRegistry)
      requires registry.Valid()
      modifies registry
      ensures registry.Valid()
      ensures registry.listeners == RemoveAll(old(registry.listeners), DocumentListeners)
      ensures timers == old(timers) && Model() == old(Model())
    {
      ghost var s := registry.listeners;
      RemovePointerListeners(registry);
      RemoveButtonListeners(registry);
      RemoveClickListeners(registry);
      RemoveAllAppend(s, PointerListeners, ButtonListeners);
      RemoveAllAppend(s, PointerListeners + ButtonListeners, ClickListeners);
    }

    /** Removal of the movement and visibility group: `mousemove`, `pointermove`,
        `mouseenter`, `mouseleave`, `pointercancel`. */
    method RemovePointerListeners(registry: EventRegistry)
      requires registry.Valid()
      modifies registry
      ensures registry.Valid()
      ensures registry.listeners == RemoveAll(old(registry.listeners), PointerListeners)
    {
      ghost var s := registry.listeners;
      registry.RemoveEventListener(Doc, MouseMove, Handler.OnMouseMove);
      RemovedAt(s, PointerListeners, 0);
      registry.RemoveEventListener(Doc, PointerMove, Handler.OnMouseMove);
      RemovedAt(s, PointerListeners, 1);
      registry.RemoveEventListener(Doc, MouseEnter, Handler.OnMouseEnter);
      RemovedAt(s, PointerListeners, 2);
      registry.RemoveEventListener(Doc, MouseLeave, Handler.OnMouseLeave);
      RemovedAt(s, PointerListeners, 3);
      registry.RemoveEventListener(Doc, PointerCancel, Handler.OnMouseLeave);
      RemovedAt(s, PointerListeners, 4);
      assert PointerListeners[..5] == PointerListeners;
    }

    /** Removal of the button group: `mousedown`, `pointerdown`, `mouseup`, `pointerup`. */
    method RemoveButtonListeners(registry: EventRegistry)
      requires registry.Valid()
      modifies registry
      ensures registry.Valid()
      ensures registry.listeners == RemoveAll(old(registry.listeners), ButtonListeners)
    {
      ghost var s := registry.listeners;
      registry.RemoveEventListener(Doc, MouseDown, Handler.OnMouseDown);
      RemovedAt(s, ButtonListeners, 0);
      registry.RemoveEventListener(Doc, PointerDown, Handler.OnMouseDown);
      RemovedAt(s, ButtonListeners, 1);
      registry.RemoveEventListener(Doc, MouseUp, Handler.OnMouseUp);
      RemovedAt(s, ButtonListeners, 2);
      registry.RemoveEventListener(Doc, PointerUp, Handler.OnMouseUp);
      RemovedAt(s, ButtonListeners, 3);
      assert ButtonListeners[..4] == ButtonListeners;
    }

    /** Removal of the click group: `click`, `dblclick`. */
    method RemoveClickListeners(registry: EventRegistry)
      requires registry.Valid()
      modifies registry
      ensures registry.Valid()
      ensures registry.listeners == RemoveAll(old(registry.listeners), ClickListeners)
    {
      ghost var s := registry.listeners;
      registry.RemoveEventListener(Doc, Click, Handler.OnClick);
      RemovedAt(s, ClickListeners, 0);
      registry.RemoveEventListener(Doc, DblClick, Handler.OnDoubleClick);
      RemovedAt(s, ClickListeners, 1);
      assert ClickListeners[..2] == ClickListeners;
    }

    /** `handleLinkHoverEvents`: a `mouseover` and a `mouseout` listener on every anchor the
        scan returns, in scan order. */
    method HandleLinkHoverEvents(registry: EventRegistry, anchors: seq<nat>)
      requires registry.Valid()
      modifies registry
      ensures registry.Valid()
      ensures registry.listeners == AddAll(old(registry.listeners), AnchorListeners(anchors))
      ensures Model() == old(Model())
    {
      for i := 0 to |anchors|
        invariant registry.listeners == AddAll(old(registry.listeners), AnchorListeners(anchors[..i]))
        invariant registry.Valid()
      {
        var a := anchors[i];
        AnchorStep(old(registry.listeners), anchors, i);
        registry.AddEventListener(Element(a), MouseOver, LinkOver(a));
        registry.AddEventListener(Element(a), MouseOut, LinkOut(a));
      }
      assert anchors[..|anchors|] == anchors;
    }

    /** The removal the cleanup lacks: both hover listeners of every scanned anchor. */
    method RemoveLinkHoverEvents(registry: EventRegistry, anchors: seq<nat>)
      requires registry.Valid()
      modifies registry
      ensures registry.Valid()
      ensures registry.listeners == RemoveAll(old(registry.listeners), AnchorListeners(anchors))
      ensures Model() == old(Model())
    {
      for i := 0 to |anchors|
        invariant registry.listeners == RemoveAll(old(registry.listeners), AnchorListeners(anchors[..i]))
        invariant registry.Valid()
      {
        var a := anchors[i];
        AnchorRemoveStep(old(registry.listeners), anchors, i);
        registry.RemoveEventListener(Element(a), MouseOver, LinkOver(a));
        registry.RemoveEventListener(Element(a), MouseOut, LinkOut(a));
      }
      assert anchors[..|anchors|] == anchors;
    }

    /** A complete detach: the cleanup's eleven removals, then the scanned anchors' listeners. */
    method Detach(registry: EventRegistry, anchors: seq<nat>)
      requires registry.Valid()
      modifies registry
      ensures registry.Valid()
      ensures registry.listeners ==
        RemoveAll(RemoveAll(old(registry.listeners), DocumentListeners), AnchorListeners(anchors))
      ensures timers == old(timers) && Model() == old(Model())
    {
      RemoveListeners(registry);
      RemoveLinkHoverEvents(registry, anchors);
    }
  }

  /** A call of `useCustomCursor` and its mount effect. In bypass mode nothing is created and
      nothing is registered; otherwise a fresh instance starts from the initial state, the
      effect registers the document listeners and the anchors' hover listeners, and the first
      render returns position (0, 0) with class string `cursor`. */
  method UseCustomCursor(isBrowser: bool, isMobile: bool, registry: EventRegistry, anchors: seq<nat>,
                         start: int)
    returns (hook: CursorHook?, result: HookResult)
    requires registry.Valid()
    modifies registry
    ensures registry.Valid()
    ensures Bypassed(isBrowser, isMobile) ==>
      hook == null && result == HookResult(Point(0, 0), "") && registry.listeners == old(registry.listeners)
    ensures !Bypassed(isBrowser, isMobile) ==>
      && hook != null && fresh(hook)
      && hook.Model() == Initial(start)
      && result == HookResult(Point(0, 0), Base)
      && registry.listeners == Mounted(old(registry.listeners), anchors)
  {
    if Bypassed(isBrowser, isMobile) {
      hook := null;
      result := RenderResult(isBrowser, isMobile, Initial(start).cursor);
      return;
    }
    hook := new CursorHook(start);
    result := hook.Render(isBrowser, isMobile);
    ClassNameNoFlags();
    hook.AddListeners(registry);
    hook.HandleLinkHoverEvents(registry, anchors);
  }
}
