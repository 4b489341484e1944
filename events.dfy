/** Values shared by the cursor hook and the DOM listener registry it talks to. */
module Events {

  /** A viewport coordinate pair, as `{ x, y }` in the hook's `position` state. */
  datatype Point = Point(x: int, y: int)

  /** Where a listener is attached or an event is fired: the document, or an element of the
      page. The anchors the hook's scan finds are elements whose ids are in its `anchors` list;
      any other id stands for any other element. How elements nest is not part of the model. */
  datatype Target = Doc | Element(id: nat)

  /** The DOM event types the hook listens for; `Other` is any other type, and `Valid` rules
      out an `Other` that spells one of the thirteen named types. */
  datatype EventType =
    | MouseMove | PointerMove | MouseEnter | MouseLeave | PointerCancel
    | MouseDown | PointerDown | MouseUp | PointerUp | Click | DblClick
    | MouseOver | MouseOut
    | Other(name: string)
  {
    /** The type string passed to `addEventListener`. */
    function Name(): string
    {
      match this
      case MouseMove => "mousemove"
      case PointerMove => "pointermove"
      case MouseEnter => "mouseenter"
      case MouseLeave => "mouseleave"
      case PointerCancel => "pointercancel"
      case MouseDown => "mousedown"
      case PointerDown => "pointerdown"
      case MouseUp => "mouseup"
      case PointerUp => "pointerup"
      case Click => "click"
      case DblClick => "dblclick"
      case MouseOver => "mouseover"
      case MouseOut => "mouseout"
      case Other(name) => name
    }

    /** `Other` carries a type string none of the named types has. */
    predicate Valid()
    {
      Other? ==> name !in {"mousemove", "pointermove", "mouseenter", "mouseleave", "pointercancel",
                           "mousedown", "pointerdown", "mouseup", "pointerup", "click", "dblclick",
                           "mouseover", "mouseout"}
    }
  }

  /** For valid event types the type string determines the type, so matching listeners by type
      is matching them by the string given to `addEventListener`. */
  lemma NameInjective(k0: EventType, k1: EventType)
    requires k0.Valid() && k1.Valid() && k0.Name() == k1.Name()
    ensures k0 == k1
  {
  }

  /** One delivered DOM event: its type, the element it was fired at and its client coordinates. */
  datatype DomEvent = DomEvent(kind: EventType, target: Target, clientX: int, clientY: int)

  /** The callbacks the hook hands to `addEventListener`. `LinkOver(a)` and `LinkOut(a)` are the two
      arrow functions created for anchor `a`; `Foreign(id)` is a listener some other code on the page
      registered, which never touches the hook's state; `NoHandler` stands for "no callback of the
      hook runs" in the tables that say which handler an event reaches. */
  datatype Handler =
    | OnMouseMove
    | OnMouseEnter
    | OnMouseLeave
    | OnMouseDown
    | OnMouseUp
    | OnClick
    | OnDoubleClick
    | LinkOver(anchor: nat)
    | LinkOut(anchor: nat)
    | Foreign(id: nat)
    | NoHandler

  /** An entry of the DOM's listener lists: the (target, event type, callback) triple. */
  datatype Listener = Listener(target: Target, kind: EventType, handler: Handler)

  /** A listener that belongs to some other code, not to the hook. */
  predicate IsForeign(l: Listener)
  {
    l.handler.Foreign?
  }

  /** Event types that bubble from the element they were fired at up to the document. */
  predicate Bubbles(kind: EventType)
  {
    kind != MouseEnter && kind != MouseLeave
  }
}
