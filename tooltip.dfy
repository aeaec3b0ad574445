/** The tooltip widget: a show/hide machine driven by pointer events and a
    delayed show timer, and the placement of the floating element next to its
    trigger. Rectangles are the measurements the host reads after layout;
    timers are pending entries that the scheduler fires or the widget clears. */
module Tooltip {
  import opened Wrappers

  /** Prop defaults. */
  const DefaultPosition: string := "top"
  const DefaultDelayMs: int := 200

  /** The gap, in pixels, between the trigger and the tooltip. */
  const GapPx: real := 8.0

  /** A bounding-client-rectangle snapshot; `right` and `bottom` are derived. */
  datatype Rect = Rect(left: real, top: real, width: real, height: real) {
    function Right(): real { left + width }
    function Bottom(): real { top + height }
  }

  datatype Coords = Coords(x: real, y: real)

  const Origin: Coords := Coords(0.0, 0.0)

  predicate IsKnownPosition(position: string)
  {
    position == "top" || position == "bottom" || position == "left" || position == "right"
  }

  /** The coordinates the placement switch computes for `position`. Top and
      bottom centre the tooltip horizontally on the trigger, left and right
      centre it vertically; the tooltip sits `GapPx` away from the trigger's
      edge on the named side. An unknown position leaves `{0, 0}`. */
  function Placement(position: string, trigger: Rect, tip: Rect): (c: Coords)
    ensures position == "top" ==>
      c.x + tip.width / 2.0 == trigger.left + trigger.width / 2.0 &&
      c.y + tip.height + GapPx == trigger.top
    ensures position == "bottom" ==>
      c.x + tip.width / 2.0 == trigger.left + trigger.width / 2.0 &&
      c.y == trigger.Bottom() + GapPx
    ensures position == "left" ==>
      c.x + tip.width + GapPx == trigger.left &&
      c.y + tip.height / 2.0 == trigger.top + trigger.height / 2.0
    ensures position == "right" ==>
      c.x == trigger.Right() + GapPx &&
      c.y + tip.height / 2.0 == trigger.top + trigger.height / 2.0
    ensures !IsKnownPosition(position) ==> c == Origin
  {
    match position
    case "top" =>
      Coords(trigger.left + trigger.width / 2.0 - tip.width / 2.0, trigger.top - tip.height - 8.0)
    case "bottom" =>
      Coords(trigger.left + trigger.width / 2.0 - tip.width / 2.0, trigger.Bottom() + 8.0)
    case "left" =>
      Coords(trigger.left - tip.width - 8.0, trigger.top + trigger.height / 2.0 - tip.height / 2.0)
    case "right" =>
      Coords(trigger.Right() + 8.0, trigger.top + trigger.height / 2.0 - tip.height / 2.0)
    case _ => Origin
  }

  /** The rectangle the tooltip occupies once placed at `c`. */
  function PlacedAt(c: Coords, tip: Rect): Rect
  {
    Rect(c.x, c.y, tip.width, tip.height)
  }

  /** The two rectangles have a gap of at least `gap` between them on some axis. */
  predicate Separated(a: Rect, b: Rect, gap: real)
  {
    a.Right() + gap <= b.left || b.Right() + gap <= a.left ||
    a.Bottom() + gap <= b.top || b.Bottom() + gap <= a.top
  }

  /** For a known position and a tooltip of non-negative size, the placed
      tooltip never overlaps its trigger, and it sits on the named side with
      a gap of exactly `GapPx`. */
  lemma PlacementClearsTrigger(position: string, trigger: Rect, tip: Rect)
    requires IsKnownPosition(position)
    requires tip.width >= 0.0 && tip.height >= 0.0
    ensures var placed := PlacedAt(Placement(position, trigger, tip), tip);
      && Separated(placed, trigger, GapPx)
      && (position == "top" ==> placed.Bottom() + GapPx == trigger.top)
      && (position == "bottom" ==> placed.top == trigger.Bottom() + GapPx)
      && (position == "left" ==> placed.Right() + GapPx == trigger.left)
      && (position == "right" ==> placed.left == trigger.Right() + GapPx)
  {
  }

  class Tooltip {
    const position: string
    const delay: int
    var isVisible: bool
    var coords: Coords
    /** `timeoutRef.current`: the handle of the last show timer scheduled. */
    var timeoutRef: Option<nat>
    /** Show timers scheduled and neither fired nor cleared. */
    var pending: set<nat>
    /** Handles handed out so far; the next timer gets this one. */
    var nextHandle: nat

    ghost predicate Valid()
      reads this
    {
      && (forall h :: h in pending ==> h < nextHandle)
      && (timeoutRef.Some? ==> timeoutRef.value < nextHandle)
    }

    /** A mounted tooltip starts hidden at `{0, 0}` with no timer. */
    constructor (position: string := DefaultPosition, delay: int := DefaultDelayMs)
      ensures Valid()
      ensures this.position == position && this.delay == delay
      ensures !isVisible && coords == Origin
      ensures timeoutRef == None && pending == {}
    {
      this.position := position;
      this.delay := delay;
      isVisible := false;
      coords := Origin;
      timeoutRef := None;
      pending := {};
      nextHandle := 0;
    }

    /** Pointer enter: schedule a show timer of `delay` ms and remember its
        handle, forgetting (but not clearing) any earlier one. */
    method ShowTooltip() returns (h: nat)
      requires Valid()
      modifies this
      ensures Valid()
      ensures h !in old(pending)
      ensures pending == old(pending) + {h} && timeoutRef == Some(h)
      ensures isVisible == old(isVisible) && coords == old(coords)
    {
      h := nextHandle;
      pending := pending + {h};
      timeoutRef := Some(h);
      nextHandle := nextHandle + 1;
    }

    /** Pointer leave: clear the remembered timer and hide, whatever the state. */
    method HideTooltip()
      requires Valid()
      modifies this
      ensures Valid()
      ensures !isVisible
      ensures pending == old(pending) - (if old(timeoutRef).Some? then {old(timeoutRef).value} else {})
      ensures timeoutRef == old(timeoutRef) && coords == old(coords) && nextHandle == old(nextHandle)
    {
      if timeoutRef.Some? {
        pending := pending - {timeoutRef.value};
      }
      isVisible := false;
    }

    /** The scheduler runs timer `h`: a pending show timer makes the tooltip
        visible; a cleared or already-run one does nothing. */
    method FireShowTimer(h: nat)
      requires Valid()
      modifies this
      ensures Valid()
      ensures pending == old(pending) - {h}
      ensures isVisible == (old(isVisible) || h in old(pending))
      ensures coords == old(coords) && timeoutRef == old(timeoutRef) && nextHandle == old(nextHandle)
    {
      if h in pending {
        pending := pending - {h};
        isVisible := true;
      }
    }

    /** The placement effect, run after a render in which visibility or
        position changed. The rectangles are `None` when the element is not
        mounted; the coordinates change only when the tooltip is visible and
        both rectangles were measured. */
    method PlacementEffect(trigger: Option<Rect>, tip: Option<Rect>)
      requires Valid()
      modifies this`coords
      ensures Valid()
      ensures coords == if isVisible && trigger.Some? && tip.Some?
                        then Placement(position, trigger.value, tip.value)
                        else old(coords)
    {
      if isVisible && trigger.Some? && tip.Some? {
        coords := Placement(position, trigger.value, tip.value);
      }
    }
  }

  /** Enter, then leave before the delay elapses: whatever timers the
      scheduler then tries to run and however often the placement effect
      runs, the tooltip never shows and keeps its initial coordinates. */
  method EnterThenLeave(position: string, delay: int, fires: seq<nat>, trigger: Rect, tip: Rect)
    returns (visible: bool, coords: Coords)
    ensures !visible && coords == Origin
  {
    var t := new Tooltip(position, delay);
    var _ := t.ShowTooltip();
    t.HideTooltip();
    var i := 0;
    while i < |fires|
      invariant 0 <= i <= |fires|
      invariant t.Valid()
      invariant t.pending == {} && !t.isVisible && t.coords == Origin
    {
      t.FireShowTimer(fires[i]);
      t.PlacementEffect(Some(trigger), Some(tip));
      i := i + 1;
    }
    visible, coords := t.isVisible, t.coords;
  }

  /** Enter and let the delay elapse, then run the placement effect with both
      elements measured: the tooltip is visible at `Placement`. */
  method EnterAndWait(position: string, delay: int, trigger: Rect, tip: Rect)
    returns (visible: bool, coords: Coords)
    ensures visible && coords == Placement(position, trigger, tip)
  {
    var t := new Tooltip(position, delay);
    var h := t.ShowTooltip();
    t.FireShowTimer(h);
    t.PlacementEffect(Some(trigger), Some(tip));
    visible, coords := t.isVisible, t.coords;
  }

  /** Two enters without a leave between them leave the first timer
      unreachable: the leave clears only the second, and the first still
      shows the tooltip when it runs. */
  method EnterTwiceThenLeave(position: string, delay: int)
    returns (visibleAfterLeave: bool, visibleAfterFirstTimer: bool)
    ensures !visibleAfterLeave && visibleAfterFirstTimer
  {
    var t := new Tooltip(position, delay);
    var first := t.ShowTooltip();
    var _ := t.ShowTooltip();
    t.HideTooltip();
    visibleAfterLeave := t.isVisible;
    t.FireShowTimer(first);
    visibleAfterFirstTimer := t.isVisible;
  }

  /** A tooltip given no props: it sits on top after a 200 ms delay, and
      once shown its bottom edge is `GapPx` above the trigger. */
  method DefaultTooltip(trigger: Rect, tip: Rect) returns (position: string, delay: int, coords: Coords)
    ensures position == "top" && delay == 200
    ensures coords.y + tip.height + GapPx == trigger.top
  {
    var t := new Tooltip();
    position, delay := t.position, t.delay;
    var h := t.ShowTooltip();
    t.FireShowTimer(h);
    t.PlacementEffect(Some(trigger), Some(tip));
    coords := t.coords;
  }
}
