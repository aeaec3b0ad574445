/** The interactive card: a hover flag set by pointer enter and leave, and a
    pressed flag that a click sets and a 200 ms reset callback clears. The
    `onClick` prop is recorded by the number of times it was called. */
module InteractiveCard {

  class InteractiveCard {
    /** Whether an `onClick` callback was passed. */
    const hasOnClick: bool
    var isHovered: bool
    var isClicked: bool
    /** Reset callbacks scheduled by clicks and not yet run. */
    var pendingResets: nat
    /** How many times `onClick` has been called. */
    var onClickCalls: nat

    /** Both flags start false; without an `onClick` prop there is no callback. */
    constructor (hasOnClick: bool := false)
      ensures this.hasOnClick == hasOnClick
      ensures !isHovered && !isClicked && pendingResets == 0 && onClickCalls == 0
    {
      this.hasOnClick := hasOnClick;
      isHovered := false;
      isClicked := false;
      pendingResets := 0;
      onClickCalls := 0;
    }

    method MouseEnter()
      modifies this`isHovered
      ensures isHovered
    {
      isHovered := true;
    }

    method MouseLeave()
      modifies this`isHovered
      ensures !isHovered
    {
      isHovered := false;
    }

    /** A click: pressed at once, one more reset scheduled, and `onClick`
        called synchronously once when given. */
    method Click()
      modifies this`isClicked, this`pendingResets, this`onClickCalls
      ensures isClicked
      ensures pendingResets == old(pendingResets) + 1
      ensures onClickCalls == old(onClickCalls) + (if hasOnClick then 1 else 0)
    {
      isClicked := true;
      pendingResets := pendingResets + 1;
      if hasOnClick {
        onClickCalls := onClickCalls + 1;
      }
    }

    /** One reset callback runs and clears the pressed flag, even if a later
        click's reset is still pending. */
    method FireReset()
      requires pendingResets > 0
      modifies this`isClicked, this`pendingResets
      ensures !isClicked
      ensures pendingResets == old(pendingResets) - 1
    {
      isClicked := false;
      pendingResets := pendingResets - 1;
    }
  }

  /** What can happen to a card: pointer events, clicks, and the scheduler
      running one pending reset. */
  datatype Event = Enter | Leave | Clicked | ResetFires

  /** The hover flag after `events`: the last pointer event decides. */
  function HoverAfter(events: seq<Event>): bool
  {
    if events == [] then false
    else if events[|events| - 1] == Enter then true
    else if events[|events| - 1] == Leave then false
    else HoverAfter(events[..|events| - 1])
  }

  function CountClicks(events: seq<Event>): nat
  {
    if events == [] then 0
    else CountClicks(events[..|events| - 1]) + (if events[|events| - 1] == Clicked then 1 else 0)
  }

  /** Drive a fresh card with `events` (a reset event with nothing pending is
      skipped). Hover follows the pointer events alone, clicks and resets
      leave it alone, and `onClick` is called once per click. */
  method RunCard(hasOnClick: bool, events: seq<Event>)
    returns (isHovered: bool, onClickCalls: nat)
    ensures isHovered == HoverAfter(events)
    ensures onClickCalls == if hasOnClick then CountClicks(events) else 0
  {
    var card := new InteractiveCard(hasOnClick);
    var i := 0;
    while i < |events|
      invariant 0 <= i <= |events|
      invariant card.hasOnClick == hasOnClick
      invariant card.isHovered == HoverAfter(events[..i])
      invariant card.onClickCalls == if hasOnClick then CountClicks(events[..i]) else 0
    {
      match events[i] {
        case Enter => card.MouseEnter();
        case Leave => card.MouseLeave();
        case Clicked => card.Click();
        case ResetFires => if card.pendingResets > 0 { card.FireReset(); }
      }
      assert events[..i + 1][..i] == events[..i];
      i := i + 1;
    }
    assert events[..i] == events;
    isHovered, onClickCalls := card.isHovered, card.onClickCalls;
  }

  /** Two quick clicks: the first click's reset clears the pressed flag while
      the second click's reset is still pending, so a later click does not
      extend the press. */
  method DoubleClick(hasOnClick: bool) returns (pressedAfterFirstReset: bool, stillPending: nat)
    ensures !pressedAfterFirstReset && stillPending == 1
  {
    var card := new InteractiveCard(hasOnClick);
    card.Click();
    card.Click();
    card.FireReset();
    pressedAfterFirstReset, stillPending := card.isClicked, card.pendingResets;
  }

  /** A card given no `onClick` is still pressed by a click, but calls
      nothing. */
  method DefaultCard() returns (pressed: bool, onClickCalls: nat)
    ensures pressed && onClickCalls == 0
  {
    var card := new InteractiveCard();
    card.Click();
    pressed, onClickCalls := card.isClicked, card.onClickCalls;
  }
}
