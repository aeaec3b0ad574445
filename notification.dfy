/** The notification widget: visible, then exiting, then hidden. An
    auto-dismiss timer (armed only for a positive duration) and the close
    button both take the close path, which marks the notification exiting at
    once and schedules an exit callback 300 ms later that hides it and calls
    `onClose`. Pending callbacks are fields the scheduler fires. */
module Notification {

  /** The default of the `duration` prop. */
  const DefaultDurationMs: int := 5000

  /** The `type` prop; the default is `Info`. */
  datatype Kind = Success | Error | Warning | Info

  /** What the component renders: nothing once hidden, otherwise the message
      and whether the exit animation is playing. */
  datatype View = Nothing | Shown(message: string, kind: Kind, exiting: bool)

  class Notification {
    const message: string
    const kind: Kind
    /** Whether an `onClose` callback was passed. */
    const hasOnClose: bool
    var duration: int
    var isVisible: bool
    var isExiting: bool
    var mounted: bool
    /** The auto-dismiss timer of the current effect is pending. */
    var autoTimer: bool
    /** Exit callbacks scheduled by the close path and not yet run. */
    var pendingExits: nat
    /** How many times `onClose` has been called. */
    var onCloseCalls: nat

    ghost predicate Valid()
      reads this
    {
      && (autoTimer ==> mounted && duration > 0)
      && (pendingExits > 0 ==> isExiting)
      && (!isVisible ==> isExiting)
      && (onCloseCalls > 0 ==> !isVisible)
    }

    function Render(): (v: View)
      reads this
      ensures v.Nothing? <==> !isVisible
      ensures v.Shown? ==> v.exiting == isExiting
    {
      if !isVisible then Nothing else Shown(message, kind, isExiting)
    }

    /** Mounting: visible, not exiting, and the effect arms the auto-dismiss
        timer exactly when `duration > 0`. */
    constructor (message: string, kind: Kind := Info, duration: int := DefaultDurationMs, hasOnClose: bool := false)
      ensures Valid()
      ensures this.message == message && this.kind == kind && this.hasOnClose == hasOnClose
      ensures this.duration == duration && mounted
      ensures isVisible && !isExiting
      ensures autoTimer == (duration > 0)
      ensures pendingExits == 0 && onCloseCalls == 0
    {
      this.message := message;
      this.kind := kind;
      this.hasOnClose := hasOnClose;
      this.duration := duration;
      isVisible := true;
      isExiting := false;
      mounted := true;
      autoTimer := duration > 0;
      pendingExits := 0;
      onCloseCalls := 0;
    }

    /** The close path: exiting at once, and one more 300 ms exit
        callback scheduled. There is no guard against a second call. */
    method HandleClose()
      requires Valid()
      modifies this`isExiting, this`pendingExits
      ensures Valid()
      ensures isExiting
      ensures pendingExits == old(pendingExits) + 1
    {
      isExiting := true;
      pendingExits := pendingExits + 1;
    }

    /** The auto-dismiss timer runs: if it is still pending it takes the
        close path; a cleared timer does nothing. */
    method FireAutoDismiss()
      requires Valid()
      modifies this`autoTimer, this`isExiting, this`pendingExits
      ensures Valid()
      ensures !autoTimer
      ensures isExiting == (old(isExiting) || old(autoTimer))
      ensures pendingExits == old(pendingExits) + (if old(autoTimer) then 1 else 0)
    {
      if autoTimer {
        autoTimer := false;
        HandleClose();
      }
    }

    /** One exit callback runs: the notification is hidden and `onClose`,
        when given, is called. Running it after unmounting still calls
        `onClose`: unmounting does not clear the exit timer. */
    method FireExit()
      requires Valid()
      requires pendingExits > 0
      modifies this`isVisible, this`pendingExits, this`onCloseCalls
      ensures Valid()
      ensures !isVisible
      ensures pendingExits == old(pendingExits) - 1
      ensures onCloseCalls == old(onCloseCalls) + (if hasOnClose then 1 else 0)
    {
      isVisible := false;
      pendingExits := pendingExits - 1;
      if hasOnClose {
        onCloseCalls := onCloseCalls + 1;
      }
    }

    /** A new `duration` prop: the effect's cleanup clears the old timer and
        the effect arms a new one when the new duration is positive. */
    method ChangeDuration(d: int)
      requires Valid()
      requires mounted
      modifies this`duration, this`autoTimer
      ensures Valid()
      ensures duration == d
      ensures autoTimer == if d != old(duration) then d > 0 else old(autoTimer)
    {
      if d != duration {
        autoTimer := false;
        duration := d;
        autoTimer := d > 0;
      }
    }

    /** Unmounting runs the effect's cleanup: the auto-dismiss timer is
        cleared, but exit callbacks already scheduled stay pending. */
    method Unmount()
      requires Valid()
      modifies this`mounted, this`autoTimer
      ensures Valid()
      ensures !mounted && !autoTimer
    {
      autoTimer := false;
      mounted := false;
    }
  }

  /** One step the scheduler or the user can take on a mounted notification. */
  datatype Event = AutoDismissFires | ExitFires | CloseClicked

  /** With no click on the close button, `onClose` is called at most once,
      whatever order the timers run in: the auto-dismiss timer runs the close
      path at most once. */
  method TimersOnly(message: string, kind: Kind, duration: int, events: seq<Event>)
    returns (onCloseCalls: nat)
    requires forall k :: 0 <= k < |events| ==> events[k] != CloseClicked
    ensures onCloseCalls <= 1
  {
    var n := new Notification(message, kind, duration, true);
    var i := 0;
    while i < |events|
      invariant 0 <= i <= |events|
      invariant n.Valid()
      invariant (if n.autoTimer then 1 else 0) + n.pendingExits + n.onCloseCalls <= 1
    {
      if events[i] == AutoDismissFires {
        n.FireAutoDismiss();
      } else if n.pendingExits > 0 {
        n.FireExit();
      }
      i := i + 1;
    }
    onCloseCalls := n.onCloseCalls;
  }

  /** The auto-dismiss timer fires and then the close button (still shown
      while exiting) is clicked: both exit callbacks run and `onClose` is
      called twice. */
  method TimerThenClick(message: string, kind: Kind, duration: int)
    returns (onCloseCalls: nat, view: View)
    requires duration > 0
    ensures onCloseCalls == 2 && view == Nothing
  {
    var n := new Notification(message, kind, duration, true);
    n.FireAutoDismiss();
    n.HandleClose();
    n.FireExit();
    n.FireExit();
    onCloseCalls, view := n.onCloseCalls, n.Render();
  }

  /** A duration of zero or less arms nothing: the notification stays
      visible and not exiting, whatever the auto-dismiss steps. */
  method NoAutoDismiss(message: string, kind: Kind, duration: int, steps: nat)
    returns (view: View)
    requires duration <= 0
    ensures view == Shown(message, kind, false)
  {
    var n := new Notification(message, kind, duration, true);
    var i := 0;
    while i < steps
      invariant n.Valid() && !n.autoTimer
      invariant n.isVisible && !n.isExiting && n.pendingExits == 0
    {
      n.FireAutoDismiss();
      i := i + 1;
    }
    view := n.Render();
  }
  /** Any sequence of steps on a new notification (an exit event with none
      pending is skipped): the exiting flag never returns to false, the
      visible flag never returns to true, and from the first hidden snapshot
      on the component renders nothing. */
  method RunNotification(message: string, kind: Kind, duration: int, hasOnClose: bool, events: seq<Event>)
    returns (visible: seq<bool>, exiting: seq<bool>)
    ensures |visible| == |exiting| == |events| + 1
    ensures visible[0] && !exiting[0]
    ensures forall a, b :: 0 <= a <= b < |exiting| && exiting[a] ==> exiting[b]
    ensures forall a, b :: 0 <= a <= b < |visible| && visible[b] ==> visible[a]
    ensures forall a :: 0 <= a < |visible| && !visible[a] ==> exiting[a]
  {
    var n := new Notification(message, kind, duration, hasOnClose);
    visible, exiting := [n.isVisible], [n.isExiting];
    var i := 0;
    while i < |events|
      invariant 0 <= i <= |events|
      invariant n.Valid()
      invariant |visible| == |exiting| == i + 1
      invariant visible[0] && !exiting[0]
      invariant visible[i] == n.isVisible && exiting[i] == n.isExiting
      invariant forall a, b :: 0 <= a <= b <= i && exiting[a] ==> exiting[b]
      invariant forall a, b :: 0 <= a <= b <= i && visible[b] ==> visible[a]
      invariant forall a :: 0 <= a <= i && !visible[a] ==> exiting[a]
    {
      match events[i] {
        case AutoDismissFires => n.FireAutoDismiss();
        case CloseClicked => n.HandleClose();
        case ExitFires => if n.pendingExits > 0 { n.FireExit(); }
      }
      visible, exiting := visible + [n.isVisible], exiting + [n.isExiting];
      i := i + 1;
    }
  }

  /** Closing and then unmounting before the exit delay has passed: the
      cleanup clears only the auto-dismiss timer, so the pending exit
      callback still runs and calls `onClose` once. */
  method CloseThenUnmount(message: string, kind: Kind, duration: int)
    returns (onCloseCalls: nat, autoTimerPending: bool)
    ensures onCloseCalls == 1 && !autoTimerPending
  {
    var n := new Notification(message, kind, duration, true);
    n.HandleClose();
    n.Unmount();
    n.FireExit();
    onCloseCalls, autoTimerPending := n.onCloseCalls, n.autoTimer;
  }

  /** A notification given only its message: an "info" toast whose
      auto-dismiss timer is armed for 5000 ms, and which, having no
      `onClose`, calls nothing when its exit runs. */
  method DefaultNotification(message: string) returns (kind: Kind, duration: int, autoTimer: bool, onCloseCalls: nat)
    ensures kind == Info && duration == 5000 && autoTimer
    ensures onCloseCalls == 0
  {
    var n := new Notification(message);
    kind, duration, autoTimer := n.kind, n.duration, n.autoTimer;
    n.FireAutoDismiss();
    n.FireExit();
    onCloseCalls := n.onCloseCalls;
  }
}
