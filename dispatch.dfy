/**
 * The delegate side of the controller: which delegate method a recognizer
 * reaches (invokeGestureDelegateMethod(gesture:type:)), the calls recorded
 * as events, and the tap-flag guard of longPress(gesture:).
 */
module Dispatch {
  import opened Options
  import opened Recognizers
  import opened Layout

  /** UIGestureRecognizer.State */
  datatype GestureState = Possible | Began | Changed | Ended | Cancelled | Failed

  /** The optional methods of MIIScrollableViewsDelegate. */
  datatype Callback = DidTap | DidDoubleTap | DidPan | DidPinch | DidLongPress

  /** A delegate, known by the optional methods it implements. */
  datatype Delegate = Delegate(implemented: set<Callback>)

  /** One call made on the delegate. */
  datatype Event =
    | DidViewsCountChange(count: nat)
    | DidViewDisplayedChange(view: ViewId, index: int)
    | DidGesture(callback: Callback, view: ViewId, index: int, gesture: nat, state: GestureState)

  /**
   * The optional methods invokeGestureDelegateMethod(gesture:type:) tries, in
   * order: didTap or didDoubleTap when the recognizer is a tap, then the one
   * the handler's type names.
   */
  function Callbacks(k: Kind, t: GestureType): seq<Callback>
  {
    (if k.Tap? then [if k.taps == RawValue(DoubleTap) then DidDoubleTap else DidTap] else []) +
    (match t
     case TapType => []
     case PanType => [DidPan]
     case PinchType => [DidPinch]
     case LongPressType => [DidLongPress])
  }

  /** The delegate method a recognizer of kind `k` is meant for. */
  function CallbackFor(k: Kind): Callback
  {
    match k
    case Tap(n) => if n == RawValue(DoubleTap) then DidDoubleTap else DidTap
    case Pan => DidPan
    case Pinch => DidPinch
    case LongPress => DidLongPress
  }

  /** The calls of `cs` that the delegate implements (`svDelegate.didTap?(...)` skips the others). */
  function Invoked(d: Delegate, cs: seq<Callback>, view: ViewId, index: nat, gesture: nat, state: GestureState): (es: seq<Event>)
    ensures |es| <= |cs|
    ensures forall e :: e in es ==>
      e.DidGesture? && e.callback in cs && e.callback in d.implemented && e.view == view && e.index == index
    ensures forall c :: c in cs && c in d.implemented ==> DidGesture(c, view, index, gesture, state) in es
    decreases |cs|
  {
    if |cs| == 0 then []
    else
      var front := Invoked(d, cs[..|cs| - 1], view, index, gesture, state);
      var c := cs[|cs| - 1];
      assert cs == cs[..|cs| - 1] + [c];
      if c in d.implemented then front + [DidGesture(c, view, index, gesture, state)] else front
  }

  /**
   * All that invokeGestureDelegateMethod(gesture:type:) does: nothing without
   * a delegate, nothing when the recognizer's view is gone or is not one of
   * `views`, otherwise the implemented calls with the view's first index.
   */
  function Notified(d: Option<Delegate>, views: seq<ViewId>, gesture: Recognizer, gestureView: Option<ViewId>, t: GestureType, state: GestureState): seq<Event>
  {
    if d.None? || gestureView.None? then []
    else
      match IndexOf(views, gestureView.value)
      case None => []
      case Some(index) => Invoked(d.value, Callbacks(gesture.kind, t), gestureView.value, index, gesture.id, state)
  }

  /**
   * A recognizer handled by the handler of its own type reaches exactly one
   * delegate method: the one for its kind, with the first position of its
   * view, and only when the delegate implements it.
   */
  lemma NotifiedOnce(d: Option<Delegate>, views: seq<ViewId>, gesture: Recognizer, gestureView: Option<ViewId>, t: GestureType, state: GestureState)
    requires IsOfType(gesture.kind, t)
    ensures var es := Notified(d, views, gesture, gestureView, t, state);
      es == if d.Some? && gestureView.Some? && gestureView.value in views && CallbackFor(gesture.kind) in d.value.implemented
            then [DidGesture(CallbackFor(gesture.kind), gestureView.value, IndexOf(views, gestureView.value).value, gesture.id, state)]
            else []
  {
    assert Callbacks(gesture.kind, t) == [CallbackFor(gesture.kind)];
    if d.Some? && gestureView.Some? && gestureView.value in views {
      var cs := [CallbackFor(gesture.kind)];
      assert cs[..0] == [];
    }
  }

  /**
   * (shouldAddTapGesture, beginningTapFlag) after longPress(gesture:) sees
   * `state`: a press that begins saves the tap flag and clears it, one that
   * ends puts the saved value back, any other state leaves both.
   */
  function LongPressFlags(state: GestureState, tap: bool, saved: bool): (bool, bool)
  {
    if state == Began then (false, tap)
    else if state == Ended then (saved, saved)
    else (tap, saved)
  }

  /** The flags after a run of long-press states, oldest first. */
  function Replay(states: seq<GestureState>, tap: bool, saved: bool): (bool, bool)
    decreases |states|
  {
    if |states| == 0 then (tap, saved)
    else
      var (t, s) := Replay(states[..|states| - 1], tap, saved);
      LongPressFlags(states[|states| - 1], t, s)
  }

  /** States that neither begin nor end a press. */
  predicate Held(states: seq<GestureState>)
  {
    forall j :: 0 <= j < |states| ==> states[j] != Began && states[j] != Ended
  }

  /** While a pressed finger is held, the tap flag stays off and the old value stays saved. */
  lemma {:induction false} HeldPressKeepsTapOff(tap: bool, saved: bool, held: seq<GestureState>)
    requires Held(held)
    ensures Replay([Began] + held, tap, saved) == (false, tap)
    decreases |held|
  {
    if |held| > 0 {
      var front := held[..|held| - 1];
      assert ([Began] + held)[..|held|] == [Began] + front;
      HeldPressKeepsTapOff(tap, saved, front);
    }
  }

  /** A long press that begins and ends gives the tap flag back the value it had. */
  lemma LongPressRestoresTap(tap: bool, saved: bool, held: seq<GestureState>)
    requires Held(held)
    ensures Replay([Began] + held + [Ended], tap, saved) == (tap, tap)
  {
    HeldPressKeepsTapOff(tap, saved, held);
    assert ([Began] + held + [Ended])[..|held| + 1] == [Began] + held;
  }

  /** A long press that is cancelled or fails leaves taps switched off. */
  lemma InterruptedPressKeepsTapOff(tap: bool, saved: bool, held: seq<GestureState>, last: GestureState)
    requires Held(held) && (last == Cancelled || last == Failed)
    ensures Replay([Began] + held + [last], tap, saved) == (false, tap)
  {
    HeldPressKeepsTapOff(tap, saved, held);
    assert ([Began] + held + [last])[..|held| + 1] == [Began] + held;
  }

  /** Replaying two runs one after the other is replaying the second from where the first left the flags. */
  lemma {:induction false} ReplayConcat(a: seq<GestureState>, b: seq<GestureState>, tap: bool, saved: bool)
    ensures Replay(a + b, tap, saved) == Replay(b, Replay(a, tap, saved).0, Replay(a, tap, saved).1)
    decreases |b|
  {
    if |b| == 0 {
      assert a + b == a;
    } else {
      assert (a + b)[..|a + b| - 1] == a + b[..|b| - 1];
      ReplayConcat(a, b[..|b| - 1], tap, saved);
    }
  }

  /** States that neither begin nor end a press change neither flag. */
  lemma {:induction false} HeldKeepsFlags(held: seq<GestureState>, tap: bool, saved: bool)
    requires Held(held)
    ensures Replay(held, tap, saved) == (tap, saved)
    decreases |held|
  {
    if |held| > 0 {
      var front := held[..|held| - 1];
      assert forall j :: 0 <= j < |front| ==> front[j] == held[j];
      HeldKeepsFlags(front, tap, saved);
    }
  }

  /**
   * Two long presses that overlap (on two views, the recognizers being
   * simultaneous): the second saves the flag the first already cleared, so
   * taps stay off after both end, whatever the flags were before.
   */
  lemma OverlappingPressesLoseTap(tap: bool, saved: bool, h1: seq<GestureState>, h2: seq<GestureState>, h3: seq<GestureState>)
    requires Held(h1) && Held(h2) && Held(h3)
    ensures Replay([Began] + h1 + [Began] + h2 + [Ended] + h3 + [Ended], tap, saved) == (false, false)
  {
    var p1, p2, p3 := [Began] + h1, [Began] + h2, [Ended] + h3;
    HeldPressKeepsTapOff(tap, saved, h1);
    HeldPressKeepsTapOff(false, tap, h2);
    ReplayConcat(p1, p2, tap, saved);
    HeldKeepsFlags(h3, false, false);
    ReplayConcat([Ended], h3, false, false);
    ReplayConcat(p1 + p2, p3, tap, saved);
    ReplayConcat(p1 + p2 + p3, [Ended], tap, saved);
    assert [Began] + h1 + [Began] + h2 + [Ended] + h3 + [Ended] == p1 + p2 + p3 + [Ended];
  }
}
