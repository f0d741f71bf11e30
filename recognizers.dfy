/**
 * Gesture recognizers as values, and what the controller does to the list of
 * recognizers attached to ONE view: addGesture, addDoubleTapGesture,
 * removeGesture, removeDoubleTapGesture, findTapGesture and setupGestures.
 *
 * A UIKit recognizer is an object; here it is a value with an identity `id`
 * (drawn from a counter owned by the controller), its dynamic class `kind`
 * (a tap carries its numberOfTapsRequired) and the ids of the recognizers it
 * was told to wait for with `require(toFail:)`.
 */
module Recognizers {
  import opened Options

  /** The dynamic class of a recognizer. */
  datatype Kind = Tap(taps: nat) | Pan | Pinch | LongPress

  /** The `T.Type` argument of addGesture and removeGesture. */
  datatype GestureType = TapType | PanType | PinchType | LongPressType

  /** `TapGestureType`: raw value 1 for a single tap, 2 for a double tap. */
  datatype TapGestureType = SingleTap | DoubleTap

  function RawValue(t: TapGestureType): nat
  {
    match t
    case SingleTap => 1
    case DoubleTap => 2
  }

  datatype Recognizer = Recognizer(id: nat, kind: Kind, requiresToFail: set<nat>)

  /** The five gesture flags of the controller, in one value. */
  datatype Flags = Flags(tap: bool, pan: bool, pinch: bool, longPress: bool, doubleTap: bool)

  /** `TapGestureType.isDoubleTap`: a tap whose numberOfTapsRequired is 2. */
  predicate IsDoubleTap(tap: Recognizer)
    requires tap.kind.Tap?
  {
    tap.kind.taps == RawValue(DoubleTap)
  }

  /** `gesture is T` */
  predicate IsOfType(k: Kind, t: GestureType)
  {
    match t
    case TapType => k.Tap?
    case PanType => k.Pan?
    case PinchType => k.Pinch?
    case LongPressType => k.LongPress?
  }

  /** removeGesture(from:type:) detaches a recognizer of kind `k` exactly when this holds. */
  predicate Removes(t: GestureType, k: Kind)
  {
    IsOfType(k, t) && !(k.Tap? && k.taps == RawValue(DoubleTap))
  }

  /** A tap recognizer of the given TapGestureType. */
  predicate IsTapOf(r: Recognizer, t: TapGestureType)
  {
    r.kind == Tap(RawValue(t))
  }

  /** Number of recognizers of kind `k` in `gs`. */
  function Count(gs: seq<Recognizer>, k: Kind): nat
    decreases |gs|
  {
    if |gs| == 0 then 0
    else Count(gs[..|gs| - 1], k) + (if gs[|gs| - 1].kind == k then 1 else 0)
  }

  /** Every id below `next`, and no id twice. */
  predicate WellFormed(gs: seq<Recognizer>, next: nat)
  {
    (forall j :: 0 <= j < |gs| ==> gs[j].id < next) &&
    (forall j, k {:trigger gs[j].id, gs[k].id} :: 0 <= j < k < |gs| ==> gs[j].id != gs[k].id)
  }

  /**
   * findTapGesture(from:type:): the position of the first tap recognizer of
   * the given type, if there is one.
   */
  function FindTapGesture(gs: seq<Recognizer>, t: TapGestureType): (r: Option<nat>)
    ensures r.Some? ==> r.value < |gs| && IsTapOf(gs[r.value], t)
    decreases |gs|
  {
    if |gs| == 0 then None
    else if IsTapOf(gs[0], t) then Some(0)
    else
      match FindTapGesture(gs[1..], t)
      case None => None
      case Some(k) => Some(k + 1)
  }

  /** `if let tap = findTapGesture(from: gs, type: t)`: the view has a tap of that type. */
  predicate HasTap(gs: seq<Recognizer>, t: TapGestureType)
  {
    FindTapGesture(gs, t).Some?
  }

  /** findTapGesture(from:type:) finds the FIRST tap of the type, and finds one whenever there is one. */
  lemma {:induction false} FindTapGestureFirst(gs: seq<Recognizer>, t: TapGestureType)
    ensures var r := FindTapGesture(gs, t);
      (r.Some? ==> forall j :: 0 <= j < r.value ==> !IsTapOf(gs[j], t)) &&
      (r.Some? <==> exists j :: 0 <= j < |gs| && IsTapOf(gs[j], t))
    decreases |gs|
  {
    if |gs| > 0 && !IsTapOf(gs[0], t) {
      FindTapGestureFirst(gs[1..], t);
      if exists j :: 0 <= j < |gs| && IsTapOf(gs[j], t) {
        var j :| 0 <= j < |gs| && IsTapOf(gs[j], t);
        assert gs[1..][j - 1] == gs[j];
      }
      if FindTapGesture(gs[1..], t).Some? {
        var j :| 0 <= j < |gs| - 1 && IsTapOf(gs[1..][j], t);
        assert gs[j + 1] == gs[1..][j];
      }
    }
  }

  /**
   * removeGesture(from:type:): the recognizers that stay attached, in their
   * order (every recognizer of the type goes, except a double tap).
   */
  function Retained(gs: seq<Recognizer>, t: GestureType): seq<Recognizer>
    decreases |gs|
  {
    if |gs| == 0 then []
    else
      var last := gs[|gs| - 1];
      var front := Retained(gs[..|gs| - 1], t);
      if Removes(t, last.kind) then front else front + [last]
  }

  /** removeGesture(from:type:) keeps exactly the recognizers it does not remove. */
  lemma {:induction false} RetainedMembers(gs: seq<Recognizer>, t: GestureType)
    ensures forall r :: r in Retained(gs, t) <==> r in gs && !Removes(t, r.kind)
    decreases |gs|
  {
    if |gs| > 0 {
      assert gs == gs[..|gs| - 1] + [gs[|gs| - 1]];
      RetainedMembers(gs[..|gs| - 1], t);
    }
  }

  /** removeGesture(from:type:) leaves no recognizer of a removed kind and every other kind's count. */
  lemma {:induction false} RetainedCounts(gs: seq<Recognizer>, t: GestureType)
    ensures forall k :: Count(Retained(gs, t), k) == if Removes(t, k) then 0 else Count(gs, k)
    decreases |gs|
  {
    if |gs| > 0 {
      var last := gs[|gs| - 1];
      var front := Retained(gs[..|gs| - 1], t);
      RetainedCounts(gs[..|gs| - 1], t);
      if !Removes(t, last.kind) {
        assert (front + [last])[..|front + [last]| - 1] == front;
      }
    }
  }

  /** `removeGestureRecognizer`: detaches the recognizer with the given identity. */
  function WithoutId(gs: seq<Recognizer>, id: nat): (res: seq<Recognizer>)
    ensures |res| <= |gs|
    decreases |gs|
  {
    if |gs| == 0 then []
    else
      var last := gs[|gs| - 1];
      var front := WithoutId(gs[..|gs| - 1], id);
      assert gs == gs[..|gs| - 1] + [last];
      if last.id == id then front else front + [last]
  }

  /** `removeGestureRecognizer` detaches exactly the recognizers with that identity. */
  lemma {:induction false} WithoutIdMembers(gs: seq<Recognizer>, id: nat)
    ensures forall r :: r in WithoutId(gs, id) <==> r in gs && r.id != id
    decreases |gs|
  {
    if |gs| > 0 {
      assert gs == gs[..|gs| - 1] + [gs[|gs| - 1]];
      WithoutIdMembers(gs[..|gs| - 1], id);
    }
  }

  /**
   * The recognizer addGesture(to:type:) creates: a single tap that waits for
   * the view's first double tap, if the view has one.
   */
  function NewRecognizer(gs: seq<Recognizer>, t: GestureType, id: nat): Recognizer
  {
    match t
    case TapType =>
      var waitsFor := match FindTapGesture(gs, DoubleTap)
        case Some(d) => {gs[d].id}
        case None => {};
      Recognizer(id, Tap(RawValue(SingleTap)), waitsFor)
    case PanType => Recognizer(id, Pan, {})
    case PinchType => Recognizer(id, Pinch, {})
    case LongPressType => Recognizer(id, LongPress, {})
  }

  /** addGesture(to:type:) */
  function Added(gs: seq<Recognizer>, t: GestureType, id: nat): seq<Recognizer>
  {
    gs + [NewRecognizer(gs, t, id)]
  }

  /** `tap.require(toFail:)` on the recognizer at position `k`. */
  function RequireToFail(gs: seq<Recognizer>, k: nat, id: nat): seq<Recognizer>
    requires k < |gs|
  {
    gs[k := gs[k].(requiresToFail := gs[k].requiresToFail + {id})]
  }

  /**
   * addDoubleTapGesture(to:): a new double tap; the view's first single tap,
   * if any, is told to wait for it.
   */
  function DoubleTapAdded(gs: seq<Recognizer>, id: nat): seq<Recognizer>
  {
    var linked := match FindTapGesture(gs, SingleTap)
      case Some(k) => RequireToFail(gs, k, id)
      case None => gs;
    linked + [Recognizer(id, Tap(RawValue(DoubleTap)), {})]
  }

  /**
   * removeDoubleTapGesture(from:) with the id counter `next`.  When the view
   * has a single tap too, every single tap is removed and a new one added
   * BEFORE the double tap goes, so the new tap is wired to it.
   */
  function DoubleTapRemoved(gs: seq<Recognizer>, next: nat): (seq<Recognizer>, nat)
  {
    match FindTapGesture(gs, DoubleTap)
    case None => (gs, next)
    case Some(d) =>
      var (rebuilt, next') :=
        if FindTapGesture(gs, SingleTap).Some? then (Added(Retained(gs, TapType), TapType, next), next + 1)
        else (gs, next);
      (WithoutId(rebuilt, gs[d].id), next')
  }

  /** What the controller does to one view's recognizers. */
  datatype Op =
    | AddOp(t: GestureType)
    | AddDoubleTapOp
    | RemoveOp(t: GestureType)
    | RemoveDoubleTapOp
    | SetupOp(flags: Flags)

  /** One single-step operation on a view whose recognizers are `gs`; the result has the new list and counter. */
  function Step(op: Op, gs: seq<Recognizer>, next: nat): (seq<Recognizer>, nat)
    requires !op.SetupOp?
  {
    match op
    case AddOp(t) => (Added(gs, t, next), next + 1)
    case AddDoubleTapOp => (DoubleTapAdded(gs, next), next + 1)
    case RemoveOp(t) => (Retained(gs, t), next)
    case RemoveDoubleTapOp => DoubleTapRemoved(gs, next)
  }

  /** A guarded addGesture(to:type:) line of setupGestures(to:). */
  function AddIf(b: bool, t: GestureType, s: (seq<Recognizer>, nat)): (seq<Recognizer>, nat)
  {
    if b then (Added(s.0, t, s.1), s.1 + 1) else s
  }

  /** The guarded addDoubleTapGesture(to:) line of setupGestures(to:). */
  function DoubleTapIf(b: bool, s: (seq<Recognizer>, nat)): (seq<Recognizer>, nat)
  {
    if b then (DoubleTapAdded(s.0, s.1), s.1 + 1) else s
  }

  /** setupGestures(to:): one recognizer per enabled flag, the double tap last. */
  function Setup(f: Flags, gs: seq<Recognizer>, next: nat): (seq<Recognizer>, nat)
  {
    var s1 := AddIf(f.tap, TapType, (gs, next));
    var s2 := AddIf(f.pan, PanType, s1);
    var s3 := AddIf(f.pinch, PinchType, s2);
    var s4 := AddIf(f.longPress, LongPressType, s3);
    DoubleTapIf(f.doubleTap, s4)
  }

  /** Runs `op` on a view whose recognizers are `gs`; the result has the new list and counter. */
  function Apply(op: Op, gs: seq<Recognizer>, next: nat): (seq<Recognizer>, nat)
  {
    if op.SetupOp? then Setup(op.flags, gs, next) else Step(op, gs, next)
  }
}
