/**
 * What the per-view recognizer operations promise: which recognizers a removal
 * keeps, how many of each kind an addition creates, the tap / double-tap
 * failure wiring, long-lived identities, and the flag round trips.
 */
module RecognizerLemmas {
  import opened Options
  import opened Recognizers

  /** The kind of recognizer addGesture(to:type:) creates for `t`. */
  function KindOf(t: GestureType): Kind
  {
    match t
    case TapType => Tap(RawValue(SingleTap))
    case PanType => Pan
    case PinchType => Pinch
    case LongPressType => LongPress
  }

  /** How many recognizers of kind `k` setupGestures(to:) adds under `f`. */
  function Enabled(f: Flags, k: Kind): nat
  {
    (if f.tap && k == KindOf(TapType) then 1 else 0) +
    (if f.pan && k == KindOf(PanType) then 1 else 0) +
    (if f.pinch && k == KindOf(PinchType) then 1 else 0) +
    (if f.longPress && k == KindOf(LongPressType) then 1 else 0) +
    (if f.doubleTap && k == Tap(RawValue(DoubleTap)) then 1 else 0)
  }

  /** The first tap recognizer of the type, as findTapGesture(from:type:) returns it. */
  function FirstTap(gs: seq<Recognizer>, t: TapGestureType): Option<Recognizer>
  {
    match FindTapGesture(gs, t)
    case None => None
    case Some(k) => Some(gs[k])
  }

  lemma CountSnoc(gs: seq<Recognizer>, x: Recognizer, k: Kind)
    ensures Count(gs + [x], k) == Count(gs, k) + (if x.kind == k then 1 else 0)
  {
    assert (gs + [x])[..|gs|] == gs;
  }

  lemma {:induction false} CountSameKinds(gs: seq<Recognizer>, hs: seq<Recognizer>, k: Kind)
    requires |gs| == |hs|
    requires forall j :: 0 <= j < |gs| ==> gs[j].kind == hs[j].kind
    ensures Count(gs, k) == Count(hs, k)
    decreases |gs|
  {
    if |gs| > 0 {
      CountSameKinds(gs[..|gs| - 1], hs[..|hs| - 1], k);
    }
  }

  /** The search of findTapGesture on a list that grows at the end. */
  lemma FirstTapSnoc(gs: seq<Recognizer>, x: Recognizer, t: TapGestureType)
    ensures FirstTap(gs + [x], t) ==
      if HasTap(gs, t) then FirstTap(gs, t) else if IsTapOf(x, t) then Some(x) else None
  {
    var r := FindTapGesture(gs + [x], t);
    FindTapGestureFirst(gs, t);
    FindTapGestureFirst(gs + [x], t);
    if HasTap(gs, t) {
      var k := FindTapGesture(gs, t).value;
      assert (gs + [x])[k] == gs[k];
      assert r.value <= k;
      assert (gs + [x])[r.value] == gs[r.value];
    } else if IsTapOf(x, t) {
      assert (gs + [x])[|gs|] == x;
    }
  }

  /** One more step of the loop of removeGesture(from:type:). */
  lemma RetainedSnoc(gs: seq<Recognizer>, x: Recognizer, t: GestureType)
    ensures Retained(gs + [x], t) == if Removes(t, x.kind) then Retained(gs, t) else Retained(gs, t) + [x]
  {
    assert (gs + [x])[..|gs|] == gs;
  }

  /** Removing the same type again removes nothing more. */
  lemma {:induction false} RetainedIdempotent(gs: seq<Recognizer>, t: GestureType)
    ensures Retained(Retained(gs, t), t) == Retained(gs, t)
    decreases |gs|
  {
    if |gs| > 0 {
      var last := gs[|gs| - 1];
      var front := Retained(gs[..|gs| - 1], t);
      RetainedIdempotent(gs[..|gs| - 1], t);
      if !Removes(t, last.kind) {
        assert (front + [last])[..|front|] == front;
      }
    }
  }

  /** removeGesture(from: view, type: Tap.self) leaves the first double tap where it was first. */
  lemma {:induction false} FirstDoubleTapRetained(gs: seq<Recognizer>)
    ensures FirstTap(Retained(gs, TapType), DoubleTap) == FirstTap(gs, DoubleTap)
    decreases |gs|
  {
    if |gs| > 0 {
      var front, last := gs[..|gs| - 1], gs[|gs| - 1];
      assert gs == front + [last];
      FirstDoubleTapRetained(front);
      FirstTapSnoc(front, last, DoubleTap);
      var rf := Retained(front, TapType);
      RetainedMembers(front, TapType);
      if HasTap(rf, DoubleTap) {
        var j :| 0 <= j < |rf| && IsTapOf(rf[j], DoubleTap);
        assert rf[j] in front;
      }
      if !Removes(TapType, last.kind) {
        FirstTapSnoc(rf, last, DoubleTap);
      }
    }
  }

  lemma {:induction false} RetainedWellFormed(gs: seq<Recognizer>, t: GestureType, n: nat)
    requires WellFormed(gs, n)
    ensures WellFormed(Retained(gs, t), n)
    decreases |gs|
  {
    if |gs| > 0 {
      var front, last := gs[..|gs| - 1], gs[|gs| - 1];
      RetainedWellFormed(front, t, n);
      var rf := Retained(front, t);
      RetainedMembers(front, t);
      if !Removes(t, last.kind) {
        forall j | 0 <= j < |rf| ensures rf[j].id != last.id {
          assert rf[j] in front;
        }
      }
    }
  }

  lemma {:induction false} WithoutIdWellFormed(gs: seq<Recognizer>, id: nat, n: nat)
    requires WellFormed(gs, n)
    ensures WellFormed(WithoutId(gs, id), n)
    decreases |gs|
  {
    if |gs| > 0 {
      var front, last := gs[..|gs| - 1], gs[|gs| - 1];
      WithoutIdWellFormed(front, id, n);
      var rf := WithoutId(front, id);
      WithoutIdMembers(front, id);
      if last.id != id {
        forall j | 0 <= j < |rf| ensures rf[j].id != last.id {
          assert rf[j] in front;
        }
      }
    }
  }

  /** Detaching one recognizer by identity lowers the count of its kind by one, and of no other. */
  lemma {:induction false} CountWithoutId(gs: seq<Recognizer>, j: nat, n: nat, k: Kind)
    requires WellFormed(gs, n) && j < |gs|
    ensures Count(WithoutId(gs, gs[j].id), k) == Count(gs, k) - (if gs[j].kind == k then 1 else 0)
    decreases |gs|
  {
    var front, last := gs[..|gs| - 1], gs[|gs| - 1];
    WellFormedFront(gs, n);
    if j == |gs| - 1 {
      CountWithoutLast(gs, n, k);
    } else {
      var id := gs[j].id;
      assert gs == front + [last];
      assert front[j] == gs[j];
      CountWithoutId(front, j, n, k);
      WithoutIdSnoc(front, last, id);
      CountSnoc(WithoutId(front, id), last, k);
      CountSnoc(front, last, k);
    }
  }

  lemma CountWithoutLast(gs: seq<Recognizer>, n: nat, k: Kind)
    requires WellFormed(gs, n) && |gs| > 0
    ensures Count(WithoutId(gs, gs[|gs| - 1].id), k) == Count(gs, k) - (if gs[|gs| - 1].kind == k then 1 else 0)
  {
    WellFormedFront(gs, n);
    NoIdSameCount(gs[..|gs| - 1], gs[|gs| - 1].id, k);
  }

  /** Dropping the last recognizer keeps a list well formed; no earlier one shares its id. */
  lemma WellFormedFront(gs: seq<Recognizer>, n: nat)
    requires WellFormed(gs, n) && |gs| > 0
    ensures WellFormed(gs[..|gs| - 1], n)
    ensures forall j :: 0 <= j < |gs| - 1 ==> gs[j].id != gs[|gs| - 1].id
  {
    var front := gs[..|gs| - 1];
    assert forall j :: 0 <= j < |front| ==> front[j] == gs[j];
  }

  lemma {:induction false} NoIdSameCount(gs: seq<Recognizer>, id: nat, k: Kind)
    requires forall j :: 0 <= j < |gs| ==> gs[j].id != id
    ensures WithoutId(gs, id) == gs
    decreases |gs|
  {
    if |gs| > 0 {
      NoIdSameCount(gs[..|gs| - 1], id, k);
      assert gs == gs[..|gs| - 1] + [gs[|gs| - 1]];
    }
  }

  /** Every single-step operation keeps ids unique and below the counter, and never lowers the counter. */
  lemma StepWellFormed(op: Op, gs: seq<Recognizer>, n: nat)
    requires WellFormed(gs, n) && !op.SetupOp?
    ensures WellFormed(Step(op, gs, n).0, Step(op, gs, n).1) && n <= Step(op, gs, n).1
  {
    match op
    case AddOp(t) =>
    case AddDoubleTapOp =>
    case RemoveOp(t) => RetainedWellFormed(gs, t, n);
    case RemoveDoubleTapOp => DoubleTapRemovedWellFormed(gs, n);
  }

  /** removeDoubleTapGesture(from:) keeps ids unique and below the counter, and never lowers the counter. */
  lemma DoubleTapRemovedWellFormed(gs: seq<Recognizer>, n: nat)
    requires WellFormed(gs, n)
    ensures WellFormed(DoubleTapRemoved(gs, n).0, DoubleTapRemoved(gs, n).1) && n <= DoubleTapRemoved(gs, n).1
  {
    FindTapGestureFirst(gs, DoubleTap);
    FindTapGestureFirst(gs, SingleTap);
    if HasTap(gs, DoubleTap) {
      var d := FindTapGesture(gs, DoubleTap).value;
      if HasTap(gs, SingleTap) {
        RetainedWellFormed(gs, TapType, n);
        var r := Retained(gs, TapType);
        assert WellFormed(Added(r, TapType, n), n + 1);
        WithoutIdWellFormed(Added(r, TapType, n), gs[d].id, n + 1);
      } else {
        WithoutIdWellFormed(gs, gs[d].id, n);
      }
    }
  }

  lemma AddIfWellFormed(b: bool, t: GestureType, s: (seq<Recognizer>, nat))
    requires WellFormed(s.0, s.1)
    ensures WellFormed(AddIf(b, t, s).0, AddIf(b, t, s).1) && s.1 <= AddIf(b, t, s).1
  {
  }

  lemma DoubleTapIfWellFormed(b: bool, s: (seq<Recognizer>, nat))
    requires WellFormed(s.0, s.1)
    ensures WellFormed(DoubleTapIf(b, s).0, DoubleTapIf(b, s).1) && s.1 <= DoubleTapIf(b, s).1
  {
  }

  /** Every operation keeps ids unique and below the counter, and never lowers the counter. */
  lemma ApplyWellFormed(op: Op, gs: seq<Recognizer>, n: nat)
    requires WellFormed(gs, n)
    ensures WellFormed(Apply(op, gs, n).0, Apply(op, gs, n).1) && n <= Apply(op, gs, n).1
  {
    if op.SetupOp? {
      var f := op.flags;
      var s1 := AddIf(f.tap, TapType, (gs, n));
      AddIfWellFormed(f.tap, TapType, (gs, n));
      var s2 := AddIf(f.pan, PanType, s1);
      AddIfWellFormed(f.pan, PanType, s1);
      var s3 := AddIf(f.pinch, PinchType, s2);
      AddIfWellFormed(f.pinch, PinchType, s2);
      var s4 := AddIf(f.longPress, LongPressType, s3);
      AddIfWellFormed(f.longPress, LongPressType, s3);
      DoubleTapIfWellFormed(f.doubleTap, s4);
    } else {
      StepWellFormed(op, gs, n);
    }
  }

  /** addGesture(to:type:) adds exactly one recognizer, of the requested kind. */
  lemma AddedCount(gs: seq<Recognizer>, t: GestureType, id: nat, k: Kind)
    ensures Count(Added(gs, t, id), k) == Count(gs, k) + (if k == KindOf(t) then 1 else 0)
  {
    CountSnoc(gs, NewRecognizer(gs, t, id), k);
  }

  /** addDoubleTapGesture(to:) adds exactly one double tap and changes no other count. */
  lemma DoubleTapAddedCount(gs: seq<Recognizer>, id: nat, k: Kind)
    ensures Count(DoubleTapAdded(gs, id), k) == Count(gs, k) + (if k == Tap(2) then 1 else 0)
  {
    var linked := match FindTapGesture(gs, SingleTap)
      case Some(j) => RequireToFail(gs, j, id)
      case None => gs;
    CountSameKinds(linked, gs, k);
    CountSnoc(linked, Recognizer(id, Tap(2), {}), k);
  }

  /** A guarded addGesture(to:type:) adds one recognizer of the kind when its flag is set. */
  lemma AddIfCount(b: bool, t: GestureType, s: (seq<Recognizer>, nat), k: Kind)
    ensures Count(AddIf(b, t, s).0, k) == Count(s.0, k) + (if b && k == KindOf(t) then 1 else 0)
  {
    if b {
      AddedCount(s.0, t, s.1, k);
    }
  }

  /**
   * setupGestures(to:) adds one recognizer per set flag. Run twice on the same
   * view (as the subscript setter at `index == count` does), it adds two.
   */
  lemma SetupGesturesCount(f: Flags, gs: seq<Recognizer>, n: nat, k: Kind)
    ensures Count(Apply(SetupOp(f), gs, n).0, k) == Count(gs, k) + Enabled(f, k)
  {
    var s1 := AddIf(f.tap, TapType, (gs, n));
    AddIfCount(f.tap, TapType, (gs, n), k);
    var s2 := AddIf(f.pan, PanType, s1);
    AddIfCount(f.pan, PanType, s1, k);
    var s3 := AddIf(f.pinch, PinchType, s2);
    AddIfCount(f.pinch, PinchType, s2, k);
    var s4 := AddIf(f.longPress, LongPressType, s3);
    AddIfCount(f.longPress, LongPressType, s3, k);
    if f.doubleTap {
      DoubleTapAddedCount(s4.0, s4.1, k);
    }
  }

  /**
   * The tap / double-tap rule: a single tap added to a view that has a double
   * tap waits for that double tap, and a double tap added to a view that has a
   * single tap is waited for by that single tap.
   */
  lemma TapWaitsForDoubleTap(gs: seq<Recognizer>, id: nat)
    ensures HasTap(gs, DoubleTap) ==>
      var res := Added(gs, TapType, id);
      IsTapOf(res[|gs|], SingleTap) && res[|gs|].requiresToFail == {FirstTap(gs, DoubleTap).value.id}
    ensures HasTap(gs, SingleTap) ==>
      var res := DoubleTapAdded(gs, id);
      var k := FindTapGesture(gs, SingleTap).value;
      IsTapOf(res[k], SingleTap) && id in res[k].requiresToFail &&
      res[|gs|] == Recognizer(id, Tap(RawValue(DoubleTap)), {})
  {
    FindTapGestureFirst(gs, DoubleTap);
    FindTapGestureFirst(gs, SingleTap);
  }

  /** The RemoveDoubleTapOp operation is removeDoubleTapGesture(from:). */
  lemma ApplyRemoveDoubleTap(gs: seq<Recognizer>, n: nat)
    ensures Apply(RemoveDoubleTapOp, gs, n) == DoubleTapRemoved(gs, n)
  {
  }

  /** removeDoubleTapGesture(from:) on a view whose first double tap is at `d`, step by step. */
  lemma DoubleTapRemovedSteps(gs: seq<Recognizer>, n: nat, d: nat)
    requires FindTapGesture(gs, DoubleTap) == Some(d)
    ensures DoubleTapRemoved(gs, n) ==
      if FindTapGesture(gs, SingleTap).Some? then (WithoutId(Added(Retained(gs, TapType), TapType, n), gs[d].id), n + 1)
      else (WithoutId(gs, gs[d].id), n)
  {
  }

  lemma DoubleTapRemovedRebuilds(gs: seq<Recognizer>, n: nat)
    requires HasTap(gs, DoubleTap) && HasTap(gs, SingleTap)
    ensures var dt := FirstTap(gs, DoubleTap).value;
      DoubleTapRemoved(gs, n).0 == WithoutId(Retained(gs, TapType) + [Recognizer(n, Tap(1), {dt.id})], dt.id)
  {
    FindTapGestureFirst(gs, DoubleTap);
    FindTapGestureFirst(gs, SingleTap);
    FirstDoubleTapRetained(gs);
  }

  /** The rebuilt list: all single taps replaced by one new tap, then the double tap `dt` detached. */
  lemma RebuiltCounts(gs: seq<Recognizer>, n: nat, dt: Recognizer, k: Kind)
    requires WellFormed(gs, n) && dt in gs && dt.kind == Tap(2)
    ensures var res := WithoutId(Retained(gs, TapType) + [Recognizer(n, Tap(1), {dt.id})], dt.id);
      Recognizer(n, Tap(1), {dt.id}) in res &&
      Count(res, k) ==
        if k == Tap(1) then 1 else if k == Tap(2) then Count(gs, k) - 1
        else if Removes(TapType, k) then 0 else Count(gs, k)
  {
    var r := Retained(gs, TapType);
    var tap := Recognizer(n, Tap(1), {dt.id});
    var w := WithoutId(r, dt.id);
    RetainedWithoutCount(gs, n, dt, k);
    WithoutIdSnoc(r, tap, dt.id);
    CountSnoc(w, tap, k);
    RetainedCounts(gs, TapType);
  }

  /** Detaching the double tap `dt` after removeGesture(from:type: Tap.self) lowers only the double-tap count. */
  lemma RetainedWithoutCount(gs: seq<Recognizer>, n: nat, dt: Recognizer, k: Kind)
    requires WellFormed(gs, n) && dt in gs && dt.kind == Tap(2)
    ensures dt.id < n
    ensures var r := Retained(gs, TapType);
      Count(WithoutId(r, dt.id), k) == Count(r, k) - (if k == Tap(2) then 1 else 0)
  {
    var r := Retained(gs, TapType);
    RetainedWellFormed(gs, TapType, n);
    RetainedMembers(gs, TapType);
    var p :| 0 <= p < |r| && r[p] == dt;
    CountWithoutId(r, p, n, k);
  }

  lemma WithoutIdSnoc(gs: seq<Recognizer>, x: Recognizer, id: nat)
    requires x.id != id
    ensures WithoutId(gs + [x], id) == WithoutId(gs, id) + [x]
  {
    assert (gs + [x])[..|gs|] == gs;
  }

  /** removeDoubleTapGesture(from:) on a view with a double tap and a single tap. */
  lemma DoubleTapRemovedWithSingleTap(gs: seq<Recognizer>, n: nat)
    requires WellFormed(gs, n) && HasTap(gs, DoubleTap) && HasTap(gs, SingleTap)
    ensures var res := DoubleTapRemoved(gs, n).0;
      var dt := FirstTap(gs, DoubleTap).value;
      Recognizer(n, Tap(1), {dt.id}) in res &&
      forall k :: Count(res, k) ==
        if k == Tap(1) then 1 else if k == Tap(2) then Count(gs, k) - 1
        else if Removes(TapType, k) then 0 else Count(gs, k)
  {
    var dt := FirstTap(gs, DoubleTap).value;
    DoubleTapRemovedRebuilds(gs, n);
    forall k {
      RebuiltCounts(gs, n, dt, k);
    }
  }

  /** removeDoubleTapGesture(from:) on a view with a double tap and no single tap. */
  lemma DoubleTapRemovedWithoutSingleTap(gs: seq<Recognizer>, n: nat)
    requires WellFormed(gs, n) && HasTap(gs, DoubleTap) && !HasTap(gs, SingleTap)
    ensures var res := DoubleTapRemoved(gs, n).0;
      var dt := FirstTap(gs, DoubleTap).value;
      res == WithoutId(gs, dt.id) && !HasTap(res, SingleTap) &&
      forall k :: Count(res, k) == Count(gs, k) - (if k == Tap(2) then 1 else 0)
  {
    FindTapGestureFirst(gs, DoubleTap);
    FindTapGestureFirst(gs, SingleTap);
    var d := FindTapGesture(gs, DoubleTap).value;
    var res := WithoutId(gs, gs[d].id);
    WithoutIdMembers(gs, gs[d].id);
    FindTapGestureFirst(res, SingleTap);
    forall k ensures Count(res, k) == Count(gs, k) - (if k == Tap(2) then 1 else 0) {
      CountWithoutId(gs, d, n, k);
    }
  }

  /**
   * removeDoubleTapGesture(from:): nothing happens without a double tap;
   * otherwise one double tap goes, a single tap is there afterwards exactly
   * when one was there before, no pan, pinch or long press is touched, and the
   * rebuilt single tap still waits for the double tap that was just removed.
   */
  lemma DoubleTapRemovedEffect(gs: seq<Recognizer>, n: nat)
    requires WellFormed(gs, n)
    ensures !HasTap(gs, DoubleTap) ==> DoubleTapRemoved(gs, n) == (gs, n)
    ensures HasTap(gs, DoubleTap) ==>
      var res := DoubleTapRemoved(gs, n).0;
      var dt := FirstTap(gs, DoubleTap).value;
      Count(res, Tap(2)) == Count(gs, Tap(2)) - 1 &&
      (HasTap(res, SingleTap) <==> HasTap(gs, SingleTap)) &&
      (forall k: Kind :: !k.Tap? ==> Count(res, k) == Count(gs, k)) &&
      (forall r :: r in res ==> r.id != dt.id) &&
      (HasTap(gs, SingleTap) ==>
         Count(res, Tap(1)) == 1 && Recognizer(n, Tap(1), {dt.id}) in res)
  {
    if HasTap(gs, DoubleTap) {
      if HasTap(gs, SingleTap) {
        DoubleTapRemovedEffectWithSingleTap(gs, n);
      } else {
        DoubleTapRemovedEffectWithoutSingleTap(gs, n);
      }
    }
  }

  lemma DoubleTapRemovedEffectWithSingleTap(gs: seq<Recognizer>, n: nat)
    requires WellFormed(gs, n) && HasTap(gs, DoubleTap) && HasTap(gs, SingleTap)
    ensures var res := DoubleTapRemoved(gs, n).0;
      var dt := FirstTap(gs, DoubleTap).value;
      Count(res, Tap(2)) == Count(gs, Tap(2)) - 1 &&
      HasTap(res, SingleTap) &&
      (forall k: Kind :: !k.Tap? ==> Count(res, k) == Count(gs, k)) &&
      (forall r :: r in res ==> r.id != dt.id) &&
      Count(res, Tap(1)) == 1 && Recognizer(n, Tap(1), {dt.id}) in res
  {
    var res := DoubleTapRemoved(gs, n).0;
    var id := FirstTap(gs, DoubleTap).value.id;
    DoubleTapRemovedWithSingleTap(gs, n);
    assert forall r :: r in res ==> r.id != id by {
      DoubleTapRemovedRebuilds(gs, n);
      WithoutIdMembers(Retained(gs, TapType) + [Recognizer(n, Tap(1), {id})], id);
    }
    HasTapCount(res, SingleTap);
  }

  lemma DoubleTapRemovedEffectWithoutSingleTap(gs: seq<Recognizer>, n: nat)
    requires WellFormed(gs, n) && HasTap(gs, DoubleTap) && !HasTap(gs, SingleTap)
    ensures var res := DoubleTapRemoved(gs, n).0;
      var dt := FirstTap(gs, DoubleTap).value;
      Count(res, Tap(2)) == Count(gs, Tap(2)) - 1 &&
      !HasTap(res, SingleTap) &&
      (forall k: Kind :: !k.Tap? ==> Count(res, k) == Count(gs, k)) &&
      (forall r :: r in res ==> r.id != dt.id)
  {
    var id := FirstTap(gs, DoubleTap).value.id;
    WithoutIdMembers(gs, id);
    DoubleTapRemovedWithoutSingleTap(gs, n);
  }

  /** A view has a tap of a type exactly when it has a positive number of them. */
  lemma {:induction false} HasTapCount(gs: seq<Recognizer>, t: TapGestureType)
    ensures HasTap(gs, t) <==> Count(gs, Tap(RawValue(t))) > 0
    decreases |gs|
  {
    if |gs| > 0 {
      var front := gs[..|gs| - 1];
      HasTapCount(front, t);
      FindTapGestureFirst(gs, t);
      FindTapGestureFirst(front, t);
      if HasTap(front, t) {
        var j :| 0 <= j < |front| && IsTapOf(front[j], t);
        assert gs[j] == front[j];
      }
      if HasTap(gs, t) && !IsTapOf(gs[|gs| - 1], t) {
        var j :| 0 <= j < |gs| && IsTapOf(gs[j], t);
        assert front[j] == gs[j];
      }
    }
  }

  /**
   * Double-tap flag round trip on one view: adding a double tap and removing
   * it again leaves a single tap exactly when there was one, and as many
   * double taps as before.
   */
  lemma DoubleTapRoundTrip(gs: seq<Recognizer>, n: nat)
    requires WellFormed(gs, n)
    ensures var (res, _) := DoubleTapRemoved(DoubleTapAdded(gs, n), n + 1);
      (HasTap(res, SingleTap) <==> HasTap(gs, SingleTap)) &&
      Count(res, Tap(2)) == Count(gs, Tap(2))
  {
    var g1 := DoubleTapAdded(gs, n);
    ApplyWellFormed(AddDoubleTapOp, gs, n);
    DoubleTapAddedCount(gs, n, Tap(2));
    DoubleTapAddedCount(gs, n, Tap(1));
    HasTapCount(g1, DoubleTap);
    HasTapCount(g1, SingleTap);
    HasTapCount(gs, SingleTap);
    DoubleTapRemovedEffect(g1, n + 1);
  }

  /**
   * A gesture flag switched off and on again: the view ends with one
   * recognizer of that kind, and every kind the removal does not touch keeps
   * its count.
   */
  lemma FlagRoundTrip(gs: seq<Recognizer>, t: GestureType, id: nat, k: Kind)
    ensures Count(Added(Retained(gs, t), t, id), k) ==
      if k == KindOf(t) then 1 else if Removes(t, k) then 0 else Count(gs, k)
  {
    AddedCount(Retained(gs, t), t, id, k);
    RetainedCounts(gs, t);
  }
}
