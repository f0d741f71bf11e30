/**
 * The recognizers of every view, keyed by view identity, and one per-view
 * operation run on each view of a list in turn: the `for view in views`
 * loops of the gesture flags and of insert(contentsOf:at:).
 *
 * Because the table is keyed by identity, a view that is listed twice is
 * visited twice, exactly as the loops over `views` visit it.
 */
module Registry {
  import opened Recognizers
  import opened RecognizerLemmas
  import opened Layout

  type Table = map<ViewId, seq<Recognizer>>

  /** `view.gestureRecognizers`, a view that has none read as the empty list. */
  function GesturesOf(recs: Table, v: ViewId): seq<Recognizer>
  {
    if v in recs then recs[v] else []
  }

  /** The recognizers of `v` have unique ids, all below the counter `next`. */
  predicate ViewWellFormed(recs: Table, v: ViewId, next: nat)
  {
    WellFormed(GesturesOf(recs, v), next)
  }

  /** Ids are unique within each view's list and all below the counter `next`. */
  ghost predicate TableWellFormed(recs: Table, next: nat)
  {
    forall v :: ViewWellFormed(recs, v, next)
  }

  /**
   * `gs` becomes the recognizers of `v`; a view that had none
   * (gestureRecognizers is nil) and still has none stays without a list.
   */
  function Put(recs: Table, v: ViewId, gs: seq<Recognizer>): (res: Table)
    ensures GesturesOf(res, v) == gs
    ensures forall u :: u != v ==> GesturesOf(res, u) == GesturesOf(recs, u)
  {
    if v in recs || |gs| > 0 then recs[v := gs] else recs
  }

  /** A second list put on the same view replaces the first. */
  lemma PutPut(recs: Table, v: ViewId, a: seq<Recognizer>, b: seq<Recognizer>)
    requires b != [] || v in recs || a == []
    ensures Put(Put(recs, v, a), v, b) == Put(recs, v, b)
  {
    if v in recs || a != [] {
      assert recs[v := a][v := b] == recs[v := b];
    }
  }

  lemma Overwrite(recs: Table, v: ViewId, a: seq<Recognizer>, b: seq<Recognizer>)
    ensures recs[v := a][v := b] == recs[v := b]
  {
  }

  /** Putting back the list a view already has changes nothing. */
  lemma PutSame(recs: Table, v: ViewId)
    ensures Put(recs, v, GesturesOf(recs, v)) == recs
  {
    if v in recs {
      assert recs[v := recs[v]] == recs;
    }
  }

  /** `op` run on the view `v`. */
  function OnView(recs: Table, next: nat, v: ViewId, op: Op): (Table, nat)
  {
    var (gs, next') := Apply(op, GesturesOf(recs, v), next);
    (Put(recs, v, gs), next')
  }

  /** `op` on a view that has a list replaces that list. */
  lemma OnListedView(recs: Table, next: nat, v: ViewId, op: Op)
    requires v in recs
    ensures OnView(recs, next, v, op) == (recs[v := Apply(op, recs[v], next).0], Apply(op, recs[v], next).1)
  {
  }

  /** `op` run on every view of `vs`, front to back. */
  function OnViews(recs: Table, next: nat, vs: seq<ViewId>, op: Op): (Table, nat)
    decreases |vs|
  {
    if |vs| == 0 then (recs, next)
    else
      var (r, n) := OnView(recs, next, vs[0], op);
      OnViews(r, n, vs[1..], op)
  }

  /**
   * The didSet observer of a gesture flag: nothing when the value did not
   * change, otherwise `add` or `remove` on every view.
   */
  function FlagChange(recs: Table, next: nat, vs: seq<ViewId>, oldFlag: bool, newFlag: bool, add: Op, remove: Op): (Table, nat)
  {
    if oldFlag == newFlag then (recs, next)
    else OnViews(recs, next, vs, if newFlag then add else remove)
  }

  lemma WellFormedBelow(gs: seq<Recognizer>, n: nat, m: nat)
    requires WellFormed(gs, n) && n <= m
    ensures WellFormed(gs, m)
  {
  }

  /** One view's operation keeps the whole table well formed and never lowers the counter. */
  lemma OnViewWellFormed(recs: Table, next: nat, v: ViewId, op: Op)
    requires TableWellFormed(recs, next)
    ensures TableWellFormed(OnView(recs, next, v, op).0, OnView(recs, next, v, op).1)
    ensures next <= OnView(recs, next, v, op).1
  {
    var (gs, n) := Apply(op, GesturesOf(recs, v), next);
    assert ViewWellFormed(recs, v, next);
    ApplyWellFormed(op, GesturesOf(recs, v), next);
    var res := Put(recs, v, gs);
    forall u ensures ViewWellFormed(res, u, n) {
      if u != v {
        assert ViewWellFormed(recs, u, next);
        WellFormedBelow(GesturesOf(recs, u), next, n);
      }
    }
  }

  lemma {:induction false} OnViewsWellFormed(recs: Table, next: nat, vs: seq<ViewId>, op: Op)
    requires TableWellFormed(recs, next)
    ensures TableWellFormed(OnViews(recs, next, vs, op).0, OnViews(recs, next, vs, op).1)
    ensures next <= OnViews(recs, next, vs, op).1
    decreases |vs|
  {
    if |vs| > 0 {
      OnViewWellFormed(recs, next, vs[0], op);
      var (r, n) := OnView(recs, next, vs[0], op);
      OnViewsWellFormed(r, n, vs[1..], op);
    }
  }

  lemma FlagChangeWellFormed(recs: Table, next: nat, vs: seq<ViewId>, oldFlag: bool, newFlag: bool, add: Op, remove: Op)
    requires TableWellFormed(recs, next)
    ensures var (r, n) := FlagChange(recs, next, vs, oldFlag, newFlag, add, remove); TableWellFormed(r, n)
  {
    if oldFlag != newFlag {
      OnViewsWellFormed(recs, next, vs, if newFlag then add else remove);
    }
  }

  /**
   * Switching a flag off: every listed view keeps exactly the recognizers
   * removeGesture(from:type:) keeps, even when it is listed more than once,
   * every other view is untouched, and no id is drawn.
   */
  lemma {:induction false} RemoveEverywhere(recs: Table, next: nat, vs: seq<ViewId>, t: GestureType)
    ensures OnViews(recs, next, vs, RemoveOp(t)).1 == next
    ensures var r := OnViews(recs, next, vs, RemoveOp(t)).0;
      forall u :: GesturesOf(r, u) == if u in vs then Retained(GesturesOf(recs, u), t) else GesturesOf(recs, u)
    decreases |vs|
  {
    if |vs| > 0 {
      var w, rest := vs[0], vs[1..];
      assert vs == [w] + rest;
      var r := OnView(recs, next, w, RemoveOp(t)).0;
      RemoveEverywhere(r, next, rest, t);
      forall u ensures GesturesOf(OnViews(r, next, rest, RemoveOp(t)).0, u) ==
        if u in vs then Retained(GesturesOf(recs, u), t) else GesturesOf(recs, u)
      {
        if u == w && u in rest {
          RetainedIdempotent(GesturesOf(recs, u), t);
        }
      }
    }
  }

  /**
   * The tap flag switched off: no listed view keeps a single tap, and each
   * keeps every double tap it had.
   */
  lemma TapOffKeepsDoubleTaps(recs: Table, next: nat, vs: seq<ViewId>)
    ensures var r := OnViews(recs, next, vs, RemoveOp(TapType)).0;
      forall u :: u in vs ==>
        Count(GesturesOf(r, u), Tap(1)) == 0 &&
        Count(GesturesOf(r, u), Tap(2)) == Count(GesturesOf(recs, u), Tap(2))
  {
    RemoveEverywhere(recs, next, vs, TapType);
    forall u | u in vs {
      RetainedCounts(GesturesOf(recs, u), TapType);
    }
  }

  /**
   * A flag switched on: a view gains one recognizer of the kind for every
   * time it is listed, no other kind changes, and one id is drawn per visit.
   */
  lemma {:induction false} AddEverywhereCount(recs: Table, next: nat, vs: seq<ViewId>, t: GestureType, u: ViewId, k: Kind)
    ensures OnViews(recs, next, vs, AddOp(t)).1 == next + |vs|
    ensures Count(GesturesOf(OnViews(recs, next, vs, AddOp(t)).0, u), k) ==
      Count(GesturesOf(recs, u), k) + (if k == KindOf(t) then multiset(vs)[u] else 0)
    decreases |vs|
  {
    if |vs| > 0 {
      var w, rest := vs[0], vs[1..];
      assert vs == [w] + rest;
      var m: multiset<ViewId> := multiset(rest);
      assert multiset(vs) == multiset{w} + m;
      AddedCount(GesturesOf(recs, w), t, next, k);
      var (r, n) := OnView(recs, next, w, AddOp(t));
      AddEverywhereCount(r, n, rest, t, u, k);
    }
  }

  /**
   * The subscript setter at index `count` appends the view and then replaces
   * it with itself: setupGestures(to:) runs twice, so the view carries two
   * recognizers of every enabled kind.
   */
  lemma SetupTwiceDoubles(recs: Table, next: nat, v: ViewId, f: Flags, k: Kind)
    ensures var s := OnView(recs, next, v, SetupOp(f));
      Count(GesturesOf(OnView(s.0, s.1, v, SetupOp(f)).0, v), k) == Count(GesturesOf(recs, v), k) + 2 * Enabled(f, k)
  {
    var s := OnView(recs, next, v, SetupOp(f));
    SetupGesturesCount(f, GesturesOf(recs, v), next, k);
    SetupGesturesCount(f, GesturesOf(s.0, v), s.1, k);
  }
}
