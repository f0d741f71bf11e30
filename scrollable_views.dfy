/**
 * MIIScrollableViews: a horizontally paging scroll view that owns an
 * ordered list of views, lays them out one page apart, attaches gesture
 * recognizers to them according to five flags, and reports changes to an
 * optional delegate.
 *
 * The views are identities; their frame.origin.x and their recognizers are
 * kept by identity in `origin` and `recognizers`, so a view listed twice is
 * one view, as in UIKit.  Every call made on the delegate is appended to
 * `events`.  The platform's part (the content offset a drag or an animation
 * reaches, the state of a recognizer, the view a recognizer is attached to)
 * is given to the methods or assigned to the public fields.
 */
module ScrollableViews {
  import opened Options
  import opened Recognizers
  import opened RecognizerLemmas
  import opened Layout
  import opened LayoutLemmas
  import opened Paging
  import opened Registry
  import opened Dispatch

  /** The observer of `views`: didViewsCountChange(count:), when there is a delegate. */
  function CountChanged(d: Option<Delegate>, count: nat): seq<Event>
  {
    if d.Some? then [DidViewsCountChange(count)] else []
  }

  /** The count notifications of `k` single inserts into a list of `from` views. */
  function CountsChanged(d: Option<Delegate>, from: nat, k: nat): seq<Event>
    decreases k
  {
    if k == 0 then [] else CountChanged(d, from + 1) + CountsChanged(d, from + 1, k - 1)
  }

  /** `k` inserts tell a delegate the counts `from + 1` to `from + k`, in order, and tell nobody else anything. */
  lemma {:induction false} CountsChangedSpec(d: Option<Delegate>, from: nat, k: nat)
    decreases k
    ensures d.None? ==> CountsChanged(d, from, k) == []
    ensures d.Some? ==> |CountsChanged(d, from, k)| == k
    ensures d.Some? ==> forall j :: 0 <= j < k ==> CountsChanged(d, from, k)[j] == DidViewsCountChange(from + j + 1)
  {
    if k > 0 {
      CountsChangedSpec(d, from + 1, k - 1);
    }
  }

  /** The part of the controller's state that insert(_:at:) changes. */
  datatype Snapshot = Snapshot(
    views: seq<ViewId>, origin: map<ViewId, int>, recognizers: Table, next: nat,
    contentWidth: int, events: seq<Event>, offsetX: int)

  /** What insert(_:at:) reads and leaves alone: the page width, the gesture flags, the delegate and shouldMoveWhenAdding. */
  datatype Settings = Settings(width: int, flags: Flags, delegate: Option<Delegate>, moveWhenAdding: bool)

  /**
   * insert(_:at:) on the state `s`: the view is set up on page `i` (its origin
   * and its recognizers), listed at `i`, the content is resized and the count
   * reported, every later view moves one page right, and, when
   * shouldMoveWhenAdding, the offset goes to the view's first position.
   */
  function Inserting(s: Snapshot, v: ViewId, i: int, c: Settings): (r: Snapshot)
    requires 0 <= i <= |s.views|
    ensures |r.views| == |s.views| + 1
  {
    var (vs, o) := Inserted(s.views, s.origin, v, i, c.width);
    var (recs, n) := OnView(s.recognizers, s.next, v, SetupOp(c.flags));
    assert vs[i] == v;
    Snapshot(vs, o, recs, n, c.width * |vs|, s.events + CountChanged(c.delegate, |vs|),
      if c.moveWhenAdding then c.width * IndexOf(vs, v).value else s.offsetX)
  }

  /** insert(contentsOf:at:): insert(_:at:) of every element in turn, the j-th at `i + j`. */
  function InsertingAll(s: Snapshot, es: seq<ViewId>, i: int, c: Settings): Snapshot
    requires |es| == 0 || 0 <= i <= |s.views|
    decreases |es|
  {
    if |es| == 0 then s else InsertingAll(Inserting(s, es[0], i, c), es[1..], i + 1, c)
  }

  /**
   * insert(contentsOf: es, at: i) lists `es` contiguously, in order, at
   * `i ..< i + |es|`, with the old views from `i` on after them; the origins
   * are those of InsertedAll.
   */
  lemma {:induction false} InsertingAllViews(s: Snapshot, es: seq<ViewId>, i: int, c: Settings)
    requires 0 <= i <= |s.views|
    ensures var r := InsertingAll(s, es, i, c);
      (r.views, r.origin) == InsertedAll(s.views, s.origin, es, i, c.width) &&
      r.views == s.views[..i] + es + s.views[i..]
    decreases |es|
  {
    if |es| > 0 {
      InsertingAllViews(Inserting(s, es[0], i, c), es[1..], i + 1, c);
    }
    InsertedAllViews(s.views, s.origin, es, i, c.width);
  }

  /** insert(contentsOf:at:) runs setupGestures(to:) on every element, in order. */
  lemma {:induction false} InsertingAllRecognizers(s: Snapshot, es: seq<ViewId>, i: int, c: Settings)
    requires 0 <= i <= |s.views|
    ensures var r := InsertingAll(s, es, i, c);
      (r.recognizers, r.next) == OnViews(s.recognizers, s.next, es, SetupOp(c.flags))
    decreases |es|
  {
    if |es| > 0 {
      InsertingAllRecognizers(Inserting(s, es[0], i, c), es[1..], i + 1, c);
    }
  }

  /** insert(contentsOf:at:) reports every intermediate count, in order. */
  lemma {:induction false} InsertingAllEvents(s: Snapshot, es: seq<ViewId>, i: int, c: Settings)
    requires 0 <= i <= |s.views|
    ensures InsertingAll(s, es, i, c).events == s.events + CountsChanged(c.delegate, |s.views|, |es|)
    decreases |es|
  {
    if |es| > 0 {
      InsertingAllEvents(Inserting(s, es[0], i, c), es[1..], i + 1, c);
    }
  }

  /**
   * After insert(contentsOf:at:) the content is one page per view, and the
   * offset is that of the last element's first position when
   * shouldMoveWhenAdding.
   */
  lemma {:induction false} InsertingAllLast(s: Snapshot, es: seq<ViewId>, i: int, c: Settings)
    requires 0 <= i <= |s.views|
    ensures var r := InsertingAll(s, es, i, c);
      r.contentWidth == (if |es| == 0 then s.contentWidth else c.width * |r.views|) &&
      (|es| > 0 ==> es[|es| - 1] in r.views) &&
      r.offsetX == if |es| > 0 && c.moveWhenAdding then c.width * IndexOf(r.views, es[|es| - 1]).value else s.offsetX
    decreases |es|
  {
    if |es| > 0 {
      InsertingAllLast(Inserting(s, es[0], i, c), es[1..], i + 1, c);
      if |es| > 1 {
        assert es[1..][|es| - 2] == es[|es| - 1];
      }
    }
  }

  /** The count notifications of `k + 1` inserts are those of `k` and then the next count. */
  lemma {:induction false} CountsChangedSnoc(d: Option<Delegate>, from: nat, k: nat)
    decreases k
    ensures CountsChanged(d, from, k + 1) == CountsChanged(d, from, k) + CountChanged(d, from + k + 1)
  {
    if k > 0 {
      CountsChangedSnoc(d, from + 1, k - 1);
    }
  }

  /**
   * `t` is where insert(contentsOf: es, at: i) from `s` stands after its
   * first `k` elements: the remaining inserts finish the views and origins as
   * InsertedAll does, the first `k` elements are set up in order, `k` counts
   * are reported and the offset is at the last of them.
   */
  ghost predicate InsertedPrefix(s: Snapshot, t: Snapshot, es: seq<ViewId>, i: int, k: nat, c: Settings)
  {
    k <= |es| && 0 <= i <= |s.views| && |t.views| == |s.views| + k &&
    InsertedAll(t.views, t.origin, es[k..], i + k, c.width) == InsertedAll(s.views, s.origin, es, i, c.width) &&
    OnViews(t.recognizers, t.next, es[k..], SetupOp(c.flags)) == OnViews(s.recognizers, s.next, es, SetupOp(c.flags)) &&
    t.contentWidth == (if k == 0 then s.contentWidth else c.width * |t.views|) &&
    t.events == s.events + CountsChanged(c.delegate, |s.views|, k) &&
    (k > 0 ==> es[k - 1] in t.views) &&
    t.offsetX == if k > 0 && c.moveWhenAdding then c.width * IndexOf(t.views, es[k - 1]).value else s.offsetX
  }

  /** One more insert(_:at:) advances the prefix by one element. */
  lemma InsertedPrefixStep(s: Snapshot, t: Snapshot, t': Snapshot, es: seq<ViewId>, i: int, k: nat, c: Settings)
    requires InsertedPrefix(s, t, es, i, k, c) && k < |es| && t' == Inserting(t, es[k], i + k, c)
    ensures InsertedPrefix(s, t', es, i, k + 1, c)
  {
    InsertedPrefixStepViews(s, t, t', es, i, k, c);
    InsertedPrefixStepRecognizers(s, t, t', es, i, k, c);
    CountsChangedStep(s.events, t.events, c.delegate, |s.views|, k, |t'.views|);
    InsertedPrefixStepLast(s, t, t', es, i, k, c);
  }

  lemma InsertedPrefixStepViews(s: Snapshot, t: Snapshot, t': Snapshot, es: seq<ViewId>, i: int, k: nat, c: Settings)
    requires InsertedPrefix(s, t, es, i, k, c) && k < |es| && t' == Inserting(t, es[k], i + k, c)
    ensures InsertedAll(t'.views, t'.origin, es[k + 1..], i + k + 1, c.width) == InsertedAll(s.views, s.origin, es, i, c.width)
  {
    assert es[k..][1..] == es[k + 1..];
  }

  lemma InsertedPrefixStepRecognizers(s: Snapshot, t: Snapshot, t': Snapshot, es: seq<ViewId>, i: int, k: nat, c: Settings)
    requires InsertedPrefix(s, t, es, i, k, c) && k < |es| && t' == Inserting(t, es[k], i + k, c)
    ensures OnViews(t'.recognizers, t'.next, es[k + 1..], SetupOp(c.flags)) == OnViews(s.recognizers, s.next, es, SetupOp(c.flags))
  {
    assert es[k..][1..] == es[k + 1..];
  }

  /** The reports of `k + 1` inserts are those of `k` and then the next one. */
  lemma CountsChangedStep(before: seq<Event>, events: seq<Event>, d: Option<Delegate>, m: nat, k: nat, count: nat)
    requires events == before + CountsChanged(d, m, k) && count == m + k + 1
    ensures events + CountChanged(d, count) == before + CountsChanged(d, m, k + 1)
  {
    CountsChangedSnoc(d, m, k);
    EventsAssociate(before, CountsChanged(d, m, k), CountChanged(d, m + k + 1));
  }

  lemma EventsAssociate(a: seq<Event>, b: seq<Event>, e: seq<Event>)
    ensures a + (b + e) == (a + b) + e
  {
  }

  lemma InsertedPrefixStepLast(s: Snapshot, t: Snapshot, t': Snapshot, es: seq<ViewId>, i: int, k: nat, c: Settings)
    requires InsertedPrefix(s, t, es, i, k, c) && k < |es| && t' == Inserting(t, es[k], i + k, c)
    ensures t'.contentWidth == c.width * |t'.views|
    ensures es[k] in t'.views
    ensures t'.offsetX == if c.moveWhenAdding then c.width * IndexOf(t'.views, es[k]).value else s.offsetX
  {
  }

  /** The whole prefix is the state insert(contentsOf:at:) reaches. */
  lemma InsertedPrefixAll(s: Snapshot, t: Snapshot, es: seq<ViewId>, i: int, c: Settings)
    requires InsertedPrefix(s, t, es, i, |es|, c)
    ensures t == InsertingAll(s, es, i, c)
  {
    InsertingAllViews(s, es, i, c);
    InsertingAllRecognizers(s, es, i, c);
    InsertingAllEvents(s, es, i, c);
    InsertingAllLast(s, es, i, c);
    assert es[|es|..] == [];
  }

  class MIIScrollableViews {
    /** self.frame.width, the width of one page. */
    const width: int

    var animated: bool
    var shouldRoundViewDisplayed: bool
    var shouldMoveWhenAdding: bool
    var shouldAddTapGesture: bool
    var shouldAddPanGesture: bool
    var shouldAddPinchGesture: bool
    var shouldAddLongPressGesture: bool
    var shouldAddDoubleTapGesture: bool
    var beginningTapFlag: bool

    var svDelegate: Option<Delegate>
    var oldIndex: Option<int>
    var scrollStartingPointOfX: Option<int>

    var views: seq<ViewId>
    /** frame.origin.x of every view. */
    var origin: map<ViewId, int>
    /** gestureRecognizers of every view. */
    var recognizers: Table
    /** The identity the next recognizer created gets. */
    var nextRecognizerId: nat

    /** contentSize.width */
    var contentWidth: int
    /** contentOffset.x, set by the controller's moves and by the platform's scrolling. */
    var contentOffsetX: int
    /** Calls made on the delegate, oldest first. */
    var events: seq<Event>

    /** What every public operation keeps. */
    ghost predicate Valid()
      reads this`views, this`contentWidth, this`recognizers, this`nextRecognizerId
    {
      width > 0 &&
      contentWidth == width * |views| &&
      TableWellFormed(recognizers, nextRecognizerId)
    }

    /** Every view sits on its own page: views[j] at x = width * j. */
    predicate IsLaidOut()
      reads this`views, this`origin
    {
      LaidOut(views, origin, width)
    }

    /** The state insert(_:at:) changes. */
    function Snap(): Snapshot
      reads this`views, this`origin, this`recognizers, this`nextRecognizerId, this`contentWidth, this`events, this`contentOffsetX
    {
      Snapshot(views, origin, recognizers, nextRecognizerId, contentWidth, events, contentOffsetX)
    }

    /** What insert(_:at:) reads and leaves alone. */
    function Config(): Settings
      reads this`shouldAddTapGesture, this`shouldAddPanGesture, this`shouldAddPinchGesture, this`shouldAddLongPressGesture, this`shouldAddDoubleTapGesture
      reads this`svDelegate, this`shouldMoveWhenAdding
    {
      Settings(width, GestureFlags(), svDelegate, shouldMoveWhenAdding)
    }

    function GestureFlags(): Flags
      reads this`shouldAddTapGesture, this`shouldAddPanGesture, this`shouldAddPinchGesture, this`shouldAddLongPressGesture, this`shouldAddDoubleTapGesture
    {
      Flags(shouldAddTapGesture, shouldAddPanGesture, shouldAddPinchGesture, shouldAddLongPressGesture, shouldAddDoubleTapGesture)
    }

    /** init(frame:) with a frame `frameWidth` wide; commonInit finds no views to set up. */
    constructor (frameWidth: int)
      requires frameWidth > 0
      ensures Valid() && IsLaidOut() && width == frameWidth
      ensures views == [] && origin == map[] && recognizers == map[] && events == []
      ensures animated && shouldRoundViewDisplayed && shouldMoveWhenAdding && !beginningTapFlag
      ensures GestureFlags() == Flags(false, false, false, false, false)
      ensures svDelegate.None? && oldIndex.None? && scrollStartingPointOfX.None?
      ensures contentWidth == 0 && contentOffsetX == 0
    {
      width := frameWidth;
      animated := true;
      shouldRoundViewDisplayed := true;
      shouldMoveWhenAdding := true;
      shouldAddTapGesture := false;
      shouldAddPanGesture := false;
      shouldAddPinchGesture := false;
      shouldAddLongPressGesture := false;
      shouldAddDoubleTapGesture := false;
      beginningTapFlag := false;
      svDelegate := None;
      oldIndex := None;
      scrollStartingPointOfX := None;
      views := [];
      origin := map[];
      recognizers := map[];
      nextRecognizerId := 0;
      contentWidth := 0;
      contentOffsetX := 0;
      events := [];
    }

    // ---------------------------------------------------------------- queries

    /** The subscript getter: the view at a position is found there and sits on that page. */
    function Get(index: int): (v: ViewId)
      reads this`views, this`origin
      requires 0 <= index < |views|
      ensures v in views && IndexOf(views, v).value <= index
      ensures IsLaidOut() ==> At(origin, v) == width * index
    {
      IndexOfFirst(views, views[index]);
      views[index]
    }

    /** `all`: every view, in page order. */
    function All(): (vs: seq<ViewId>)
      reads this`views, this`origin
      ensures |vs| == Count() && forall v :: v in vs <==> IndexOf(views, v).Some?
      ensures IsLaidOut() ==> forall j :: 0 <= j < |vs| ==> At(origin, vs[j]) == width * j
    {
      views
    }

    /** `count`: while the model is valid, the content is exactly this many pages wide. */
    function Count(): (n: nat)
      reads this`views, this`contentWidth, this`recognizers, this`nextRecognizerId
      ensures Valid() ==> contentWidth == width * n
      ensures n == 0 <==> views == []
    {
      |views|
    }

    /** `isEmpty` */
    function IsEmpty(): (b: bool)
      reads this`views, this`origin, this`contentWidth, this`recognizers, this`nextRecognizerId
      ensures b <==> Count() == 0
      ensures b <==> First().None?
    {
      views == []
    }

    /** `first`: the view on page 0. */
    function First(): (r: Option<ViewId>)
      reads this`views, this`origin
      ensures r.None? <==> views == []
      ensures r.Some? ==> IndexOf(views, r.value) == Some(0)
      ensures r.Some? && IsLaidOut() ==> At(origin, r.value) == 0
    {
      if |views| == 0 then None else Some(views[0])
    }

    /** `last`: the view on the last page. */
    function Last(): (r: Option<ViewId>)
      reads this`views, this`origin
      ensures r.None? <==> views == []
      ensures r.Some? ==> r.value in views
      ensures r.Some? && IsLaidOut() ==> At(origin, r.value) == width * (|views| - 1)
    {
      if |views| == 0 then None else Some(views[|views| - 1])
    }

    /** index(of:): the first position of the view; on a laid-out list, its page. */
    function IndexOfView(v: ViewId): (r: Option<nat>)
      reads this`views, this`origin
      ensures r.None? <==> v !in views
      ensures r.Some? ==> r.value < |views| && views[r.value] == v
      ensures r.Some? && IsLaidOut() ==> At(origin, v) == width * r.value
    {
      var r := IndexOf(views, v);
      if r.Some? && IsLaidOut() then
        MoveTargetsOrigin(views, origin, v, width);
        r
      else r
    }

    /** The page scrollViewDidScroll(_:) computes for the current offset. */
    function DisplayedPage(): int
      reads this`contentOffsetX, this`shouldRoundViewDisplayed, this`scrollStartingPointOfX
      requires width > 0
    {
      DisplayedIndex(contentOffsetX, width, shouldRoundViewDisplayed, scrollStartingPointOfX)
    }

    // ------------------------------------------------------- private helpers

    /** The didSet observer of `views`: adjustContentSize(), then the count notification. */
    method ViewsDidSet()
      requires width > 0
      modifies this`contentWidth, this`events
      ensures contentWidth == width * |views|
      ensures events == old(events) + CountChanged(svDelegate, |views|)
    {
      contentWidth := width * |views|;
      if svDelegate.Some? {
        events := events + [DidViewsCountChange(|views|)];
      }
    }

    /** addGesture(to:type:) */
    method AddGesture(view: ViewId, t: GestureType)
      requires Valid()
      modifies this`recognizers, this`nextRecognizerId
      ensures Valid()
      ensures (recognizers, nextRecognizerId) == OnView(old(recognizers), old(nextRecognizerId), view, AddOp(t))
      ensures recognizers == old(recognizers)[view := Added(GesturesOf(old(recognizers), view), t, old(nextRecognizerId))]
      ensures nextRecognizerId == old(nextRecognizerId) + 1
    {
      ghost var r0, n0 := recognizers, nextRecognizerId;
      var gs := GesturesOf(recognizers, view);
      var gesture: Recognizer;
      match t {
        case TapType =>
          var tap := Recognizer(nextRecognizerId, Tap(RawValue(SingleTap)), {});
          var doubleTap := FindTapGesture(gs, DoubleTap);
          if doubleTap.Some? {
            tap := tap.(requiresToFail := tap.requiresToFail + {gs[doubleTap.value].id});
          }
          gesture := tap;
        case PanType =>
          gesture := Recognizer(nextRecognizerId, Pan, {});
        case PinchType =>
          gesture := Recognizer(nextRecognizerId, Pinch, {});
        case LongPressType =>
          gesture := Recognizer(nextRecognizerId, LongPress, {});
      }
      assert gesture == NewRecognizer(gs, t, n0);
      recognizers := recognizers[view := gs + [gesture]];
      nextRecognizerId := nextRecognizerId + 1;
      OnViewWellFormed(r0, n0, view, AddOp(t));
    }

    /** addDoubleTapGesture(to:) */
    method AddDoubleTapGesture(view: ViewId)
      requires Valid()
      modifies this`recognizers, this`nextRecognizerId
      ensures Valid()
      ensures (recognizers, nextRecognizerId) == OnView(old(recognizers), old(nextRecognizerId), view, AddDoubleTapOp)
    {
      ghost var r0, n0 := recognizers, nextRecognizerId;
      var gs := GesturesOf(recognizers, view);
      var doubleTap := Recognizer(nextRecognizerId, Tap(RawValue(DoubleTap)), {});
      var tap := FindTapGesture(gs, SingleTap);
      if tap.Some? {
        gs := RequireToFail(gs, tap.value, doubleTap.id);
      }
      recognizers := recognizers[view := gs + [doubleTap]];
      nextRecognizerId := nextRecognizerId + 1;
      OnViewWellFormed(r0, n0, view, AddDoubleTapOp);
    }

    /** removeGesture(from:type:): every recognizer of the type goes, except a double tap. */
    method RemoveGesture(view: ViewId, t: GestureType)
      requires Valid()
      modifies this`recognizers
      ensures Valid()
      ensures (recognizers, nextRecognizerId) == OnView(old(recognizers), nextRecognizerId, view, RemoveOp(t))
      ensures recognizers == Put(old(recognizers), view, Retained(GesturesOf(old(recognizers), view), t))
    {
      ghost var r0 := recognizers;
      if view !in recognizers {
        PutSame(r0, view);
        return;
      }
      var gestures := recognizers[view];
      var kept: seq<Recognizer> := [];
      var i := 0;
      while i < |gestures|
        invariant 0 <= i <= |gestures|
        invariant kept == Retained(gestures[..i], t)
        invariant recognizers == r0
      {
        var gesture := gestures[i];
        assert gestures[..i + 1] == gestures[..i] + [gesture];
        RetainedSnoc(gestures[..i], gesture, t);
        if IsOfType(gesture.kind, t) {
          if gesture.kind.Tap? {
            if IsDoubleTap(gesture) {
              kept := kept + [gesture];
            }
          }
        } else {
          kept := kept + [gesture];
        }
        i := i + 1;
      }
      assert gestures[..|gestures|] == gestures;
      recognizers := recognizers[view := kept];
      OnViewWellFormed(r0, nextRecognizerId, view, RemoveOp(t));
    }

    /**
     * removeDoubleTapGesture(from:): when the view also has a single tap, its
     * single taps are removed and a new one is added first; then the double
     * tap goes.
     */
    method RemoveDoubleTapGesture(view: ViewId)
      requires Valid()
      modifies this`recognizers, this`nextRecognizerId
      ensures Valid()
      ensures (recognizers, nextRecognizerId) == OnView(old(recognizers), old(nextRecognizerId), view, RemoveDoubleTapOp)
    {
      ghost var r0, n0 := recognizers, nextRecognizerId;
      var gs := GesturesOf(recognizers, view);
      var found := FindTapGesture(gs, DoubleTap);
      if found.None? {
        PutSame(r0, view);
        return;
      }
      var doubleTap := gs[found.value];
      ghost var single := FindTapGesture(gs, SingleTap).Some?;
      ghost var rebuilt := if single then Added(Retained(gs, TapType), TapType, n0) else gs;
      DoubleTapRemovedSteps(gs, n0, found.value);
      assert DoubleTapRemoved(gs, n0) == (WithoutId(rebuilt, doubleTap.id), if single then n0 + 1 else n0);
      if FindTapGesture(gs, SingleTap).Some? {
        RemoveGesture(view, TapType);
        AddGesture(view, TapType);
        PutPut(r0, view, Retained(gs, TapType), rebuilt);
      }
      assert recognizers == r0[view := rebuilt] && view in r0;
      assert nextRecognizerId == if single then n0 + 1 else n0;
      ghost var remaining := WithoutId(rebuilt, doubleTap.id);
      assert GesturesOf(recognizers, view) == rebuilt;
      recognizers := recognizers[view := WithoutId(GesturesOf(recognizers, view), doubleTap.id)];
      Overwrite(r0, view, rebuilt, remaining);
      assert recognizers == r0[view := remaining];
      assert r0[view] == gs;
      ApplyRemoveDoubleTap(gs, n0);
      OnListedView(r0, n0, view, RemoveDoubleTapOp);
      OnViewWellFormed(r0, n0, view, RemoveDoubleTapOp);
    }

    /** setupGestures(to:): one recognizer per enabled flag, the double tap last. */
    method SetupGestures(view: ViewId)
      requires Valid()
      modifies this`recognizers, this`nextRecognizerId
      ensures Valid()
      ensures (recognizers, nextRecognizerId) == OnView(old(recognizers), old(nextRecognizerId), view, SetupOp(old(GestureFlags())))
    {
      ghost var r0, n0 := recognizers, nextRecognizerId;
      ghost var s0 := (GesturesOf(r0, view), n0);
      PutSame(r0, view);
      AddGestureIf(shouldAddTapGesture, view, TapType, r0, s0);
      ghost var s1 := AddIf(shouldAddTapGesture, TapType, s0);
      AddGestureIf(shouldAddPanGesture, view, PanType, r0, s1);
      ghost var s2 := AddIf(shouldAddPanGesture, PanType, s1);
      AddGestureIf(shouldAddPinchGesture, view, PinchType, r0, s2);
      ghost var s3 := AddIf(shouldAddPinchGesture, PinchType, s2);
      AddGestureIf(shouldAddLongPressGesture, view, LongPressType, r0, s3);
      ghost var s4 := AddIf(shouldAddLongPressGesture, LongPressType, s3);
      DoubleTapGestureIf(shouldAddDoubleTapGesture, view, r0, s4);
    }

    /** One line of setupGestures(to:): addGesture(to:type:) when `b` is set. */
    method AddGestureIf(b: bool, view: ViewId, t: GestureType, ghost r0: Table, ghost s: (seq<Recognizer>, nat))
      requires Valid() && recognizers == Put(r0, view, s.0) && nextRecognizerId == s.1
      modifies this`recognizers, this`nextRecognizerId
      ensures Valid() && recognizers == Put(r0, view, AddIf(b, t, s).0) && nextRecognizerId == AddIf(b, t, s).1
    {
      if b {
        AddGesture(view, t);
        PutPut(r0, view, s.0, Added(s.0, t, s.1));
      }
    }

    /** The last line of setupGestures(to:): addDoubleTapGesture(to:) when `b` is set. */
    method DoubleTapGestureIf(b: bool, view: ViewId, ghost r0: Table, ghost s: (seq<Recognizer>, nat))
      requires Valid() && recognizers == Put(r0, view, s.0) && nextRecognizerId == s.1
      modifies this`recognizers, this`nextRecognizerId
      ensures Valid() && recognizers == Put(r0, view, DoubleTapIf(b, s).0) && nextRecognizerId == DoubleTapIf(b, s).1
    {
      if b {
        AddDoubleTapGesture(view);
        PutPut(r0, view, s.0, DoubleTapAdded(s.0, s.1));
      }
    }

    /** setupView(_:at:): the view goes to page `index` and gets its recognizers. */
    method SetupView(view: ViewId, index: int)
      requires Valid()
      modifies this`origin, this`recognizers, this`nextRecognizerId
      ensures Valid()
      ensures origin == old(origin)[view := width * index]
      ensures (recognizers, nextRecognizerId) == OnView(old(recognizers), old(nextRecognizerId), view, SetupOp(old(GestureFlags())))
    {
      origin := origin[view := width * index];
      SetupGestures(view);
    }

    /** replaceView(_:at:) */
    method ReplaceView(view: ViewId, index: int)
      requires Valid() && 0 <= index < |views|
      modifies this`views, this`origin, this`recognizers, this`nextRecognizerId, this`contentWidth, this`events
      ensures Valid()
      ensures (views, origin) == Replaced(old(views), old(origin), view, index, width)
      ensures (recognizers, nextRecognizerId) == OnView(old(recognizers), old(nextRecognizerId), view, SetupOp(old(GestureFlags())))
      ensures events == old(events) + CountChanged(svDelegate, |views|)
      ensures old(IsLaidOut()) && (view !in old(views) || view == old(views)[index]) ==> IsLaidOut()
    {
      ghost var vs0, o0 := views, origin;
      views := views[index := view];
      ViewsDidSet();
      SetupView(view, index);
      if LaidOut(vs0, o0, width) && (view !in vs0 || view == vs0[index]) {
        ReplaceKeepsLayout(vs0, o0, view, index, width);
      }
    }

    /** The shift loops of insert(_:at:) and remove(at:): every view from `start` on moves by `d`. */
    method ShiftFrom(start: int, d: int)
      requires 0 <= start <= |views|
      modifies this`origin
      ensures origin == Shifted(old(origin), views[start..], d)
    {
      var vs := views;
      var i := start;
      while i < |vs|
        invariant start <= i <= |vs|
        invariant origin == Shifted(old(origin), vs[start..i], d)
      {
        ShiftedSlice(old(origin), vs, start, i, d);
        origin := origin[vs[i] := At(origin, vs[i]) + d];
        i := i + 1;
      }
      assert vs[start..|vs|] == vs[start..];
    }

    // --------------------------------------------------------- public methods

    /** move(to:): scroll to the page of the view's first position, if it is listed. */
    method Move(view: ViewId)
      modifies this`contentOffsetX
      ensures contentOffsetX == match IndexOf(views, view)
        case Some(i) => width * i
        case None => old(contentOffsetX)
    {
      var index := IndexOf(views, view);
      if index.Some? {
        contentOffsetX := width * index.value;
      }
    }

    /** The list part of insert(_:at:): `view` is listed at `index` and every later view moves one page right. */
    method InsertIntoViews(view: ViewId, index: int)
      requires width > 0 && 0 <= index <= |views|
      modifies this`views, this`origin, this`contentWidth, this`events
      ensures views == old(views)[..index] + [view] + old(views)[index..]
      ensures origin == Shifted(old(origin), old(views)[index..], width)
      ensures contentWidth == width * |views|
      ensures events == old(events) + CountChanged(svDelegate, |views|)
    {
      ghost var vs0 := views;
      views := views[..index] + [view] + views[index..];
      ViewsDidSet();
      InsertedTail(vs0, view, index);
      ShiftFrom(index + 1, width);
    }

    /**
     * insert(_:at:): the view is set up on page `index`, listed there, every
     * later view moves one page right, and the controller scrolls to it when
     * shouldMoveWhenAdding.
     */
    method Insert(view: ViewId, index: int)
      requires Valid() && 0 <= index <= |views|
      modifies this`views, this`origin, this`recognizers, this`nextRecognizerId, this`contentWidth, this`events, this`contentOffsetX
      ensures Valid()
      ensures Snap() == Inserting(old(Snap()), view, index, old(Config()))
    {
      SetupView(view, index);
      InsertIntoViews(view, index);
      assert views[index] == view;
      if shouldMoveWhenAdding {
        Move(view);
      }
    }

    /** One turn of the loop of insert(contentsOf:at:): elements[k] goes in at `index + k`. */
    method InsertNext(elements: seq<ViewId>, index: int, k: nat, ghost s0: Snapshot, ghost c: Settings)
      requires Valid() && k < |elements| && c == Config() && InsertedPrefix(s0, Snap(), elements, index, k, c)
      modifies this`views, this`origin, this`recognizers, this`nextRecognizerId, this`contentWidth, this`events, this`contentOffsetX
      ensures Valid() && InsertedPrefix(s0, Snap(), elements, index, k + 1, c)
    {
      ghost var t := Snap();
      Insert(elements[k], index + k);
      InsertedPrefixStep(s0, t, Snap(), elements, index, k, c);
    }

    /** insert(contentsOf:at:): each element in turn at `index` plus its position. */
    method InsertContentsOf(elements: seq<ViewId>, index: int)
      requires Valid() && (elements == [] || 0 <= index <= |views|)
      modifies this`views, this`origin, this`recognizers, this`nextRecognizerId, this`contentWidth, this`events, this`contentOffsetX
      ensures Valid()
      ensures Snap() == InsertingAll(old(Snap()), elements, index, old(Config()))
      ensures elements != [] ==> views == old(views)[..index] + elements + old(views)[index..]
    {
      if |elements| == 0 {
        return;
      }
      ghost var s0, c := Snap(), Config();
      assert elements[0..] == elements;
      InsertEach(elements, index, s0, c);
      InsertedPrefixAll(s0, Snap(), elements, index, c);
      InsertingAllViews(s0, elements, index, c);
    }

    /** The loop of insert(contentsOf:at:): insert(_:at:) of each element in turn. */
    method InsertEach(elements: seq<ViewId>, index: int, ghost s0: Snapshot, ghost c: Settings)
      requires Valid() && c == Config() && InsertedPrefix(s0, Snap(), elements, index, 0, c)
      modifies this`views, this`origin, this`recognizers, this`nextRecognizerId, this`contentWidth, this`events, this`contentOffsetX
      ensures Valid() && InsertedPrefix(s0, Snap(), elements, index, |elements|, c)
    {
      var k := 0;
      while k < |elements|
        invariant 0 <= k <= |elements|
        invariant Valid() && InsertedPrefix(s0, Snap(), elements, index, k, c)
      {
        InsertNext(elements, index, k, s0, c);
        k := k + 1;
      }
    }

    /** append(_:) */
    method Append(view: ViewId)
      requires Valid()
      modifies this`views, this`origin, this`recognizers, this`nextRecognizerId, this`contentWidth, this`events, this`contentOffsetX
      ensures Valid()
      ensures Snap() == Inserting(old(Snap()), view, |old(views)|, old(Config()))
      ensures views == old(views) + [view] && origin == old(origin)[view := width * |old(views)|]
      ensures old(IsLaidOut()) && view !in old(views) ==> IsLaidOut()
    {
      ghost var vs0, o0 := views, origin;
      AppendIsInsertAtEnd(views, origin, view, width);
      Insert(view, |views|);
      if LaidOut(vs0, o0, width) && view !in vs0 {
        InsertKeepsLayout(vs0, o0, view, |vs0|, width);
      }
    }

    /** append(contentsOf:) */
    method AppendContentsOf(elements: seq<ViewId>)
      requires Valid()
      modifies this`views, this`origin, this`recognizers, this`nextRecognizerId, this`contentWidth, this`events, this`contentOffsetX
      ensures Valid()
      ensures Snap() == InsertingAll(old(Snap()), elements, |old(views)|, old(Config()))
      ensures views == old(views) + elements
    {
      ghost var vs0 := views;
      InsertContentsOf(elements, |views|);
      assert vs0[..|vs0|] + elements + vs0[|vs0|..] == vs0 + elements;
    }

    /** remove(at:): the view leaves the list and every later view moves one page left. */
    method Remove(index: int)
      requires Valid() && 0 <= index < |views|
      modifies this`views, this`origin, this`contentWidth, this`events
      ensures Valid()
      ensures (views, origin) == Removed(old(views), old(origin), index, width)
      ensures events == old(events) + CountChanged(svDelegate, |views|)
      ensures old(IsLaidOut()) ==> IsLaidOut() && old(views)[index] !in views
    {
      ghost var vs0, o0 := views, origin;
      views := views[..index] + views[index + 1..];
      ViewsDidSet();
      ShiftFrom(index, -width);
      assert views[index..] == vs0[index + 1..];
      if LaidOut(vs0, o0, width) {
        RemoveKeepsLayout(vs0, o0, index, width);
      }
    }

    /** removeLast(): no view moves, and this is remove(at: count - 1). */
    method RemoveLast()
      requires Valid() && |views| > 0
      modifies this`views, this`contentWidth, this`events
      ensures Valid()
      ensures views == old(views)[..|old(views)| - 1]
      ensures (views, origin) == Removed(old(views), old(origin), |old(views)| - 1, width)
      ensures events == old(events) + CountChanged(svDelegate, |views|)
      ensures old(IsLaidOut()) ==> IsLaidOut()
    {
      RemoveLastNeedsNoShift(views, origin, width);
      views := views[..|views| - 1];
      ViewsDidSet();
    }

    /** removeAll() */
    method RemoveAll()
      requires Valid()
      modifies this`views, this`contentWidth, this`events
      ensures Valid() && IsLaidOut()
      ensures views == [] && contentWidth == 0
      ensures events == old(events) + CountChanged(svDelegate, 0)
    {
      views := [];
      ViewsDidSet();
    }

    /**
     * The subscript setter.  Below `count` it is replaceView(_:at:); at
     * `count` it appends the view and then replaces it with itself, so the
     * view is set up twice and the count is reported twice.
     */
    method SetAt(index: int, view: ViewId)
      requires Valid() && 0 <= index <= |views|
      modifies this`views, this`origin, this`recognizers, this`nextRecognizerId, this`contentWidth, this`events, this`contentOffsetX
      ensures Valid()
      ensures origin == old(origin)[view := width * index]
      ensures index < |old(views)| ==>
        views == old(views)[index := view] &&
        (recognizers, nextRecognizerId) == OnView(old(recognizers), old(nextRecognizerId), view, SetupOp(old(GestureFlags()))) &&
        events == old(events) + CountChanged(svDelegate, |views|) &&
        contentOffsetX == old(contentOffsetX)
      ensures index == |old(views)| ==>
        views == old(views) + [view] &&
        (var s := OnView(old(recognizers), old(nextRecognizerId), view, SetupOp(old(GestureFlags())));
         (recognizers, nextRecognizerId) == OnView(s.0, s.1, view, SetupOp(old(GestureFlags())))) &&
        events == old(events) + CountChanged(svDelegate, |views|) + CountChanged(svDelegate, |views|) &&
        contentOffsetX == if shouldMoveWhenAdding then width * IndexOf(views, view).value else old(contentOffsetX)
      ensures old(IsLaidOut()) && (view !in old(views) || (index < |old(views)| && view == old(views)[index])) ==> IsLaidOut()
    {
      ghost var f := GestureFlags();
      if index == |views| {
        Append(view);
        assert GestureFlags() == f;
      }
      ReplaceView(view, index);
    }

    /** didGestureFlagChange(oldFlag:shouldAdd:type:) */
    method DidGestureFlagChange(oldFlag: bool, shouldAdd: bool, t: GestureType)
      requires Valid()
      modifies this`recognizers, this`nextRecognizerId
      ensures Valid()
      ensures (recognizers, nextRecognizerId) ==
        FlagChange(old(recognizers), old(nextRecognizerId), views, oldFlag, shouldAdd, AddOp(t), RemoveOp(t))
    {
      if oldFlag == shouldAdd {
        return;
      }
      ghost var r0, n0 := recognizers, nextRecognizerId;
      assert views[0..] == views;
      if shouldAdd {
        var i := 0;
        while i < |views|
          invariant 0 <= i <= |views|
          invariant Valid()
          invariant OnViews(recognizers, nextRecognizerId, views[i..], AddOp(t)) == OnViews(r0, n0, views, AddOp(t))
        {
          assert views[i..][1..] == views[i + 1..];
          AddGesture(views[i], t);
          i := i + 1;
        }
      } else {
        var i := 0;
        while i < |views|
          invariant 0 <= i <= |views|
          invariant Valid()
          invariant OnViews(recognizers, nextRecognizerId, views[i..], RemoveOp(t)) == OnViews(r0, n0, views, RemoveOp(t))
        {
          assert views[i..][1..] == views[i + 1..];
          RemoveGesture(views[i], t);
          i := i + 1;
        }
      }
    }

    /** shouldAddTapGesture = b */
    method SetShouldAddTapGesture(b: bool)
      requires Valid()
      modifies this`shouldAddTapGesture, this`recognizers, this`nextRecognizerId
      ensures Valid() && shouldAddTapGesture == b
      ensures (recognizers, nextRecognizerId) ==
        FlagChange(old(recognizers), old(nextRecognizerId), views, old(shouldAddTapGesture), b, AddOp(TapType), RemoveOp(TapType))
    {
      var oldValue := shouldAddTapGesture;
      shouldAddTapGesture := b;
      DidGestureFlagChange(oldValue, b, TapType);
    }

    /** shouldAddPanGesture = b */
    method SetShouldAddPanGesture(b: bool)
      requires Valid()
      modifies this`shouldAddPanGesture, this`recognizers, this`nextRecognizerId
      ensures Valid() && shouldAddPanGesture == b
      ensures (recognizers, nextRecognizerId) ==
        FlagChange(old(recognizers), old(nextRecognizerId), views, old(shouldAddPanGesture), b, AddOp(PanType), RemoveOp(PanType))
    {
      var oldValue := shouldAddPanGesture;
      shouldAddPanGesture := b;
      DidGestureFlagChange(oldValue, b, PanType);
    }

    /** shouldAddPinchGesture = b */
    method SetShouldAddPinchGesture(b: bool)
      requires Valid()
      modifies this`shouldAddPinchGesture, this`recognizers, this`nextRecognizerId
      ensures Valid() && shouldAddPinchGesture == b
      ensures (recognizers, nextRecognizerId) ==
        FlagChange(old(recognizers), old(nextRecognizerId), views, old(shouldAddPinchGesture), b, AddOp(PinchType), RemoveOp(PinchType))
    {
      var oldValue := shouldAddPinchGesture;
      shouldAddPinchGesture := b;
      DidGestureFlagChange(oldValue, b, PinchType);
    }

    /** shouldAddLongPressGesture = b */
    method SetShouldAddLongPressGesture(b: bool)
      requires Valid()
      modifies this`shouldAddLongPressGesture, this`recognizers, this`nextRecognizerId
      ensures Valid() && shouldAddLongPressGesture == b
      ensures (recognizers, nextRecognizerId) ==
        FlagChange(old(recognizers), old(nextRecognizerId), views, old(shouldAddLongPressGesture), b, AddOp(LongPressType), RemoveOp(LongPressType))
    {
      var oldValue := shouldAddLongPressGesture;
      shouldAddLongPressGesture := b;
      DidGestureFlagChange(oldValue, b, LongPressType);
    }

    /** shouldAddDoubleTapGesture = b, whose observer adds or removes double taps itself. */
    method SetShouldAddDoubleTapGesture(b: bool)
      requires Valid()
      modifies this`shouldAddDoubleTapGesture, this`recognizers, this`nextRecognizerId
      ensures Valid() && shouldAddDoubleTapGesture == b
      ensures (recognizers, nextRecognizerId) ==
        FlagChange(old(recognizers), old(nextRecognizerId), views, old(shouldAddDoubleTapGesture), b, AddDoubleTapOp, RemoveDoubleTapOp)
    {
      var oldValue := shouldAddDoubleTapGesture;
      shouldAddDoubleTapGesture := b;
      DoubleTapFlagDidSet(oldValue, b);
    }

    /** The didSet observer of shouldAddDoubleTapGesture. */
    method DoubleTapFlagDidSet(oldValue: bool, b: bool)
      requires Valid()
      modifies this`recognizers, this`nextRecognizerId
      ensures Valid()
      ensures (recognizers, nextRecognizerId) ==
        FlagChange(old(recognizers), old(nextRecognizerId), views, oldValue, b, AddDoubleTapOp, RemoveDoubleTapOp)
    {
      if oldValue == b {
        return;
      }
      ghost var r0, n0 := recognizers, nextRecognizerId;
      assert views[0..] == views;
      if b {
        var i := 0;
        while i < |views|
          invariant 0 <= i <= |views|
          invariant Valid()
          invariant OnViews(recognizers, nextRecognizerId, views[i..], AddDoubleTapOp) == OnViews(r0, n0, views, AddDoubleTapOp)
        {
          assert views[i..][1..] == views[i + 1..];
          AddDoubleTapGesture(views[i]);
          i := i + 1;
        }
      } else {
        var i := 0;
        while i < |views|
          invariant 0 <= i <= |views|
          invariant Valid()
          invariant OnViews(recognizers, nextRecognizerId, views[i..], RemoveDoubleTapOp) == OnViews(r0, n0, views, RemoveDoubleTapOp)
        {
          assert views[i..][1..] == views[i + 1..];
          RemoveDoubleTapGesture(views[i]);
          i := i + 1;
        }
      }
    }

    /** addAllGesturesToViews(): the five flags switched on, tap first and double tap last. */
    method AddAllGesturesToViews()
      requires Valid()
      modifies this`shouldAddTapGesture, this`shouldAddPanGesture, this`shouldAddPinchGesture,
               this`shouldAddLongPressGesture, this`shouldAddDoubleTapGesture, this`recognizers, this`nextRecognizerId
      ensures Valid() && shouldAddTapGesture && shouldAddPanGesture && shouldAddPinchGesture && shouldAddLongPressGesture && shouldAddDoubleTapGesture
      ensures var s1 := FlagChange(old(recognizers), old(nextRecognizerId), views, old(shouldAddTapGesture), true, AddOp(TapType), RemoveOp(TapType));
        var s2 := FlagChange(s1.0, s1.1, views, old(shouldAddPanGesture), true, AddOp(PanType), RemoveOp(PanType));
        var s3 := FlagChange(s2.0, s2.1, views, old(shouldAddPinchGesture), true, AddOp(PinchType), RemoveOp(PinchType));
        var s4 := FlagChange(s3.0, s3.1, views, old(shouldAddLongPressGesture), true, AddOp(LongPressType), RemoveOp(LongPressType));
        (recognizers, nextRecognizerId) == FlagChange(s4.0, s4.1, views, old(shouldAddDoubleTapGesture), true, AddDoubleTapOp, RemoveDoubleTapOp)
    {
      ghost var vs, f := views, GestureFlags();
      SetShouldAddTapGesture(true);
      ghost var s1 := FlagChange(old(recognizers), old(nextRecognizerId), vs, f.tap, true, AddOp(TapType), RemoveOp(TapType));
      assert (recognizers, nextRecognizerId) == s1;
      SetShouldAddPanGesture(true);
      ghost var s2 := FlagChange(s1.0, s1.1, vs, f.pan, true, AddOp(PanType), RemoveOp(PanType));
      assert (recognizers, nextRecognizerId) == s2;
      SetShouldAddPinchGesture(true);
      ghost var s3 := FlagChange(s2.0, s2.1, vs, f.pinch, true, AddOp(PinchType), RemoveOp(PinchType));
      assert (recognizers, nextRecognizerId) == s3;
      SetShouldAddLongPressGesture(true);
      ghost var s4 := FlagChange(s3.0, s3.1, vs, f.longPress, true, AddOp(LongPressType), RemoveOp(LongPressType));
      assert (recognizers, nextRecognizerId) == s4;
      SetShouldAddDoubleTapGesture(true);
    }

    /** removeAllGesturesFromViews(): the five flags switched off, tap first and double tap last. */
    method RemoveAllGesturesFromViews()
      requires Valid()
      modifies this`shouldAddTapGesture, this`shouldAddPanGesture, this`shouldAddPinchGesture,
               this`shouldAddLongPressGesture, this`shouldAddDoubleTapGesture, this`recognizers, this`nextRecognizerId
      ensures Valid() && GestureFlags() == Flags(false, false, false, false, false)
      ensures var s1 := FlagChange(old(recognizers), old(nextRecognizerId), views, old(shouldAddTapGesture), false, AddOp(TapType), RemoveOp(TapType));
        var s2 := FlagChange(s1.0, s1.1, views, old(shouldAddPanGesture), false, AddOp(PanType), RemoveOp(PanType));
        var s3 := FlagChange(s2.0, s2.1, views, old(shouldAddPinchGesture), false, AddOp(PinchType), RemoveOp(PinchType));
        var s4 := FlagChange(s3.0, s3.1, views, old(shouldAddLongPressGesture), false, AddOp(LongPressType), RemoveOp(LongPressType));
        (recognizers, nextRecognizerId) == FlagChange(s4.0, s4.1, views, old(shouldAddDoubleTapGesture), false, AddDoubleTapOp, RemoveDoubleTapOp)
    {
      SetShouldAddTapGesture(false);
      SetShouldAddPanGesture(false);
      SetShouldAddPinchGesture(false);
      SetShouldAddLongPressGesture(false);
      SetShouldAddDoubleTapGesture(false);
    }

    // ------------------------------------------------------------- scrolling

    /** scrollViewWillBeginDragging(_:): the offset the drag starts from. */
    method ScrollViewWillBeginDragging()
      modifies this`scrollStartingPointOfX
      ensures scrollStartingPointOfX == Some(contentOffsetX)
    {
      scrollStartingPointOfX := Some(contentOffsetX);
    }

    /**
     * scrollViewDidScroll(_:): with a delegate, the page shown is recorded,
     * and when it differs from an earlier recorded one the delegate hears of it.
     */
    method ScrollViewDidScroll()
      requires Valid()
      requires svDelegate.Some? && oldIndex.Some? && oldIndex.value != DisplayedPage() ==> 0 <= DisplayedPage() < |views|
      modifies this`oldIndex, this`events
      ensures oldIndex == if svDelegate.Some? then Some(DisplayedPage()) else old(oldIndex)
      ensures events == old(events) +
        if svDelegate.Some? && old(oldIndex).Some? && old(oldIndex).value != DisplayedPage()
        then [DidViewDisplayedChange(views[DisplayedPage()], DisplayedPage())]
        else []
    {
      if svDelegate.Some? {
        var index := DisplayedIndex(contentOffsetX, width, shouldRoundViewDisplayed, scrollStartingPointOfX);
        if oldIndex != Some(index) {
          if oldIndex.Some? {
            events := events + [DidViewDisplayedChange(views[index], index)];
          }
          oldIndex := Some(index);
        }
      }
    }

    // -------------------------------------------------------------- gestures

    /** invokeGestureDelegateMethod(gesture:type:) for a recognizer attached to `gestureView`. */
    method InvokeGestureDelegateMethod(gesture: Recognizer, gestureView: Option<ViewId>, t: GestureType, state: GestureState)
      modifies this`events
      ensures events == old(events) + Notified(svDelegate, views, gesture, gestureView, t, state)
    {
      if svDelegate.Some? {
        if gestureView.None? {
          return;
        }
        var view := gestureView.value;
        var index := IndexOf(views, view);
        if index.None? {
          return;
        }
        var cs := Callbacks(gesture.kind, t);
        events := events + Invoked(svDelegate.value, cs, view, index.value, gesture.id, state);
      }
    }

    /** tap(gesture:) */
    method TapHandler(gesture: Recognizer, gestureView: Option<ViewId>, state: GestureState)
      requires gesture.kind.Tap?
      modifies this`events
      ensures events == old(events) + Notified(svDelegate, views, gesture, gestureView, TapType, state)
    {
      InvokeGestureDelegateMethod(gesture, gestureView, TapType, state);
    }

    /** pan(gesture:) */
    method PanHandler(gesture: Recognizer, gestureView: Option<ViewId>, state: GestureState)
      requires gesture.kind.Pan?
      modifies this`events
      ensures events == old(events) + Notified(svDelegate, views, gesture, gestureView, PanType, state)
    {
      InvokeGestureDelegateMethod(gesture, gestureView, PanType, state);
    }

    /** pinch(gesture:) */
    method PinchHandler(gesture: Recognizer, gestureView: Option<ViewId>, state: GestureState)
      requires gesture.kind.Pinch?
      modifies this`events
      ensures events == old(events) + Notified(svDelegate, views, gesture, gestureView, PinchType, state)
    {
      InvokeGestureDelegateMethod(gesture, gestureView, PinchType, state);
    }

    /**
     * longPress(gesture:): taps are switched off while a press is held and
     * given back their flag when it ends, then the delegate is called.
     */
    method LongPressHandler(gesture: Recognizer, gestureView: Option<ViewId>, state: GestureState)
      requires Valid() && gesture.kind.LongPress?
      modifies this`beginningTapFlag, this`shouldAddTapGesture, this`recognizers, this`nextRecognizerId, this`events
      ensures Valid()
      ensures (shouldAddTapGesture, beginningTapFlag) == LongPressFlags(state, old(shouldAddTapGesture), old(beginningTapFlag))
      ensures (recognizers, nextRecognizerId) ==
        FlagChange(old(recognizers), old(nextRecognizerId), views, old(shouldAddTapGesture), shouldAddTapGesture, AddOp(TapType), RemoveOp(TapType))
      ensures events == old(events) + Notified(svDelegate, views, gesture, gestureView, LongPressType, state)
    {
      if state == Began {
        beginningTapFlag := shouldAddTapGesture;
        SetShouldAddTapGesture(false);
      }
      if state == Ended {
        SetShouldAddTapGesture(beginningTapFlag);
      }
      InvokeGestureDelegateMethod(gesture, gestureView, LongPressType, state);
    }
  }
}
