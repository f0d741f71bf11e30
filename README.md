# MIIScrollableViews in Dafny

This project models `MIIScrollableViews`, a UIKit `UIScrollView` subclass.
It keeps an ordered list of views, one view per page: the view at position
`j` has `frame.origin.x == width * j`, and the content is `width * count`
wide. It attaches gesture recognizers to every view according to five flags:
tap, pan, pinch, long press and double tap. It reports to an optional
delegate when the number of views changes,
when the page shown changes, and when a recognizer fires.

The model has three parts.

- **The view collection and the paging layout.**
  - `Layout` covers the pure effect of each mutation on the list and on the
    origins: `Inserted`, `Removed`, `Replaced`, `InsertedAll` and the shift
    loop `Shifted`.
  - `LayoutLemmas` proves what those mutations keep and what they undo.
- **The gesture registry.**
  - `Recognizers` treats a recognizer as a value. It has an identity, a
    kind (a tap carries its `numberOfTapsRequired`) and the set of
    recognizers it must wait for (`require(toFail:)`).
  - `Recognizers` also defines each per-view operation: addGesture,
    addDoubleTapGesture, removeGesture, removeDoubleTapGesture,
    findTapGesture and setupGestures.
  - `Registry` keeps `gestureRecognizers` of every view by identity, and runs
    one operation over each view of a list, as the `for view in views`
    loops do.
  - `RecognizerLemmas` and `Registry` prove the counts, the tap / double-tap
    failure wiring and the flag round trips.
- **The displayed-page tracker.**
  - `Paging` covers the index `scrollViewDidScroll(_:)` computes: rounding, the
    retained floor/ceiling chosen by the drag direction, and Swift's
    truncating `Int(_)`.
  - `PagingLemmas` proves that the retained mode does not flicker and that both
    modes agree on a settled page.

All the state the Swift class updates in place lives in the class
`ScrollableViews.MIIScrollableViews`. Each Swift method that changes state is a
method of that class, proved against the pure functions above. Some Swift
methods are split into a method and helper methods of their own:
- the `views` observer is `ViewsDidSet`;
- the shift loops of insert and remove are `ShiftFrom`;
- the list step of insert(_:at:) is `InsertIntoViews`;
- the loop of insert(contentsOf:at:) is `InsertEach`, with one turn in `InsertNext`;
- the guarded lines of setupGestures are `AddGestureIf` and `DoubleTapGestureIf`.

The Swift methods that only compute a value are functions: `findTapGesture`
is `FindTapGesture`, `isDoubleTap` is `IsDoubleTap`, and `getRetainedIndex` is
`RetainedIndex`.

The `for` loops that change state are `while` loops with invariants:
- the loops over `views` of the gesture-flag observers (source lines 81, 83,
  96 and 98) are the four loops of `DoubleTapFlagDidSet` and
  `DidGestureFlagChange`;
- the loop of removeGesture (line 261) is the loop of `RemoveGesture`;
- the shift loops of insert (line 333) and remove (line 357) are both the loop
  of `ShiftFrom`;
- the loop of insert(contentsOf:at:) (line 341) is the loop of `InsertEach`.

The loop of commonInit over `views` (line 183) is not modelled: `views` is
still empty there, so it runs no turn, and the constructor starts from the
empty list.

The search loop of findTapGesture (line 292) is the recursion of
`FindTapGesture`.

Views are identities (`ViewId`). Their origins and recognizers are maps keyed by identity, so a view
listed twice is one view, as in UIKit. Every call made on the delegate is
appended to `events`.

The platform supplies some inputs: the content offset a drag or an animation
reaches, a recognizer's state, and the view a recognizer is attached to. These
are parameters of the methods or public fields of the class.

## Model

| member | source | states |
|---|---|---|
| Layout.ShiftedAt | MIIScrollableViews/MIIScrollableViews.swift:333-335 | the shift loop moves each view by `d` once per time it is listed |
| Layout.IndexOf | MIIScrollableViews/MIIScrollableViews.swift:323-325 | `index(of:)` returns a position holding the view, and returns nil exactly when the view is not listed |
| Layout.IndexOfFirst | MIIScrollableViews/MIIScrollableViews.swift:323-325 | no earlier position holds the view, so the position found is the first |
| LayoutLemmas.LaidOutDistinct | MIIScrollableViews/MIIScrollableViews.swift:197-203 | a list where every view sits on its own page holds no view twice |
| LayoutLemmas.InsertMoves | MIIScrollableViews/MIIScrollableViews.swift:327-335 | insert of a new view puts it at `width * index`, and moves every old view from `index` on right by exactly one width |
| LayoutLemmas.InsertKeepsLayout | MIIScrollableViews/MIIScrollableViews.swift:327-335 | insert of a view not already held keeps one view per page. The old views keep their order; those before `index` stay put and the later ones move one page right |
| LayoutLemmas.RemoveMoves | MIIScrollableViews/MIIScrollableViews.swift:354-360 | remove(at:) moves every view after `index` left by exactly one width; the others stay |
| LayoutLemmas.RemoveKeepsLayout | MIIScrollableViews/MIIScrollableViews.swift:354-360 | remove(at:) keeps one view per page. The view at `index` is gone and the rest keep their order |
| LayoutLemmas.InsertRemoveRoundTrip | MIIScrollableViews/MIIScrollableViews.swift:327-360 | insert(v, at: i) then remove(at: i) gives back the list, and the origin of every other view |
| LayoutLemmas.AppendIsInsertAtEnd | MIIScrollableViews/MIIScrollableViews.swift:346-348 | append is insert at `count`: the view goes last on the next page and nothing moves, even in an empty list |
| LayoutLemmas.RemoveLastNeedsNoShift | MIIScrollableViews/MIIScrollableViews.swift:354-364 | removeLast() (which does not shift) leaves the same state as remove(at: count - 1) |
| LayoutLemmas.ReplaceKeepsLayout | MIIScrollableViews/MIIScrollableViews.swift:312-320 | replaceView keeps the layout when the new view is not held elsewhere. No other view moves or changes place |
| LayoutLemmas.InsertedAllViews | MIIScrollableViews/MIIScrollableViews.swift:340-344 | insert(contentsOf:at:) lists the elements contiguously and in order at `index`, before the old suffix |
| LayoutLemmas.InsertAllKeepsLayout | MIIScrollableViews/MIIScrollableViews.swift:340-344 | insert(contentsOf:at:) of new, distinct views keeps one view per page |
| LayoutLemmas.MoveTargetsOrigin | MIIScrollableViews/MIIScrollableViews.swift:374-378 | on a laid-out list, move(to:) scrolls to exactly the view's own origin |
| Paging.FloorDiv | MIIScrollableViews/MIIScrollableViews.swift:409 | `rounded(.down)` of x / width is the page whose span holds x |
| Paging.CeilDiv | MIIScrollableViews/MIIScrollableViews.swift:409 | `rounded(.up)` of x / width is the least page at or right of x |
| Paging.TruncDiv | MIIScrollableViews/MIIScrollableViews.swift:394 | `Int(_)` truncates toward zero: floor for a non-negative offset, ceiling for a negative one |
| Paging.RoundDiv | MIIScrollableViews/MIIScrollableViews.swift:392 | `rounded()` is within half a page of x / width, and a half goes away from zero |
| PagingLemmas.RetainedIndexBrackets | MIIScrollableViews/MIIScrollableViews.swift:403-410 | the retained index is the floor after a drag to the right, the ceiling otherwise, and the truncation before any drag |
| PagingLemmas.RetainedStaysOnStartPage | MIIScrollableViews/MIIScrollableViews.swift:383-410 | a drag from a settled page that stays within one page of its start keeps reporting the start page |
| PagingLemmas.SettledPageAgrees | MIIScrollableViews/MIIScrollableViews.swift:387-410 | on a settled page the rounding mode and the retained mode (with any drag start) both report that page |
| Recognizers.FindTapGesture | MIIScrollableViews/MIIScrollableViews.swift:287-306 | findTapGesture returns the position of a tap whose `numberOfTapsRequired` is that of the type |
| Recognizers.FindTapGestureFirst | MIIScrollableViews/MIIScrollableViews.swift:287-306 | the tap found is the first of its type, and one is found exactly when the view has one |
| Recognizers.RetainedMembers | MIIScrollableViews/MIIScrollableViews.swift:256-272 | removeGesture keeps exactly those recognizers that are not of the type, and the double taps |
| Recognizers.RetainedCounts | MIIScrollableViews/MIIScrollableViews.swift:256-272 | after removeGesture no removed kind is left and every other kind keeps its count |
| Recognizers.WithoutIdMembers | MIIScrollableViews/MIIScrollableViews.swift:284 | `removeGestureRecognizer` detaches exactly the recognizer with that identity |
| RecognizerLemmas.RetainedIdempotent | MIIScrollableViews/MIIScrollableViews.swift:256-272 | a second removeGesture of the same type removes nothing more |
| RecognizerLemmas.FirstDoubleTapRetained | MIIScrollableViews/MIIScrollableViews.swift:256-272 | removeGesture of taps keeps the first double tap first |
| RecognizerLemmas.RetainedWellFormed | MIIScrollableViews/MIIScrollableViews.swift:256-272 | removeGesture keeps recognizer ids unique |
| RecognizerLemmas.WithoutIdWellFormed | MIIScrollableViews/MIIScrollableViews.swift:284 | detaching a recognizer keeps recognizer ids unique |
| RecognizerLemmas.CountWithoutId | MIIScrollableViews/MIIScrollableViews.swift:284 | detaching one recognizer lowers the count of its kind by one and of no other kind |
| RecognizerLemmas.StepWellFormed | MIIScrollableViews/MIIScrollableViews.swift:213-285 | add, add double tap, remove and remove double tap keep ids unique and below the counter, which never goes down |
| RecognizerLemmas.DoubleTapRemovedWellFormed | MIIScrollableViews/MIIScrollableViews.swift:274-285 | removeDoubleTapGesture keeps ids unique and below the counter |
| RecognizerLemmas.ApplyWellFormed | MIIScrollableViews/MIIScrollableViews.swift:205-285 | every per-view operation, setupGestures included, keeps ids unique and below the counter |
| RecognizerLemmas.AddedCount | MIIScrollableViews/MIIScrollableViews.swift:213-243 | addGesture adds exactly one recognizer, of the requested kind |
| RecognizerLemmas.DoubleTapAddedCount | MIIScrollableViews/MIIScrollableViews.swift:245-254 | addDoubleTapGesture adds exactly one double tap and changes no other count |
| RecognizerLemmas.AddIfCount | MIIScrollableViews/MIIScrollableViews.swift:206-209 | a guarded addGesture line adds one recognizer of the kind exactly when its flag is set |
| RecognizerLemmas.SetupGesturesCount | MIIScrollableViews/MIIScrollableViews.swift:205-211 | setupGestures adds one recognizer of each enabled kind and nothing else |
| RecognizerLemmas.TapWaitsForDoubleTap | MIIScrollableViews/MIIScrollableViews.swift:213-254 | a new single tap waits for the view's first double tap; a new double tap is waited for by the view's first single tap |
| RecognizerLemmas.DoubleTapRemovedRebuilds | MIIScrollableViews/MIIScrollableViews.swift:279-284 | with both taps, the rebuilt single tap is created waiting for the double tap, which is then detached |
| RecognizerLemmas.RebuiltCounts | MIIScrollableViews/MIIScrollableViews.swift:279-284 | the rebuilt list has one single tap, one double tap fewer, no other tap kinds, and every other count unchanged |
| RecognizerLemmas.DoubleTapRemovedWithSingleTap | MIIScrollableViews/MIIScrollableViews.swift:274-285 | with a single tap present, the result has exactly one single tap, the new one, and one double tap fewer |
| RecognizerLemmas.DoubleTapRemovedWithoutSingleTap | MIIScrollableViews/MIIScrollableViews.swift:274-285 | without a single tap, only the first double tap is detached |
| RecognizerLemmas.DoubleTapRemovedEffect | MIIScrollableViews/MIIScrollableViews.swift:274-285 | removeDoubleTapGesture does nothing without a double tap. Otherwise one double tap goes and a single tap remains exactly when there was one. Pan, pinch and long press are untouched, and the new single tap waits for the removed double tap |
| RecognizerLemmas.DoubleTapRemovedEffectWithSingleTap | MIIScrollableViews/MIIScrollableViews.swift:274-285 | the with-single-tap half of DoubleTapRemovedEffect |
| RecognizerLemmas.DoubleTapRemovedEffectWithoutSingleTap | MIIScrollableViews/MIIScrollableViews.swift:274-285 | the without-single-tap half of DoubleTapRemovedEffect |
| RecognizerLemmas.HasTapCount | MIIScrollableViews/MIIScrollableViews.swift:287-306 | findTapGesture finds a tap of a type exactly when the count of that kind is positive |
| RecognizerLemmas.DoubleTapRoundTrip | MIIScrollableViews/MIIScrollableViews.swift:74-86 | adding then removing a double tap restores the double-tap count, and restores whether the view has a single tap |
| RecognizerLemmas.FlagRoundTrip | MIIScrollableViews/MIIScrollableViews.swift:90-100 | a flag switched off and on again leaves one recognizer of its kind; kinds the removal does not touch keep their counts |
| Registry.Put | MIIScrollableViews/MIIScrollableViews.swift:256-259 | setting a view's recognizers changes that view's list only; a view without a list reads as empty |
| Registry.OnViewWellFormed | MIIScrollableViews/MIIScrollableViews.swift:205-285 | an operation on one view keeps every view's ids unique and below the counter |
| Registry.OnViewsWellFormed | MIIScrollableViews/MIIScrollableViews.swift:90-100 | an operation run over a list of views keeps the whole table well formed |
| Registry.FlagChangeWellFormed | MIIScrollableViews/MIIScrollableViews.swift:90-100 | a flag change keeps the whole table well formed |
| Registry.RemoveEverywhere | MIIScrollableViews/MIIScrollableViews.swift:95-99 | a flag switched off leaves every listed view with what removeGesture keeps, even one listed twice. Other views are untouched and no id is drawn |
| Registry.TapOffKeepsDoubleTaps | MIIScrollableViews/MIIScrollableViews.swift:50-54 | tap switched off leaves no single tap on any listed view, and every double tap |
| Registry.AddEverywhereCount | MIIScrollableViews/MIIScrollableViews.swift:95-97 | a flag switched on gives a view one recognizer of the kind per time it is listed and changes no other kind; one id is drawn per visit |
| Registry.SetupTwiceDoubles | MIIScrollableViews/MIIScrollableViews.swift:133-142 | the subscript setter at `count` sets the view up twice, so it carries two recognizers of every enabled kind |
| Dispatch.Invoked | MIIScrollableViews/MIIScrollableViews.swift:444-470 | only implemented optional methods are called, each with the view's index, and every implemented one is called |
| Dispatch.NotifiedOnce | MIIScrollableViews/MIIScrollableViews.swift:444-470 | a recognizer handled by its own type's handler reaches exactly the one delegate method for its kind (didTap or didDoubleTap for taps). Nothing is called without a delegate, without a view, or for an unlisted view |
| Dispatch.HeldPressKeepsTapOff | MIIScrollableViews/MIIScrollableViews.swift:433-442 | while a long press is held, taps stay off and the earlier flag stays saved |
| Dispatch.LongPressRestoresTap | MIIScrollableViews/MIIScrollableViews.swift:433-442 | a long press that begins and ends gives the tap flag back its value |
| Dispatch.InterruptedPressKeepsTapOff | MIIScrollableViews/MIIScrollableViews.swift:433-442 | a cancelled or failed long press leaves taps switched off |
| Dispatch.OverlappingPressesLoseTap | MIIScrollableViews/MIIScrollableViews.swift:433-442 | two overlapping long presses, with any held states between them and any flags before: the second saves the already-cleared flag, so taps stay off after both end |
| ScrollableViews.CountsChangedSpec | MIIScrollableViews/MIIScrollableViews.swift:123-131 | `k` single inserts report the counts `from + 1` to `from + k` in order, and nothing without a delegate |
| ScrollableViews.CountsChangedStep | MIIScrollableViews/MIIScrollableViews.swift:123-131 | the reports of `k + 1` inserts are those of `k` followed by the next count |
| ScrollableViews.InsertingAllViews | MIIScrollableViews/MIIScrollableViews.swift:340-344 | insert(contentsOf:at:) leaves `views[..i] + es + views[i..]` with the origins of InsertedAll |
| ScrollableViews.InsertingAllRecognizers | MIIScrollableViews/MIIScrollableViews.swift:340-344 | insert(contentsOf:at:) runs setupGestures on every element in order |
| ScrollableViews.InsertingAllEvents | MIIScrollableViews/MIIScrollableViews.swift:340-344 | insert(contentsOf:at:) reports every intermediate count in order |
| ScrollableViews.InsertingAllLast | MIIScrollableViews/MIIScrollableViews.swift:340-344 | after insert(contentsOf:at:) the content is one page per view, and the offset is at the last element when shouldMoveWhenAdding |
| ScrollableViews.InsertedPrefixStep | MIIScrollableViews/MIIScrollableViews.swift:341-343 | one more turn of the loop of insert(contentsOf:at:) extends the inserted prefix by one element |
| ScrollableViews.InsertedPrefixAll | MIIScrollableViews/MIIScrollableViews.swift:340-344 | once every element is inserted, the state is that of InsertingAll |
| Layout.Shifted | MIIScrollableViews/MIIScrollableViews.swift:333-335 | the shift loop: each view of the list, in turn, moves by `d`; ShiftedAt states the effect |
| Layout.Inserted | MIIScrollableViews/MIIScrollableViews.swift:327-335 | insert(_:at:) on the list and the origins: setupView puts the view at `width * index`, it is listed there, and the later views move right. InsertMoves and InsertKeepsLayout state the effect |
| Layout.Removed | MIIScrollableViews/MIIScrollableViews.swift:354-360 | remove(at:) on the list and the origins: the view leaves and the later views move left. RemoveMoves and RemoveKeepsLayout state the effect |
| Layout.Replaced | MIIScrollableViews/MIIScrollableViews.swift:312-320 | replaceView on the list and the origins: the view takes the position and is placed on its page. ReplaceKeepsLayout states the effect |
| Layout.InsertedAll | MIIScrollableViews/MIIScrollableViews.swift:340-344 | insert(contentsOf:at:) grows the list by the number of elements. InsertedAllViews gives the resulting list |
| Recognizers.IsDoubleTap | MIIScrollableViews/MIIScrollableViews.swift:33-40 | a tap is a double tap exactly when its numberOfTapsRequired is the raw value 2 |
| Recognizers.IsOfType | MIIScrollableViews/MIIScrollableViews.swift:261 | `gesture is T` for the four recognizer classes |
| Recognizers.Removes | MIIScrollableViews/MIIScrollableViews.swift:261-270 | removeGesture detaches a recognizer when it is of the type and is not a double tap |
| Recognizers.NewRecognizer | MIIScrollableViews/MIIScrollableViews.swift:213-243 | the recognizer addGesture creates: a single tap waiting for the first double tap, or a pan, pinch or long press |
| Recognizers.Added | MIIScrollableViews/MIIScrollableViews.swift:213-243 | addGesture attaches the new recognizer at the end of the view's list. AddedCount and TapWaitsForDoubleTap state the effect |
| Recognizers.RequireToFail | MIIScrollableViews/MIIScrollableViews.swift:218 | `require(toFail:)` adds the identity to the waiting set of the recognizer at a position |
| Recognizers.DoubleTapAdded | MIIScrollableViews/MIIScrollableViews.swift:245-254 | addDoubleTapGesture: the first single tap is told to wait for the new double tap, which goes at the end. DoubleTapAddedCount and TapWaitsForDoubleTap state the effect |
| Recognizers.Retained | MIIScrollableViews/MIIScrollableViews.swift:256-272 | the recognizers removeGesture leaves, in order. RetainedMembers and RetainedCounts state the effect |
| Recognizers.WithoutId | MIIScrollableViews/MIIScrollableViews.swift:284 | `removeGestureRecognizer` leaves at most as many recognizers as there were. WithoutIdMembers states which |
| Recognizers.DoubleTapRemoved | MIIScrollableViews/MIIScrollableViews.swift:274-285 | removeDoubleTapGesture with the id counter. DoubleTapRemovedEffect states the effect |
| Recognizers.AddIf | MIIScrollableViews/MIIScrollableViews.swift:206-209 | one guarded addGesture line of setupGestures |
| Recognizers.DoubleTapIf | MIIScrollableViews/MIIScrollableViews.swift:210 | the guarded addDoubleTapGesture line of setupGestures |
| Recognizers.Setup | MIIScrollableViews/MIIScrollableViews.swift:205-211 | setupGestures: the four guarded addGesture lines, then the double tap. SetupGesturesCount states the effect |
| Recognizers.Step | MIIScrollableViews/MIIScrollableViews.swift:213-285 | dispatches one single-step per-view operation |
| Recognizers.Apply | MIIScrollableViews/MIIScrollableViews.swift:205-285 | dispatches any per-view operation, setupGestures included. ApplyWellFormed states what all of them keep |
| Registry.GesturesOf | MIIScrollableViews/MIIScrollableViews.swift:257-259 | `view.gestureRecognizers`, with a missing list read as empty |
| Registry.OnView | MIIScrollableViews/MIIScrollableViews.swift:205-285 | one per-view operation applied to a view's entry in the table |
| Registry.OnViews | MIIScrollableViews/MIIScrollableViews.swift:95-99 | the `for view in views` loop: the operation on every listed view, front to back. RemoveEverywhere and AddEverywhereCount state the effect |
| Registry.FlagChange | MIIScrollableViews/MIIScrollableViews.swift:90-100 | the observer of a flag: nothing when the value is unchanged, otherwise add or remove on every view. FlagChangeWellFormed states what it keeps |
| Paging.RetainedIndex | MIIScrollableViews/MIIScrollableViews.swift:403-410 | getRetainedIndex followed by `Int(_)`. RetainedIndexBrackets is its partner lemma |
| Paging.DisplayedIndex | MIIScrollableViews/MIIScrollableViews.swift:389-394 | the index scrollViewDidScroll computes: rounded, or retained. SettledPageAgrees and RetainedStaysOnStartPage are its partner lemmas |
| Dispatch.Callbacks | MIIScrollableViews/MIIScrollableViews.swift:450-468 | the optional methods tried, in order: didTap or didDoubleTap for a tap, then the one the handler type names |
| Dispatch.CallbackFor | MIIScrollableViews/MIIScrollableViews.swift:450-468 | the delegate method meant for a recognizer of a kind |
| Dispatch.Notified | MIIScrollableViews/MIIScrollableViews.swift:444-470 | all that invokeGestureDelegateMethod does. NotifiedOnce is its partner lemma |
| Dispatch.LongPressFlags | MIIScrollableViews/MIIScrollableViews.swift:435-439 | the tap flag and the saved flag after longPress sees one state |
| Dispatch.Replay | MIIScrollableViews/MIIScrollableViews.swift:433-439 | the two flags after a run of long-press states |
| Dispatch.HeldKeepsFlags | MIIScrollableViews/MIIScrollableViews.swift:433-439 | states that neither begin nor end a press change neither flag |
| ScrollableViews.CountChanged | MIIScrollableViews/MIIScrollableViews.swift:127-129 | the count notification of the `views` observer, given only when there is a delegate |
| ScrollableViews.CountsChanged | MIIScrollableViews/MIIScrollableViews.swift:123-131 | the count notifications of successive single inserts. CountsChangedSpec states them |
| ScrollableViews.Inserting | MIIScrollableViews/MIIScrollableViews.swift:327-338 | the whole state change of insert(_:at:): layout, setupGestures, content width, count notification, and the move when shouldMoveWhenAdding. The list grows by one |
| ScrollableViews.InsertingAll | MIIScrollableViews/MIIScrollableViews.swift:340-344 | insert(_:at:) of each element in turn at index plus its position. The InsertingAll lemmas state the effect |
| ScrollableViews.MIIScrollableViews.DisplayedPage | MIIScrollableViews/MIIScrollableViews.swift:387-394 | the displayed index for the current offset, the mode and the drag start |
| ScrollableViews.MIIScrollableViews.constructor | MIIScrollableViews/MIIScrollableViews.swift:164-186 | init(frame:) starts empty and laid out with every gesture flag off. animated, shouldRoundViewDisplayed and shouldMoveWhenAdding are on, with no delegate |
| ScrollableViews.MIIScrollableViews.Get | MIIScrollableViews/MIIScrollableViews.swift:133-136 | the subscript getter returns a listed view that sits on that page when laid out |
| ScrollableViews.MIIScrollableViews.All | MIIScrollableViews/MIIScrollableViews.swift:144-146 | `all` has `count` views and holds exactly those `index(of:)` finds. On a laid-out list it is in page order: its `j`-th view sits at `width * j` |
| ScrollableViews.MIIScrollableViews.Count | MIIScrollableViews/MIIScrollableViews.swift:148-150 | `count` is the number of pages of content, and zero exactly for the empty list |
| ScrollableViews.MIIScrollableViews.IsEmpty | MIIScrollableViews/MIIScrollableViews.swift:152-154 | `isEmpty` exactly when `count` is 0 and `first` is nil |
| ScrollableViews.MIIScrollableViews.First | MIIScrollableViews/MIIScrollableViews.swift:156-158 | `first` is nil exactly for the empty list, is found at index 0 and sits on page 0 |
| ScrollableViews.MIIScrollableViews.Last | MIIScrollableViews/MIIScrollableViews.swift:160-162 | `last` is nil exactly for the empty list and sits on the last page |
| ScrollableViews.MIIScrollableViews.IndexOfView | MIIScrollableViews/MIIScrollableViews.swift:323-325 | `index(of:)` is nil exactly for an unlisted view, and otherwise is the view's page when laid out |
| ScrollableViews.MIIScrollableViews.ViewsDidSet | MIIScrollableViews/MIIScrollableViews.swift:123-131 | after any change to `views` the content is `width * count` wide and the new count is reported to a delegate |
| ScrollableViews.MIIScrollableViews.AddGesture | MIIScrollableViews/MIIScrollableViews.swift:213-243 | addGesture appends the new recognizer to the view's list and draws one id |
| ScrollableViews.MIIScrollableViews.AddDoubleTapGesture | MIIScrollableViews/MIIScrollableViews.swift:245-254 | addDoubleTapGesture is DoubleTapAdded on the view's list, and keeps ids unique |
| ScrollableViews.MIIScrollableViews.RemoveGesture | MIIScrollableViews/MIIScrollableViews.swift:256-272 | the loop of removeGesture leaves the view with Retained of its list; a view without a list is untouched |
| ScrollableViews.MIIScrollableViews.RemoveDoubleTapGesture | MIIScrollableViews/MIIScrollableViews.swift:274-285 | the calls of removeDoubleTapGesture leave what DoubleTapRemoved describes |
| ScrollableViews.MIIScrollableViews.SetupGestures | MIIScrollableViews/MIIScrollableViews.swift:205-211 | setupGestures is Setup under the current flags |
| ScrollableViews.MIIScrollableViews.AddGestureIf | MIIScrollableViews/MIIScrollableViews.swift:206-209 | one guarded line of setupGestures |
| ScrollableViews.MIIScrollableViews.DoubleTapGestureIf | MIIScrollableViews/MIIScrollableViews.swift:210 | the guarded double-tap line of setupGestures |
| ScrollableViews.MIIScrollableViews.SetupView | MIIScrollableViews/MIIScrollableViews.swift:197-203 | setupView puts the view at `width * index` and sets up its gestures |
| ScrollableViews.MIIScrollableViews.ReplaceView | MIIScrollableViews/MIIScrollableViews.swift:312-320 | replaceView is Replaced on the list, sets the view up and reports the count. It keeps the layout when the view is new |
| ScrollableViews.MIIScrollableViews.ShiftFrom | MIIScrollableViews/MIIScrollableViews.swift:333-335 | the shift loop is Shifted over the views from `start` on |
| ScrollableViews.MIIScrollableViews.Move | MIIScrollableViews/MIIScrollableViews.swift:374-378 | move(to:) goes to the page of the view's first position, and does nothing for an unlisted view |
| ScrollableViews.MIIScrollableViews.InsertIntoViews | MIIScrollableViews/MIIScrollableViews.swift:330-335 | the view is listed at `index`, the count is reported, and the later views move one page right |
| ScrollableViews.MIIScrollableViews.Insert | MIIScrollableViews/MIIScrollableViews.swift:327-338 | insert(_:at:) reaches exactly the state Inserting describes |
| ScrollableViews.MIIScrollableViews.InsertNext | MIIScrollableViews/MIIScrollableViews.swift:341-343 | one turn of the loop of insert(contentsOf:at:) |
| ScrollableViews.MIIScrollableViews.InsertEach | MIIScrollableViews/MIIScrollableViews.swift:341-343 | the loop of insert(contentsOf:at:) inserts every element |
| ScrollableViews.MIIScrollableViews.InsertContentsOf | MIIScrollableViews/MIIScrollableViews.swift:340-344 | insert(contentsOf:at:) reaches InsertingAll, with the elements contiguous and in order at `index` |
| ScrollableViews.MIIScrollableViews.Append | MIIScrollableViews/MIIScrollableViews.swift:346-348 | append is insert at `count`: the view goes last on the next page and the layout is kept for a new view |
| ScrollableViews.MIIScrollableViews.AppendContentsOf | MIIScrollableViews/MIIScrollableViews.swift:350-352 | append(contentsOf:) is insert(contentsOf:at: count) and lists the elements at the end |
| ScrollableViews.MIIScrollableViews.Remove | MIIScrollableViews/MIIScrollableViews.swift:354-360 | remove(at:) is Removed, reports the count and keeps the layout with the view gone |
| ScrollableViews.MIIScrollableViews.RemoveLast | MIIScrollableViews/MIIScrollableViews.swift:362-364 | removeLast drops the last view, and equals remove(at: count - 1) |
| ScrollableViews.MIIScrollableViews.RemoveAll | MIIScrollableViews/MIIScrollableViews.swift:366-372 | removeAll leaves no views and no content, and reports a count of 0 |
| ScrollableViews.MIIScrollableViews.SetAt | MIIScrollableViews/MIIScrollableViews.swift:137-141 | below `count` the subscript setter is replaceView. At `count` it appends and then replaces, so the view is set up twice and the count is reported twice |
| ScrollableViews.MIIScrollableViews.DidGestureFlagChange | MIIScrollableViews/MIIScrollableViews.swift:90-100 | nothing when the flag is unchanged, otherwise add or remove on every view in order |
| ScrollableViews.MIIScrollableViews.SetShouldAddTapGesture | MIIScrollableViews/MIIScrollableViews.swift:50-54 | setting the tap flag runs its observer |
| ScrollableViews.MIIScrollableViews.SetShouldAddPanGesture | MIIScrollableViews/MIIScrollableViews.swift:56-60 | setting the pan flag runs its observer |
| ScrollableViews.MIIScrollableViews.SetShouldAddPinchGesture | MIIScrollableViews/MIIScrollableViews.swift:62-66 | setting the pinch flag runs its observer |
| ScrollableViews.MIIScrollableViews.SetShouldAddLongPressGesture | MIIScrollableViews/MIIScrollableViews.swift:68-72 | setting the long-press flag runs its observer |
| ScrollableViews.MIIScrollableViews.SetShouldAddDoubleTapGesture | MIIScrollableViews/MIIScrollableViews.swift:74-86 | setting the double-tap flag runs its observer |
| ScrollableViews.MIIScrollableViews.DoubleTapFlagDidSet | MIIScrollableViews/MIIScrollableViews.swift:76-85 | the double-tap observer adds or removes double taps on every view when the flag changes |
| ScrollableViews.MIIScrollableViews.AddAllGesturesToViews | MIIScrollableViews/MIIScrollableViews.swift:102-108 | the five flags switch on in source order, each through its observer |
| ScrollableViews.MIIScrollableViews.RemoveAllGesturesFromViews | MIIScrollableViews/MIIScrollableViews.swift:110-116 | the five flags switch off in source order, each through its observer |
| ScrollableViews.MIIScrollableViews.ScrollViewWillBeginDragging | MIIScrollableViews/MIIScrollableViews.swift:383-385 | the drag start records the current offset |
| ScrollableViews.MIIScrollableViews.ScrollViewDidScroll | MIIScrollableViews/MIIScrollableViews.swift:387-401 | with a delegate the displayed page is recorded, and a change from an earlier recorded page is reported with its view. The first page seen is not reported |
| ScrollableViews.MIIScrollableViews.InvokeGestureDelegateMethod | MIIScrollableViews/MIIScrollableViews.swift:444-470 | the delegate hears what Notified describes |
| ScrollableViews.MIIScrollableViews.TapHandler | MIIScrollableViews/MIIScrollableViews.swift:421-423 | tap(gesture:) dispatches as a tap |
| ScrollableViews.MIIScrollableViews.PanHandler | MIIScrollableViews/MIIScrollableViews.swift:425-427 | pan(gesture:) dispatches as a pan |
| ScrollableViews.MIIScrollableViews.PinchHandler | MIIScrollableViews/MIIScrollableViews.swift:429-431 | pinch(gesture:) dispatches as a pinch |
| ScrollableViews.MIIScrollableViews.LongPressHandler | MIIScrollableViews/MIIScrollableViews.swift:433-442 | a press that begins saves the tap flag and switches taps off; one that ends restores the saved flag. Taps are removed or re-added through the observer, and then the delegate is called |

## Left out

- The view hierarchy and rendering are not modelled: `addSubview`,
  `removeFromSuperview`, `isUserInteractionEnabled`, frame heights and
  bounds, the scroll indicators, `isPagingEnabled`, and the animation of
  `setContentOffset` (the `animated` flag is kept but has no effect).
- `CGFloat` is modelled as exact integers, so the page width, the origins and
  the offsets do not round as floating point does. A fractional offset is
  not represented; offsets within one page are still distinguished because
  the width is an integer greater than zero.
- A `setContentOffset` call from move(to:) does not run scrollViewDidScroll in
  the model. The platform calls that method; here it is a separate method.
- `gestureRecognizer(_:shouldRecognizeSimultaneouslyWith:)` always answers
  true. The recognizer delegate, the pan touch limits and the recognizers'
  target/action are left out. A recognizer keeps only its identity, kind and
  failure requirements.
- Recognizers that other code attaches to a view are not modelled: a view
  starts without recognizers until the controller adds some.
- `svDelegate` is weak. Its lifetime is not modelled: the delegate is present
  or absent, and is known by the optional methods it implements.
- An out-of-range index traps in Swift. The model makes the index a
  precondition instead: the subscript, insert, replaceView, remove(at:)
  and removeLast.
  - The same applies to `views[index]` in scrollViewDidScroll when a changed
    page lies outside the list.
- removeGesture in Swift calls `removeGestureRecognizer` on each matching
  recognizer of a snapshot of the list. The model builds the list of those that
  stay, which is the same because recognizer ids are unique (a proved invariant).
- remove(at:) returns nothing in the source, so the model's `Remove` returns
  nothing either.
- The layout invariant (`IsLaidOut`) is kept by the mutating methods only
  under the conditions the lemmas state. A view inserted a second time breaks
  it, exactly as it does in the source.
- The page width is a constant fixed when the object is built, and the
  constructor requires it to be positive. The source reads `self.frame.width`
  on every call (lines 200, 309, 334, 358, 376 and 390). A frame change
  between calls is not modelled; the source does not lay the existing views
  out again after one either. A zero width, which would make line 390 divide
  by zero, is excluded.
- `init?(coder:)` behaves as init(frame:) and is not modelled separately.
- The Demo application (Demo/Demo/ViewController.swift) is not part of this
  model.
