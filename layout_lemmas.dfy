/**
 * What the layout functions promise: the origin invariant survives insert,
 * remove, replace and bulk insert; insert moves the later views right by one
 * width and remove moves them back; insert followed by remove at the same
 * position is the identity; append is insert at the end; removeLast needs no
 * shifting; and move(to:) scrolls to the view's own origin.
 */
module LayoutLemmas {
  import opened Options
  import opened Layout

  /** A laid-out collection cannot hold a view twice: two positions would need one origin. */
  lemma LaidOutDistinct(vs: seq<ViewId>, origin: map<ViewId, int>, width: int)
    requires width > 0 && LaidOut(vs, origin, width)
    ensures Distinct(vs)
  {
    forall j, k | 0 <= j < k < |vs| ensures vs[j] != vs[k] {
      MulStrictlyMonotone(width, j, k);
    }
  }

  lemma MulStrictlyMonotone(width: int, j: int, k: int)
    requires width > 0 && j < k
    ensures width * j < width * k
  {
    assert width * k == width * j + width * (k - j);
  }

  lemma {:induction false} DistinctOccurrences(vs: seq<ViewId>, u: ViewId)
    requires Distinct(vs)
    ensures multiset(vs)[u] == if u in vs then 1 else 0
    decreases |vs|
  {
    if |vs| > 0 {
      var front, last := vs[..|vs| - 1], vs[|vs| - 1];
      DistinctOccurrences(front, u);
      assert vs == front + [last];
      assert last !in front;
    }
  }

  /** A suffix of distinct views is distinct, and holds exactly the views from its start on. */
  lemma DistinctSuffix(vs: seq<ViewId>, i: nat)
    requires Distinct(vs) && i <= |vs|
    ensures Distinct(vs[i..])
    ensures forall j :: 0 <= j < |vs| ==> (vs[j] in vs[i..] <==> i <= j)
  {
    forall j | 0 <= j < |vs| && vs[j] in vs[i..] ensures i <= j {
      var k :| 0 <= k < |vs[i..]| && vs[i..][k] == vs[j];
      assert vs[i + k] == vs[j];
    }
  }

  /** Shifting distinct views moves each of them exactly once. */
  lemma ShiftedDistinct(origin: map<ViewId, int>, s: seq<ViewId>, d: int, u: ViewId)
    requires Distinct(s)
    ensures At(Shifted(origin, s, d), u) == At(origin, u) + (if u in s then d else 0)
  {
    ShiftedAt(origin, s, d, u);
    DistinctOccurrences(s, u);
  }

  /** insert(_:at:) of a view not held: it sits at `width * i`, the views from `i` on move right once. */
  lemma InsertMoves(vs: seq<ViewId>, origin: map<ViewId, int>, v: ViewId, i: nat, width: int)
    requires width > 0 && LaidOut(vs, origin, width) && i <= |vs| && v !in vs
    ensures var o := Inserted(vs, origin, v, i, width).1;
      At(o, v) == width * i &&
      forall j :: 0 <= j < |vs| ==> At(o, vs[j]) == At(origin, vs[j]) + (if i <= j then width else 0)
  {
    var s := vs[i..];
    LaidOutDistinct(vs, origin, width);
    DistinctSuffix(vs, i);
    ShiftedDistinct(origin[v := width * i], s, width, v);
    forall j | 0 <= j < |vs|
      ensures At(Shifted(origin[v := width * i], s, width), vs[j]) == At(origin, vs[j]) + (if i <= j then width else 0)
    {
      ShiftedDistinct(origin[v := width * i], s, width, vs[j]);
    }
  }

  /**
   * insert(_:at:) keeps the layout invariant when the new view is not already
   * held; every view that was at a position >= i moves right by exactly one
   * width, the others keep their origin, and the old views keep their order.
   */
  lemma InsertKeepsLayout(vs: seq<ViewId>, origin: map<ViewId, int>, v: ViewId, i: nat, width: int)
    requires width > 0 && LaidOut(vs, origin, width) && i <= |vs| && v !in vs
    ensures var (ws, o) := Inserted(vs, origin, v, i, width);
      LaidOut(ws, o, width) &&
      |ws| == |vs| + 1 && ws[i] == v && ws[..i] == vs[..i] && ws[i + 1..] == vs[i..] &&
      (forall j :: 0 <= j < i ==> At(o, vs[j]) == At(origin, vs[j])) &&
      (forall j :: i <= j < |vs| ==> At(o, vs[j]) == At(origin, vs[j]) + width)
  {
    var (ws, o) := Inserted(vs, origin, v, i, width);
    InsertMoves(vs, origin, v, i, width);
    forall j | 0 <= j < |ws| ensures At(o, ws[j]) == width * j {
      if j < i {
        assert ws[j] == vs[j];
      } else if j > i {
        assert ws[j] == vs[j - 1];
        assert width * (j - 1) + width == width * j;
      }
    }
  }

  /** remove(at:) of a laid-out view: the views after `i` move left once, the others stay. */
  lemma RemoveMoves(vs: seq<ViewId>, origin: map<ViewId, int>, i: nat, width: int)
    requires width > 0 && LaidOut(vs, origin, width) && i < |vs|
    ensures var o := Removed(vs, origin, i, width).1;
      forall j :: 0 <= j < |vs| ==> At(o, vs[j]) == At(origin, vs[j]) - (if i < j then width else 0)
  {
    var s := vs[i + 1..];
    LaidOutDistinct(vs, origin, width);
    DistinctSuffix(vs, i + 1);
    forall j | 0 <= j < |vs|
      ensures At(Shifted(origin, s, -width), vs[j]) == At(origin, vs[j]) - (if i < j then width else 0)
    {
      ShiftedDistinct(origin, s, -width, vs[j]);
    }
  }

  /**
   * remove(at:) keeps the layout invariant; the removed view is exactly the
   * one at `i`, the rest keep their order, and every later view moves left by
   * exactly one width.
   */
  lemma RemoveKeepsLayout(vs: seq<ViewId>, origin: map<ViewId, int>, i: nat, width: int)
    requires width > 0 && LaidOut(vs, origin, width) && i < |vs|
    ensures var (ws, o) := Removed(vs, origin, i, width);
      LaidOut(ws, o, width) &&
      |ws| == |vs| - 1 && vs[i] !in ws && ws[..i] == vs[..i] && ws[i..] == vs[i + 1..] &&
      (forall j :: 0 <= j <= i ==> At(o, vs[j]) == At(origin, vs[j])) &&
      (forall j :: i < j < |vs| ==> At(o, vs[j]) == At(origin, vs[j]) - width)
  {
    var (ws, o) := Removed(vs, origin, i, width);
    RemoveMoves(vs, origin, i, width);
    LaidOutDistinct(vs, origin, width);
    forall j | 0 <= j < |ws| ensures At(o, ws[j]) == width * j && ws[j] != vs[i] {
      if j < i {
        assert ws[j] == vs[j];
      } else {
        assert ws[j] == vs[j + 1];
        assert width * (j + 1) - width == width * j;
      }
    }
  }

  /**
   * insert(v, at: i) followed by remove(at: i) gives back the original views
   * and the original origin of every view other than `v`.
   */
  lemma InsertRemoveRoundTrip(vs: seq<ViewId>, origin: map<ViewId, int>, v: ViewId, i: nat, width: int)
    requires i <= |vs|
    ensures var (ws, o) := Inserted(vs, origin, v, i, width);
      var (back, o') := Removed(ws, o, i, width);
      back == vs && forall u :: u != v ==> At(o', u) == At(origin, u)
  {
    var (ws, o) := Inserted(vs, origin, v, i, width);
    assert ws[..i] == vs[..i] && ws[i + 1..] == vs[i..];
    assert ws[..i] + ws[i + 1..] == vs;
    forall u | u != v ensures At(Shifted(o, vs[i..], -width), u) == At(origin, u) {
      ShiftedAt(origin[v := width * i], vs[i..], width, u);
      ShiftedAt(o, vs[i..], -width, u);
    }
  }

  /** After insert(_:at:), the views from `i + 1` on are the old views from `i` on. */
  lemma InsertedTail(vs: seq<ViewId>, v: ViewId, i: nat)
    requires i <= |vs|
    ensures (vs[..i] + [v] + vs[i..])[i + 1..] == vs[i..]
  {
  }

  /** append(_:) is insert(_:at: count): no view moves, empty collection included. */
  lemma AppendIsInsertAtEnd(vs: seq<ViewId>, origin: map<ViewId, int>, v: ViewId, width: int)
    ensures Inserted(vs, origin, v, |vs|, width) == (vs + [v], origin[v := width * |vs|])
  {
    assert vs[..|vs|] + [v] + vs[|vs|..] == vs + [v];
    assert vs[|vs|..] == [];
  }

  /** removeLast() does no shifting, and remove(at: count - 1) would do none either. */
  lemma RemoveLastNeedsNoShift(vs: seq<ViewId>, origin: map<ViewId, int>, width: int)
    requires |vs| > 0
    ensures Removed(vs, origin, |vs| - 1, width) == (vs[..|vs| - 1], origin)
  {
    assert vs[|vs|..] == [];
    assert vs[..|vs| - 1] + vs[|vs|..] == vs[..|vs| - 1];
  }

  /**
   * replaceView(_:at:) keeps the layout invariant when the new view is not
   * held elsewhere; no other view moves.
   */
  lemma ReplaceKeepsLayout(vs: seq<ViewId>, origin: map<ViewId, int>, v: ViewId, i: nat, width: int)
    requires width > 0 && LaidOut(vs, origin, width) && i < |vs| && (v !in vs || v == vs[i])
    ensures var (ws, o) := Replaced(vs, origin, v, i, width);
      LaidOut(ws, o, width) && |ws| == |vs| && ws[i] == v &&
      forall j :: 0 <= j < |vs| && j != i ==> ws[j] == vs[j] && At(o, ws[j]) == At(origin, vs[j])
  {
    LaidOutDistinct(vs, origin, width);
  }

  /** insert(contentsOf:at:) lists the elements contiguously, in order, before the old suffix. */
  lemma {:induction false} InsertedAllViews(vs: seq<ViewId>, origin: map<ViewId, int>, es: seq<ViewId>, i: nat, width: int)
    requires i <= |vs|
    ensures InsertedAll(vs, origin, es, i, width).0 == vs[..i] + es + vs[i..]
    decreases |es|
  {
    if es == [] {
      assert vs[..i] + vs[i..] == vs;
    } else {
      var (ws, o) := Inserted(vs, origin, es[0], i, width);
      InsertedAllViews(ws, o, es[1..], i + 1, width);
      assert ws[..i + 1] == vs[..i] + [es[0]];
      assert ws[i + 1..] == vs[i..];
      assert es == [es[0]] + es[1..];
    }
  }

  /** insert(contentsOf:at:) of fresh, distinct views keeps the layout invariant. */
  lemma {:induction false} InsertAllKeepsLayout(vs: seq<ViewId>, origin: map<ViewId, int>, es: seq<ViewId>, i: nat, width: int)
    requires width > 0 && LaidOut(vs, origin, width) && i <= |vs|
    requires Distinct(es) && forall e :: e in es ==> e !in vs
    ensures LaidOut(InsertedAll(vs, origin, es, i, width).0, InsertedAll(vs, origin, es, i, width).1, width)
    decreases |es|
  {
    if |es| > 0 {
      var (ws, o) := Inserted(vs, origin, es[0], i, width);
      assert es[0] in es;
      InsertKeepsLayout(vs, origin, es[0], i, width);
      var rest := es[1..];
      assert Distinct(rest) by {
        forall j, k | 0 <= j < k < |rest| ensures rest[j] != rest[k] {
          assert rest[j] == es[j + 1] && rest[k] == es[k + 1];
        }
      }
      forall e | e in rest ensures e !in ws {
        var k :| 0 <= k < |rest| && rest[k] == e;
        assert es[k + 1] == e && e in es;
        assert ws == vs[..i] + [es[0]] + vs[i..];
        assert vs == vs[..i] + vs[i..];
      }
      InsertAllKeepsLayout(ws, o, rest, i + 1, width);
    }
  }

  /** move(to:) on a laid-out collection scrolls to the view's own origin. */
  lemma MoveTargetsOrigin(vs: seq<ViewId>, origin: map<ViewId, int>, v: ViewId, width: int)
    requires LaidOut(vs, origin, width) && v in vs
    ensures width * IndexOf(vs, v).value == At(origin, v)
  {
  }
}
