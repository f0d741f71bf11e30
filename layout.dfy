/**
 * The paging layout: the ordered views and the horizontal origin
 * (frame.origin.x) of every view the container has laid out, with the
 * container width as the paging unit.  Each function is what one mutation of
 * `views` does to the pair, written the way the Swift code does it: the new
 * view is placed at `width * index`, and then the loop over the later
 * positions moves each of them by one width.
 */
module Layout {
  import opened Options

  /** A UIView, by identity. */
  type ViewId = nat

  /** frame.origin.x of `v`; a view the container never placed has origin 0. */
  function At(origin: map<ViewId, int>, v: ViewId): int
  {
    if v in origin then origin[v] else 0
  }

  /**
   * The shift loop: adds `d` to the origin of each view of `vs` in turn; a
   * view listed twice moves twice.
   */
  function Shifted(origin: map<ViewId, int>, vs: seq<ViewId>, d: int): map<ViewId, int>
    decreases |vs|
  {
    if |vs| == 0 then origin
    else
      var o := Shifted(origin, vs[..|vs| - 1], d);
      o[vs[|vs| - 1] := At(o, vs[|vs| - 1]) + d]
  }

  /** One more step of the shift loop. */
  lemma ShiftedSnoc(origin: map<ViewId, int>, vs: seq<ViewId>, x: ViewId, d: int)
    ensures Shifted(origin, vs + [x], d) == Shifted(origin, vs, d)[x := At(Shifted(origin, vs, d), x) + d]
  {
    assert (vs + [x])[..|vs|] == vs;
  }

  /** One more step of the shift loop over the positions `a` to `b` of `vs`. */
  lemma ShiftedSlice(origin: map<ViewId, int>, vs: seq<ViewId>, a: nat, b: nat, d: int)
    requires a <= b < |vs|
    ensures var o := Shifted(origin, vs[a..b], d);
      Shifted(origin, vs[a..b + 1], d) == o[vs[b] := At(o, vs[b]) + d]
  {
    assert vs[a..b + 1] == vs[a..b] + [vs[b]];
    ShiftedSnoc(origin, vs[a..b], vs[b], d);
  }

  /** Each view moves by `d` once per time it is listed. */
  lemma {:induction false} ShiftedAt(origin: map<ViewId, int>, vs: seq<ViewId>, d: int, u: ViewId)
    ensures At(Shifted(origin, vs, d), u) == At(origin, u) + d * multiset(vs)[u]
    decreases |vs|
  {
    if |vs| > 0 {
      var front, last := vs[..|vs| - 1], vs[|vs| - 1];
      assert vs == front + [last];
      ShiftedSnoc(origin, front, last, d);
      ShiftedAt(origin, front, d, u);
      var m: multiset<ViewId> := multiset(front);
      assert multiset(vs) == m + multiset{last};
      MulStep(d, m[u]);
    }
  }

  lemma MulStep(d: int, c: int)
    ensures d * (c + 1) == d * c + d
  {
  }

  /** The layout invariant: the view at position j sits at `width * j`. */
  predicate LaidOut(vs: seq<ViewId>, origin: map<ViewId, int>, width: int)
  {
    forall j :: 0 <= j < |vs| ==> At(origin, vs[j]) == width * j
  }

  predicate Distinct(vs: seq<ViewId>)
  {
    forall j, k :: 0 <= j < k < |vs| ==> vs[j] != vs[k]
  }

  /** `views.index(of:)`: the first position of `v`, if any. */
  function IndexOf(vs: seq<ViewId>, v: ViewId): (r: Option<nat>)
    ensures r.Some? ==> r.value < |vs| && vs[r.value] == v
    ensures r.None? <==> v !in vs
    decreases |vs|
  {
    if |vs| == 0 then None
    else if vs[0] == v then Some(0)
    else
      match IndexOf(vs[1..], v)
      case None => None
      case Some(k) => Some(k + 1)
  }

  /** No position before the one `views.index(of:)` returns holds the view. */
  lemma {:induction false} IndexOfFirst(vs: seq<ViewId>, v: ViewId)
    ensures IndexOf(vs, v).Some? ==> forall j :: 0 <= j < IndexOf(vs, v).value ==> vs[j] != v
    decreases |vs|
  {
    if |vs| > 0 && vs[0] != v {
      IndexOfFirst(vs[1..], v);
      assert forall j :: 0 < j < |vs| ==> vs[j] == vs[1..][j - 1];
    }
  }

  /** insert(_:at:): setupView places `v` at `width * i`, then the later views move right. */
  function Inserted(vs: seq<ViewId>, origin: map<ViewId, int>, v: ViewId, i: nat, width: int)
    : (seq<ViewId>, map<ViewId, int>)
    requires i <= |vs|
  {
    (vs[..i] + [v] + vs[i..], Shifted(origin[v := width * i], vs[i..], width))
  }

  /** remove(at:): the view at `i` leaves, the later views move left. */
  function Removed(vs: seq<ViewId>, origin: map<ViewId, int>, i: nat, width: int)
    : (seq<ViewId>, map<ViewId, int>)
    requires i < |vs|
  {
    (vs[..i] + vs[i + 1..], Shifted(origin, vs[i + 1..], -width))
  }

  /** replaceView(_:at:): `v` takes position `i` and setupView places it there. */
  function Replaced(vs: seq<ViewId>, origin: map<ViewId, int>, v: ViewId, i: nat, width: int)
    : (seq<ViewId>, map<ViewId, int>)
    requires i < |vs|
  {
    (vs[i := v], origin[v := width * i])
  }

  /**
   * insert(contentsOf:at:): `es[0]` is inserted at `i`, then the rest of
   * `es` from `i + 1` on, one after the other.
   */
  function InsertedAll(vs: seq<ViewId>, origin: map<ViewId, int>, es: seq<ViewId>, i: nat, width: int)
    : (res: (seq<ViewId>, map<ViewId, int>))
    requires es == [] || i <= |vs|
    ensures |res.0| == |vs| + |es|
    decreases |es|
  {
    if |es| == 0 then (vs, origin)
    else
      var (ws, o) := Inserted(vs, origin, es[0], i, width);
      InsertedAll(ws, o, es[1..], i + 1, width)
  }
}
