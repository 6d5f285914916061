/**
 * The vertex registry of main.py (`are_points_close`, `check_point`): an
 * insertion-ordered dictionary of representative points, each mapped to a
 * node id that stays `None` until the graph is compiled.
 *
 * A point is replaced by the first registered point, in insertion order,
 * that lies within `TOLERANCE` of it; only when there is none does it become
 * a representative itself. There is no re-clustering: first seen wins, and
 * closeness is not transitive.
 */
module Registry {
  import opened Wrappers
  import opened Geometry
  import opened PyDict

  const TOLERANCE: real := 0.000001

  /** `are_points_close(v, w, TOLERANCE)`: the magnitude of `w - v` is at most `TOLERANCE`. */
  predicate Close(v: Vec3, w: Vec3): (r: bool)
    ensures v == w ==> r
  {
    assert Sub(v, v) == Zero;
    WithinTolerance(Sub(w, v), TOLERANCE)
  }

  /** The distance does not depend on which point is subtracted from which. */
  lemma CloseSymmetric(v: Vec3, w: Vec3)
    ensures Close(v, w) <==> Close(w, v)
  {
    assert Norm2(Sub(v, w)) == Norm2(Sub(w, v));
  }

  lemma CloseToSelf(v: Vec3)
    ensures Close(v, v)
  {
    assert Sub(v, v) == Zero;
  }

  /** Index of the first registered point close to `v`, if any. */
  function FirstClose(pts: seq<Vec3>, v: Vec3): (r: Option<nat>)
    ensures r.Some? ==> r.value < |pts| && Close(v, pts[r.value])
    ensures r.Some? ==> forall j :: 0 <= j < r.value ==> !Close(v, pts[j])
    ensures r.None? <==> forall j :: 0 <= j < |pts| ==> !Close(v, pts[j])
  {
    FirstCloseFrom(pts, v, 0)
  }

  /** Index of the first point at or after `start` that is close to `v`. */
  function FirstCloseFrom(pts: seq<Vec3>, v: Vec3, start: nat): (r: Option<nat>)
    requires start <= |pts|
    ensures r.Some? ==> start <= r.value < |pts| && Close(v, pts[r.value])
    ensures r.Some? ==> forall j :: start <= j < r.value ==> !Close(v, pts[j])
    ensures r.None? <==> forall j :: start <= j < |pts| ==> !Close(v, pts[j])
    decreases |pts| - start
  {
    if start == |pts| then None
    else if Close(v, pts[start]) then Some(start)
    else FirstCloseFrom(pts, v, start + 1)
  }

  /** The point `check_point(v)` returns when the registry holds `pts`. */
  function Representative(pts: seq<Vec3>, v: Vec3): (r: Vec3)
    ensures Close(v, r)
    ensures r in pts || (r == v && forall j :: 0 <= j < |pts| ==> !Close(v, pts[j]))
    ensures r in pts ==> exists i :: 0 <= i < |pts| && r == pts[i] && forall j :: 0 <= j < i ==> !Close(v, pts[j])
  {
    match FirstClose(pts, v)
    case Some(i) => pts[i]
    case None => v
  }

  /** The registry's keys after `check_point(v)`. */
  function Registered(pts: seq<Vec3>, v: Vec3): (r: seq<Vec3>)
    ensures pts <= r && |r| <= |pts| + 1
    ensures |r| == |pts| + 1 <==> forall j :: 0 <= j < |pts| ==> !Close(v, pts[j])
  {
    if FirstClose(pts, v).Some? then pts else pts + [v]
  }

  /**
   * No registered point is close to any point registered before it, which is
   * what `check_point` maintains.
   */
  predicate Separated(pts: seq<Vec3>) {
    forall i, j :: 0 <= i < j < |pts| ==> !Close(pts[j], pts[i])
  }

  /** `check_point` on a registry held in a `vectors_map` dictionary. */
  method CheckPoint(vectorsMap: OrderedDict<Vec3, Option<int>>, v: Vec3) returns (r: Vec3)
    requires vectorsMap.Valid()
    modifies vectorsMap
    ensures vectorsMap.Valid()
    ensures r == Representative(old(vectorsMap.keys), v)
    ensures vectorsMap.keys == Registered(old(vectorsMap.keys), v)
    ensures vectorsMap.values ==
      if FirstClose(old(vectorsMap.keys), v).Some? then old(vectorsMap.values)
      else old(vectorsMap.values)[v := None]
  {
    for i := 0 to |vectorsMap.keys|
      invariant forall j :: 0 <= j < i ==> !Close(v, vectorsMap.keys[j])
    {
      if Close(v, vectorsMap.keys[i]) {
        return vectorsMap.keys[i];
      }
    }
    CloseToSelf(v);
    vectorsMap.Put(v, None);
    r := v;
  }

  // Properties of one call.

  /**
   * `check_point` returns the first registered point close to `v`, or `v`
   * itself when there is none, and in that case appends `v`; it never
   * removes or reorders a registered point.
   */
  lemma CheckPointResult(pts: seq<Vec3>, v: Vec3)
    ensures Representative(pts, v) in Registered(pts, v)
    ensures Close(v, Representative(pts, v))
    ensures Registered(pts, v)[..|pts|] == pts
    ensures |pts| <= |Registered(pts, v)| <= |pts| + 1
    ensures |Registered(pts, v)| == |pts| + 1 <==>
      (Representative(pts, v) == v && forall j :: 0 <= j < |pts| ==> !Close(v, pts[j]))
    ensures |Registered(pts, v)| == |pts| + 1 ==> v !in pts
  {
    CloseToSelf(v);
    if FirstClose(pts, v).None? {
      assert Registered(pts, v)[..|pts|] == pts;
    }
  }

  /** Registering a point keeps the registry separated. */
  lemma {:induction false} RegisterKeepsSeparated(pts: seq<Vec3>, v: Vec3)
    requires Separated(pts)
    ensures Separated(Registered(pts, v))
  {
    var r := Registered(pts, v);
    if FirstClose(pts, v).None? {
      forall i, j | 0 <= i < j < |r|
        ensures !Close(r[j], r[i])
      {
        if j == |pts| {
          assert r[j] == v && r[i] == pts[i];
        } else {
          assert r[j] == pts[j] && r[i] == pts[i];
        }
      }
    }
  }

  /** A separated registry holds no point twice. */
  lemma SeparatedIsDistinct(pts: seq<Vec3>)
    requires Separated(pts)
    ensures Distinct(pts)
  {
    forall i, j | 0 <= i < j < |pts|
      ensures pts[i] != pts[j]
    {
      CloseToSelf(pts[j]);
    }
  }

  /** Idempotence: a registered point is its own representative and adds nothing. */
  lemma CheckPointIdempotent(pts: seq<Vec3>, v: Vec3)
    requires Separated(pts) && v in pts
    ensures Representative(pts, v) == v
    ensures Registered(pts, v) == pts
  {
    var k :| 0 <= k < |pts| && pts[k] == v;
    CloseToSelf(v);
  }

  /** A point merged into another representative is not itself registered. */
  lemma MergedPointNotRegistered(pts: seq<Vec3>, v: Vec3)
    requires Separated(pts)
    requires Representative(pts, v) != v
    ensures v !in Registered(pts, v)
  {
    var i := FirstClose(pts, v).value;
    CloseToSelf(v);
    if k :| 0 <= k < |pts| && pts[k] == v {
      assert false;
    }
  }

  // A stream of points passed to `check_point` one after the other.

  /** The registry after `check_point` has seen every point of `stream`, in order. */
  function RegisterAll(pts: seq<Vec3>, stream: seq<Vec3>): (r: seq<Vec3>)
    ensures pts <= r && |r| <= |pts| + |stream|
    decreases |stream|
  {
    if stream == [] then pts
    else Registered(RegisterAll(pts, stream[..|stream| - 1]), stream[|stream| - 1])
  }

  /** The registry only grows, at its end, and stays separated. */
  lemma {:induction false} RegisterAllGrows(pts: seq<Vec3>, stream: seq<Vec3>, n: nat)
    requires Separated(pts)
    requires n <= |stream|
    ensures Separated(RegisterAll(pts, stream))
    ensures |RegisterAll(pts, stream[..n])| <= |RegisterAll(pts, stream)| <= |pts| + |stream|
    ensures RegisterAll(pts, stream)[..|RegisterAll(pts, stream[..n])|] == RegisterAll(pts, stream[..n])
    decreases |stream|
  {
    if stream == [] {
      assert stream[..n] == stream;
    } else if n == |stream| {
      assert stream[..n] == stream;
      RegisterAllGrows(pts, stream[..|stream| - 1], 0);
      RegisterKeepsSeparated(RegisterAll(pts, stream[..|stream| - 1]), stream[|stream| - 1]);
      CheckPointResult(RegisterAll(pts, stream[..|stream| - 1]), stream[|stream| - 1]);
    } else {
      var init := stream[..|stream| - 1];
      assert init[..n] == stream[..n];
      RegisterAllGrows(pts, init, n);
      var before := RegisterAll(pts, init);
      RegisterKeepsSeparated(before, stream[|stream| - 1]);
      CheckPointResult(before, stream[|stream| - 1]);
    }
  }

  /**
   * A point that was merged into an earlier representative never enters the
   * registry later, so it never attracts a later point.
   */
  lemma {:induction false} MergedPointNeverRegistered(pts: seq<Vec3>, stream: seq<Vec3>, i: nat)
    requires Separated(pts)
    requires i < |stream|
    requires Representative(RegisterAll(pts, stream[..i]), stream[i]) != stream[i]
    ensures stream[i] !in RegisterAll(pts, stream)
    decreases |stream|
  {
    var w := stream[i];
    if |stream| == i + 1 {
      var before := RegisterAll(pts, stream[..i]);
      RegisterAllGrows(pts, stream[..i], 0);
      assert stream[..i + 1] == stream;
      MergedPointNotRegistered(before, w);
    } else {
      var init := stream[..|stream| - 1];
      assert init[..i] == stream[..i] && init[i] == w;
      MergedPointNeverRegistered(pts, init, i);
      MergedStaysOut(pts, stream, i);
    }
  }

  /** The representative a point got stays registered through every later call. */
  lemma RepresentativeStaysRegistered(pts: seq<Vec3>, stream: seq<Vec3>, i: nat)
    requires Separated(pts)
    requires i < |stream|
    ensures Representative(RegisterAll(pts, stream[..i]), stream[i]) in RegisterAll(pts, stream)
  {
    var w := stream[i];
    var before := RegisterAll(pts, stream[..i]);
    CheckPointResult(before, w);
    assert RegisterAll(pts, stream[..i + 1]) == Registered(before, w) by {
      assert stream[..i + 1][..i] == stream[..i];
      assert stream[..i + 1][i] == w;
    }
    RegisterAllGrows(pts, stream, i + 1);
  }

  /**
   * One more call after a point was merged does not register it: its
   * representative is still registered and close to it.
   */
  lemma MergedStaysOut(pts: seq<Vec3>, stream: seq<Vec3>, i: nat)
    requires Separated(pts)
    requires i + 1 < |stream|
    requires Representative(RegisterAll(pts, stream[..i]), stream[i]) != stream[i]
    requires stream[i] !in RegisterAll(pts, stream[..|stream| - 1])
    ensures stream[i] !in RegisterAll(pts, stream)
  {
    var w := stream[i];
    var rep := Representative(RegisterAll(pts, stream[..i]), w);
    var init := stream[..|stream| - 1];
    assert init[..i] == stream[..i] && init[i] == w;
    RepresentativeStaysRegistered(pts, init, i);
    var mid := RegisterAll(pts, init);
    assert RegisterAll(pts, stream) == Registered(mid, stream[|stream| - 1]);
    CloseKeepsOut(mid, stream[|stream| - 1], w, rep);
  }

  /** A point close to a registered point is not appended, so an absent one stays absent. */
  lemma CloseKeepsOut(pts: seq<Vec3>, x: Vec3, w: Vec3, rep: Vec3)
    requires rep in pts && Close(w, rep) && w !in pts
    ensures w !in Registered(pts, x)
  {
    if x == w {
      var k :| 0 <= k < |pts| && pts[k] == rep;
      assert Close(w, pts[k]);
    }
  }

  const P1 := Vec3(0.0, 0.0, 0.0)
  const P2 := Vec3(0.0000008, 0.0, 0.0)
  const P3 := Vec3(0.0000016, 0.0, 0.0)

  /** Three points on a line, 0.8 tolerances apart: P1-P2 and P2-P3 are close, P1-P3 are not. */
  lemma ChainDistances()
    ensures Close(P2, P1) && Close(P3, P2) && !Close(P3, P1)
  {
    assert Sub(P1, P2) == Vec3(-0.0000008, 0.0, 0.0);
    assert Norm2(Vec3(-0.0000008, 0.0, 0.0)) == 0.00000000000064;
    assert Sub(P2, P3) == Vec3(-0.0000008, 0.0, 0.0);
    assert Sub(P1, P3) == Vec3(-0.0000016, 0.0, 0.0);
    assert Norm2(Vec3(-0.0000016, 0.0, 0.0)) == 0.00000000000256;
  }

  /**
   * First seen wins, on the chain above: P2 is merged into P1; P3, whose only
   * close neighbour P2 was never registered, becomes a representative of its
   * own instead of joining P1.
   */
  lemma FirstSeenWinsExample()
    ensures Representative(RegisterAll([], [P1]), P2) == P1
    ensures Representative(RegisterAll([], [P1, P2]), P3) == P3
    ensures RegisterAll([], [P1, P2, P3]) == [P1, P3]
  {
    ChainDistances();
    assert [P1, P2, P3][..2] == [P1, P2];
    assert [P1, P2][..1] == [P1];
    assert [P1][..0] == [];
    assert RegisterAll([], [P1]) == [P1];
    assert FirstClose([P1], P2) == Some(0);
    assert RegisterAll([], [P1, P2]) == [P1];
    assert FirstClose([P1], P3) == None;
  }
}
