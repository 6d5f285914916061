/**
 * Topology repair (`add_intermediate_point` and the loop that drives it in
 * main.py): a registered point lying inside a segment, other than at an
 * endpoint, splits the first such segment into two halves that carry the
 * removed segment's value.
 */
module Topology {
  import opened Wrappers
  import opened Geometry
  import opened PyDict
  import opened Registry
  import opened Entities

  /** The scan's test: `v` is on `s` by `is_point_on_segment` and is neither endpoint. */
  predicate SplitsAt(s: Segment, v: Vec3): (r: bool)
    ensures s.a == s.b ==> (r <==> v != s.a)
  {
    assert s.a == s.b ==> Sub(s.b, s.a) == Zero;
    ProductsWithZero(Sub(v, s.a));
    ZeroWithinTolerance(TOLERANCE);
    IsPointOnSegment(s, v, TOLERANCE) && v != s.a && v != s.b
  }

  /** Index of the first key, in iteration order, that `v` splits. */
  function FirstSplit(keys: seq<Segment>, v: Vec3): (r: Option<nat>)
    ensures r.Some? ==> r.value < |keys| && SplitsAt(keys[r.value], v)
    ensures r.Some? ==> forall j :: 0 <= j < r.value ==> !SplitsAt(keys[j], v)
    ensures r.None? <==> forall j :: 0 <= j < |keys| ==> !SplitsAt(keys[j], v)
  {
    FirstSplitFrom(keys, v, 0)
  }

  /** Index of the first key at or after `start` that `v` splits. */
  function FirstSplitFrom(keys: seq<Segment>, v: Vec3, start: nat): (r: Option<nat>)
    requires start <= |keys|
    ensures r.Some? ==> start <= r.value < |keys| && SplitsAt(keys[r.value], v)
    ensures r.Some? ==> forall j :: start <= j < r.value ==> !SplitsAt(keys[j], v)
    ensures r.None? <==> forall j :: start <= j < |keys| ==> !SplitsAt(keys[j], v)
    decreases |keys| - start
  {
    if start == |keys| then None
    else if SplitsAt(keys[start], v) then Some(start)
    else FirstSplitFrom(keys, v, start + 1)
  }

  /** The two halves a segment is replaced by when split at `v`. */
  function Halves(s: Segment, v: Vec3): (Segment, Segment) {
    (NewSegment(s.a, v), NewSegment(v, s.b))
  }

  /** The dictionary after `add_intermediate_point(v, d)`, given as its keys and values. */
  function AddIntermediate<V>(keys: seq<Segment>, values: map<Segment, V>, v: Vec3)
    : (r: (seq<Segment>, map<Segment, V>))
    requires Consistent(keys, values)
    ensures Consistent(r.0, r.1)
  {
    match FirstSplit(keys, v)
    case None => (keys, values)
    case Some(i) =>
      var s := keys[i];
      var (k1, k2) := Halves(s, v);
      var p := values[s];
      (PutKey(PutKey(RemoveKey(keys, s), k1), k2), (values - {s})[k1 := p][k2 := p])
  }

  /** `add_intermediate_point(vector, dict_to_update)`, splitting in place. */
  method AddIntermediatePoint<V>(v: Vec3, d: OrderedDict<Segment, V>)
    requires d.Valid()
    modifies d
    ensures d.Valid()
    ensures (d.keys, d.values) == AddIntermediate(old(d.keys), old(d.values), v)
  {
    var found: Option<nat> := None;
    var i := 0;
    while i < |d.keys|
      invariant 0 <= i <= |d.keys|
      invariant forall j :: 0 <= j < i ==> !SplitsAt(d.keys[j], v)
    {
      if SplitsAt(d.keys[i], v) {
        found := Some(i);
        break;
      }
      i := i + 1;
    }
    assert found == FirstSplit(d.keys, v);
    if found.Some? {
      var segment := d.keys[found.value];
      var start, end := segment.a, segment.b;
      var props := d.values[segment];
      var first, second := NewSegment(start, v), NewSegment(v, end);
      d.Delete(segment);
      d.Put(first, props);
      d.Put(second, props);
    }
  }

  /** Neither half of a split equals the segment it replaces. */
  lemma HalvesAreNew(s: Segment, v: Vec3)
    requires Canonical(s) && v != s.a && v != s.b
    ensures Halves(s, v).0 != s && Halves(s, v).1 != s
    ensures Canonical(Halves(s, v).0) && Canonical(Halves(s, v).1)
  {
  }

  /**
   * With no key that `v` splits, the dictionary is left as it is; in any
   * case its keys stay canonical, no value is invented, and it shrinks or
   * grows by at most one key.
   */
  lemma {:induction false} AddIntermediateShape<V>(keys: seq<Segment>, values: map<Segment, V>, v: Vec3)
    requires Consistent(keys, values)
    requires forall k :: k in keys ==> Canonical(k)
    ensures var r := AddIntermediate(keys, values, v);
      && (FirstSplit(keys, v).None? <==> r == (keys, values))
      && (forall k :: k in r.0 ==> Canonical(k))
      && r.1.Values <= values.Values
      && |keys| <= |r.0| + 1 && |r.0| <= |keys| + 1
  {
    var r := AddIntermediate(keys, values, v);
    match FirstSplit(keys, v)
    case None =>
    case Some(i) =>
      var s := keys[i];
      var (k1, k2) := Halves(s, v);
      HalvesAreNew(s, v);
      assert s !in r.0;
      forall x | x in r.1.Values
        ensures x in values.Values
      {
        var k :| k in r.1 && r.1[k] == x;
        if k == k1 || k == k2 {
          assert values[s] in values.Values;
        } else {
          assert k in values && values[k] == x;
        }
      }
  }

  /**
   * When `v` splits a key, exactly the first such key is removed and its two
   * halves are mapped to its value. Every other key keeps its value and its
   * place, except that an existing key equal to a half is overwritten in
   * place; new halves are appended after the surviving keys.
   */
  lemma {:induction false} AddIntermediateEffect<V>(keys: seq<Segment>, values: map<Segment, V>, v: Vec3)
    requires Consistent(keys, values)
    requires forall k :: k in keys ==> Canonical(k)
    requires FirstSplit(keys, v).Some?
    ensures var s := keys[FirstSplit(keys, v).value];
      var (k1, k2) := Halves(s, v);
      var r := AddIntermediate(keys, values, v);
      && s !in r.1
      && k1 in r.1 && r.1[k1] == values[s]
      && k2 in r.1 && r.1[k2] == values[s]
      && (forall k :: k in r.1 <==> (k in values && k != s) || k == k1 || k == k2)
      && (forall k :: k in values && k != s && k != k1 && k != k2 ==> r.1[k] == values[k])
      && r.0[..|keys| - 1] == RemoveKey(keys, s)
  {
    var r := AddIntermediate(keys, values, v);
    var s := keys[FirstSplit(keys, v).value];
    var (k1, k2) := Halves(s, v);
    HalvesAreNew(s, v);
    var rest := RemoveKey(keys, s);
    assert |rest| == |keys| - 1;
    PutKeyExtends(rest, k1);
    PutKeyExtends(PutKey(rest, k1), k2);
    assert r.0[..|rest|] == rest;
  }

  /** Every endpoint of a key of `d` is a registered point. */
  predicate EndpointsIn(keys: seq<Segment>, pts: seq<Vec3>) {
    forall s :: s in keys ==> s.a in pts && s.b in pts
  }

  /** Splitting at a registered point only ever creates segments between registered points. */
  lemma AddIntermediateKeepsEndpoints<V>(keys: seq<Segment>, values: map<Segment, V>, v: Vec3, pts: seq<Vec3>)
    requires Consistent(keys, values)
    requires EndpointsIn(keys, pts) && v in pts
    ensures EndpointsIn(AddIntermediate(keys, values, v).0, pts)
  {
    match FirstSplit(keys, v)
    case None =>
    case Some(i) =>
      var s := keys[i];
      var (k1, k2) := Halves(s, v);
      var rest := RemoveKey(keys, s);
      forall k | k in PutKey(PutKey(rest, k1), k2)
        ensures k.a in pts && k.b in pts
      {
        if k == k1 {
          assert k1.a in multiset{s.a, v} && k1.b in multiset{s.a, v};
        } else if k == k2 {
          assert k2.a in multiset{v, s.b} && k2.b in multiset{v, s.b};
        } else {
          assert k in rest;
        }
      }
  }

  /** The dictionary after `add_intermediate_point` has run for each point of `pts`, in order. */
  function RepairAll<V>(keys: seq<Segment>, values: map<Segment, V>, pts: seq<Vec3>)
    : (r: (seq<Segment>, map<Segment, V>))
    requires Consistent(keys, values)
    ensures Consistent(r.0, r.1)
    decreases |pts|
  {
    if pts == [] then (keys, values)
    else
      var (ks, vs) := RepairAll(keys, values, pts[..|pts| - 1]);
      AddIntermediate(ks, vs, pts[|pts| - 1])
  }

  /**
   * Repair over every registered point keeps the keys canonical and between
   * registered points, invents no value, and adds at most one key per point.
   */
  lemma {:induction false} RepairAllInvariants<V>(keys: seq<Segment>, values: map<Segment, V>, pts: seq<Vec3>, registered: seq<Vec3>)
    requires Consistent(keys, values)
    requires forall k :: k in keys ==> Canonical(k)
    requires EndpointsIn(keys, registered)
    requires forall p :: p in pts ==> p in registered
    ensures var r := RepairAll(keys, values, pts);
      && (forall k :: k in r.0 ==> Canonical(k))
      && EndpointsIn(r.0, registered)
      && r.1.Values <= values.Values
      && |r.0| <= |keys| + |pts|
    decreases |pts|
  {
    if pts != [] {
      var init := pts[..|pts| - 1];
      var last := pts[|pts| - 1];
      RepairAllInvariants(keys, values, init, registered);
      var (ks, vs) := RepairAll(keys, values, init);
      AddIntermediateShape(ks, vs, last);
      AddIntermediateKeepsEndpoints(ks, vs, last, registered);
    }
  }

  /**
   * The loop of `load_data` that runs `add_intermediate_point` for every
   * registered point, over the elements and over the distributed-load spans.
   */
  method RepairTopology(vectorsMap: OrderedDict<Vec3, Option<int>>,
                        elements: OrderedDict<Segment, Element>,
                        qForces: OrderedDict<Segment, QForce>)
    requires vectorsMap.Valid() && elements.Valid() && qForces.Valid()
    modifies elements, qForces
    ensures elements.Valid() && qForces.Valid()
    ensures (elements.keys, elements.values) ==
      RepairAll(old(elements.keys), old(elements.values), vectorsMap.keys)
    ensures (qForces.keys, qForces.values) ==
      RepairAll(old(qForces.keys), old(qForces.values), vectorsMap.keys)
  {
    var pts := vectorsMap.keys;
    for i := 0 to |pts|
      invariant elements.Valid() && qForces.Valid()
      invariant (elements.keys, elements.values) ==
        RepairAll(old(elements.keys), old(elements.values), pts[..i])
      invariant (qForces.keys, qForces.values) ==
        RepairAll(old(qForces.keys), old(qForces.values), pts[..i])
    {
      assert pts[..i + 1][..i] == pts[..i];
      AddIntermediatePoint(pts[i], elements);
      AddIntermediatePoint(pts[i], qForces);
    }
    assert pts[..|pts|] == pts;
  }
}
