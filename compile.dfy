/**
 * The bookkeeping of `compile_model` in main.py: node ids handed out in
 * order of first use, placeholder materials for unknown colours, and the
 * decision which supports and loads reach the solver.
 *
 * The solver itself is not modelled. Its calls are recorded as `Command`
 * values, in the order they are made, and the element ids its
 * `add_element` returns are supplied as a parameter.
 */
module Compile {
  import opened Wrappers
  import opened Geometry
  import opened PyDict
  import opened Entities

  /** A call made on the solver. */
  datatype Command =
    | AddElement(x1: real, y1: real, x2: real, y2: real, ea: Option<real>, ei: Option<real>)
    | AddSupportFixed(node: int)
    | AddSupportHinged(node: int)
    | AddSupportRoll(node: int, angle: real)
    | PointLoad(node: int, fx: Option<real>, rotation: real)
    | QLoad(element: int, q: Option<real>, rotation: real)
    | MomentLoad(node: int, ty: real)

  /** Only a distributed load can name a key that is missing (`elemens_vector_map[vector]`). */
  datatype CompileError = KeyError(span: Segment)

  /** The supports of one block name, in insertion order. */
  datatype SupportGroup = SupportGroup(kind: SupportKind, entries: seq<(Vec3, Support)>)

  /** The loads of one kind, in insertion order. */
  datatype LoadGroup =
    | Forces(forces: seq<(Vec3, Force)>)
    | QForces(spans: seq<(Segment, QForce)>)
    | Moments(moments: seq<(Vec3, Moment)>)

  /** Python truthiness of a node or element id: `None` and `0` are false. */
  predicate Assigned(id: Option<int>) {
    id.Some? && id.value != 0
  }

  // ---------------------------------------------------------------------
  // Node numbering
  // ---------------------------------------------------------------------

  /** The endpoints of the elements in the order the element loop visits them: start, then end. */
  function Flatten(segs: seq<Segment>): (r: seq<Vec3>)
    ensures |r| == 2 * |segs|
    ensures forall s :: s in segs ==> s.a in r && s.b in r
  {
    if segs == [] then []
    else
      var s := segs[|segs| - 1];
      var r := Flatten(segs[..|segs| - 1]) + [s.a, s.b];
      assert forall t :: t in segs ==> t in segs[..|segs| - 1] || t == s;
      r
  }

  /** Both endpoints of every segment are keys of `ids`. */
  predicate EndpointsKnown(segs: seq<Segment>, ids: map<Vec3, Option<int>>) {
    forall s :: s in segs ==> s.a in ids && s.b in ids
  }

  /** `Flatten` holds nothing but endpoints. */
  lemma {:induction false} FlattenOnlyEndpoints(segs: seq<Segment>, ids: map<Vec3, Option<int>>)
    requires EndpointsKnown(segs, ids)
    ensures forall p :: p in Flatten(segs) ==> p in ids
  {
    if segs != [] {
      var init := segs[..|segs| - 1];
      assert forall t :: t in init ==> t in segs;
      FlattenOnlyEndpoints(init, ids);
    }
  }

  /** The distinct points of `pts`, each where it first appears. */
  function FirstAppearance(pts: seq<Vec3>): (r: seq<Vec3>)
    ensures Distinct(r)
    ensures forall p :: p in r <==> p in pts
    ensures |r| <= |pts|
  {
    if pts == [] then []
    else
      var d := FirstAppearance(pts[..|pts| - 1]);
      var p := pts[|pts| - 1];
      assert forall q :: q in pts <==> q in pts[..|pts| - 1] || q == p;
      if p in d then d else d + [p]
  }

  /**
   * The distinct points of a prefix come first, in the same order: a point
   * is placed when it first appears and never moves afterwards.
   */
  lemma {:induction false} FirstAppearancePrefix(pts: seq<Vec3>, n: nat)
    requires n <= |pts|
    ensures FirstAppearance(pts[..n]) <= FirstAppearance(pts)
    decreases |pts|
  {
    if n < |pts| {
      var init := pts[..|pts| - 1];
      assert init[..n] == pts[..n];
      FirstAppearancePrefix(init, n);
    } else {
      assert pts[..n] == pts;
    }
  }

  /** One `if not vectors_map[p]: vectors_map[p] = node_id_counter; node_id_counter += 1`. */
  function AssignId(ids: map<Vec3, Option<int>>, counter: int, p: Vec3): (r: (map<Vec3, Option<int>>, int))
    requires p in ids
    ensures r.0.Keys == ids.Keys
  {
    if Assigned(ids[p]) then (ids, counter) else (ids[p := Some(counter)], counter + 1)
  }

  /** The node ids and the counter after `AssignId` has run for each point of `pts`, in order. */
  function NumberPoints(ids: map<Vec3, Option<int>>, counter: int, pts: seq<Vec3>): (r: (map<Vec3, Option<int>>, int))
    requires forall p :: p in pts ==> p in ids
    ensures r.0.Keys == ids.Keys
  {
    if pts == [] then (ids, counter)
    else
      var (m, c) := NumberPoints(ids, counter, pts[..|pts| - 1]);
      AssignId(m, c, pts[|pts| - 1])
  }

  /**
   * Numbering from a counter `c0 >= 1` over points that have no id yet
   * gives the k-th distinct point, in order of first appearance, the id
   * `c0 + k`; the counter ends one past the last id handed out; every point
   * not in `pts` keeps the value it had.
   */
  lemma {:induction false} NumberPointsSpec(ids: map<Vec3, Option<int>>, c0: int, pts: seq<Vec3>)
    requires c0 >= 1
    requires forall p :: p in pts ==> p in ids && !Assigned(ids[p])
    ensures NumberPoints(ids, c0, pts).1 == c0 + |FirstAppearance(pts)|
    ensures forall k :: 0 <= k < |FirstAppearance(pts)| ==>
      NumberPoints(ids, c0, pts).0[FirstAppearance(pts)[k]] == Some(c0 + k)
    ensures forall p :: p in ids && p !in pts ==> NumberPoints(ids, c0, pts).0[p] == ids[p]
    decreases |pts|
  {
    if pts != [] {
      var init := pts[..|pts| - 1];
      var p := pts[|pts| - 1];
      assert forall q :: q in pts <==> q in init || q == p;
      NumberPointsSpec(ids, c0, init);
      var m, c := NumberPoints(ids, c0, init).0, NumberPoints(ids, c0, init).1;
      var d := FirstAppearance(init);
      if p in init {
        var k :| 0 <= k < |d| && d[k] == p;
        assert Assigned(m[p]);
        assert NumberPoints(ids, c0, pts) == (m, c);
        assert FirstAppearance(pts) == d;
      } else {
        assert m[p] == ids[p];
        var d' := FirstAppearance(pts);
        assert d' == d + [p];
        assert NumberPoints(ids, c0, pts) == (m[p := Some(c)], c + 1);
        NumberingExtends(m, d, p, c0);
      }
    }
  }

  /** Numbering a new point after the distinct points `d` extends their numbering by one. */
  lemma NumberingExtends(m: map<Vec3, Option<int>>, d: seq<Vec3>, p: Vec3, c0: int)
    requires p !in d
    requires forall k :: 0 <= k < |d| ==> d[k] in m && m[d[k]] == Some(c0 + k)
    ensures forall k :: 0 <= k < |d| + 1 ==> m[p := Some(c0 + |d|)][(d + [p])[k]] == Some(c0 + k)
  {
    forall k | 0 <= k < |d| + 1
      ensures m[p := Some(c0 + |d|)][(d + [p])[k]] == Some(c0 + k)
    {
      if k < |d| {
        assert (d + [p])[k] == d[k] != p;
      }
    }
  }

  /**
   * Numbering from 1 over points none of which has an id: every point of
   * `pts` gets one, no two points share one, the ids run from 1 to the
   * final counter minus one, and only the points of `pts` have one.
   */
  lemma NodeIdsOfPoints(ids: map<Vec3, Option<int>>, pts: seq<Vec3>)
    requires forall p :: p in ids ==> !Assigned(ids[p])
    requires forall p :: p in pts ==> p in ids
    ensures var (m, counter) := NumberPoints(ids, 1, pts);
      && counter == |FirstAppearance(pts)| + 1
      && (forall p :: p in pts ==> Assigned(m[p]) && 1 <= m[p].value < counter)
      && (forall p, q :: p in pts && q in pts && p != q ==> m[p] != m[q])
      && (forall p :: p in m ==> (Assigned(m[p]) <==> p in pts))
  {
    NumberPointsSpec(ids, 1, pts);
    var (m, counter) := NumberPoints(ids, 1, pts);
    var d := FirstAppearance(pts);
    forall p | p in pts
      ensures exists k :: 0 <= k < |d| && d[k] == p && m[p] == Some(k + 1)
    {
      var k :| 0 <= k < |d| && d[k] == p;
    }
  }

  /**
   * After the element loop, starting from a registry where no point has an
   * id: both endpoints of every element have an id, and two different
   * endpoints never share one.
   */
  lemma NodeIdsAfterElementLoop(ids: map<Vec3, Option<int>>, segs: seq<Segment>)
    requires forall p :: p in ids ==> !Assigned(ids[p])
    requires forall p :: p in Flatten(segs) ==> p in ids
    ensures var (m, counter) := NumberPoints(ids, 1, Flatten(segs));
      && (forall s :: s in segs ==> Assigned(m[s.a]) && Assigned(m[s.b]))
      && (forall s, t :: s in segs && t in segs ==>
            (m[s.a] == m[t.a] <==> s.a == t.a) && (m[s.b] == m[t.b] <==> s.b == t.b) &&
            (m[s.a] == m[t.b] <==> s.a == t.b))
  {
    NodeIdsOfPoints(ids, Flatten(segs));
  }

  // ---------------------------------------------------------------------
  // Materials and the element loop
  // ---------------------------------------------------------------------

  /** The colours of the elements, in iteration order. */
  function Colors(segs: seq<Segment>, elems: map<Segment, Element>): (r: seq<Color>)
    requires forall s :: s in segs ==> s in elems
    ensures |r| == |segs|
    ensures forall i :: 0 <= i < |segs| ==> r[i] == elems[segs[i]].color
  {
    if segs == [] then []
    else Colors(segs[..|segs| - 1], elems) + [elems[segs[|segs| - 1]].color]
  }

  /** The placeholder material `Material(None, None)`. */
  const Placeholder := Material(None, None)

  /** `materials` after `materials[c] = Material(None, None)` for each colour `c` not yet in it. */
  function WithPlaceholders(keys: seq<Color>, mats: map<Color, Material>, colors: seq<Color>)
    : (r: (seq<Color>, map<Color, Material>))
    ensures Consistent(keys, mats) ==> Consistent(r.0, r.1)
  {
    if colors == [] then (keys, mats)
    else
      var (ks, ms) := WithPlaceholders(keys, mats, colors[..|colors| - 1]);
      var c := colors[|colors| - 1];
      if c in ms then (ks, ms) else (PutKey(ks, c), ms[c := Placeholder])
  }

  /**
   * Every colour in use ends up with a material; a colour that already had
   * one keeps it; a colour that had none gets the placeholder, once, after
   * the materials that were already there.
   */
  lemma {:induction false} WithPlaceholdersSpec(keys: seq<Color>, mats: map<Color, Material>, colors: seq<Color>)
    ensures var (ks, ms) := WithPlaceholders(keys, mats, colors);
      && (forall c :: c in colors ==> c in ms)
      && (forall c :: c in mats ==> c in ms && ms[c] == mats[c])
      && (forall c :: c in ms && c !in mats ==> c in colors && ms[c] == Placeholder)
      && |keys| <= |ks| && ks[..|keys|] == keys
    decreases |colors|
  {
    if colors != [] {
      var init := colors[..|colors| - 1];
      assert forall c :: c in colors <==> c in init || c == colors[|colors| - 1];
      WithPlaceholdersSpec(keys, mats, init);
      var (ks, ms) := WithPlaceholders(keys, mats, init);
      var c := colors[|colors| - 1];
      if c !in ms {
        PutKeyExtends(ks, c);
        var ks' := PutKey(ks, c);
        assert ks'[..|keys|] == ks'[..|ks|][..|keys|];
      }
    }
  }

  /** Every segment is an element whose colour has a material. */
  predicate MaterialsCover(segs: seq<Segment>, elems: map<Segment, Element>, mats: map<Color, Material>) {
    forall s :: s in segs ==> s in elems && elems[s].color in mats
  }

  /** The `add_element` call for one segment, with the material of its colour. */
  function AddElementCommand(s: Segment, m: Material): Command {
    AddElement(s.a.x, s.a.y, s.b.x, s.b.y, m.ea, m.ei)
  }

  /** The `add_element` calls of the element loop, in order. */
  function ElementCommands(segs: seq<Segment>, elems: map<Segment, Element>, mats: map<Color, Material>)
    : (r: seq<Command>)
    requires MaterialsCover(segs, elems, mats)
    ensures |r| == |segs|
    ensures forall i :: 0 <= i < |segs| ==> r[i] == AddElementCommand(segs[i], mats[elems[segs[i]].color])
  {
    if segs == [] then []
    else
      var s := segs[|segs| - 1];
      ElementCommands(segs[..|segs| - 1], elems, mats) + [AddElementCommand(s, mats[elems[s].color])]
  }

  /** `elemens_vector_map`: each element segment mapped to the id the solver returned for it. */
  function ElementIdMap(segs: seq<Segment>, elementIds: seq<int>): (r: map<Segment, int>)
    requires |elementIds| == |segs|
    ensures r.Keys == set s | s in segs
  {
    if segs == [] then map[]
    else
      var n := |segs| - 1;
      assert forall s :: s in segs <==> s in segs[..n] || s == segs[n];
      ElementIdMap(segs[..n], elementIds[..n])[segs[n] := elementIds[n]]
  }

  /** Between distinct segments, the k-th element gets the k-th returned id. */
  lemma {:induction false} ElementIdMapAt(segs: seq<Segment>, elementIds: seq<int>)
    requires |elementIds| == |segs| && Distinct(segs)
    ensures forall k :: 0 <= k < |segs| ==> ElementIdMap(segs, elementIds)[segs[k]] == elementIds[k]
    decreases |segs|
  {
    if segs != [] {
      var n := |segs| - 1;
      assert Distinct(segs[..n]);
      ElementIdMapAt(segs[..n], elementIds[..n]);
      forall k | 0 <= k < |segs|
        ensures ElementIdMap(segs, elementIds)[segs[k]] == elementIds[k]
      {
        if k < n {
          assert segs[k] != segs[n] && segs[..n][k] == segs[k];
        }
      }
    }
  }

  /** `if not vectors_map[p]: vectors_map[p] = node_id_counter; node_id_counter += 1` */
  method NumberNode(vectorsMap: OrderedDict<Vec3, Option<int>>, counter: int, p: Vec3) returns (counter': int)
    requires vectorsMap.Valid() && p in vectorsMap.values
    modifies vectorsMap
    ensures vectorsMap.Valid() && vectorsMap.keys == old(vectorsMap.keys)
    ensures (vectorsMap.values, counter') == AssignId(old(vectorsMap.values), counter, p)
  {
    counter' := counter;
    if !Assigned(vectorsMap.values[p]) {
      vectorsMap.Put(p, Some(counter));
      counter' := counter + 1;
    }
  }

  /** `if color not in materials: materials[color] = Material(None, None)` */
  method EnsureMaterial(materials: OrderedDict<Color, Material>, color: Color)
    requires materials.Valid()
    modifies materials
    ensures materials.Valid()
    ensures (materials.keys, materials.values) ==
      if color in old(materials.values) then (old(materials.keys), old(materials.values))
      else (PutKey(old(materials.keys), color), old(materials.values)[color := Placeholder])
  {
    if color !in materials.values {
      materials.Put(color, Placeholder);
    }
  }

  /** Materials that cover the visited segments and the next one's colour cover one segment more. */
  lemma CoverPrefixStep(segs: seq<Segment>, elems: map<Segment, Element>, i: nat, mats: map<Color, Material>)
    requires i < |segs| && segs[i] in elems
    requires MaterialsCover(segs[..i], elems, mats) && elems[segs[i]].color in mats
    ensures MaterialsCover(segs[..i + 1], elems, mats)
  {
    assert segs[..i + 1] == segs[..i] + [segs[i]];
  }

  /** The materials of the element loop grow by at most the colour of the segment visited next. */
  lemma PlaceholdersPrefixStep(segs: seq<Segment>, elems: map<Segment, Element>, i: nat,
                               keys0: seq<Color>, mats0: map<Color, Material>)
    requires i < |segs|
    requires forall s :: s in segs ==> s in elems
    ensures forall s :: s in segs[..i] ==> s in elems
    ensures var (ks, ms) := WithPlaceholders(keys0, mats0, Colors(segs[..i], elems));
      var color := elems[segs[i]].color;
      WithPlaceholders(keys0, mats0, Colors(segs[..i + 1], elems)) ==
        if color in ms then (ks, ms) else (PutKey(ks, color), ms[color := Placeholder])
  {
    assert segs[..i + 1][..i] == segs[..i];
  }

  /** The calls and element ids of the element loop grow by the segment visited next. */
  lemma CallsPrefixStep(segs: seq<Segment>, elems: map<Segment, Element>, elementIds: seq<int>, i: nat,
                        mats: map<Color, Material>)
    requires i < |segs| == |elementIds|
    requires MaterialsCover(segs[..i + 1], elems, mats)
    ensures MaterialsCover(segs[..i], elems, mats)
    ensures ElementCommands(segs[..i + 1], elems, mats) ==
      ElementCommands(segs[..i], elems, mats) + [AddElementCommand(segs[i], mats[elems[segs[i]].color])]
    ensures ElementIdMap(segs[..i + 1], elementIds[..i + 1]) ==
      ElementIdMap(segs[..i], elementIds[..i])[segs[i] := elementIds[i]]
  {
    assert segs[..i + 1][..i] == segs[..i];
    assert elementIds[..i + 1][..i] == elementIds[..i];
  }

  /** The node ids after the element loop has visited the first `i` segments. */
  ghost predicate NodesInv(segs: seq<Segment>, i: nat, ids0: map<Vec3, Option<int>>,
                           vectorsMap: OrderedDict<Vec3, Option<int>>, counter: int)
    reads vectorsMap
  {
    && i <= |segs|
    && vectorsMap.Valid()
    && (forall p :: p in Flatten(segs[..i]) ==> p in ids0)
    && (vectorsMap.values, counter) == NumberPoints(ids0, 1, Flatten(segs[..i]))
  }

  /** The materials, `add_element` calls and element ids after the element loop has visited the first `i` segments. */
  ghost predicate ElementsInv(segs: seq<Segment>, elems: map<Segment, Element>, elementIds: seq<int>, i: nat,
                              keys0: seq<Color>, mats0: map<Color, Material>, materials: OrderedDict<Color, Material>,
                              commands: seq<Command>, elementIdOf: map<Segment, int>)
    reads materials
  {
    && i <= |segs| == |elementIds|
    && (forall s :: s in segs ==> s in elems)
    && materials.Valid()
    && (materials.keys, materials.values) == WithPlaceholders(keys0, mats0, Colors(segs[..i], elems))
    && MaterialsCover(segs[..i], elems, materials.values)
    && commands == ElementCommands(segs[..i], elems, materials.values)
    && elementIdOf == ElementIdMap(segs[..i], elementIds[..i])
  }

  /** The node ids handed out for the start and end point of `segs[i]` (main.py:169-175). */
  method NumberEnds(segs: seq<Segment>, i: nat, ghost ids0: map<Vec3, Option<int>>,
                    vectorsMap: OrderedDict<Vec3, Option<int>>, counter: int)
    returns (counter': int)
    requires i < |segs| && NodesInv(segs, i, ids0, vectorsMap, counter)
    requires segs[i].a in ids0 && segs[i].b in ids0
    modifies vectorsMap
    ensures vectorsMap.keys == old(vectorsMap.keys)
    ensures NodesInv(segs, i + 1, ids0, vectorsMap, counter')
  {
    assert segs[..i + 1][..i] == segs[..i];
    NumberPointsPair(ids0, 1, Flatten(segs[..i]), segs[i].a, segs[i].b);
    counter' := NumberNode(vectorsMap, counter, segs[i].a);
    counter' := NumberNode(vectorsMap, counter', segs[i].b);
  }

  /** The material, `add_element` call and element id for `segs[i]` (main.py:156-167). */
  method AddElementCall(segs: seq<Segment>, elems: map<Segment, Element>, elementIds: seq<int>, i: nat,
                        ghost keys0: seq<Color>, ghost mats0: map<Color, Material>,
                        materials: OrderedDict<Color, Material>, commands: seq<Command>, elementIdOf: map<Segment, int>)
    returns (commands': seq<Command>, elementIdOf': map<Segment, int>)
    requires i < |segs| && ElementsInv(segs, elems, elementIds, i, keys0, mats0, materials, commands, elementIdOf)
    modifies materials
    ensures ElementsInv(segs, elems, elementIds, i + 1, keys0, mats0, materials, commands', elementIdOf')
  {
    var segment := segs[i];
    var color := elems[segment].color;
    ghost var before := materials.values;
    EnsureMaterial(materials, color);
    ElementCommandsStable(segs[..i], elems, before, materials.values);
    CoverPrefixStep(segs, elems, i, materials.values);
    PlaceholdersPrefixStep(segs, elems, i, keys0, mats0);
    CallsPrefixStep(segs, elems, elementIds, i, materials.values);
    commands' := commands + [AddElementCommand(segment, materials.values[color])];
    elementIdOf' := elementIdOf[segment := elementIds[i]];
  }

  /**
   * The element loop of `compile_model` (main.py:152-175): for each element
   * in iteration order, a placeholder material if its colour has none, an
   * `add_element` call with the material of the element's colour, the
   * returned id recorded, then node ids for its start and end point.
   */
  method CreateElements(elements: OrderedDict<Segment, Element>,
                        materials: OrderedDict<Color, Material>,
                        vectorsMap: OrderedDict<Vec3, Option<int>>,
                        elementIds: seq<int>)
    returns (elementIdOf: map<Segment, int>, commands: seq<Command>, counter: int)
    requires materials.Valid() && vectorsMap.Valid()
    requires |elementIds| == |elements.keys|
    requires forall s :: s in elements.keys ==> s in elements.values
    requires forall p :: p in Flatten(elements.keys) ==> p in vectorsMap.values
    modifies materials, vectorsMap
    ensures materials.Valid() && vectorsMap.Valid()
    ensures vectorsMap.keys == old(vectorsMap.keys)
    ensures (vectorsMap.values, counter) == NumberPoints(old(vectorsMap.values), 1, Flatten(elements.keys))
    ensures (materials.keys, materials.values) ==
      WithPlaceholders(old(materials.keys), old(materials.values), Colors(elements.keys, elements.values))
    ensures MaterialsCover(elements.keys, elements.values, materials.values)
    ensures commands == ElementCommands(elements.keys, elements.values, materials.values)
    ensures elementIdOf == ElementIdMap(elements.keys, elementIds)
  {
    var segs, elems := elements.keys, elements.values;
    ghost var ids0, keys0, mats0 := vectorsMap.values, materials.keys, materials.values;
    counter := 1;
    elementIdOf := map[];
    commands := [];
    for i := 0 to |segs|
      invariant vectorsMap.keys == old(vectorsMap.keys)
      invariant NodesInv(segs, i, ids0, vectorsMap, counter)
      invariant ElementsInv(segs, elems, elementIds, i, keys0, mats0, materials, commands, elementIdOf)
    {
      assert segs[i].a in Flatten(segs) && segs[i].b in Flatten(segs);
      commands, elementIdOf := AddElementCall(segs, elems, elementIds, i, keys0, mats0, materials, commands, elementIdOf);
      counter := NumberEnds(segs, i, ids0, vectorsMap, counter);
    }
    ElementLoopDone(segs, elems, elementIds, ids0, keys0, mats0, materials, vectorsMap, counter, commands, elementIdOf);
  }

  /** Once the element loop has visited every segment, the invariants speak about the whole of `segs`. */
  lemma ElementLoopDone(segs: seq<Segment>, elems: map<Segment, Element>, elementIds: seq<int>,
                        ids0: map<Vec3, Option<int>>, keys0: seq<Color>, mats0: map<Color, Material>,
                        materials: OrderedDict<Color, Material>, vectorsMap: OrderedDict<Vec3, Option<int>>,
                        counter: int, commands: seq<Command>, elementIdOf: map<Segment, int>)
    requires NodesInv(segs, |segs|, ids0, vectorsMap, counter)
    requires ElementsInv(segs, elems, elementIds, |segs|, keys0, mats0, materials, commands, elementIdOf)
    ensures forall p :: p in Flatten(segs) ==> p in ids0
    ensures (vectorsMap.values, counter) == NumberPoints(ids0, 1, Flatten(segs))
    ensures (materials.keys, materials.values) == WithPlaceholders(keys0, mats0, Colors(segs, elems))
    ensures MaterialsCover(segs, elems, materials.values)
    ensures commands == ElementCommands(segs, elems, materials.values)
    ensures elementIdOf == ElementIdMap(segs, elementIds)
  {
    assert segs[..|segs|] == segs;
    assert elementIds[..|segs|] == elementIds;
  }

  /** Numbering two more points continues the numbering of the ones before. */
  lemma NumberPointsPair(ids: map<Vec3, Option<int>>, counter: int, pts: seq<Vec3>, p: Vec3, q: Vec3)
    requires forall x :: x in pts ==> x in ids
    requires p in ids && q in ids
    ensures forall x :: x in pts + [p, q] ==> x in ids
    ensures var (m, c) := NumberPoints(ids, counter, pts);
      var (m1, c1) := AssignId(m, c, p);
      NumberPoints(ids, counter, pts + [p, q]) == AssignId(m1, c1, q)
  {
    assert (pts + [p, q])[..|pts| + 1] == pts + [p];
    assert (pts + [p])[..|pts|] == pts;
  }

  /** Element commands depend only on the materials of the colours in use. */
  lemma ElementCommandsStable(segs: seq<Segment>, elems: map<Segment, Element>,
                              mats: map<Color, Material>, mats': map<Color, Material>)
    requires MaterialsCover(segs, elems, mats)
    requires forall c :: c in mats ==> c in mats' && mats'[c] == mats[c]
    ensures ElementCommands(segs, elems, mats) == ElementCommands(segs, elems, mats')
  {
  }

  // ---------------------------------------------------------------------
  // Supports
  // ---------------------------------------------------------------------

  /** The solver call for a support of `kind` at node `id`; only a roller takes the block's rotation. */
  function SupportCommand(kind: SupportKind, id: int, support: Support): Command {
    match kind
    case Fixed => AddSupportFixed(id)
    case Hinged => AddSupportHinged(id)
    case Roll => AddSupportRoll(id, support.rotation)
  }

  /** Every point of the entries is a registered point. */
  predicate SupportPointsKnown(groups: seq<SupportGroup>, ids: map<Vec3, Option<int>>) {
    forall g, e :: g in groups && e in g.entries ==> e.0 in ids
  }

  /**
   * The calls made for entries keyed by a point: one per entry whose point
   * has a truthy node id, with that id, in order. Supports, point loads and
   * moments all follow this pattern.
   */
  function NodeCalls<T>(entries: seq<(Vec3, T)>, ids: map<Vec3, Option<int>>, call: (int, T) -> Command)
    : (r: seq<Command>)
    requires forall e :: e in entries ==> e.0 in ids
    ensures |r| <= |entries|
  {
    if entries == [] then []
    else
      var (p, x) := entries[|entries| - 1];
      var init := NodeCalls(entries[..|entries| - 1], ids, call);
      if Assigned(ids[p]) then init + [call(ids[p].value, x)] else init
  }

  /**
   * A call is made exactly for the entries whose point has a node id, with
   * that id: every call comes from such an entry, every such entry gets its
   * call, and no entry is skipped exactly when every point has an id.
   */
  lemma {:induction false} NodeCallsSpec<T>(entries: seq<(Vec3, T)>, ids: map<Vec3, Option<int>>,
                                            call: (int, T) -> Command)
    requires forall e :: e in entries ==> e.0 in ids
    ensures var r := NodeCalls(entries, ids, call);
      && (forall c :: c in r ==> exists e :: e in entries && Assigned(ids[e.0]) && c == call(ids[e.0].value, e.1))
      && (forall e :: e in entries && Assigned(ids[e.0]) ==> call(ids[e.0].value, e.1) in r)
      && (|r| == |entries| <==> forall e :: e in entries ==> Assigned(ids[e.0]))
    decreases |entries|
  {
    if entries != [] {
      var n := |entries| - 1;
      var init := entries[..n];
      assert forall e :: e in entries <==> e in init || e == entries[n];
      NodeCallsSpec(init, ids, call);
      if !Assigned(ids[entries[n].0]) {
        assert !(forall e :: e in entries ==> Assigned(ids[e.0]));
      }
    }
  }

  /** A call that places a support. */
  predicate IsSupportCall(c: Command) {
    c.AddSupportFixed? || c.AddSupportHinged? || c.AddSupportRoll?
  }

  /** A call that applies a load. */
  predicate IsLoadCall(c: Command) {
    c.PointLoad? || c.QLoad? || c.MomentLoad?
  }

  /** The support calls for one block name. */
  function GroupSupportCommands(kind: SupportKind, entries: seq<(Vec3, Support)>, ids: map<Vec3, Option<int>>)
    : (r: seq<Command>)
    requires forall e :: e in entries ==> e.0 in ids
    ensures forall c :: c in r ==> IsSupportCall(c)
  {
    var call := (id, support: Support) => SupportCommand(kind, id, support);
    NodeCallsSpec(entries, ids, call);
    NodeCalls(entries, ids, call)
  }

  /** The support calls of `compile_model`, block name by block name. */
  function SupportCommands(groups: seq<SupportGroup>, ids: map<Vec3, Option<int>>): (r: seq<Command>)
    requires SupportPointsKnown(groups, ids)
    ensures forall c :: c in r ==> IsSupportCall(c)
  {
    if groups == [] then []
    else
      var g := groups[|groups| - 1];
      SupportCommands(groups[..|groups| - 1], ids) + GroupSupportCommands(g.kind, g.entries, ids)
  }

  /**
   * Across block names: every support call comes from a support whose point
   * has a node id, and every such support gets its call.
   */
  lemma {:induction false} SupportCommandsSpec(groups: seq<SupportGroup>, ids: map<Vec3, Option<int>>)
    requires SupportPointsKnown(groups, ids)
    ensures forall c :: c in SupportCommands(groups, ids) ==>
      exists g, e :: g in groups && e in g.entries && Assigned(ids[e.0]) && c == SupportCommand(g.kind, ids[e.0].value, e.1)
    ensures (forall g, e :: g in groups && e in g.entries && Assigned(ids[e.0]) ==>
                         SupportCommand(g.kind, ids[e.0].value, e.1) in SupportCommands(groups, ids))
    decreases |groups|
  {
    if groups != [] {
      var n := |groups| - 1;
      var init, g := groups[..n], groups[n];
      assert forall h :: h in groups <==> h in init || h == g;
      SupportCommandsSpec(init, ids);
      var call := (id, support: Support) => SupportCommand(g.kind, id, support);
      NodeCallsSpec(g.entries, ids, call);
      forall c | c in SupportCommands(groups, ids)
        ensures exists h, e :: h in groups && e in h.entries && Assigned(ids[e.0]) &&
                               c == SupportCommand(h.kind, ids[e.0].value, e.1)
      {
        if c !in SupportCommands(init, ids) {
          var e :| e in g.entries && Assigned(ids[e.0]) && c == call(ids[e.0].value, e.1);
          assert g in groups;
        } else {
          assert c in SupportCommands(init, ids);
          var h, e :| h in init && e in h.entries && Assigned(ids[e.0]) &&
                      c == SupportCommand(h.kind, ids[e.0].value, e.1);
          assert h in groups;
        }
      }
    }
  }

  /**
   * `apply supports` (main.py:177-186): for each block name and each
   * support under it, a support call at the support's node when that point
   * has a node id.
   */
  method ApplySupports(supports: seq<SupportGroup>, vectorsMap: OrderedDict<Vec3, Option<int>>)
    returns (commands: seq<Command>)
    requires SupportPointsKnown(supports, vectorsMap.values)
    ensures commands == SupportCommands(supports, vectorsMap.values)
  {
    commands := [];
    for g := 0 to |supports|
      invariant commands == SupportCommands(supports[..g], vectorsMap.values)
    {
      var group := supports[g];
      assert supports[..g + 1][..g] == supports[..g];
      ghost var before := commands;
      for j := 0 to |group.entries|
        invariant commands == before + GroupSupportCommands(group.kind, group.entries[..j], vectorsMap.values)
      {
        var (vector, support) := group.entries[j];
        assert group.entries[..j + 1][..j] == group.entries[..j];
        var id := vectorsMap.values[vector];
        if Assigned(id) {
          commands := commands + [SupportCommand(group.kind, id.value, support)];
        }
      }
      assert group.entries[..|group.entries|] == group.entries;
    }
    assert supports[..|supports|] == supports;
  }

  // ---------------------------------------------------------------------
  // Loads
  // ---------------------------------------------------------------------

  /** Every point a force or a moment acts at is a registered point. */
  predicate LoadPointsKnown(groups: seq<LoadGroup>, ids: map<Vec3, Option<int>>) {
    && (forall g, e :: g in groups && g.Forces? && e in g.forces ==> e.0 in ids)
    && (forall g, e :: g in groups && g.Moments? && e in g.moments ==> e.0 in ids)
  }

  /** The point loads: one per force whose point has a node id, in order. */
  function PointLoadCommands(forces: seq<(Vec3, Force)>, ids: map<Vec3, Option<int>>): (r: seq<Command>)
    requires forall e :: e in forces ==> e.0 in ids
    ensures forall c :: c in r ==> c.PointLoad?
  {
    var call := (id, f: Force) => PointLoad(id, f.value, f.rotation);
    NodeCallsSpec(forces, ids, call);
    NodeCalls(forces, ids, call)
  }

  /** The moment loads: one per moment whose point has a node id, in order. */
  function MomentLoadCommands(moments: seq<(Vec3, Moment)>, ids: map<Vec3, Option<int>>): (r: seq<Command>)
    requires forall e :: e in moments ==> e.0 in ids
    ensures forall c :: c in r ==> c.MomentLoad?
  {
    var call := (id, m: Moment) => MomentLoad(id, m.value);
    NodeCallsSpec(moments, ids, call);
    NodeCalls(moments, ids, call)
  }

  /**
   * A point load is made exactly for the forces whose point has a node id,
   * at that node: every call comes from such a force, and every such force
   * gets its call.
   */
  lemma PointLoadCommandsSpec(forces: seq<(Vec3, Force)>, ids: map<Vec3, Option<int>>)
    requires forall e :: e in forces ==> e.0 in ids
    ensures forall c :: c in PointLoadCommands(forces, ids) ==>
      exists e :: e in forces && Assigned(ids[e.0]) && c == PointLoad(ids[e.0].value, e.1.value, e.1.rotation)
    ensures forall e :: e in forces && Assigned(ids[e.0]) ==>
      PointLoad(ids[e.0].value, e.1.value, e.1.rotation) in PointLoadCommands(forces, ids)
  {
    NodeCallsSpec(forces, ids, (id, f: Force) => PointLoad(id, f.value, f.rotation));
  }

  /**
   * A moment load is made exactly for the moments whose point has a node
   * id, at that node: every call comes from such a moment, and every such
   * moment gets its call.
   */
  lemma MomentLoadCommandsSpec(moments: seq<(Vec3, Moment)>, ids: map<Vec3, Option<int>>)
    requires forall e :: e in moments ==> e.0 in ids
    ensures forall c :: c in MomentLoadCommands(moments, ids) ==>
      exists e :: e in moments && Assigned(ids[e.0]) && c == MomentLoad(ids[e.0].value, e.1.value)
    ensures forall e :: e in moments && Assigned(ids[e.0]) ==>
      MomentLoad(ids[e.0].value, e.1.value) in MomentLoadCommands(moments, ids)
  {
    NodeCallsSpec(moments, ids, (id, m: Moment) => MomentLoad(id, m.value));
  }

  /**
   * The distributed loads: one per span whose element id is truthy, in
   * order; the first span that is not an element is a `KeyError`.
   */
  function QLoadCommands(spans: seq<(Segment, QForce)>, elementIdOf: map<Segment, int>)
    : (r: Result<seq<Command>, CompileError>)
    ensures r.Ok? ==> |r.value| <= |spans| && forall c :: c in r.value ==> c.QLoad?
    ensures r.Err? ==> r.error.span !in elementIdOf
  {
    if spans == [] then Ok([])
    else
      var (span, q) := spans[|spans| - 1];
      match QLoadCommands(spans[..|spans| - 1], elementIdOf)
      case Err(e) => Err(e)
      case Ok(init) =>
        if span !in elementIdOf then Err(KeyError(span))
        else if elementIdOf[span] != 0 then Ok(init + [QLoad(elementIdOf[span], q.value, q.rotation)])
        else Ok(init)
  }

  /** The load calls for one load type. */
  function GroupLoadCommands(g: LoadGroup, ids: map<Vec3, Option<int>>, elementIdOf: map<Segment, int>)
    : (r: Result<seq<Command>, CompileError>)
    requires LoadPointsKnown([g], ids)
    ensures r.Err? ==> g.QForces? && r.error.span !in elementIdOf
    ensures r.Ok? ==> forall c :: c in r.value ==>
      (g.Forces? ==> c.PointLoad?) && (g.QForces? ==> c.QLoad?) && (g.Moments? ==> c.MomentLoad?)
  {
    match g
    case Forces(forces) => Ok(PointLoadCommands(forces, ids))
    case QForces(spans) => QLoadCommands(spans, elementIdOf)
    case Moments(moments) => Ok(MomentLoadCommands(moments, ids))
  }

  /** The load calls of `compile_model`, load type by load type, stopping at the first `KeyError`. */
  function LoadCommands(groups: seq<LoadGroup>, ids: map<Vec3, Option<int>>, elementIdOf: map<Segment, int>)
    : (r: Result<seq<Command>, CompileError>)
    requires LoadPointsKnown(groups, ids)
    ensures r.Ok? ==> forall c :: c in r.value ==> IsLoadCall(c)
    ensures r.Err? ==> r.error.span !in elementIdOf
  {
    if groups == [] then Ok([])
    else
      var g := groups[|groups| - 1];
      assert LoadPointsKnown(groups[..|groups| - 1], ids) && LoadPointsKnown([g], ids);
      match LoadCommands(groups[..|groups| - 1], ids, elementIdOf)
      case Err(e) => Err(e)
      case Ok(init) =>
        match GroupLoadCommands(g, ids, elementIdOf)
        case Err(e) => Err(e)
        case Ok(cs) => Ok(init + cs)
  }

  /**
   * Distributed loads fail exactly when some span is not an element, and
   * then on the first such span; otherwise every span with a truthy element
   * id gets its load, and every load comes from such a span.
   */
  lemma {:induction false} QLoadCommandsSpec(spans: seq<(Segment, QForce)>, elementIdOf: map<Segment, int>)
    ensures var r := QLoadCommands(spans, elementIdOf);
      && (r.Err? <==> exists i :: 0 <= i < |spans| && spans[i].0 !in elementIdOf)
      && (r.Err? ==> exists i :: 0 <= i < |spans| && r.error == KeyError(spans[i].0) && spans[i].0 !in elementIdOf
                                && forall j :: 0 <= j < i ==> spans[j].0 in elementIdOf)
      && (r.Ok? ==> forall e :: e in spans && elementIdOf[e.0] != 0 ==>
                      QLoad(elementIdOf[e.0], e.1.value, e.1.rotation) in r.value)
      && (r.Ok? ==> forall c :: c in r.value ==>
                      exists e :: e in spans && elementIdOf[e.0] != 0 && c == QLoad(elementIdOf[e.0], e.1.value, e.1.rotation))
    decreases |spans|
  {
    if spans != [] {
      var n := |spans| - 1;
      var init := spans[..n];
      assert forall e :: e in spans <==> e in init || e == spans[n];
      assert forall i :: 0 <= i < n ==> init[i] == spans[i];
      QLoadCommandsSpec(init, elementIdOf);
    }
  }

  /** Loading fails exactly when some distributed load lies on a span that is not an element. */
  lemma {:induction false} LoadCommandsFails(groups: seq<LoadGroup>, ids: map<Vec3, Option<int>>,
                                             elementIdOf: map<Segment, int>)
    requires LoadPointsKnown(groups, ids)
    ensures LoadCommands(groups, ids, elementIdOf).Err? <==>
      exists g, e :: g in groups && g.QForces? && e in g.spans && e.0 !in elementIdOf
    decreases |groups|
  {
    if groups != [] {
      var n := |groups| - 1;
      var init, g := groups[..n], groups[n];
      assert forall h :: h in groups <==> h in init || h == g;
      assert LoadPointsKnown(init, ids);
      LoadCommandsFails(init, ids, elementIdOf);
      if g.QForces? {
        QLoadCommandsSpec(g.spans, elementIdOf);
        if QLoadCommands(g.spans, elementIdOf).Err? {
          var i :| 0 <= i < |g.spans| && g.spans[i].0 !in elementIdOf;
          assert g.spans[i] in g.spans;
        }
      }
    }
  }

  /** Number of entries of a load group. */
  function GroupSize(g: LoadGroup): nat {
    match g
    case Forces(forces) => |forces|
    case QForces(spans) => |spans|
    case Moments(moments) => |moments|
  }

  /** The first `j` entries of a load group. */
  function Truncate(g: LoadGroup, j: nat): (r: LoadGroup)
    requires j <= GroupSize(g)
    ensures GroupSize(r) == j
  {
    match g
    case Forces(forces) => Forces(forces[..j])
    case QForces(spans) => QForces(spans[..j])
    case Moments(moments) => Moments(moments[..j])
  }

  /** Once a prefix of the spans fails, the whole sequence fails with the same error. */
  lemma {:induction false} QLoadErrorSticks(spans: seq<(Segment, QForce)>, elementIdOf: map<Segment, int>, j: nat)
    requires j <= |spans| && QLoadCommands(spans[..j], elementIdOf).Err?
    ensures QLoadCommands(spans, elementIdOf) == QLoadCommands(spans[..j], elementIdOf)
    decreases |spans| - j
  {
    if j < |spans| {
      var n := |spans| - 1;
      assert spans[..n][..j] == spans[..j];
      QLoadErrorSticks(spans[..n], elementIdOf, j);
    } else {
      assert spans[..j] == spans;
    }
  }

  /** Once a prefix of the load groups fails, loading fails with the same error. */
  lemma {:induction false} LoadErrorSticks(groups: seq<LoadGroup>, ids: map<Vec3, Option<int>>,
                                           elementIdOf: map<Segment, int>, j: nat)
    requires j <= |groups| && LoadPointsKnown(groups, ids)
    requires LoadCommands(groups[..j], ids, elementIdOf).Err?
    ensures LoadCommands(groups, ids, elementIdOf) == LoadCommands(groups[..j], ids, elementIdOf)
    decreases |groups| - j
  {
    if j < |groups| {
      var n := |groups| - 1;
      assert groups[..n][..j] == groups[..j];
      LoadErrorSticks(groups[..n], ids, elementIdOf, j);
    } else {
      assert groups[..j] == groups;
    }
  }

  /** Once a prefix of a group fails, the whole group fails with the same error. */
  lemma GroupErrorSticks(g: LoadGroup, ids: map<Vec3, Option<int>>, elementIdOf: map<Segment, int>, j: nat)
    requires j <= GroupSize(g) && LoadPointsKnown([g], ids) && LoadPointsKnown([Truncate(g, j)], ids)
    requires GroupLoadCommands(Truncate(g, j), ids, elementIdOf).Err?
    ensures GroupLoadCommands(g, ids, elementIdOf) == GroupLoadCommands(Truncate(g, j), ids, elementIdOf)
  {
    QLoadErrorSticks(g.spans, elementIdOf, j);
  }

  /** A prefix of a load group acts at registered points when the group does. */
  lemma TruncateKnown(g: LoadGroup, ids: map<Vec3, Option<int>>, j: nat)
    requires j <= GroupSize(g) && LoadPointsKnown([g], ids)
    ensures LoadPointsKnown([Truncate(g, j)], ids)
  {
    var t := Truncate(g, j);
    if g.Forces? {
      assert forall e :: e in t.forces ==> e in g.forces;
    } else if g.Moments? {
      assert forall e :: e in t.moments ==> e in g.moments;
    }
  }

  /** One entry of the load loop: the calls of the first `j + 1` entries of `group`. */
  method LoadEntry(group: LoadGroup, j: nat, ids: map<Vec3, Option<int>>, elementIdOf: map<Segment, int>,
                   groupCommands: seq<Command>)
    returns (r: Result<seq<Command>, CompileError>)
    requires j < GroupSize(group) && LoadPointsKnown([group], ids)
    requires LoadPointsKnown([Truncate(group, j)], ids) && LoadPointsKnown([Truncate(group, j + 1)], ids)
    requires GroupLoadCommands(Truncate(group, j), ids, elementIdOf) == Ok(groupCommands)
    ensures r == GroupLoadCommands(Truncate(group, j + 1), ids, elementIdOf)
  {
    r := Ok(groupCommands);
    match group
    case Forces(forces) =>
      var (vector, load) := forces[j];
      assert forces[..j + 1][..j] == forces[..j] && forces[..j + 1][j] == forces[j];
      assert forces[j] in forces;
      if Assigned(ids[vector]) {
        r := Ok(groupCommands + [PointLoad(ids[vector].value, load.value, load.rotation)]);
      }
    case QForces(spans) =>
      var (span, load) := spans[j];
      assert spans[..j + 1][..j] == spans[..j] && spans[..j + 1][j] == spans[j];
      if span !in elementIdOf {
        r := Err(KeyError(span));
      } else if elementIdOf[span] != 0 {
        r := Ok(groupCommands + [QLoad(elementIdOf[span], load.value, load.rotation)]);
      }
    case Moments(moments) =>
      var (vector, load) := moments[j];
      assert moments[..j + 1][..j] == moments[..j] && moments[..j + 1][j] == moments[j];
      assert moments[j] in moments;
      if Assigned(ids[vector]) {
        r := Ok(groupCommands + [MomentLoad(ids[vector].value, load.value)]);
      }
  }

  /** The inner load loop of `compile_model`: the calls for one load type. */
  method ApplyLoadGroup(group: LoadGroup, ids: map<Vec3, Option<int>>, elementIdOf: map<Segment, int>)
    returns (r: Result<seq<Command>, CompileError>)
    requires LoadPointsKnown([group], ids)
    ensures r == GroupLoadCommands(group, ids, elementIdOf)
  {
    var groupCommands := [];
    TruncateKnown(group, ids, 0);
    for j := 0 to GroupSize(group)
      invariant LoadPointsKnown([Truncate(group, j)], ids)
      invariant GroupLoadCommands(Truncate(group, j), ids, elementIdOf) == Ok(groupCommands)
    {
      TruncateKnown(group, ids, j + 1);
      var step := LoadEntry(group, j, ids, elementIdOf, groupCommands);
      if step.Err? {
        GroupErrorSticks(group, ids, elementIdOf, j + 1);
        return step;
      }
      groupCommands := step.value;
    }
    assert Truncate(group, GroupSize(group)) == group;
    r := Ok(groupCommands);
  }

  /**
   * The load loop of `compile_model`. A distributed load on a span that
   * is not an element ends compilation with `KeyError`.
   */
  method ApplyLoads(loads: seq<LoadGroup>, vectorsMap: OrderedDict<Vec3, Option<int>>, elementIdOf: map<Segment, int>)
    returns (r: Result<seq<Command>, CompileError>)
    requires LoadPointsKnown(loads, vectorsMap.values)
    ensures r == LoadCommands(loads, vectorsMap.values, elementIdOf)
  {
    var ids := vectorsMap.values;
    var commands := [];
    for g := 0 to |loads|
      invariant LoadPointsKnown(loads[..g], ids)
      invariant LoadCommands(loads[..g], ids, elementIdOf) == Ok(commands)
    {
      assert loads[..g + 1][..g] == loads[..g] && loads[..g + 1][g] == loads[g];
      assert LoadPointsKnown([loads[g]], ids) && LoadPointsKnown(loads[..g + 1], ids);
      var groupCommands := ApplyLoadGroup(loads[g], ids, elementIdOf);
      if groupCommands.Err? {
        LoadErrorSticks(loads, ids, elementIdOf, g + 1);
        return groupCommands;
      }
      commands := commands + groupCommands.value;
    }
    assert loads[..|loads|] == loads;
    r := Ok(commands);
  }

  // ---------------------------------------------------------------------
  // The whole of compile_model
  // ---------------------------------------------------------------------

  /**
   * Starting from a registry where no point has a node id, a support
   * reaches the solver exactly when its point is an element endpoint: every
   * support at an endpoint gets its call at the endpoint's node, and every
   * support call is for a support at an endpoint.
   */
  lemma SupportsAtElementEnds(ids0: map<Vec3, Option<int>>, segs: seq<Segment>, supports: seq<SupportGroup>)
    requires forall p :: p in ids0 ==> !Assigned(ids0[p])
    requires forall p :: p in Flatten(segs) ==> p in ids0
    requires SupportPointsKnown(supports, ids0)
    ensures var m := NumberPoints(ids0, 1, Flatten(segs)).0;
      var r := SupportCommands(supports, m);
      && (forall g, e :: g in supports && e in g.entries && e.0 in Flatten(segs) ==>
            Assigned(m[e.0]) && SupportCommand(g.kind, m[e.0].value, e.1) in r)
      && (forall c :: c in r ==> exists g, e :: g in supports && e in g.entries && e.0 in Flatten(segs) &&
                                             c == SupportCommand(g.kind, m[e.0].value, e.1))
  {
    NodeIdsOfPoints(ids0, Flatten(segs));
    SupportCommandsSpec(supports, NumberPoints(ids0, 1, Flatten(segs)).0);
  }

  /**
   * With the element ids of the element loop, loading fails exactly when a
   * distributed load lies on a span that is not an element.
   */
  lemma LoadsFailOffElements(loads: seq<LoadGroup>, ids: map<Vec3, Option<int>>, segs: seq<Segment>,
                             elementIds: seq<int>)
    requires LoadPointsKnown(loads, ids) && |elementIds| == |segs|
    ensures LoadCommands(loads, ids, ElementIdMap(segs, elementIds)).Err? <==>
      exists g, e :: g in loads && g.QForces? && e in g.spans && e.0 !in segs
  {
    LoadCommandsFails(loads, ids, ElementIdMap(segs, elementIds));
  }

  /**
   * `compile_model` (main.py:148-200) up to the call of `solve`: the
   * element loop, then the supports, then the loads. The solver calls are
   * returned in order; a `KeyError` from the load loop replaces them, while
   * the updates to `materials` and `vectorsMap` made before it remain.
   */
  method CompileModel(elements: OrderedDict<Segment, Element>,
                      supports: seq<SupportGroup>,
                      loads: seq<LoadGroup>,
                      materials: OrderedDict<Color, Material>,
                      vectorsMap: OrderedDict<Vec3, Option<int>>,
                      elementIds: seq<int>)
    returns (r: Result<seq<Command>, CompileError>)
    requires materials.Valid() && vectorsMap.Valid()
    requires |elementIds| == |elements.keys|
    requires forall s :: s in elements.keys ==> s in elements.values
    requires forall p :: p in Flatten(elements.keys) ==> p in vectorsMap.values
    requires SupportPointsKnown(supports, vectorsMap.values)
    requires LoadPointsKnown(loads, vectorsMap.values)
    modifies materials, vectorsMap
    ensures materials.Valid() && vectorsMap.Valid()
    ensures vectorsMap.keys == old(vectorsMap.keys)
    ensures vectorsMap.values == NumberPoints(old(vectorsMap.values), 1, Flatten(elements.keys)).0
    ensures (materials.keys, materials.values) ==
      WithPlaceholders(old(materials.keys), old(materials.values), Colors(elements.keys, elements.values))
    ensures SupportPointsKnown(supports, vectorsMap.values) && LoadPointsKnown(loads, vectorsMap.values)
    ensures MaterialsCover(elements.keys, elements.values, materials.values)
    ensures r == match LoadCommands(loads, vectorsMap.values, ElementIdMap(elements.keys, elementIds))
      case Err(e) => Err(e)
      case Ok(loadCommands) =>
        Ok(ElementCommands(elements.keys, elements.values, materials.values) +
           SupportCommands(supports, vectorsMap.values) + loadCommands)
  {
    var elementIdOf, elementCommands, _ := CreateElements(elements, materials, vectorsMap, elementIds);
    var supportCommands := ApplySupports(supports, vectorsMap);
    var loadCommands := ApplyLoads(loads, vectorsMap, elementIdOf);
    if loadCommands.Err? {
      return Err(loadCommands.error);
    }
    r := Ok(elementCommands + supportCommands + loadCommands.value);
  }
}
