/**
 * Construction of a bounding volume hierarchy: the objects are split on a
 * randomly chosen axis, by the minimum corner of their boxes, into two
 * halves that become the node's children.
 */
module Bvh {
  import opened Wrappers
  import opened Aabb
  import opened Hittable

  /** The sort axis from a draw in `0..=2`; any other value selects the z axis. */
  function Axis(draw: nat): (a: nat)
    ensures a < 3
    ensures draw < 3 ==> a == draw
  {
    match draw
    case 0 => 0
    case 1 => 1
    case _ => 2
  }

  /** The sort key: the box's minimum corner on `axis` at time 0; 0 for an object without a box. */
  function Key(h: Hittable, axis: nat): real
    requires Timed(h) && axis < 3
  {
    match BoundingBox(h, 0.0, 0.0)
    case None => 0.0
    case Some(b) => b.minimum.Get(axis)
  }

  datatype Ordering = Less | Equal | Greater

  /** `box_compare`: the order of the two keys. */
  function BoxCompare(a: Hittable, b: Hittable, axis: nat): (o: Ordering)
    requires Timed(a) && Timed(b) && axis < 3
    ensures o == Less <==> Key(a, axis) < Key(b, axis)
    ensures o == Equal <==> Key(a, axis) == Key(b, axis)
    ensures o == Greater <==> Key(b, axis) < Key(a, axis)
  {
    var ka := Key(a, axis);
    var kb := Key(b, axis);
    if ka < kb then Less else if ka == kb then Equal else Greater
  }

  /** Swapping the operands reverses the order. */
  lemma BoxCompareFlips(a: Hittable, b: Hittable, axis: nat)
    requires Timed(a) && Timed(b) && axis < 3
    ensures BoxCompare(a, b, axis) == Less <==> BoxCompare(b, a, axis) == Greater
    ensures BoxCompare(a, b, axis) == Equal <==> BoxCompare(b, a, axis) == Equal
  {
  }

  predicate AllTimed(s: seq<Hittable>) {
    forall i :: 0 <= i < |s| ==> Timed(s[i])
  }

  predicate SortedBy(s: seq<Hittable>, axis: nat)
    requires AllTimed(s) && axis < 3
  {
    forall i, j :: 0 <= i < j < |s| ==> Key(s[i], axis) <= Key(s[j], axis)
  }

  /** Places `x` after every element whose key is not greater than its own. */
  function InsertLast(sorted: seq<Hittable>, x: Hittable, axis: nat): (r: seq<Hittable>)
    requires AllTimed(sorted) && Timed(x) && axis < 3
    decreases |sorted|
    ensures |r| == |sorted| + 1 && AllTimed(r)
    ensures multiset(r) == multiset(sorted) + multiset{x}
    ensures SortedBy(sorted, axis) ==> SortedBy(r, axis)
  {
    if |sorted| == 0 then [x]
    else
      var last := sorted[|sorted| - 1];
      if Key(last, axis) <= Key(x, axis) then sorted + [x]
      else
        var prefix := sorted[..|sorted| - 1];
        assert sorted == prefix + [last];
        var front := InsertLast(prefix, x, axis);
        LastIsGreatest(prefix, last, front, x, axis);
        assert AllTimed(front + [last]) by {
          forall i | 0 <= i < |front| + 1 ensures Timed((front + [last])[i]) {
            if i < |front| { assert (front + [last])[i] == front[i]; }
          }
        }
        front + [last]
  }

  /**
   * Appending the greater last element to a sorted insertion into the
   * prefix keeps the whole sorted.
   */
  lemma LastIsGreatest(prefix: seq<Hittable>, last: Hittable, front: seq<Hittable>, x: Hittable, axis: nat)
    requires AllTimed(prefix) && Timed(last) && Timed(x) && AllTimed(front) && axis < 3
    requires multiset(front) == multiset(prefix) + multiset{x}
    requires SortedBy(prefix, axis) ==> SortedBy(front, axis)
    requires Key(x, axis) < Key(last, axis)
    ensures AllTimed(prefix + [last])
    ensures SortedBy(prefix + [last], axis) ==> SortedBy(front + [last], axis)
  {
    var whole := prefix + [last];
    assert AllTimed(whole) by {
      forall i | 0 <= i < |whole| ensures Timed(whole[i]) {
        if i < |prefix| { assert whole[i] == prefix[i]; }
      }
    }
    if SortedBy(whole, axis) {
      assert SortedBy(prefix, axis) by {
        forall i, j | 0 <= i < j < |prefix| ensures Key(prefix[i], axis) <= Key(prefix[j], axis) {
          assert whole[i] == prefix[i] && whole[j] == prefix[j];
        }
      }
      forall i | 0 <= i < |front| ensures Key(front[i], axis) <= Key(last, axis) {
        var y := front[i];
        assert y in multiset(front);
        if y != x {
          assert y in prefix;
          var j :| 0 <= j < |prefix| && prefix[j] == y;
          assert whole[j] == y && whole[|prefix|] == last;
        }
      }
      var r := front + [last];
      forall i, j | 0 <= i < j < |r| ensures Key(r[i], axis) <= Key(r[j], axis) {
        assert r[i] == front[i];
        if j < |front| {
          assert r[j] == front[j];
        }
      }
    }
  }

  /** The stable sort by key (`sort_by`): sorted, and a permutation of its input. */
  function SortByKey(s: seq<Hittable>, axis: nat): (r: seq<Hittable>)
    requires AllTimed(s) && axis < 3
    ensures |r| == |s| && AllTimed(r)
    ensures SortedBy(r, axis)
    ensures multiset(r) == multiset(s)
  {
    if |s| == 0 then []
    else
      assert s == s[..|s| - 1] + [s[|s| - 1]];
      InsertLast(SortByKey(s[..|s| - 1], axis), s[|s| - 1], axis)
  }

  /** A child's box for the node's union: its own, or the empty box when it reports none. */
  function ChildBox(h: Hittable, time0: real, time1: real): Aabb
    requires Timed(h)
  {
    BoundingBox(h, time0, time1).GetOr(Empty())
  }

  /**
   * `BVHNode::new`: the node over `objs`, the split axis drawn from
   * `axisAt(path)`. One object becomes both children; two are ordered by the
   * comparator; more are sorted by key and split at the middle. The node's
   * box is the least box surrounding both children's boxes.
   */
  function Build(objs: seq<Hittable>, time0: real, time1: real, axisAt: seq<nat> -> nat, path: seq<nat>): (node: Hittable)
    requires |objs| > 0 && AllTimed(objs)
    decreases |objs|
    ensures node.BvhObj? && Timed(node)
    ensures Contains(node.bbox, ChildBox(node.left, time0, time1))
    ensures Contains(node.bbox, ChildBox(node.right, time0, time1))
    ensures forall c :: Contains(c, ChildBox(node.left, time0, time1)) && Contains(c, ChildBox(node.right, time0, time1)) ==> Contains(c, node.bbox)
  {
    var axis := Axis(axisAt(path));
    var n := |objs|;
    var (left, right) :=
      if n == 1 then (objs[0], objs[0])
      else if n == 2 then
        if BoxCompare(objs[0], objs[1], axis) == Less then (objs[0], objs[1]) else (objs[1], objs[0])
      else
        var sorted := SortByKey(objs, axis);
        var mid := n / 2;
        assert AllTimed(sorted[..mid]) && AllTimed(sorted[mid..]) by {
          assert forall i :: 0 <= i < mid ==> sorted[..mid][i] == sorted[i];
          assert forall i :: 0 <= i < n - mid ==> sorted[mid..][i] == sorted[mid + i];
        }
        (Build(sorted[..mid], time0, time1, axisAt, path + [0]), Build(sorted[mid..], time0, time1, axisAt, path + [1]));
    BvhObj(left, right, SurroundingBox(ChildBox(left, time0, time1), ChildBox(right, time0, time1)))
  }

  /** One object becomes both children. */
  lemma BuildOne(objs: seq<Hittable>, time0: real, time1: real, axisAt: seq<nat> -> nat, path: seq<nat>)
    requires |objs| == 1 && AllTimed(objs)
    ensures var node := Build(objs, time0, time1, axisAt, path);
      node.left == objs[0] && node.right == objs[0]
  {
  }

  /**
   * Two objects are both kept, the left one's key is not greater, and on
   * equal keys the second object goes left.
   */
  lemma BuildTwo(objs: seq<Hittable>, time0: real, time1: real, axisAt: seq<nat> -> nat, path: seq<nat>)
    requires |objs| == 2 && AllTimed(objs)
    ensures var node := Build(objs, time0, time1, axisAt, path);
      var axis := Axis(axisAt(path));
      multiset{node.left, node.right} == multiset(objs)
      && Key(node.left, axis) <= Key(node.right, axis)
      && (Key(objs[0], axis) == Key(objs[1], axis) ==> node.left == objs[1] && node.right == objs[0])
  {
    assert objs == [objs[0], objs[1]];
  }

  /**
   * Three or more objects are sorted and split at the middle into two
   * non-empty, strictly smaller halves that together hold every object, no
   * key in the left half greater than a key in the right half.
   */
  lemma BuildSplit(objs: seq<Hittable>, time0: real, time1: real, axisAt: seq<nat> -> nat, path: seq<nat>)
    requires |objs| >= 3 && AllTimed(objs)
    ensures var node := Build(objs, time0, time1, axisAt, path);
      var axis := Axis(axisAt(path));
      var sorted := SortByKey(objs, axis);
      var mid := |objs| / 2;
      0 < mid < |objs|
      && AllTimed(sorted[..mid]) && AllTimed(sorted[mid..])
      && node.left == Build(sorted[..mid], time0, time1, axisAt, path + [0])
      && node.right == Build(sorted[mid..], time0, time1, axisAt, path + [1])
      && multiset(sorted[..mid]) + multiset(sorted[mid..]) == multiset(objs)
      && (forall i, j :: 0 <= i < mid <= j < |objs| ==> Key(sorted[i], axis) <= Key(sorted[j], axis))
  {
    var axis := Axis(axisAt(path));
    var sorted := SortByKey(objs, axis);
    var mid := |objs| / 2;
    assert sorted == sorted[..mid] + sorted[mid..];
  }

  /** The objects at the bottom of a hierarchy: what is not itself a BVH node. */
  function Leaves(h: Hittable): set<Hittable> {
    if h.BvhObj? then Leaves(h.left) + Leaves(h.right) else {h}
  }

  lemma SameElements(a: seq<Hittable>, b: seq<Hittable>)
    requires multiset(a) == multiset(b)
    ensures (set x | x in a) == (set x | x in b)
  {
    forall x ensures x in a <==> x in b {
      assert x in a <==> x in multiset(a);
      assert x in b <==> x in multiset(b);
    }
  }

  lemma SplitElements(s: seq<Hittable>, mid: nat)
    requires mid <= |s|
    ensures (set x | x in s) == (set x | x in s[..mid]) + (set x | x in s[mid..])
  {
    assert s == s[..mid] + s[mid..];
  }

  lemma NoNodeIn(sub: seq<Hittable>, objs: seq<Hittable>)
    requires multiset(sub) <= multiset(objs)
    requires forall i :: 0 <= i < |objs| ==> !objs[i].BvhObj?
    ensures forall i :: 0 <= i < |sub| ==> !sub[i].BvhObj?
  {
    forall i | 0 <= i < |sub| ensures !sub[i].BvhObj? {
      assert sub[i] in multiset(sub);
      assert sub[i] in multiset(objs);
    }
  }

  /**
   * Construction loses no object and invents none: over objects that are not
   * themselves BVH nodes, the leaves are exactly the objects.
   */
  lemma {:induction false} BuildKeepsObjects(objs: seq<Hittable>, time0: real, time1: real, axisAt: seq<nat> -> nat, path: seq<nat>)
    requires |objs| > 0 && AllTimed(objs)
    requires forall i :: 0 <= i < |objs| ==> !objs[i].BvhObj?
    decreases |objs|
    ensures Leaves(Build(objs, time0, time1, axisAt, path)) == set x | x in objs
  {
    var node := Build(objs, time0, time1, axisAt, path);
    var n := |objs|;
    if n == 1 {
      assert (set x | x in objs) == {objs[0]};
    } else if n == 2 {
      BuildTwo(objs, time0, time1, axisAt, path);
      SameElements([node.left, node.right], objs);
      assert (set x | x in [node.left, node.right]) == {node.left, node.right};
    } else {
      BuildSplit(objs, time0, time1, axisAt, path);
      var sorted := SortByKey(objs, Axis(axisAt(path)));
      var mid := n / 2;
      var lo, hi := sorted[..mid], sorted[mid..];
      NoNodeIn(lo, objs);
      NoNodeIn(hi, objs);
      BuildKeepsObjects(lo, time0, time1, axisAt, path + [0]);
      BuildKeepsObjects(hi, time0, time1, axisAt, path + [1]);
      SplitElements(sorted, mid);
      SameElements(sorted, objs);
    }
  }
}
