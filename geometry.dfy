/**
 * Vertex positions, the coordinate axes and the tolerance test that decides
 * whether two vertices are mirror images of each other across the plane
 * through the origin perpendicular to the chosen axis.
 */
module Geometry {

  /** The axis of the mirror operator's enum property; `Index` is `"xyz".index(axis)`. */
  datatype Axis = X | Y | Z {
    function Index(): (i: nat)
      ensures i < 3
      ensures (i == 0) == (this == X) && (i == 1) == (this == Y)
    {
      match this
      case X => 0
      case Y => 1
      case Z => 2
    }
  }

  /** A vertex position, `vert.co.to_tuple()`. */
  datatype Vec3 = Vec3(x: real, y: real, z: real) {
    /** The coordinate at tuple position `i`. */
    function At(i: nat): (c: real)
      requires i < 3
    {
      if i == 0 then x else if i == 1 then y else z
    }
  }

  function Abs(r: real): (a: real)
    ensures a >= 0.0 && (a == r || a == -r)
  {
    if r < 0.0 then -r else r
  }

  /** The check made for coordinate `i`: on the axis the coordinates cancel, elsewhere they agree. */
  predicate CoordinateMatches(a: Vec3, b: Vec3, axis: Axis, margin: real, i: nat)
    requires i < 3
  {
    if i == axis.Index() then Abs(a.At(i) + b.At(i)) < margin
    else Abs(a.At(i) - b.At(i)) < margin
  }

  /** `b` is the mirror image of `a` across the axis plane, within `margin` on every coordinate. */
  predicate Symmetric(a: Vec3, b: Vec3, axis: Axis, margin: real)
  {
    CoordinateMatches(a, b, axis, margin, 0)
    && CoordinateMatches(a, b, axis, margin, 1)
    && CoordinateMatches(a, b, axis, margin, 2)
  }

  /** The nested helper `symmetricals`: one check per coordinate collected in a list, then `all(result)`. */
  method Symmetricals(a: Vec3, b: Vec3, axis: Axis, margin: real) returns (all: bool)
    ensures all == Symmetric(a, b, axis, margin)
  {
    var result: seq<bool> := [];
    for ax := 0 to 3
      invariant |result| == ax
      invariant forall k :: 0 <= k < ax ==> result[k] == CoordinateMatches(a, b, axis, margin, k)
    {
      if ax == axis.Index() {
        result := result + [Abs(a.At(ax) + b.At(ax)) < margin];
      } else {
        result := result + [Abs(a.At(ax) - b.At(ax)) < margin];
      }
    }
    all := forall k :: 0 <= k < |result| ==> result[k];
  }

  /** The position with its axis coordinate negated: its mirror image. */
  function Reflect(p: Vec3, axis: Axis): (q: Vec3)
    ensures q.At(axis.Index()) == -p.At(axis.Index())
    ensures forall i :: 0 <= i < 3 && i != axis.Index() ==> q.At(i) == p.At(i)
  {
    match axis
    case X => p.(x := -p.x)
    case Y => p.(y := -p.y)
    case Z => p.(z := -p.z)
  }

  /** Every vertex of a mesh reflected. */
  function ReflectAll(verts: seq<Vec3>, axis: Axis): (r: seq<Vec3>)
    ensures |r| == |verts|
    ensures forall j :: 0 <= j < |verts| ==> r[j] == Reflect(verts[j], axis)
  {
    seq(|verts|, j requires 0 <= j < |verts| => Reflect(verts[j], axis))
  }

  /** The test is symmetric in its two arguments. */
  lemma SymmetricCommutes(a: Vec3, b: Vec3, axis: Axis, margin: real)
    ensures Symmetric(a, b, axis, margin) == Symmetric(b, a, axis, margin)
  {
  }

  /** With a margin that is not positive no pair of vertices is symmetric. */
  lemma NoneSymmetricWithoutMargin(a: Vec3, b: Vec3, axis: Axis, margin: real)
    requires margin <= 0.0
    ensures !Symmetric(a, b, axis, margin)
  {
    assert !CoordinateMatches(a, b, axis, margin, 0);
  }

  /** Reflecting both vertices across the plane does not change the verdict. */
  lemma SymmetricUnderReflection(a: Vec3, b: Vec3, axis: Axis, margin: real)
    ensures Symmetric(Reflect(a, axis), Reflect(b, axis), axis, margin) == Symmetric(a, b, axis, margin)
  {
  }

  /** On X with margin 0.001: (1,2,3) mirrors (-1,2,3) but not (-1,2.01,3). */
  lemma SymmetricExample()
    ensures Symmetric(Vec3(1.0, 2.0, 3.0), Vec3(-1.0, 2.0, 3.0), X, 0.001)
    ensures !Symmetric(Vec3(1.0, 2.0, 3.0), Vec3(-1.0, 2.01, 3.0), X, 0.001)
  {
  }
}
