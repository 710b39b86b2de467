/**
 * The mirror-weights operator as the program runs it: one scan over the
 * vertices, two pending index lists, and a weight channel updated in place.
 */
module MirrorWeights {
  import opened Wrappers
  import opened Geometry
  import opened MirrorSpec

  /** The weight channel (the object's first vertex group): a partial map from vertex index to weight. */
  class VertexGroup {
    var weights: map<nat, real>

    constructor (initial: map<nat, real>)
      ensures weights == initial
    {
      weights := initial;
    }

    /** `vertex_group.weight(index)`; `None` stands for the RuntimeError raised for an unassigned vertex. */
    method Weight(index: nat) returns (w: Option<real>)
      ensures w.Some? <==> index in weights
      ensures w.Some? ==> w.value == weights[index]
    {
      if index in weights {
        w := Some(weights[index]);
      } else {
        w := None;
      }
    }

    /** `vertex_group.add((index,), weight, "REPLACE")`: overwrite (or assign) one entry. */
    method Add(index: nat, weight: real)
      modifies this
      ensures weights == old(weights)[index := weight]
    {
      weights := weights[index := weight];
    }
  }

  /** The inner `for n, other in enumerate(pending)` search that stops at the first symmetric vertex. */
  method FindPartner(verts: seq<Vec3>, pending: seq<nat>, co: Vec3, axis: Axis, margin: real) returns (found: Option<nat>)
    requires IndicesBelow(pending, |verts|)
    ensures found == FirstSymmetric(verts, pending, co, axis, margin)
  {
    var n := 0;
    while n < |pending|
      invariant n <= |pending|
      invariant forall m :: 0 <= m < n ==> !Symmetric(verts[pending[m]], co, axis, margin)
    {
      var isMirror := Symmetricals(verts[pending[n]], co, axis, margin);
      if isMirror {
        FirstSymmetricIsFirst(verts, pending, co, axis, margin);
        return Some(n);
      }
      n := n + 1;
    }
    FirstSymmetricIsFirst(verts, pending, co, axis, margin);
    return None;
  }

  /**
   * One vertex of the scan when copying from the negative side: a weighted
   * negative vertex gives its weight to the first pending positive vertex
   * that mirrors it, or waits in `negatives`; a positive vertex takes the
   * weight of the first pending negative vertex that mirrors it, or is
   * reset to 0.0 and waits in `positives`.
   */
  method VisitFromNegative(verts: seq<Vec3>, group: VertexGroup, axis: Axis, margin: real, i: nat,
                           positives: seq<nat>, negatives: seq<nat>, ghost s: Pass)
    returns (newPositives: seq<nat>, newNegatives: seq<nat>)
    requires i < |verts| && Pending(i, s)
    requires group.weights == s.weights && negatives == s.sources && positives == s.targets
    modifies group
    ensures var r := Visit(verts, axis, margin, true, s, i);
      group.weights == r.weights && newNegatives == r.sources && newPositives == r.targets
  {
    newPositives, newNegatives := positives, negatives;
    var co := verts[i];
    var c := co.At(axis.Index());
    if c < 0.0 {
      var w := group.Weight(i);
      if w.None? {
        return;
      }
      var found := FindPartner(verts, positives, co, axis, margin);
      match found {
        case Some(n) =>
          group.Add(positives[n], w.value);
          newPositives := RemoveAt(positives, n);
        case None =>
          newNegatives := negatives + [i];
      }
    } else if c > 0.0 {
      var found := FindPartner(verts, negatives, co, axis, margin);
      match found {
        case Some(n) =>
          var w := group.Weight(negatives[n]);
          group.Add(i, w.value);
          newNegatives := RemoveAt(negatives, n);
        case None =>
          group.Add(i, 0.0);
          newPositives := positives + [i];
      }
    }
  }

  /** One vertex of the scan when copying from the positive side: the same with the two sides swapped. */
  method VisitFromPositive(verts: seq<Vec3>, group: VertexGroup, axis: Axis, margin: real, i: nat,
                           positives: seq<nat>, negatives: seq<nat>, ghost s: Pass)
    returns (newPositives: seq<nat>, newNegatives: seq<nat>)
    requires i < |verts| && Pending(i, s)
    requires group.weights == s.weights && positives == s.sources && negatives == s.targets
    modifies group
    ensures var r := Visit(verts, axis, margin, false, s, i);
      group.weights == r.weights && newPositives == r.sources && newNegatives == r.targets
  {
    newPositives, newNegatives := positives, negatives;
    var co := verts[i];
    var c := co.At(axis.Index());
    if c > 0.0 {
      var w := group.Weight(i);
      if w.None? {
        return;
      }
      var found := FindPartner(verts, negatives, co, axis, margin);
      match found {
        case Some(n) =>
          group.Add(negatives[n], w.value);
          newNegatives := RemoveAt(negatives, n);
        case None =>
          newPositives := positives + [i];
      }
    } else if c < 0.0 {
      var found := FindPartner(verts, positives, co, axis, margin);
      match found {
        case Some(n) =>
          var w := group.Weight(positives[n]);
          group.Add(i, w.value);
          newPositives := RemoveAt(positives, n);
        case None =>
          group.Add(i, 0.0);
          newNegatives := negatives + [i];
      }
    }
  }

  /** The body of the operator: mirror the channel's weights across the plane of `axis`, one vertex at a time. */
  method MirrorWeights(verts: seq<Vec3>, group: VertexGroup, axis: Axis, margin: real, negative: bool)
    modifies group
    ensures group.weights == MirrorPass(verts, old(group.weights), axis, margin, negative)
  {
    ghost var w0 := group.weights;
    ghost var spec := Run(verts, w0, axis, margin, negative, 0);
    var positives: seq<nat> := [];
    var negatives: seq<nat> := [];
    for i := 0 to |verts|
      invariant spec == Run(verts, w0, axis, margin, negative, i)
      invariant group.weights == spec.weights
      invariant negative ==> negatives == spec.sources && positives == spec.targets
      invariant !negative ==> positives == spec.sources && negatives == spec.targets
    {
      if negative {
        positives, negatives := VisitFromNegative(verts, group, axis, margin, i, positives, negatives, spec);
      } else {
        positives, negatives := VisitFromPositive(verts, group, axis, margin, i, positives, negatives, spec);
      }
      assert Run(verts, w0, axis, margin, negative, i + 1) == Visit(verts, axis, margin, negative, spec, i);
      spec := Visit(verts, axis, margin, negative, spec, i);
    }
  }
}
