/**
 * A second invariant of the mirroring pass, about the pairs it did NOT make:
 * no pending source is a mirror image of a pending target, and every visited
 * source-side vertex that carries a weight is either still pending or has
 * donated it. From it follow the two guarantees about individual vertices:
 * a target whose only weighted mirror image is `src` receives `src`'s weight,
 * and a target with no weighted mirror image at all gets the default 0.0.
 */
module MirrorPairing {
  import opened Geometry
  import opened MirrorSpec
  import opened MirrorInvariant
  import opened MirrorProperties

  /** No pending source is symmetric to a pending target. */
  ghost predicate Apart(verts: seq<Vec3>, axis: Axis, margin: real, sources: seq<nat>, targets: seq<nat>)
  {
    forall a, b :: 0 <= a < |sources| && 0 <= b < |targets| && sources[a] < |verts| && targets[b] < |verts| ==>
      !Symmetric(verts[sources[a]], verts[targets[b]], axis, margin)
  }

  ghost predicate PairedSource(pairs: seq<Pair>, j: nat)
  {
    exists m :: 0 <= m < |pairs| && pairs[m].source == j
  }

  /** Every visited weighted source-side vertex is still pending or has donated its weight. */
  ghost predicate SourcesCovered(verts: seq<Vec3>, w0: map<nat, real>, axis: Axis, negative: bool, k: nat,
                                 sources: seq<nat>, pairs: seq<Pair>)
  {
    forall j: nat :: j < k && IsSource(verts, axis, negative, j) && j in w0 ==> j in sources || PairedSource(pairs, j)
  }

  ghost predicate Unmatched(verts: seq<Vec3>, w0: map<nat, real>, axis: Axis, margin: real, negative: bool, k: nat, s: Pass)
  {
    Apart(verts, axis, margin, s.sources, s.targets)
    && SourcesCovered(verts, w0, axis, negative, k, s.sources, s.pairs)
  }

  // ----- the five outcomes of a visit -----

  lemma NoOpUnmatched(verts: seq<Vec3>, w0: map<nat, real>, axis: Axis, negative: bool, k: nat, sources: seq<nat>, pairs: seq<Pair>)
    requires SourcesCovered(verts, w0, axis, negative, k, sources, pairs)
    requires !(IsSource(verts, axis, negative, k) && k in w0)
    ensures SourcesCovered(verts, w0, axis, negative, k + 1, sources, pairs)
  {
  }

  lemma SourceQueuedUnmatched(verts: seq<Vec3>, w0: map<nat, real>, axis: Axis, margin: real, negative: bool,
                              k: nat, sources: seq<nat>, targets: seq<nat>, pairs: seq<Pair>)
    requires k < |verts| && IndicesBelow(targets, |verts|)
    requires Apart(verts, axis, margin, sources, targets)
    requires SourcesCovered(verts, w0, axis, negative, k, sources, pairs)
    requires forall m :: 0 <= m < |targets| ==> !Symmetric(verts[targets[m]], verts[k], axis, margin)
    ensures Apart(verts, axis, margin, sources + [k], targets)
    ensures SourcesCovered(verts, w0, axis, negative, k + 1, sources + [k], pairs)
  {
    var ss := sources + [k];
    forall a, b | 0 <= a < |ss| && 0 <= b < |targets| && ss[a] < |verts| && targets[b] < |verts|
      ensures !Symmetric(verts[ss[a]], verts[targets[b]], axis, margin)
    {
      if a == |sources| {
        SymmetricCommutes(verts[k], verts[targets[b]], axis, margin);
      }
    }
    forall j: nat | j < k + 1 && IsSource(verts, axis, negative, j) && j in w0
      ensures j in ss || PairedSource(pairs, j)
    {
      if j == k {
        assert ss[|sources|] == k;
      } else if j in sources {
        var q :| 0 <= q < |sources| && sources[q] == j;
        assert ss[q] == j;
      }
    }
  }

  lemma SourceMatchedUnmatched(verts: seq<Vec3>, w0: map<nat, real>, axis: Axis, margin: real, negative: bool,
                               k: nat, sources: seq<nat>, targets: seq<nat>, pairs: seq<Pair>, n: nat)
    requires n < |targets|
    requires Apart(verts, axis, margin, sources, targets)
    requires SourcesCovered(verts, w0, axis, negative, k, sources, pairs)
    ensures Apart(verts, axis, margin, sources, RemoveAt(targets, n))
    ensures SourcesCovered(verts, w0, axis, negative, k + 1, sources, pairs + [Pair(k, targets[n])])
  {
    var ts := RemoveAt(targets, n);
    var ps := pairs + [Pair(k, targets[n])];
    forall a, b | 0 <= a < |sources| && 0 <= b < |ts| && sources[a] < |verts| && ts[b] < |verts|
      ensures !Symmetric(verts[sources[a]], verts[ts[b]], axis, margin)
    {
      if b < n { assert ts[b] == targets[b]; } else { assert ts[b] == targets[b + 1]; }
    }
    forall j: nat | j < k + 1 && IsSource(verts, axis, negative, j) && j in w0
      ensures j in sources || PairedSource(ps, j)
    {
      if j == k {
        assert ps[|pairs|].source == k;
      } else if !(j in sources) {
        var m :| 0 <= m < |pairs| && pairs[m].source == j;
        assert ps[m].source == j;
      }
    }
  }

  lemma TargetMatchedUnmatched(verts: seq<Vec3>, w0: map<nat, real>, axis: Axis, margin: real, negative: bool,
                               k: nat, sources: seq<nat>, targets: seq<nat>, pairs: seq<Pair>, n: nat)
    requires n < |sources| && Ascending(sources)
    requires !IsSource(verts, axis, negative, k)
    requires Apart(verts, axis, margin, sources, targets)
    requires SourcesCovered(verts, w0, axis, negative, k, sources, pairs)
    ensures Apart(verts, axis, margin, RemoveAt(sources, n), targets)
    ensures SourcesCovered(verts, w0, axis, negative, k + 1, RemoveAt(sources, n), pairs + [Pair(sources[n], k)])
  {
    var ss := RemoveAt(sources, n);
    var ps := pairs + [Pair(sources[n], k)];
    RemoveAtAscending(sources, n);
    forall a, b | 0 <= a < |ss| && 0 <= b < |targets| && ss[a] < |verts| && targets[b] < |verts|
      ensures !Symmetric(verts[ss[a]], verts[targets[b]], axis, margin)
    {
      if a < n { assert ss[a] == sources[a]; } else { assert ss[a] == sources[a + 1]; }
    }
    forall j: nat | j < k + 1 && IsSource(verts, axis, negative, j) && j in w0
      ensures j in ss || PairedSource(ps, j)
    {
      if j == sources[n] {
        assert ps[|pairs|].source == j;
      } else if !(j in sources) {
        var m :| 0 <= m < |pairs| && pairs[m].source == j;
        assert ps[m].source == j;
      }
    }
  }

  lemma TargetQueuedUnmatched(verts: seq<Vec3>, w0: map<nat, real>, axis: Axis, margin: real, negative: bool,
                              k: nat, sources: seq<nat>, targets: seq<nat>, pairs: seq<Pair>)
    requires k < |verts| && !IsSource(verts, axis, negative, k)
    requires Apart(verts, axis, margin, sources, targets)
    requires SourcesCovered(verts, w0, axis, negative, k, sources, pairs)
    requires forall m :: 0 <= m < |sources| && sources[m] < |verts| ==> !Symmetric(verts[sources[m]], verts[k], axis, margin)
    ensures Apart(verts, axis, margin, sources, targets + [k])
    ensures SourcesCovered(verts, w0, axis, negative, k + 1, sources, pairs)
  {
    var ts := targets + [k];
    forall a, b | 0 <= a < |sources| && 0 <= b < |ts| && sources[a] < |verts| && ts[b] < |verts|
      ensures !Symmetric(verts[sources[a]], verts[ts[b]], axis, margin)
    {
      if b < |targets| { assert ts[b] == targets[b]; }
    }
  }

  /** Visiting one more vertex keeps the second invariant (given the first). */
  lemma VisitKeepsUnmatched(verts: seq<Vec3>, w0: map<nat, real>, axis: Axis, margin: real, negative: bool, k: nat, s: Pass)
    requires k < |verts| && Pending(k, s) && Ascending(s.sources)
    requires !IsTarget(verts, axis, negative, k) ==> (k in s.weights <==> k in w0)
    requires Unmatched(verts, w0, axis, margin, negative, k, s)
    ensures Unmatched(verts, w0, axis, margin, negative, k + 1, Visit(verts, axis, margin, negative, s, k))
  {
    match SideOf(negative, verts[k].At(axis.Index()))
    case OnPlane =>
      NoOpUnmatched(verts, w0, axis, negative, k, s.sources, s.pairs);
    case Source =>
      if k !in s.weights {
        NoOpUnmatched(verts, w0, axis, negative, k, s.sources, s.pairs);
      } else {
        FirstSymmetricIsFirst(verts, s.targets, verts[k], axis, margin);
        match FirstSymmetric(verts, s.targets, verts[k], axis, margin)
        case Some(n) =>
          SourceMatchedUnmatched(verts, w0, axis, margin, negative, k, s.sources, s.targets, s.pairs, n);
        case None =>
          SourceQueuedUnmatched(verts, w0, axis, margin, negative, k, s.sources, s.targets, s.pairs);
      }
    case Target =>
      FirstSymmetricIsFirst(verts, s.sources, verts[k], axis, margin);
      match FirstSymmetric(verts, s.sources, verts[k], axis, margin)
      case Some(n) =>
        TargetMatchedUnmatched(verts, w0, axis, margin, negative, k, s.sources, s.targets, s.pairs, n);
      case None =>
        TargetQueuedUnmatched(verts, w0, axis, margin, negative, k, s.sources, s.targets, s.pairs);
  }

  /** The facts of the first invariant that a visit needs here. */
  lemma RunVisitFacts(verts: seq<Vec3>, w0: map<nat, real>, axis: Axis, margin: real, negative: bool, k: nat)
    requires k < |verts|
    ensures var s := Run(verts, w0, axis, margin, negative, k);
      Ascending(s.sources) && (!IsTarget(verts, axis, negative, k) ==> (k in s.weights <==> k in w0))
  {
    RunKeepsInv(verts, w0, axis, margin, negative, k);
  }

  lemma RunStepUnmatched(verts: seq<Vec3>, w0: map<nat, real>, axis: Axis, margin: real, negative: bool, k: nat)
    requires 0 < k <= |verts|
    requires Unmatched(verts, w0, axis, margin, negative, k - 1, Run(verts, w0, axis, margin, negative, k - 1))
    ensures Unmatched(verts, w0, axis, margin, negative, k, Run(verts, w0, axis, margin, negative, k))
  {
    var s := Run(verts, w0, axis, margin, negative, k - 1);
    RunVisitFacts(verts, w0, axis, margin, negative, k - 1);
    VisitKeepsUnmatched(verts, w0, axis, margin, negative, k - 1, s);
  }

  /** The second invariant holds after every prefix of the scan. */
  lemma {:induction false} RunKeepsUnmatched(verts: seq<Vec3>, w0: map<nat, real>, axis: Axis, margin: real, negative: bool, k: nat)
    requires k <= |verts|
    ensures Unmatched(verts, w0, axis, margin, negative, k, Run(verts, w0, axis, margin, negative, k))
  {
    if k > 0 {
      RunKeepsUnmatched(verts, w0, axis, margin, negative, k - 1);
      RunStepUnmatched(verts, w0, axis, margin, negative, k);
    }
  }

  // ----- what it means for single vertices -----

  /**
   * Symmetric meshes are mirrored exactly: if `src` is a weighted source-side
   * vertex whose only target-side mirror image is `j`, and `src` is the only
   * weighted source-side mirror image of `j`, then `j` ends up with `src`'s
   * original weight, whatever the order of the vertices.
   */
  lemma MirroredWhenPartnerUnique(verts: seq<Vec3>, w0: map<nat, real>, axis: Axis, margin: real, negative: bool,
                                  src: nat, j: nat)
    requires IsSource(verts, axis, negative, src) && src in w0
    requires IsTarget(verts, axis, negative, j) && Symmetric(verts[src], verts[j], axis, margin)
    requires forall t: nat :: IsTarget(verts, axis, negative, t) && Symmetric(verts[src], verts[t], axis, margin) ==> t == j
    requires forall x: nat :: IsSource(verts, axis, negative, x) && x in w0 && Symmetric(verts[x], verts[j], axis, margin) ==> x == src
    ensures var w := MirrorPass(verts, w0, axis, margin, negative);
      j in w && w[j] == w0[src]
  {
    var n := |verts|;
    var s := Run(verts, w0, axis, margin, negative, n);
    RunKeepsInv(verts, w0, axis, margin, negative, n);
    RunKeepsUnmatched(verts, w0, axis, margin, negative, n);
    if j in s.targets {
      assert false;
    } else {
      assert PairedTarget(s.pairs, j);
      var m :| 0 <= m < |s.pairs| && s.pairs[m].target == j;
      assert PairValid(verts, w0, axis, margin, negative, s.pairs[m]);
      assert s.pairs[m].source == src;
    }
  }

  /** A target-side vertex that has no weighted mirror image on the source side gets the default 0.0. */
  lemma DefaultFill(verts: seq<Vec3>, w0: map<nat, real>, axis: Axis, margin: real, negative: bool, j: nat)
    requires IsTarget(verts, axis, negative, j)
    requires forall x: nat :: IsSource(verts, axis, negative, x) && x in w0 ==> !Symmetric(verts[x], verts[j], axis, margin)
    ensures var w := MirrorPass(verts, w0, axis, margin, negative);
      j in w && w[j] == 0.0
  {
    TargetsResolved(verts, w0, axis, margin, negative);
  }
}
