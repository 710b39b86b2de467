/**
 * What the mirroring pass guarantees, stated on the functional specification
 * (and so, through `MirrorWeights.MirrorWeights`, on the operator itself).
 */
module MirrorProperties {
  import opened Geometry
  import opened MirrorSpec
  import opened MirrorInvariant

  /**
   * After any number of visited vertices, the only entries of the channel that
   * may have changed belong to target-side vertices (axis coordinate > 0 when
   * copying from the negative side, < 0 otherwise). Source-side vertices,
   * on-plane vertices and indices outside the mesh keep their weight, or stay
   * unassigned.
   */
  lemma OnlyTargetsWritten(verts: seq<Vec3>, w0: map<nat, real>, axis: Axis, margin: real, negative: bool, k: nat)
    requires k <= |verts|
    ensures var w := Run(verts, w0, axis, margin, negative, k).weights;
      forall j: nat :: !(j < |verts| && (if negative then verts[j].At(axis.Index()) > 0.0 else verts[j].At(axis.Index()) < 0.0)) ==>
        (j in w <==> j in w0) && (j in w0 ==> w[j] == w0[j])
  {
    RunKeepsInv(verts, w0, axis, margin, negative, k);
  }

  /**
   * The pending lists during the scan: pending sources are visited
   * source-side vertices that still hold their original weight (so reading it
   * cannot fail), pending targets are visited target-side vertices holding
   * 0.0, both lists are in ascending index order, and no index is in both.
   */
  lemma PendingLists(verts: seq<Vec3>, w0: map<nat, real>, axis: Axis, margin: real, negative: bool, k: nat)
    requires k <= |verts|
    ensures var s := Run(verts, w0, axis, margin, negative, k);
      && (forall m :: 0 <= m < |s.sources| ==>
            s.sources[m] < k && IsSource(verts, axis, negative, s.sources[m])
            && s.sources[m] in w0 && s.sources[m] in s.weights && s.weights[s.sources[m]] == w0[s.sources[m]])
      && (forall m :: 0 <= m < |s.targets| ==>
            s.targets[m] < k && IsTarget(verts, axis, negative, s.targets[m])
            && s.targets[m] in s.weights && s.weights[s.targets[m]] == 0.0)
      && (forall a, b :: 0 <= a < b < |s.sources| ==> s.sources[a] < s.sources[b])
      && (forall a, b :: 0 <= a < b < |s.targets| ==> s.targets[a] < s.targets[b])
      && (forall a, b :: 0 <= a < |s.sources| && 0 <= b < |s.targets| ==> s.sources[a] != s.targets[b])
  {
    RunKeepsInv(verts, w0, axis, margin, negative, k);
    var s := Run(verts, w0, axis, margin, negative, k);
    forall m | 0 <= m < |s.sources|
      ensures s.sources[m] in w0 && s.weights[s.sources[m]] == w0[s.sources[m]]
    {
      assert !IsTarget(verts, axis, negative, s.sources[m]);
    }
  }

  /**
   * Mirrored copies are one-to-one: no source-side vertex donates its weight
   * twice, no target-side vertex receives two copies, and every copy joins a
   * weighted source to a target symmetric to it, which keeps the source's
   * original weight.
   */
  lemma MatchingOneToOne(verts: seq<Vec3>, w0: map<nat, real>, axis: Axis, margin: real, negative: bool, k: nat)
    requires k <= |verts|
    ensures var s := Run(verts, w0, axis, margin, negative, k);
      && (forall a, b :: 0 <= a < b < |s.pairs| ==>
            s.pairs[a].source != s.pairs[b].source && s.pairs[a].target != s.pairs[b].target)
      && (forall m :: 0 <= m < |s.pairs| ==>
            var p := s.pairs[m];
            IsSource(verts, axis, negative, p.source) && IsTarget(verts, axis, negative, p.target)
            && Symmetric(verts[p.source], verts[p.target], axis, margin)
            && p.source in w0 && p.target in s.weights && s.weights[p.target] == w0[p.source])
  {
    RunKeepsInv(verts, w0, axis, margin, negative, k);
    var s := Run(verts, w0, axis, margin, negative, k);
    forall m | 0 <= m < |s.pairs|
      ensures var p := s.pairs[m];
        IsSource(verts, axis, negative, p.source) && IsTarget(verts, axis, negative, p.target)
        && Symmetric(verts[p.source], verts[p.target], axis, margin)
        && p.source in w0 && p.target in s.weights && s.weights[p.target] == w0[p.source]
    {
      assert PairValid(verts, w0, axis, margin, negative, s.pairs[m]);
    }
  }

  /**
   * After the pass every target-side vertex has a weight, and that weight is
   * either the default 0.0 or the original weight of a source-side vertex
   * symmetric to it.
   */
  lemma TargetsResolved(verts: seq<Vec3>, w0: map<nat, real>, axis: Axis, margin: real, negative: bool)
    ensures var w := MirrorPass(verts, w0, axis, margin, negative);
      forall j :: 0 <= j < |verts| && IsTarget(verts, axis, negative, j) ==>
        j in w
        && (w[j] == 0.0
            || exists src: nat ::
                 IsSource(verts, axis, negative, src) && src in w0
                 && Symmetric(verts[src], verts[j], axis, margin) && w[j] == w0[src])
  {
    var n := |verts|;
    RunResolves(verts, w0, axis, margin, negative, n);
    var s := Run(verts, w0, axis, margin, negative, n);
    forall j | 0 <= j < n && IsTarget(verts, axis, negative, j)
      ensures j in s.weights
        && (s.weights[j] == 0.0
            || exists src: nat ::
                 IsSource(verts, axis, negative, src) && src in w0
                 && Symmetric(verts[src], verts[j], axis, margin) && s.weights[j] == w0[src])
    {
      assert j in s.targets || PairedTarget(s.pairs, j);
      if j in s.targets {
        var q :| 0 <= q < |s.targets| && s.targets[q] == j;
        assert s.weights[s.targets[q]] == 0.0;
      } else {
        var m :| 0 <= m < |s.pairs| && s.pairs[m].target == j;
        var src := s.pairs[m].source;
        assert PairValid(verts, w0, axis, margin, negative, s.pairs[m]);
        assert IsSource(verts, axis, negative, src) && src in w0
               && Symmetric(verts[src], verts[j], axis, margin) && s.weights[j] == w0[src];
      }
    }
  }

  // ----- direction flag: the positive-to-negative pass is the reflection of the negative-to-positive one -----

  lemma {:induction false} FirstSymmetricReflected(verts: seq<Vec3>, pending: seq<nat>, co: Vec3, axis: Axis, margin: real)
    requires IndicesBelow(pending, |verts|)
    ensures FirstSymmetric(ReflectAll(verts, axis), pending, Reflect(co, axis), axis, margin)
         == FirstSymmetric(verts, pending, co, axis, margin)
  {
    if pending != [] {
      SymmetricUnderReflection(verts[pending[0]], co, axis, margin);
      FirstSymmetricReflected(verts, pending[1..], co, axis, margin);
    }
  }

  lemma VisitReflected(verts: seq<Vec3>, axis: Axis, margin: real, s: Pass, i: nat)
    requires i < |verts| && Pending(i, s)
    ensures Visit(verts, axis, margin, false, s, i) == Visit(ReflectAll(verts, axis), axis, margin, true, s, i)
  {
    var rv := ReflectAll(verts, axis);
    assert rv[i] == Reflect(verts[i], axis);
    assert SideOf(false, verts[i].At(axis.Index())) == SideOf(true, rv[i].At(axis.Index()));
    FirstSymmetricReflected(verts, s.sources, verts[i], axis, margin);
    FirstSymmetricReflected(verts, s.targets, verts[i], axis, margin);
  }

  /** Two scans whose visits have the same effect on every reachable state. */
  ghost predicate VisitsAgree(v1: seq<Vec3>, n1: bool, v2: seq<Vec3>, n2: bool, axis: Axis, margin: real)
    requires |v1| == |v2|
  {
    forall s: Pass, i: nat :: i < |v1| && Pending(i, s) ==>
      Visit(v1, axis, margin, n1, s, i) == Visit(v2, axis, margin, n2, s, i)
  }

  /** Scans whose visits agree produce the same state after every prefix. */
  lemma {:induction false} RunsAgree(v1: seq<Vec3>, n1: bool, v2: seq<Vec3>, n2: bool, w0: map<nat, real>,
                                     axis: Axis, margin: real, k: nat)
    requires k <= |v1| == |v2| && VisitsAgree(v1, n1, v2, n2, axis, margin)
    ensures Run(v1, w0, axis, margin, n1, k) == Run(v2, w0, axis, margin, n2, k)
  {
    if k > 0 {
      RunsAgree(v1, n1, v2, n2, w0, axis, margin, k - 1);
      var s := Run(v1, w0, axis, margin, n1, k - 1);
      assert Visit(v1, axis, margin, n1, s, k - 1) == Visit(v2, axis, margin, n2, s, k - 1);
    }
  }

  /** Visiting from the positive side is visiting from the negative side on the reflected mesh. */
  lemma ReflectedVisitsAgree(verts: seq<Vec3>, axis: Axis, margin: real)
    ensures |ReflectAll(verts, axis)| == |verts|
    ensures VisitsAgree(verts, false, ReflectAll(verts, axis), true, axis, margin)
  {
    forall s: Pass, i: nat | i < |verts| && Pending(i, s)
      ensures Visit(verts, axis, margin, false, s, i) == Visit(ReflectAll(verts, axis), axis, margin, true, s, i)
    {
      VisitReflected(verts, axis, margin, s, i);
    }
  }

  /**
   * Copying from the positive side gives the same channel as copying from the
   * negative side on the mesh with every axis coordinate negated.
   */
  lemma DirectionIsReflection(verts: seq<Vec3>, w0: map<nat, real>, axis: Axis, margin: real)
    ensures MirrorPass(verts, w0, axis, margin, false) == MirrorPass(ReflectAll(verts, axis), w0, axis, margin, true)
  {
    ReflectedVisitsAgree(verts, axis, margin);
    RunsAgree(verts, false, ReflectAll(verts, axis), true, w0, axis, margin, |verts|);
  }

  // ----- running the pass twice -----

  /** The state without its weight channel: the pending lists and the copies made. */
  function Shape(s: Pass): (r: Pass)
    ensures r.sources == s.sources && r.targets == s.targets && r.pairs == s.pairs
  {
    s.(weights := map[])
  }

  lemma VisitShape(verts: seq<Vec3>, axis: Axis, margin: real, negative: bool, s0: Pass, s1: Pass, i: nat)
    requires i < |verts| && Pending(i, s0) && Pending(i, s1)
    requires Shape(s0) == Shape(s1)
    requires IsSource(verts, axis, negative, i) ==> (i in s0.weights <==> i in s1.weights)
    ensures Shape(Visit(verts, axis, margin, negative, s0, i)) == Shape(Visit(verts, axis, margin, negative, s1, i))
  {
    assert s0.sources == s1.sources && s0.targets == s1.targets && s0.pairs == s1.pairs;
  }

  /** The vertex about to be visited is weighted in both scans or in neither. */
  lemma RunShapeKey(verts: seq<Vec3>, w0: map<nat, real>, w1: map<nat, real>, axis: Axis, margin: real,
                    negative: bool, k: nat)
    requires k < |verts|
    requires forall j: nat :: IsSource(verts, axis, negative, j) ==> (j in w0 <==> j in w1)
    ensures IsSource(verts, axis, negative, k) ==>
      (k in Run(verts, w0, axis, margin, negative, k).weights <==> k in Run(verts, w1, axis, margin, negative, k).weights)
  {
    RunUnvisited(verts, w0, axis, margin, negative, k, k);
    RunUnvisited(verts, w1, axis, margin, negative, k, k);
  }

  /** The lists and the copies made depend on the initial channel only through which source-side vertices carry a weight. */
  lemma {:induction false} RunShape(verts: seq<Vec3>, w0: map<nat, real>, w1: map<nat, real>, axis: Axis, margin: real,
                                    negative: bool, k: nat)
    requires k <= |verts|
    requires forall j: nat :: IsSource(verts, axis, negative, j) ==> (j in w0 <==> j in w1)
    ensures Shape(Run(verts, w0, axis, margin, negative, k)) == Shape(Run(verts, w1, axis, margin, negative, k))
  {
    if k > 0 {
      RunShape(verts, w0, w1, axis, margin, negative, k - 1);
      RunShapeKey(verts, w0, w1, axis, margin, negative, k - 1);
      VisitShape(verts, axis, margin, negative, Run(verts, w0, axis, margin, negative, k - 1),
                 Run(verts, w1, axis, margin, negative, k - 1), k - 1);
    }
  }

  /** A second run over the same lists and copies writes back exactly the values the first run left. */
  lemma SecondRunAgrees(verts: seq<Vec3>, w0: map<nat, real>, axis: Axis, margin: real, negative: bool,
                        s: Pass, t: Pass)
    requires Untouched(verts, w0, axis, negative, |verts|, s.weights)
    requires Untouched(verts, s.weights, axis, negative, |verts|, t.weights)
    requires Covered(verts, axis, negative, |verts|, s.targets, s.pairs)
    requires TargetsQueued(verts, axis, negative, s.targets, s.weights)
    requires TargetsQueued(verts, axis, negative, t.targets, t.weights)
    requires PairsValid(verts, w0, axis, margin, negative, s.pairs)
    requires PairsLanded(w0, s.weights, s.pairs) && PairsLanded(s.weights, t.weights, t.pairs)
    requires s.targets == t.targets && s.pairs == t.pairs
    ensures t.weights == s.weights
  {
    var w1, w2 := s.weights, t.weights;
    forall j: nat | IsTarget(verts, axis, negative, j)
      ensures j in w1 && j in w2 && w2[j] == w1[j]
    {
      if j in s.targets {
        var q :| 0 <= q < |s.targets| && s.targets[q] == j;
        assert t.targets[q] == j;
      } else {
        var m :| 0 <= m < |s.pairs| && s.pairs[m].target == j;
        assert PairValid(verts, w0, axis, margin, negative, s.pairs[m]);
        assert !IsTarget(verts, axis, negative, s.pairs[m].source);
      }
    }
    forall j: nat | !IsTarget(verts, axis, negative, j)
      ensures (j in w2 <==> j in w1) && (j in w1 ==> w2[j] == w1[j])
    {
    }
    assert w2.Keys == w1.Keys;
  }

  /** Running the pass a second time changes nothing. */
  lemma Idempotent(verts: seq<Vec3>, w0: map<nat, real>, axis: Axis, margin: real, negative: bool)
    ensures var w1 := MirrorPass(verts, w0, axis, margin, negative);
      MirrorPass(verts, w1, axis, margin, negative) == w1
  {
    var n := |verts|;
    var s := Run(verts, w0, axis, margin, negative, n);
    var t := Run(verts, s.weights, axis, margin, negative, n);
    RunUntouched(verts, w0, axis, margin, negative, n);
    RunUntouched(verts, s.weights, axis, margin, negative, n);
    RunResolves(verts, w0, axis, margin, negative, n);
    RunResolves(verts, s.weights, axis, margin, negative, n);
    forall j: nat | IsSource(verts, axis, negative, j) ensures j in w0 <==> j in s.weights {
      assert !IsTarget(verts, axis, negative, j);
    }
    RunShape(verts, w0, s.weights, axis, margin, negative, n);
    assert Shape(s).targets == Shape(t).targets && Shape(s).pairs == Shape(t).pairs;
    SecondRunAgrees(verts, w0, axis, margin, negative, s, t);
  }

  // ----- the worked examples -----

  /**
   * V0 = (-1,0,0) with 0.7, V1 = (1,0,0) unassigned, V2 = (0,0,0) with 0.3, on X
   * with margin 0.0001, copying from the negative side: V1 receives 0.7 and
   * the others keep their weights.
   */
  lemma WorkedExampleNegative()
    ensures MirrorPass([Vec3(-1.0, 0.0, 0.0), Vec3(1.0, 0.0, 0.0), Vec3(0.0, 0.0, 0.0)],
                       map[0 := 0.7, 2 := 0.3], X, 0.0001, true)
         == map[0 := 0.7, 1 := 0.7, 2 := 0.3]
  {
    var verts := [Vec3(-1.0, 0.0, 0.0), Vec3(1.0, 0.0, 0.0), Vec3(0.0, 0.0, 0.0)];
    var w0 := map[0 := 0.7, 2 := 0.3];
    assert Symmetric(verts[0], verts[1], X, 0.0001);
    assert Run(verts, w0, X, 0.0001, true, 1) == Pass(w0, [0], [], []);
    assert Run(verts, w0, X, 0.0001, true, 2) == Pass(w0[1 := 0.7], [], [], [Pair(0, 1)]);
  }

  /**
   * The same mesh copying from the positive side: V1 has no weight to give,
   * so V0 is reset to 0.0, V1 stays unassigned and V2 keeps 0.3.
   */
  lemma WorkedExamplePositive()
    ensures MirrorPass([Vec3(-1.0, 0.0, 0.0), Vec3(1.0, 0.0, 0.0), Vec3(0.0, 0.0, 0.0)],
                       map[0 := 0.7, 2 := 0.3], X, 0.0001, false)
         == map[0 := 0.0, 2 := 0.3]
  {
    var verts := [Vec3(-1.0, 0.0, 0.0), Vec3(1.0, 0.0, 0.0), Vec3(0.0, 0.0, 0.0)];
    var w0 := map[0 := 0.7, 2 := 0.3];
    assert Run(verts, w0, X, 0.0001, false, 1) == Pass(w0[0 := 0.0], [], [0], []);
    assert Run(verts, w0, X, 0.0001, false, 2) == Pass(w0[0 := 0.0], [], [0], []);
  }
}
