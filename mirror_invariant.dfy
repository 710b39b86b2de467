/**
 * The invariant kept by every step of the mirroring pass, and its proof.
 * Each conjunct mentions only the parts of the state it is about, so that
 * every step is proved one conjunct at a time.
 */
module MirrorInvariant {
  import opened Geometry
  import opened MirrorSpec

  /** Strictly increasing, hence free of repetitions. */
  ghost predicate Ascending(l: seq<nat>)
  {
    forall a, b :: 0 <= a < b < |l| ==> l[a] < l[b]
  }

  /** Pending sources are source-side vertices that carried a weight from the start. */
  ghost predicate SourcesQueued(verts: seq<Vec3>, w0: map<nat, real>, axis: Axis, negative: bool, sources: seq<nat>)
  {
    forall m :: 0 <= m < |sources| ==> IsSource(verts, axis, negative, sources[m]) && sources[m] in w0
  }

  /** Pending targets are target-side vertices that were given the default 0.0. */
  ghost predicate TargetsQueued(verts: seq<Vec3>, axis: Axis, negative: bool, targets: seq<nat>, w: map<nat, real>)
  {
    forall m :: 0 <= m < |targets| ==>
      IsTarget(verts, axis, negative, targets[m]) && targets[m] in w && w[targets[m]] == 0.0
  }

  /** Only visited target-side vertices may differ from the initial channel. */
  ghost predicate Untouched(verts: seq<Vec3>, w0: map<nat, real>, axis: Axis, negative: bool, k: nat, w: map<nat, real>)
  {
    forall j: nat :: !(j < k && IsTarget(verts, axis, negative, j)) ==>
      (j in w <==> j in w0) && (j in w0 ==> w[j] == w0[j])
  }

  /** A mirrored copy joins a weighted source-side vertex to a symmetric target-side vertex. */
  ghost predicate PairValid(verts: seq<Vec3>, w0: map<nat, real>, axis: Axis, margin: real, negative: bool, p: Pair)
  {
    IsSource(verts, axis, negative, p.source) && IsTarget(verts, axis, negative, p.target)
    && p.source in w0 && Symmetric(verts[p.source], verts[p.target], axis, margin)
  }

  ghost predicate PairsValid(verts: seq<Vec3>, w0: map<nat, real>, axis: Axis, margin: real, negative: bool, pairs: seq<Pair>)
  {
    forall m :: 0 <= m < |pairs| ==> PairValid(verts, w0, axis, margin, negative, pairs[m])
  }

  /** Both ends of every copy were visited. */
  ghost predicate PairsBelow(k: nat, pairs: seq<Pair>)
  {
    forall m :: 0 <= m < |pairs| ==> pairs[m].source < k && pairs[m].target < k
  }

  /** Every target of a copy still holds the weight its source had from the start. */
  ghost predicate PairsLanded(w0: map<nat, real>, w: map<nat, real>, pairs: seq<Pair>)
  {
    forall m :: 0 <= m < |pairs| ==>
      pairs[m].source in w0 && pairs[m].target in w && w[pairs[m].target] == w0[pairs[m].source]
  }

  /** No vertex donates twice and no vertex receives twice. */
  ghost predicate OneToOne(pairs: seq<Pair>)
  {
    forall a, b :: 0 <= a < b < |pairs| ==> pairs[a].source != pairs[b].source && pairs[a].target != pairs[b].target
  }

  /** A vertex that took part in a copy is no longer pending. */
  ghost predicate Retired(pairs: seq<Pair>, sources: seq<nat>, targets: seq<nat>)
  {
    (forall m, q :: 0 <= m < |pairs| && 0 <= q < |sources| ==> pairs[m].source != sources[q])
    && (forall m, q :: 0 <= m < |pairs| && 0 <= q < |targets| ==> pairs[m].target != targets[q])
  }

  ghost predicate PairedTarget(pairs: seq<Pair>, j: nat)
  {
    exists m :: 0 <= m < |pairs| && pairs[m].target == j
  }

  /** Every visited target-side vertex is either still pending or has received a copy. */
  ghost predicate Covered(verts: seq<Vec3>, axis: Axis, negative: bool, k: nat, targets: seq<nat>, pairs: seq<Pair>)
  {
    forall j: nat :: j < k && IsTarget(verts, axis, negative, j) ==> j in targets || PairedTarget(pairs, j)
  }

  ghost predicate Inv(verts: seq<Vec3>, w0: map<nat, real>, axis: Axis, margin: real, negative: bool, k: nat, s: Pass)
  {
    && Pending(k, s)
    && SourcesQueued(verts, w0, axis, negative, s.sources)
    && TargetsQueued(verts, axis, negative, s.targets, s.weights)
    && Ascending(s.sources) && Ascending(s.targets)
    && Untouched(verts, w0, axis, negative, k, s.weights)
    && PairsValid(verts, w0, axis, margin, negative, s.pairs)
    && PairsBelow(k, s.pairs)
    && PairsLanded(w0, s.weights, s.pairs)
    && OneToOne(s.pairs)
    && Retired(s.pairs, s.sources, s.targets)
    && Covered(verts, axis, negative, k, s.targets, s.pairs)
  }

  // ----- list facts -----

  /** `pop(n)` keeps an ascending list ascending, drops exactly the popped element and keeps every other one. */
  lemma RemoveAtAscending(l: seq<nat>, n: nat)
    requires n < |l| && Ascending(l)
    ensures Ascending(RemoveAt(l, n))
    ensures l[n] !in RemoveAt(l, n)
    ensures forall x :: x in RemoveAt(l, n) ==> x in l
    ensures forall x :: x in l && x != l[n] ==> x in RemoveAt(l, n)
  {
    var r := RemoveAt(l, n);
    forall x | x in r ensures x in l && x != l[n] {
      var k :| 0 <= k < |r| && r[k] == x;
      if k < n { assert r[k] == l[k]; } else { assert r[k] == l[k + 1]; }
    }
    forall x | x in l && x != l[n] ensures x in r {
      var k :| 0 <= k < |l| && l[k] == x;
      if k < n { assert r[k] == x; } else { assert k > n; assert r[k - 1] == x; }
    }
  }

  /** Appending an index above every entry keeps a list ascending. */
  lemma AppendAscending(l: seq<nat>, k: nat)
    requires Ascending(l) && IndicesBelow(l, k)
    ensures Ascending(l + [k])
  {
  }

  // ----- conjuncts that only see the scan advance -----

  lemma UntouchedAdvance(verts: seq<Vec3>, w0: map<nat, real>, axis: Axis, negative: bool, k: nat, w: map<nat, real>)
    requires Untouched(verts, w0, axis, negative, k, w) && !IsTarget(verts, axis, negative, k)
    ensures Untouched(verts, w0, axis, negative, k + 1, w)
  {
    forall j: nat | !(j < k + 1 && IsTarget(verts, axis, negative, j))
      ensures (j in w <==> j in w0) && (j in w0 ==> w[j] == w0[j])
    {
    }
  }

  lemma CoveredAdvance(verts: seq<Vec3>, axis: Axis, negative: bool, k: nat, targets: seq<nat>, pairs: seq<Pair>)
    requires Covered(verts, axis, negative, k, targets, pairs) && !IsTarget(verts, axis, negative, k)
    ensures Covered(verts, axis, negative, k + 1, targets, pairs)
  {
  }

  lemma PendingAdvance(k: nat, s: Pass)
    requires Pending(k, s)
    ensures Pending(k + 1, s)
  {
  }

  // ----- the five outcomes of a visit -----

  /** A vertex on the plane, or a source-side vertex without weight, leaves the state as it is. */
  lemma VisitNoOp(verts: seq<Vec3>, w0: map<nat, real>, axis: Axis, margin: real, negative: bool, k: nat, s: Pass)
    requires k < |verts| && Inv(verts, w0, axis, margin, negative, k, s)
    requires !IsTarget(verts, axis, negative, k)
    ensures Inv(verts, w0, axis, margin, negative, k + 1, s)
  {
    PendingAdvance(k, s);
    UntouchedAdvance(verts, w0, axis, negative, k, s.weights);
    CoveredAdvance(verts, axis, negative, k, s.targets, s.pairs);
  }

  /** A weighted source with no pending partner is queued. */
  lemma SourceQueued(verts: seq<Vec3>, w0: map<nat, real>, axis: Axis, margin: real, negative: bool, k: nat, s: Pass)
    requires k < |verts| && Inv(verts, w0, axis, margin, negative, k, s)
    requires IsSource(verts, axis, negative, k) && k in s.weights
    ensures Inv(verts, w0, axis, margin, negative, k + 1, s.(sources := s.sources + [k]))
  {
    var r := s.(sources := s.sources + [k]);
    assert k in w0;
    AppendAscending(s.sources, k);
    UntouchedAdvance(verts, w0, axis, negative, k, s.weights);
    CoveredAdvance(verts, axis, negative, k, s.targets, s.pairs);
    assert SourcesQueued(verts, w0, axis, negative, r.sources);
    assert Retired(r.pairs, r.sources, r.targets);
    assert Pending(k + 1, r);
  }

  lemma TargetQueuedFrame(w0: map<nat, real>, k: nat, s: Pass)
    requires Pending(k, s) && PairsBelow(k, s.pairs) && PairsLanded(w0, s.weights, s.pairs)
    requires Retired(s.pairs, s.sources, s.targets)
    ensures PairsLanded(w0, s.weights[k := 0.0], s.pairs)
    ensures Retired(s.pairs, s.sources, s.targets + [k])
    ensures PairsBelow(k + 1, s.pairs)
    ensures Pending(k + 1, s.(weights := s.weights[k := 0.0], targets := s.targets + [k]))
  {
  }

  lemma TargetQueuedCovered(verts: seq<Vec3>, axis: Axis, negative: bool, k: nat, targets: seq<nat>, pairs: seq<Pair>)
    requires Covered(verts, axis, negative, k, targets, pairs)
    ensures Covered(verts, axis, negative, k + 1, targets + [k], pairs)
  {
    forall j: nat | j < k + 1 && IsTarget(verts, axis, negative, j)
      ensures j in targets + [k] || PairedTarget(pairs, j)
    {
      if j == k {
        assert (targets + [k])[|targets|] == k;
      } else if j in targets {
        var q :| 0 <= q < |targets| && targets[q] == j;
        assert (targets + [k])[q] == j;
      }
    }
  }

  lemma TargetQueuedWeights(verts: seq<Vec3>, w0: map<nat, real>, axis: Axis, negative: bool, k: nat, targets: seq<nat>, w: map<nat, real>)
    requires IsTarget(verts, axis, negative, k) && IndicesBelow(targets, k)
    requires TargetsQueued(verts, axis, negative, targets, w) && Untouched(verts, w0, axis, negative, k, w)
    ensures TargetsQueued(verts, axis, negative, targets + [k], w[k := 0.0])
    ensures Untouched(verts, w0, axis, negative, k + 1, w[k := 0.0])
  {
    var r := w[k := 0.0];
    forall j: nat | !(j < k + 1 && IsTarget(verts, axis, negative, j))
      ensures (j in r <==> j in w0) && (j in w0 ==> r[j] == w0[j])
    {
    }
  }

  /** A target with no pending partner is given the default 0.0 and queued. */
  lemma TargetQueued(verts: seq<Vec3>, w0: map<nat, real>, axis: Axis, margin: real, negative: bool, k: nat, s: Pass)
    requires k < |verts| && Inv(verts, w0, axis, margin, negative, k, s)
    requires IsTarget(verts, axis, negative, k)
    ensures Inv(verts, w0, axis, margin, negative, k + 1,
                s.(weights := s.weights[k := 0.0], targets := s.targets + [k]))
  {
    AppendAscending(s.targets, k);
    TargetQueuedFrame(w0, k, s);
    TargetQueuedCovered(verts, axis, negative, k, s.targets, s.pairs);
    TargetQueuedWeights(verts, w0, axis, negative, k, s.targets, s.weights);
  }

  lemma SourceMatchedPairs(verts: seq<Vec3>, w0: map<nat, real>, axis: Axis, margin: real, negative: bool,
                           k: nat, s: Pass, n: nat)
    requires k < |verts| && Pending(k, s)
    requires IsSource(verts, axis, negative, k) && k in s.weights
    requires n < |s.targets| && Symmetric(verts[s.targets[n]], verts[k], axis, margin)
    requires TargetsQueued(verts, axis, negative, s.targets, s.weights)
    requires Untouched(verts, w0, axis, negative, k, s.weights)
    requires PairsValid(verts, w0, axis, margin, negative, s.pairs) && PairsBelow(k, s.pairs)
    requires PairsLanded(w0, s.weights, s.pairs) && OneToOne(s.pairs) && Retired(s.pairs, s.sources, s.targets)
    ensures var ps := s.pairs + [Pair(k, s.targets[n])];
      && PairsValid(verts, w0, axis, margin, negative, ps)
      && PairsBelow(k + 1, ps)
      && PairsLanded(w0, s.weights[s.targets[n] := s.weights[k]], ps)
      && OneToOne(ps)
  {
    var t := s.targets[n];
    var ps := s.pairs + [Pair(k, t)];
    var w := s.weights[t := s.weights[k]];
    SymmetricCommutes(verts[t], verts[k], axis, margin);
    assert k in w0 && s.weights[k] == w0[k];
    assert PairValid(verts, w0, axis, margin, negative, Pair(k, t));
    forall m | 0 <= m < |ps|
      ensures ps[m].source in w0 && ps[m].target in w && w[ps[m].target] == w0[ps[m].source]
    {
      if m < |s.pairs| {
        assert s.pairs[m].target != s.targets[n];
      }
    }
    forall a, b | 0 <= a < b < |ps|
      ensures ps[a].source != ps[b].source && ps[a].target != ps[b].target
    {
      if b == |s.pairs| {
        assert ps[a].source < k;
        assert ps[a].target != s.targets[n];
      }
    }
  }

  lemma SourceMatchedLists(verts: seq<Vec3>, w0: map<nat, real>, axis: Axis, negative: bool,
                           k: nat, s: Pass, n: nat)
    requires k < |verts| && Pending(k, s)
    requires IsSource(verts, axis, negative, k) && k in s.weights
    requires n < |s.targets| && Ascending(s.targets)
    requires TargetsQueued(verts, axis, negative, s.targets, s.weights)
    requires Untouched(verts, w0, axis, negative, k, s.weights)
    ensures var t := s.targets[n];
      var w := s.weights[t := s.weights[k]];
      var ts := RemoveAt(s.targets, n);
      && Ascending(ts)
      && TargetsQueued(verts, axis, negative, ts, w)
      && Untouched(verts, w0, axis, negative, k + 1, w)
      && Pending(k + 1, s.(weights := w, targets := ts, pairs := s.pairs + [Pair(k, t)]))
  {
    var t := s.targets[n];
    var w := s.weights[t := s.weights[k]];
    var ts := RemoveAt(s.targets, n);
    RemoveAtAscending(s.targets, n);
    assert t < k && IsTarget(verts, axis, negative, t);
    forall m | 0 <= m < |ts|
      ensures IsTarget(verts, axis, negative, ts[m]) && ts[m] in w && w[ts[m]] == 0.0 && ts[m] < k + 1
    {
      assert ts[m] in s.targets && ts[m] != t;
    }
    forall j: nat | !(j < k + 1 && IsTarget(verts, axis, negative, j))
      ensures (j in w <==> j in w0) && (j in w0 ==> w[j] == w0[j])
    {
    }
  }

  lemma SourceMatchedRetires(verts: seq<Vec3>, axis: Axis, negative: bool, k: nat, s: Pass, n: nat)
    requires k < |verts| && Pending(k, s)
    requires IsSource(verts, axis, negative, k)
    requires n < |s.targets| && Ascending(s.targets)
    requires PairsBelow(k, s.pairs) && Retired(s.pairs, s.sources, s.targets)
    requires Covered(verts, axis, negative, k, s.targets, s.pairs)
    ensures var t := s.targets[n];
      var ts := RemoveAt(s.targets, n);
      var ps := s.pairs + [Pair(k, t)];
      && Retired(ps, s.sources, ts)
      && Covered(verts, axis, negative, k + 1, ts, ps)
  {
    var t := s.targets[n];
    var ts := RemoveAt(s.targets, n);
    var ps := s.pairs + [Pair(k, t)];
    RemoveAtAscending(s.targets, n);
    forall m, q | 0 <= m < |ps| && 0 <= q < |ts|
      ensures ps[m].target != ts[q]
    {
      assert ts[q] in s.targets;
    }
    forall m, q | 0 <= m < |ps| && 0 <= q < |s.sources|
      ensures ps[m].source != s.sources[q]
    {
    }
    forall j: nat | j < k + 1 && IsTarget(verts, axis, negative, j)
      ensures j in ts || PairedTarget(ps, j)
    {
      if j == t {
        assert ps[|s.pairs|].target == j;
      } else if j in s.targets {
        assert j in ts;
      } else {
        var m :| 0 <= m < |s.pairs| && s.pairs[m].target == j;
        assert ps[m].target == j;
      }
    }
  }

  /** A weighted source that finds the pending target at position `n` copies its weight there. */
  lemma SourceMatched(verts: seq<Vec3>, w0: map<nat, real>, axis: Axis, margin: real, negative: bool, k: nat, s: Pass, n: nat)
    requires k < |verts| && Inv(verts, w0, axis, margin, negative, k, s)
    requires IsSource(verts, axis, negative, k) && k in s.weights
    requires n < |s.targets| && Symmetric(verts[s.targets[n]], verts[k], axis, margin)
    ensures Inv(verts, w0, axis, margin, negative, k + 1,
                s.(weights := s.weights[s.targets[n] := s.weights[k]],
                   targets := RemoveAt(s.targets, n),
                   pairs := s.pairs + [Pair(k, s.targets[n])]))
  {
    SourceMatchedPairs(verts, w0, axis, margin, negative, k, s, n);
    SourceMatchedLists(verts, w0, axis, negative, k, s, n);
    SourceMatchedRetires(verts, axis, negative, k, s, n);
  }

  lemma TargetMatchedPairs(verts: seq<Vec3>, w0: map<nat, real>, axis: Axis, margin: real, negative: bool,
                           k: nat, s: Pass, n: nat)
    requires k < |verts| && Pending(k, s)
    requires IsTarget(verts, axis, negative, k)
    requires n < |s.sources| && Symmetric(verts[s.sources[n]], verts[k], axis, margin)
    requires SourcesQueued(verts, w0, axis, negative, s.sources)
    requires Untouched(verts, w0, axis, negative, k, s.weights)
    requires PairsValid(verts, w0, axis, margin, negative, s.pairs) && PairsBelow(k, s.pairs)
    requires PairsLanded(w0, s.weights, s.pairs) && OneToOne(s.pairs) && Retired(s.pairs, s.sources, s.targets)
    ensures var src := s.sources[n];
      var ps := s.pairs + [Pair(src, k)];
      && PairsValid(verts, w0, axis, margin, negative, ps)
      && PairsBelow(k + 1, ps)
      && src in s.weights
      && PairsLanded(w0, s.weights[k := s.weights[src]], ps)
      && OneToOne(ps)
  {
    var src := s.sources[n];
    var ps := s.pairs + [Pair(src, k)];
    var w := s.weights[k := s.weights[src]];
    assert src < k && IsSource(verts, axis, negative, src) && src in w0;
    assert s.weights[src] == w0[src];
    assert PairValid(verts, w0, axis, margin, negative, Pair(src, k));
    forall m | 0 <= m < |ps|
      ensures ps[m].source in w0 && ps[m].target in w && w[ps[m].target] == w0[ps[m].source]
    {
    }
    forall a, b | 0 <= a < b < |ps|
      ensures ps[a].source != ps[b].source && ps[a].target != ps[b].target
    {
      if b == |s.pairs| {
        assert ps[a].target < k;
        assert ps[a].source != s.sources[n];
      }
    }
  }

  lemma TargetMatchedLists(verts: seq<Vec3>, w0: map<nat, real>, axis: Axis, negative: bool,
                           k: nat, s: Pass, n: nat)
    requires k < |verts| && Pending(k, s)
    requires IsTarget(verts, axis, negative, k)
    requires n < |s.sources| && Ascending(s.sources)
    requires SourcesQueued(verts, w0, axis, negative, s.sources)
    requires TargetsQueued(verts, axis, negative, s.targets, s.weights)
    requires Untouched(verts, w0, axis, negative, k, s.weights)
    ensures var src := s.sources[n];
      var w := s.weights[k := s.weights[src]];
      var ss := RemoveAt(s.sources, n);
      && Ascending(ss)
      && SourcesQueued(verts, w0, axis, negative, ss)
      && TargetsQueued(verts, axis, negative, s.targets, w)
      && Untouched(verts, w0, axis, negative, k + 1, w)
      && Pending(k + 1, s.(weights := w, sources := ss, pairs := s.pairs + [Pair(src, k)]))
  {
    var src := s.sources[n];
    var w := s.weights[k := s.weights[src]];
    var ss := RemoveAt(s.sources, n);
    RemoveAtAscending(s.sources, n);
    forall m | 0 <= m < |ss|
      ensures IsSource(verts, axis, negative, ss[m]) && ss[m] in w0 && ss[m] < k + 1 && ss[m] in w
    {
      assert ss[m] in s.sources;
    }
    forall m | 0 <= m < |s.targets|
      ensures s.targets[m] in w && w[s.targets[m]] == 0.0 && s.targets[m] < k + 1
    {
      assert s.targets[m] < k;
    }
    forall j: nat | !(j < k + 1 && IsTarget(verts, axis, negative, j))
      ensures (j in w <==> j in w0) && (j in w0 ==> w[j] == w0[j])
    {
    }
  }

  lemma TargetMatchedRetires(verts: seq<Vec3>, axis: Axis, negative: bool, k: nat, s: Pass, n: nat)
    requires k < |verts| && Pending(k, s)
    requires IsTarget(verts, axis, negative, k)
    requires n < |s.sources| && Ascending(s.sources)
    requires PairsBelow(k, s.pairs) && Retired(s.pairs, s.sources, s.targets)
    requires Covered(verts, axis, negative, k, s.targets, s.pairs)
    ensures var src := s.sources[n];
      var ss := RemoveAt(s.sources, n);
      var ps := s.pairs + [Pair(src, k)];
      && Retired(ps, ss, s.targets)
      && Covered(verts, axis, negative, k + 1, s.targets, ps)
  {
    var src := s.sources[n];
    var ss := RemoveAt(s.sources, n);
    var ps := s.pairs + [Pair(src, k)];
    RemoveAtAscending(s.sources, n);
    forall m, q | 0 <= m < |ps| && 0 <= q < |ss|
      ensures ps[m].source != ss[q]
    {
      assert ss[q] in s.sources;
    }
    forall m, q | 0 <= m < |ps| && 0 <= q < |s.targets|
      ensures ps[m].target != s.targets[q]
    {
      if m == |s.pairs| {
        assert s.targets[q] < k;
      }
    }
    forall j: nat | j < k + 1 && IsTarget(verts, axis, negative, j)
      ensures j in s.targets || PairedTarget(ps, j)
    {
      if j == k {
        assert ps[|s.pairs|].target == j;
      } else if !(j in s.targets) {
        var m :| 0 <= m < |s.pairs| && s.pairs[m].target == j;
        assert ps[m].target == j;
      }
    }
  }

  /** A target that finds the pending source at position `n` receives that source's weight. */
  lemma TargetMatched(verts: seq<Vec3>, w0: map<nat, real>, axis: Axis, margin: real, negative: bool, k: nat, s: Pass, n: nat)
    requires k < |verts| && Inv(verts, w0, axis, margin, negative, k, s)
    requires IsTarget(verts, axis, negative, k)
    requires n < |s.sources| && Symmetric(verts[s.sources[n]], verts[k], axis, margin)
    ensures s.sources[n] in s.weights
    ensures Inv(verts, w0, axis, margin, negative, k + 1,
                s.(weights := s.weights[k := s.weights[s.sources[n]]],
                   sources := RemoveAt(s.sources, n),
                   pairs := s.pairs + [Pair(s.sources[n], k)]))
  {
    TargetMatchedPairs(verts, w0, axis, margin, negative, k, s, n);
    TargetMatchedLists(verts, w0, axis, negative, k, s, n);
    TargetMatchedRetires(verts, axis, negative, k, s, n);
  }

  /** Visiting a source-side vertex keeps the invariant. */
  lemma SourceVisitKeepsInv(verts: seq<Vec3>, w0: map<nat, real>, axis: Axis, margin: real, negative: bool, k: nat, s: Pass)
    requires k < |verts| && Inv(verts, w0, axis, margin, negative, k, s)
    requires IsSource(verts, axis, negative, k)
    ensures Inv(verts, w0, axis, margin, negative, k + 1, Visit(verts, axis, margin, negative, s, k))
  {
    if k !in s.weights {
      VisitNoOp(verts, w0, axis, margin, negative, k, s);
    } else {
      FirstSymmetricIsFirst(verts, s.targets, verts[k], axis, margin);
      match FirstSymmetric(verts, s.targets, verts[k], axis, margin)
      case Some(n) =>
        SourceMatched(verts, w0, axis, margin, negative, k, s, n);
      case None =>
        SourceQueued(verts, w0, axis, margin, negative, k, s);
    }
  }

  /** Visiting a target-side vertex keeps the invariant. */
  lemma TargetVisitKeepsInv(verts: seq<Vec3>, w0: map<nat, real>, axis: Axis, margin: real, negative: bool, k: nat, s: Pass)
    requires k < |verts| && Inv(verts, w0, axis, margin, negative, k, s)
    requires IsTarget(verts, axis, negative, k)
    ensures Inv(verts, w0, axis, margin, negative, k + 1, Visit(verts, axis, margin, negative, s, k))
  {
    FirstSymmetricIsFirst(verts, s.sources, verts[k], axis, margin);
    match FirstSymmetric(verts, s.sources, verts[k], axis, margin)
    case Some(n) =>
      TargetMatched(verts, w0, axis, margin, negative, k, s, n);
    case None =>
      TargetQueued(verts, w0, axis, margin, negative, k, s);
  }

  /** Visiting one more vertex keeps the invariant. */
  lemma VisitKeepsInv(verts: seq<Vec3>, w0: map<nat, real>, axis: Axis, margin: real, negative: bool, k: nat, s: Pass)
    requires k < |verts| && Inv(verts, w0, axis, margin, negative, k, s)
    ensures Inv(verts, w0, axis, margin, negative, k + 1, Visit(verts, axis, margin, negative, s, k))
  {
    match SideOf(negative, verts[k].At(axis.Index()))
    case OnPlane =>
      VisitNoOp(verts, w0, axis, margin, negative, k, s);
    case Source =>
      SourceVisitKeepsInv(verts, w0, axis, margin, negative, k, s);
    case Target =>
      TargetVisitKeepsInv(verts, w0, axis, margin, negative, k, s);
  }

  lemma RunStep(verts: seq<Vec3>, w0: map<nat, real>, axis: Axis, margin: real, negative: bool, k: nat)
    requires 0 < k <= |verts|
    requires Inv(verts, w0, axis, margin, negative, k - 1, Run(verts, w0, axis, margin, negative, k - 1))
    ensures Inv(verts, w0, axis, margin, negative, k, Run(verts, w0, axis, margin, negative, k))
  {
    VisitKeepsInv(verts, w0, axis, margin, negative, k - 1, Run(verts, w0, axis, margin, negative, k - 1));
  }

  /** The invariant holds after every prefix of the scan. */
  lemma {:induction false} RunKeepsInv(verts: seq<Vec3>, w0: map<nat, real>, axis: Axis, margin: real, negative: bool, k: nat)
    requires k <= |verts|
    ensures Inv(verts, w0, axis, margin, negative, k, Run(verts, w0, axis, margin, negative, k))
  {
    if k > 0 {
      RunKeepsInv(verts, w0, axis, margin, negative, k - 1);
      RunStep(verts, w0, axis, margin, negative, k);
    }
  }

  /** The parts of the invariant that the theorems about a whole run use. */
  lemma RunUntouched(verts: seq<Vec3>, w0: map<nat, real>, axis: Axis, margin: real, negative: bool, k: nat)
    requires k <= |verts|
    ensures Untouched(verts, w0, axis, negative, k, Run(verts, w0, axis, margin, negative, k).weights)
  {
    RunKeepsInv(verts, w0, axis, margin, negative, k);
  }

  lemma RunResolves(verts: seq<Vec3>, w0: map<nat, real>, axis: Axis, margin: real, negative: bool, k: nat)
    requires k <= |verts|
    ensures var s := Run(verts, w0, axis, margin, negative, k);
      && Covered(verts, axis, negative, k, s.targets, s.pairs)
      && TargetsQueued(verts, axis, negative, s.targets, s.weights)
      && PairsValid(verts, w0, axis, margin, negative, s.pairs)
      && PairsLanded(w0, s.weights, s.pairs)
  {
    RunKeepsInv(verts, w0, axis, margin, negative, k);
  }

  /** A vertex not yet visited still has its initial entry (or none). */
  lemma RunUnvisited(verts: seq<Vec3>, w0: map<nat, real>, axis: Axis, margin: real, negative: bool, k: nat, j: nat)
    requires k <= |verts| && k <= j
    ensures j in Run(verts, w0, axis, margin, negative, k).weights <==> j in w0
    ensures j in w0 ==> Run(verts, w0, axis, margin, negative, k).weights[j] == w0[j]
  {
    RunUntouched(verts, w0, axis, margin, negative, k);
  }
}
