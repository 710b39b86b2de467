/**
 * A functional specification of the brute-force weight-mirroring pass of the
 * mirror-weights operator. One vertex is visited at a time, in index order;
 * the state after a prefix of the mesh is a `Pass`.
 *
 * The specification is written in terms of the SOURCE side (the side weights
 * are read from) and the TARGET side (the side written to). With `negative`
 * set the source side is the negative one and the source list is the
 * operator's `negatives`; otherwise the roles of the two sides and of the two
 * lists are swapped.
 */
module MirrorSpec {
  import opened Wrappers
  import opened Geometry

  /** Where a vertex lies relative to the direction of copying. */
  datatype Side = Source | Target | OnPlane

  function SideOf(negative: bool, c: real): (side: Side)
    ensures side == OnPlane <==> c == 0.0
    ensures side == Source <==> (if negative then c < 0.0 else c > 0.0)
    ensures side == Target <==> (if negative then c > 0.0 else c < 0.0)
  {
    if negative then
      (if c < 0.0 then Source else if c > 0.0 then Target else OnPlane)
    else
      (if c > 0.0 then Source else if c < 0.0 then Target else OnPlane)
  }

  predicate IsSource(verts: seq<Vec3>, axis: Axis, negative: bool, j: nat)
  {
    j < |verts| && SideOf(negative, verts[j].At(axis.Index())) == Source
  }

  predicate IsTarget(verts: seq<Vec3>, axis: Axis, negative: bool, j: nat)
  {
    j < |verts| && SideOf(negative, verts[j].At(axis.Index())) == Target
  }

  /** One mirrored copy: the weight of `source` was written onto `target`. */
  datatype Pair = Pair(source: nat, target: nat)

  /**
   * The working state of the pass: the weight channel, the pending source-side
   * and target-side vertices, and the log of the mirrored copies made so far.
   */
  datatype Pass = Pass(weights: map<nat, real>, sources: seq<nat>, targets: seq<nat>, pairs: seq<Pair>)

  predicate IndicesBelow(l: seq<nat>, k: nat)
  {
    forall m :: 0 <= m < |l| ==> l[m] < k
  }

  /**
   * The pending lists only hold vertices already visited, and every pending
   * source carries a weight: what makes the unguarded weight read of a
   * matched source well defined.
   */
  predicate Pending(k: nat, s: Pass)
  {
    IndicesBelow(s.sources, k)
    && IndicesBelow(s.targets, k)
    && forall m :: 0 <= m < |s.sources| ==> s.sources[m] in s.weights
  }

  /**
   * The position in `pending` of the first vertex symmetric to `co`, scanning
   * the list from the front (the `for ... else` search).
   */
  function FirstSymmetric(verts: seq<Vec3>, pending: seq<nat>, co: Vec3, axis: Axis, margin: real): (r: Option<nat>)
    requires IndicesBelow(pending, |verts|)
    ensures r.Some? ==> r.value < |pending|
  {
    if pending == [] then None
    else if Symmetric(verts[pending[0]], co, axis, margin) then Some(0)
    else
      match FirstSymmetric(verts, pending[1..], co, axis, margin)
      case None => None
      case Some(n) => Some(n + 1)
  }

  /**
   * The search finds a symmetric vertex exactly when there is one, and then
   * the first one in list order: every earlier candidate fails the test.
   */
  lemma {:induction false} FirstSymmetricIsFirst(verts: seq<Vec3>, pending: seq<nat>, co: Vec3, axis: Axis, margin: real)
    requires IndicesBelow(pending, |verts|)
    ensures var r := FirstSymmetric(verts, pending, co, axis, margin);
      && (r.Some? ==> r.value < |pending| && Symmetric(verts[pending[r.value]], co, axis, margin))
      && (r.Some? ==> forall m :: 0 <= m < r.value ==> !Symmetric(verts[pending[m]], co, axis, margin))
      && (r.None? ==> forall m :: 0 <= m < |pending| ==> !Symmetric(verts[pending[m]], co, axis, margin))
  {
    if pending != [] && !Symmetric(verts[pending[0]], co, axis, margin) {
      FirstSymmetricIsFirst(verts, pending[1..], co, axis, margin);
      var r := FirstSymmetric(verts, pending[1..], co, axis, margin);
      forall m | 0 <= m < |pending| && (r.None? || m <= r.value)
        ensures m <= |pending[1..]| && (m > 0 ==> pending[m] == pending[1..][m - 1])
      {
      }
    }
  }

  /** `list.pop(n)`: the list without its `n`-th element, the others kept in order. */
  function RemoveAt(l: seq<nat>, n: nat): (r: seq<nat>)
    requires n < |l|
    ensures |r| == |l| - 1
    ensures forall k :: 0 <= k < n ==> r[k] == l[k]
    ensures forall k :: n <= k < |r| ==> r[k] == l[k + 1]
  {
    l[..n] + l[n + 1..]
  }

  /** The effect of visiting vertex `i`. */
  function Visit(verts: seq<Vec3>, axis: Axis, margin: real, negative: bool, s: Pass, i: nat): (r: Pass)
    requires i < |verts| && Pending(i, s)
    ensures Pending(i + 1, r)
    ensures r.weights.Keys >= s.weights.Keys
  {
    match SideOf(negative, verts[i].At(axis.Index()))
    case OnPlane => s
    case Source =>
      if i !in s.weights then s  // no weight to copy: `continue`
      else
        (match FirstSymmetric(verts, s.targets, verts[i], axis, margin)
         case Some(n) =>
           s.(weights := s.weights[s.targets[n] := s.weights[i]],
              targets := RemoveAt(s.targets, n),
              pairs := s.pairs + [Pair(i, s.targets[n])])
         case None =>
           s.(sources := s.sources + [i]))
    case Target =>
      match FirstSymmetric(verts, s.sources, verts[i], axis, margin)
      case Some(n) =>
        s.(weights := s.weights[i := s.weights[s.sources[n]]],
           sources := RemoveAt(s.sources, n),
           pairs := s.pairs + [Pair(s.sources[n], i)])
      case None =>
        s.(weights := s.weights[i := 0.0],
           targets := s.targets + [i])
  }

  /** The state after visiting vertices `0 .. k-1`, starting from the channel `w0`. */
  function Run(verts: seq<Vec3>, w0: map<nat, real>, axis: Axis, margin: real, negative: bool, k: nat): (s: Pass)
    requires k <= |verts|
    ensures Pending(k, s)
    ensures s.weights.Keys >= w0.Keys
  {
    if k == 0 then Pass(w0, [], [], [])
    else Visit(verts, axis, margin, negative, Run(verts, w0, axis, margin, negative, k - 1), k - 1)
  }

  /** The weight channel after the whole pass. */
  function MirrorPass(verts: seq<Vec3>, w0: map<nat, real>, axis: Axis, margin: real, negative: bool): (w: map<nat, real>)
    ensures w.Keys >= w0.Keys
  {
    Run(verts, w0, axis, margin, negative, |verts|).weights
  }
}
