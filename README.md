# Blender-Omnitools: a verified model of the mirror-weights pass

Blender-Omnitools is a Blender add-on that bundles small editing commands.
This project models the parts of `OmniTools.py` that compute something
rather than delegating to Blender, and proves properties about them.

**The weight-mirroring pass of `VIEW3D_OT_mirror_weights`** (main core).
- It scans the mesh once, in index order.
- It sorts each vertex by the sign of its coordinate on the chosen axis.
- It keeps two pending lists, `positives` and `negatives`.
- A weighted vertex on the side copied FROM (the *source* side) gives its weight to the first pending vertex on the other side (the *target* side) that mirrors it, within `margin` on every coordinate.
- A target-side vertex takes the weight of the first pending source that mirrors it; otherwise it is reset to 0.0 and queued.

**The active-material index** of the next/previous material select operators.

**The select-half operator.** For each chosen axis it selects the vertices with `co >= margin` on that axis or, with `negative` set, `co < -margin`. The boundary is included on the positive side and excluded on the negative side (OmniTools.py:310).

## Layout

- `wrappers.dfy` (`Wrappers`): `Option`.
- `geometry.dfy` (`Geometry`):
  - vertex positions, the axis enum, and `Symmetric`;
  - `Symmetricals`, the tolerance test as the operator computes it.
- `mirror_spec.dfy` (`MirrorSpec`): a functional specification of the pass.
  - Its state is a `Pass`: the weight channel, the pending source and target lists, and a log of the copies made.
  - `Visit` is one vertex, `Run` is a prefix of the mesh, `MirrorPass` is the whole scan.
  - The specification speaks of source and target sides. With `negative` set, the source list is `negatives`; otherwise it is `positives`.
- `mirror_weights.dfy` (`MirrorWeights`): the operator in imperative form.
  - `VertexGroup` is a class owning the weight map.
  - One method per `self.negative` branch handles one vertex, proved against `Visit`.
  - The main loop is proved equal to `MirrorPass`.
- `mirror_invariant.dfy` (`MirrorInvariant`): the invariant every visit keeps, proved one conjunct at a time.
- `mirror_pairing.dfy` (`MirrorPairing`): a second invariant about matches that were not made, and the per-vertex results it yields.
- `mirror_properties.dfy` (`MirrorProperties`): the guarantees of the pass:
  - which entries may change;
  - the pending lists;
  - one-to-one pairing;
  - resolution of targets;
  - the direction flag as a reflection;
  - idempotence;
  - worked examples.
- `material_slots.dfy` (`MaterialSlots`): `(cur_i ± 1) % am`.
- `select_half.dfy` (`SelectHalf`): the selection flags as an `array<bool>` updated by nested loops.

## Model

| member | source | states |
|---|---|---|
| Geometry.Axis.Index | OmniTools.py:126 | the axis enum maps to tuple positions 0, 1, 2 for X, Y, Z |
| Geometry.Symmetricals | OmniTools.py:132-144 | collecting one check per coordinate and taking `all` is exactly `Symmetric`: the axis coordinates sum to less than `margin` in absolute value, and the other two differ by less than `margin` |
| Geometry.SymmetricCommutes | OmniTools.py:132-144 | the test gives the same answer with its two vertices swapped |
| Geometry.NoneSymmetricWithoutMargin | OmniTools.py:140-142 | with `margin <= 0` no pair of vertices passes, because the comparisons are strict |
| Geometry.SymmetricUnderReflection | OmniTools.py:138-142 | negating the axis coordinate of both vertices does not change the verdict |
| Geometry.SymmetricExample | OmniTools.py:132-144 | on X with margin 0.001, (1,2,3) mirrors (-1,2,3) but not (-1,2.01,3) |
| MirrorSpec.SideOf | OmniTools.py:159-214 | a vertex is on the plane iff its axis coordinate is exactly 0; it is source-side iff the coordinate is < 0 when copying from the negative side (> 0 otherwise); it is target-side iff the coordinate has the opposite sign |
| MirrorSpec.FirstSymmetric | OmniTools.py:169-176 | the search returns a position inside the pending list, or none |
| MirrorSpec.FirstSymmetricIsFirst | OmniTools.py:169-176 | the search finds a match iff some pending vertex mirrors the current one; the match mirrors it; every earlier pending vertex does not |
| MirrorSpec.RemoveAt | OmniTools.py:173 | `pop(n)` removes exactly one element and keeps the others in their order |
| MirrorSpec.Visit | OmniTools.py:157-224 | after a visit, the pending lists hold only visited vertices; every pending source still has a weight; no entry of the channel is ever removed |
| MirrorSpec.Run | OmniTools.py:151-224 | after any prefix of the scan the same holds, starting from empty lists |
| MirrorSpec.MirrorPass | OmniTools.py:151-224 | every vertex that had a weight still has one after the pass |
| MirrorWeights.VertexGroup.constructor | OmniTools.py:125 | the channel starts with the given weights |
| MirrorWeights.VertexGroup.Weight | OmniTools.py:161-165 | reading a weight succeeds iff the vertex is in the channel, and returns its weight; the missing case is the `RuntimeError` the operator catches |
| MirrorWeights.VertexGroup.Add | OmniTools.py:172 | `add(..., "REPLACE")` sets that one entry and leaves every other entry as it was |
| MirrorWeights.FindPartner | OmniTools.py:169-176 | the `for`/`else` loop over the pending list returns the position `MirrorSpec.FirstSymmetric` gives: the first pending vertex that mirrors the current one, or none |
| MirrorWeights.VisitFromNegative | OmniTools.py:159-192 | one vertex with `negative` set leaves the channel and both lists exactly as `Visit` says; the weight read of a matched negative (line 186) cannot fail |
| MirrorWeights.VisitFromPositive | OmniTools.py:195-224 | the same for the other direction, including the read at line 218 |
| MirrorWeights.MirrorWeights | OmniTools.py:151-224 | the whole loop leaves the channel equal to `MirrorPass` of the initial channel |
| MirrorInvariant.RemoveAtAscending | OmniTools.py:173 | popping from an ascending list keeps it ascending; it drops exactly the popped index and keeps every other index |
| MirrorInvariant.VisitNoOp | OmniTools.py:161-165 | an on-plane vertex, or a source-side vertex without a weight (the `continue`), changes nothing and keeps the invariant |
| MirrorInvariant.SourceQueued | OmniTools.py:176 | a weighted source with no pending partner is queued and the invariant is kept |
| MirrorInvariant.SourceMatched | OmniTools.py:171-174 | a weighted source that finds a partner writes its weight there, retires the partner, and keeps the invariant |
| MirrorInvariant.TargetMatched | OmniTools.py:185-189 | a target that finds a pending source reads a weight that exists, copies it, retires the source, and keeps the invariant |
| MirrorInvariant.TargetQueued | OmniTools.py:190-192 | a target with no partner gets 0.0, is queued, and the invariant is kept |
| MirrorInvariant.SourceVisitKeepsInv | OmniTools.py:160-176 | every source-side visit keeps the invariant |
| MirrorInvariant.TargetVisitKeepsInv | OmniTools.py:179-192 | every target-side visit keeps the invariant |
| MirrorInvariant.VisitKeepsInv | OmniTools.py:157-224 | every visit keeps the invariant: the list contents, ascending and disjoint lists, untouched non-targets, valid one-to-one copies, and every visited target pending or served |
| MirrorInvariant.RunKeepsInv | OmniTools.py:151-224 | the invariant holds after every prefix of the scan |
| MirrorInvariant.RunUnvisited | OmniTools.py:154 | a vertex not yet reached has an entry iff it had one initially, and then still holds its initial weight |
| MirrorProperties.OnlyTargetsWritten | OmniTools.py:159-224 | the only entries that can change are those of target-side vertices. Source-side vertices, on-plane vertices and indices outside the mesh keep their weight or stay unassigned |
| MirrorProperties.PendingLists | OmniTools.py:161-192 | pending sources are visited source-side vertices still holding their original weight; pending targets are visited target-side vertices holding 0.0; both lists are ascending and share no index |
| MirrorProperties.MatchingOneToOne | OmniTools.py:169-192 | no vertex donates twice and none receives twice; every copy joins a weighted source to a symmetric target, which holds the source's original weight |
| MirrorProperties.TargetsResolved | OmniTools.py:172-223 | after the pass every target-side vertex has a weight. It is 0.0 or the original weight of a symmetric, weighted source-side vertex |
| MirrorProperties.FirstSymmetricReflected | OmniTools.py:169-176 | searching the reflected mesh for the reflected vertex finds the same position |
| MirrorProperties.VisitReflected | OmniTools.py:195-224 | one visit with `negative` unset equals one visit with `negative` set on the reflected mesh |
| MirrorProperties.RunsAgree | OmniTools.py:154-224 | two scans whose visits agree on every state agree after every prefix |
| MirrorProperties.ReflectedVisitsAgree | OmniTools.py:195-224 | the positive-side visit agrees with the negative-side visit on the reflected mesh for every state |
| MirrorProperties.DirectionIsReflection | OmniTools.py:159-224 | copying from the positive side gives exactly the channel obtained by copying from the negative side on the mesh with every axis coordinate negated |
| MirrorProperties.VisitShape | OmniTools.py:157-224 | the lists and copies after a visit depend on the channel only through whether the visited source-side vertex has a weight |
| MirrorProperties.RunShape | OmniTools.py:151-224 | two scans whose channels weight the same source-side vertices make the same lists and copies |
| MirrorProperties.SecondRunAgrees | OmniTools.py:172-223 | a second scan with the same lists and copies writes back exactly what the first left |
| MirrorProperties.Idempotent | OmniTools.py:151-224 | running the pass on its own result changes nothing |
| MirrorProperties.WorkedExampleNegative | OmniTools.py:159-192 | V0=(-1,0,0) with 0.7, V1=(1,0,0) unset, V2=(0,0,0) with 0.3, on X with margin 0.0001, copying from the negative side: V1 gets 0.7, V0 and V2 are unchanged |
| MirrorProperties.WorkedExamplePositive | OmniTools.py:195-224 | the same mesh copying from the positive side: V0 is reset to 0.0, V1 stays unset, V2 keeps 0.3 |
| MirrorPairing.VisitKeepsUnmatched | OmniTools.py:157-224 | every visit keeps the second invariant: no pending source mirrors a pending target, and every visited weighted source is pending or has donated |
| MirrorPairing.RunKeepsUnmatched | OmniTools.py:151-224 | the second invariant holds after every prefix of the scan |
| MirrorPairing.MirroredWhenPartnerUnique | OmniTools.py:169-192 | if a weighted source and a target are each other's only symmetric partners, the target ends with the source's original weight, whatever the vertex order |
| MirrorPairing.DefaultFill | OmniTools.py:190-223 | a target-side vertex with no weighted symmetric source ends with 0.0 |
| MaterialSlots.NextMaterialIndex | OmniTools.py:57-63 | with at least one slot the new index lies in `[0, am)`; with none there is no result (Python raises `ZeroDivisionError`) |
| MaterialSlots.PreviousMaterialIndex | OmniTools.py:80-86 | the same for the previous index |
| MaterialSlots.NextWraps | OmniTools.py:61 | from a valid slot, next moves one forward and wraps from the last slot to slot 0 |
| MaterialSlots.PreviousWraps | OmniTools.py:84 | from a valid slot, previous moves one back and wraps from slot 0 to the last slot |
| MaterialSlots.NextPreviousInverse | OmniTools.py:57-86 | previous after next, and next after previous, restore any valid index |
| SelectHalf.EffectiveAxes | OmniTools.py:302-304 | with no axis chosen X alone is used; otherwise the choice is kept |
| SelectHalf.OnChosenSide | OmniTools.py:310 | the xor-and-threshold test holds iff `co >= margin` when `negative` is unset, or `co < -margin` when it is set |
| SelectHalf.SelectedOnFirstMeans | OmniTools.py:307-311 | a vertex is marked by the first `n` axes iff one of them is chosen and puts it on the requested side |
| SelectHalf.SelectedMeans | OmniTools.py:307-311 | a vertex is marked iff some chosen axis puts it on the requested side |
| SelectHalf.MarkHalf | OmniTools.py:306-311 | after the nested loops each flag is its old value OR'd with the membership test; flags are only ever set |
| SelectHalf.SelectHalf | OmniTools.py:294-311 | after deselecting all and marking, a flag is set iff its vertex is selected for the effective axes, and the effective axes are returned |

## Left out

- Floating-point rounding: coordinates, `margin` and weights are real numbers. `abs`, `+`, `-` and the comparisons are exact here.
- Host state is made into parameters:
  - The mesh is a sequence of positions.
  - The channel is a `VertexGroup` object. Which group it is (always `vertex_groups[0]`, OmniTools.py:125) is not modelled, and neither is the unused `vertex_group_name` property (line 116).
  - Operator properties are method arguments.
  - The debug `print` (line 278) is not modelled.
- The material operators' `select_all`/`material_slot_select` calls and mode switches are not modelled. Only the index arithmetic is.
- The select-half operator's mode switches and `mesh_select_mode` assignment are not modelled. The deselect-all call is the clearing of the flag array.
- The other operators are not modelled. They are single calls into Blender's data and operator API, or depend on randomness or host transforms:
  - unwrap, this-material select;
  - reinit/save baked images;
  - fake backup, make single user, replace data by active;
  - per-scene Collada export;
  - array rotation jitter;
  - move pivot and `vectorMultiply`.
- `__init__.py` (UI panel and registration) and `utils.py` are not part of this model. The material arithmetic at utils.py:42 duplicates the one modelled here.
- MaterialSlots.NextMaterialIndex: for a current index outside `[0, am)` the contract states only the range of the result, not that it is congruent to the index plus one.
- MaterialSlots.PreviousMaterialIndex: the same, for the index minus one.

Notes on the pass as the code has it:
- A vertex counts as on the plane only when its axis coordinate is exactly 0 (OmniTools.py:160/179, 197/214); `margin` plays no part in that test.
- Idempotence (`MirrorProperties.Idempotent`) holds for every mesh and every starting channel.
- Exact mirroring is proved per vertex, for a source and a target that are each other's only symmetric partners (`MirrorPairing.MirroredWhenPartnerUnique`).
