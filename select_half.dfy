/**
 * The select-half operator: select every vertex lying on one side of the
 * plane through the pivot (the origin) for any of the chosen axes, `margin`
 * away from it. The mesh's per-vertex selection flags are an array that the
 * operator first clears and then only ever sets.
 */
module SelectHalf {
  import opened Geometry

  /** The operator's XYZ boolean vector property. */
  datatype AxisFlags = AxisFlags(x: bool, y: bool, z: bool) {
    function At(i: nat): (b: bool)
      requires i < 3
    {
      if i == 0 then x else if i == 1 then y else z
    }

    predicate Any()
    {
      x || y || z
    }
  }

  /** With no axis chosen the operator falls back to X; otherwise it keeps the choice. */
  function EffectiveAxes(flags: AxisFlags): (r: AxisFlags)
    ensures r.Any()
    ensures flags.Any() ==> r == flags
    ensures !flags.Any() ==> r.x && !r.y && !r.z
  {
    if !flags.Any() then AxisFlags(true, false, false) else flags
  }

  function BoolToInt(b: bool): (n: int)
  {
    if b then 1 else 0
  }

  /**
   * The per-coordinate test, written as the operator writes it: the threshold
   * is `margin` or `-margin` depending on `negative`, and the comparison is
   * flipped by an exclusive or with `negative`.
   */
  predicate OnChosenSide(co: real, margin: real, negative: bool): (b: bool)
    ensures b <==> if negative then co < -margin else co >= margin
  {
    !((co < 0.0 - (2 * BoolToInt(negative) - 1) as real * margin) != negative)
  }

  /** The vertex passes the test on one of the first `n` axes that are chosen. */
  predicate SelectedOnFirst(co: Vec3, axes: AxisFlags, margin: real, negative: bool, n: nat)
    requires n <= 3
  {
    n > 0 && (SelectedOnFirst(co, axes, margin, negative, n - 1)
              || (axes.At(n - 1) && OnChosenSide(co.At(n - 1), margin, negative)))
  }

  /** The vertex ends up selected: some chosen axis puts it on the requested side. */
  predicate Selected(co: Vec3, axes: AxisFlags, margin: real, negative: bool)
  {
    SelectedOnFirst(co, axes, margin, negative, 3)
  }

  lemma {:induction false} SelectedOnFirstMeans(co: Vec3, axes: AxisFlags, margin: real, negative: bool, n: nat)
    requires n <= 3
    ensures SelectedOnFirst(co, axes, margin, negative, n)
      <==> exists i :: 0 <= i < n && axes.At(i) && (if negative then co.At(i) < -margin else co.At(i) >= margin)
  {
    if n > 0 {
      SelectedOnFirstMeans(co, axes, margin, negative, n - 1);
    }
  }

  /** A vertex is selected iff on some chosen axis i: co[i] >= margin, or co[i] < -margin when `negative`. */
  lemma SelectedMeans(co: Vec3, axes: AxisFlags, margin: real, negative: bool)
    ensures Selected(co, axes, margin, negative)
      <==> exists i :: 0 <= i < 3 && axes.At(i) && (if negative then co.At(i) < -margin else co.At(i) >= margin)
  {
    SelectedOnFirstMeans(co, axes, margin, negative, 3);
  }

  /** The nested loops over axes and vertices; a flag is only ever set, never cleared. */
  method MarkHalf(verts: seq<Vec3>, select: array<bool>, axes: AxisFlags, margin: real, negative: bool)
    requires select.Length == |verts|
    modifies select
    ensures forall j :: 0 <= j < select.Length ==>
      select[j] == (old(select[j]) || Selected(verts[j], axes, margin, negative))
  {
    for i := 0 to 3
      invariant forall j :: 0 <= j < select.Length ==>
        select[j] == (old(select[j]) || SelectedOnFirst(verts[j], axes, margin, negative, i))
    {
      for v := 0 to |verts|
        invariant forall j :: 0 <= j < v ==>
          select[j] == (old(select[j]) || SelectedOnFirst(verts[j], axes, margin, negative, i + 1))
        invariant forall j :: v <= j < select.Length ==>
          select[j] == (old(select[j]) || SelectedOnFirst(verts[j], axes, margin, negative, i))
      {
        if axes.At(i) {
          if OnChosenSide(verts[v].At(i), margin, negative) {
            select[v] := true;
          }
        }
      }
    }
  }

  /**
   * The operator: deselect everything, fall back to X when no axis is chosen,
   * then mark the requested half. It returns the axes it used (the operator
   * writes them back into its property).
   */
  method SelectHalf(verts: seq<Vec3>, select: array<bool>, axes: AxisFlags, margin: real, negative: bool)
    returns (used: AxisFlags)
    requires select.Length == |verts|
    modifies select
    ensures used == EffectiveAxes(axes)
    ensures forall j :: 0 <= j < select.Length ==> select[j] == Selected(verts[j], used, margin, negative)
  {
    forall j | 0 <= j < select.Length {
      select[j] := false;
    }
    used := axes;
    if !used.Any() {
      used := AxisFlags(true, false, false);
    }
    MarkHalf(verts, select, used, margin, negative);
  }
}
