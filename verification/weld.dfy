/**
 * Seam welding: `WeldMeshes` copies vertices, by buffer index, from a
 * neighbour's published mesh into a face's vertex buffer.
 *
 * The direction switch sets a rectangle (xBegin, xEnd, zBegin, zEnd), but the
 * copy loop only uses the row range zBegin..zEnd-1 and always walks every
 * column 0..size of those rows. For directions 0 and 2 that is the whole grid;
 * for directions 1 and 3 (and any other value) the row range is empty.
 * The vertex type is left abstract.
 */
module Weld {
  import opened FaceMesh

  /** The rectangle the direction switch of WeldMeshes sets. */
  datatype Bounds = Bounds(xBegin: int, xEnd: int, zBegin: int, zEnd: int)

  /** The switch on the neighbour direction: 0 left, 1 forward, 2 right, 3 back. */
  function WeldBounds(dir: int, size: nat): Bounds {
    if dir == 0 then Bounds(0, 0, 0, size + 1)
    else if dir == 1 then Bounds(0, size + 1, 0, 0)
    else if dir == 2 then Bounds(size + 1, size + 1, 0, size + 1)
    else if dir == 3 then Bounds(0, size + 1, size + 1, size + 1)
    else Bounds(0, 0, 0, 0)
  }

  /** Buffer slot i is written by the copy loop for direction dir. */
  predicate Touched(size: nat, dir: int, i: int) {
    var b := WeldBounds(dir, size);
    b.zBegin < b.zEnd && GridIndex(size, 0, b.zBegin) <= i < GridIndex(size, 0, b.zEnd)
  }

  /** A buffer of length n has every slot the copy loop for dir touches. */
  predicate WeldFits(n: nat, size: nat, dir: int) {
    var b := WeldBounds(dir, size);
    b.zBegin >= b.zEnd || GridIndex(size, 0, b.zEnd) <= n
  }

  /** The face's vertex buffer after a weld that ran to completion. */
  function Welded<V>(verts: seq<V>, nverts: seq<V>, size: nat, dir: int): seq<V>
    requires WeldFits(|verts|, size, dir) && WeldFits(|nverts|, size, dir)
  {
    seq(|verts|, i requires 0 <= i < |verts| => if Touched(size, dir, i) then nverts[i] else verts[i])
  }

  /** Row starts grow with the row number. */
  lemma RowStartMono(size: nat, a: int, b: int)
    requires a <= b
    ensures GridIndex(size, 0, a) <= GridIndex(size, 0, b)
    ensures a < b ==> GridIndex(size, 0, a) < GridIndex(size, 0, b)
  {
    assert GridIndex(size, 0, b) - GridIndex(size, 0, a) == (b - a) * (size + 1);
    if a < b {
      MulAtLeast(b - a, size + 1);
    }
  }

  // ---------------------------------------------------------------------------
  // What each direction does

  /** Directions 0 and 2 visit every slot of a grid-sized buffer. */
  lemma WholeGridTouched(size: nat, dir: int, i: int)
    requires dir == 0 || dir == 2
    ensures Touched(size, dir, i) <==> 0 <= i < VertexCount(size)
  {
  }

  /**
   * For directions 0 and 2 the weld fits exactly when both buffers hold the
   * whole grid, and it then makes the face's buffer a copy of the neighbour's.
   */
  lemma WeldWholeGrid<V>(verts: seq<V>, nverts: seq<V>, size: nat, dir: int)
    requires dir == 0 || dir == 2
    ensures WeldFits(|verts|, size, dir) && WeldFits(|nverts|, size, dir)
        <==> VertexCount(size) <= |verts| && VertexCount(size) <= |nverts|
    ensures |verts| == VertexCount(size) <= |nverts| ==> Welded(verts, nverts, size, dir) == nverts[..|verts|]
  {
    if |verts| == VertexCount(size) <= |nverts| {
      var w := Welded(verts, nverts, size, dir);
      forall i | 0 <= i < |verts| ensures w[i] == nverts[i] {
        WholeGridTouched(size, dir, i);
      }
    }
  }

  /** Directions other than 0 and 2 (1 and 3 included) always fit and change nothing. */
  lemma WeldNothing<V>(verts: seq<V>, nverts: seq<V>, size: nat, dir: int)
    requires dir != 0 && dir != 2
    ensures WeldFits(|verts|, size, dir) && WeldFits(|nverts|, size, dir)
    ensures Welded(verts, nverts, size, dir) == verts
  {
    var w := Welded(verts, nverts, size, dir);
    forall i | 0 <= i < |verts| ensures w[i] == verts[i] {
      assert !Touched(size, dir, i);
    }
  }

  /** Welding twice from the same neighbour buffer is the same as welding once. */
  lemma WeldIdempotent<V>(verts: seq<V>, nverts: seq<V>, size: nat, dir: int)
    requires WeldFits(|verts|, size, dir) && WeldFits(|nverts|, size, dir)
    ensures Welded(Welded(verts, nverts, size, dir), nverts, size, dir) == Welded(verts, nverts, size, dir)
  {
  }

  // ---------------------------------------------------------------------------
  // The copy loop

  /**
   * The row loop of WeldMeshes on the face's vertex array. A slot beyond either
   * buffer is the source's index-out-of-range exception: the method then
   * returns false at the first such slot, and the caller discards the array.
   */
  method WeldRows<V>(verts: array<V>, nverts: seq<V>, size: nat, dir: int) returns (ok: bool)
    modifies verts
    ensures ok == (WeldFits(verts.Length, size, dir) && WeldFits(|nverts|, size, dir))
    ensures ok ==> verts[..] == Welded(old(verts[..]), nverts, size, dir)
  {
    var b := WeldBounds(dir, size);
    ghost var lo := GridIndex(size, 0, b.zBegin);
    var z := b.zBegin;
    while z < b.zEnd
      invariant b.zBegin <= z && (z == b.zBegin || z <= b.zEnd)
      invariant lo <= GridIndex(size, 0, z)
      invariant GridIndex(size, 0, z) == lo || (GridIndex(size, 0, z) <= verts.Length && GridIndex(size, 0, z) <= |nverts|)
      invariant forall k :: 0 <= k < verts.Length ==>
        verts[k] == if lo <= k < GridIndex(size, 0, z) then nverts[k] else old(verts[k])
    {
      RowStartMono(size, z + 1, b.zEnd);
      var rowOk := CopyRow(verts, nverts, size, z, lo, old(verts[..]));
      if !rowOk {
        return false;
      }
      z := z + 1;
    }
    if b.zBegin < b.zEnd {
      RowStartMono(size, b.zBegin, b.zEnd);
    }
    ok := true;
    assert z == b.zEnd || z == b.zBegin >= b.zEnd;
    ghost var w := Welded(old(verts[..]), nverts, size, dir);
    forall k | 0 <= k < verts.Length ensures verts[k] == w[k] {
      assert Touched(size, dir, k) <==> lo <= k < GridIndex(size, 0, z);
    }
    assert verts[..] == w;
  }

  /**
   * One pass of WeldRows' inner loop: columns 0..size of row z. Slots
   * lo..GridIndex(size, 0, z)-1 already hold the neighbour's vertices and the
   * rest still hold the face's own (`orig`).
   */
  method CopyRow<V>(verts: array<V>, nverts: seq<V>, size: nat, z: int, ghost lo: int, ghost orig: seq<V>)
    returns (ok: bool)
    requires |orig| == verts.Length && 0 <= lo <= GridIndex(size, 0, z)
    requires GridIndex(size, 0, z) == lo || (GridIndex(size, 0, z) <= verts.Length && GridIndex(size, 0, z) <= |nverts|)
    requires forall k :: 0 <= k < verts.Length ==>
      verts[k] == if lo <= k < GridIndex(size, 0, z) then nverts[k] else orig[k]
    modifies verts
    ensures ok ==> GridIndex(size, 0, z + 1) <= verts.Length && GridIndex(size, 0, z + 1) <= |nverts|
    ensures ok ==> forall k :: 0 <= k < verts.Length ==>
      verts[k] == if lo <= k < GridIndex(size, 0, z + 1) then nverts[k] else orig[k]
    ensures !ok ==> GridIndex(size, 0, z + 1) > verts.Length || GridIndex(size, 0, z + 1) > |nverts|
  {
    GridSteps(size, 0, z);
    var x := 0;
    while x <= size
      invariant 0 <= x <= size + 1
      invariant GridIndex(size, x, z) == lo || (GridIndex(size, x, z) <= verts.Length && GridIndex(size, x, z) <= |nverts|)
      invariant forall k :: 0 <= k < verts.Length ==>
        verts[k] == if lo <= k < GridIndex(size, x, z) then nverts[k] else orig[k]
    {
      var i := z * (size + 1) + x;
      if i >= verts.Length || i >= |nverts| {
        return false;
      }
      verts[i] := nverts[i];
      x := x + 1;
    }
    ok := true;
  }
}
