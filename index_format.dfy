/**
 * The conversion of the index list into the fixed-width integer array the
 * base geometry receives.
 *
 * `Uint16From` is what `Uint16Array.from` does to each element: reduce it
 * modulo 2^16 with no check. `PackIndices` is the conversion the mesh needs:
 * 16-bit indices while every row fits, 32-bit indices beyond that, and no
 * buffer at all once even 32 bits cannot address every row.
 */
module IndexFormat {

  const Uint16Range: int := 0x1_0000
  const Uint32Range: int := 0x1_0000_0000

  datatype Option<T> = None | Some(value: T)

  /** The element type of the index array. */
  datatype IndexWidth = Uint16 | Uint32
  {
    /** How many distinct values an element of this width holds. */
    function Range(): (n: int)
      ensures n >= Uint16Range
    {
      match this
      case Uint16 => Uint16Range
      case Uint32 => Uint32Range
    }
  }

  /** An index array: its element width and the values it holds. */
  datatype IndexBuffer = IndexBuffer(width: IndexWidth, values: seq<int>)

  /** Every element of `s` lies in `[0, n)`. */
  predicate AllBelow(s: seq<int>, n: int)
  {
    forall k :: 0 <= k < |s| ==> 0 <= s[k] < n
  }

  /** An array of `width` built from `indices`, each element reduced modulo the width's range. */
  function Wrap(indices: seq<int>, width: IndexWidth): (r: seq<int>)
    ensures |r| == |indices|
    ensures AllBelow(r, width.Range())
    ensures forall k :: 0 <= k < |r| ==> (r[k] == indices[k] <==> 0 <= indices[k] < width.Range())
  {
    seq(|indices|, k requires 0 <= k < |indices| => indices[k] % width.Range())
  }

  /**
   * `Uint16Array.from(indices)`: the same number of elements, each reduced
   * modulo 2^16; an element is kept exactly when it already fits 16 bits.
   */
  function Uint16From(indices: seq<int>): (r: seq<int>)
    ensures |r| == |indices|
    ensures AllBelow(r, Uint16Range)
    ensures forall k :: 0 <= k < |r| ==> (r[k] == indices[k] <==> 0 <= indices[k] < Uint16Range)
  {
    Wrap(indices, Uint16)
  }

  /** The narrowest width that addresses `vertexCount` rows, if there is one. */
  function WidthFor(vertexCount: nat): (w: Option<IndexWidth>)
    ensures w.Some? <==> vertexCount <= Uint32Range
    ensures w.Some? ==> vertexCount <= w.value.Range()
    ensures w == Some(Uint32) ==> vertexCount > Uint16Range
  {
    if vertexCount <= Uint16Range then Some(Uint16)
    else if vertexCount <= Uint32Range then Some(Uint32)
    else None
  }

  /**
   * The index array for a mesh of `vertexCount` rows: 16-bit while the rows
   * fit, 32-bit beyond, and none when the rows do not fit 32 bits either.
   */
  function PackIndices(indices: seq<int>, vertexCount: nat): (r: Option<IndexBuffer>)
    ensures r.Some? <==> vertexCount <= Uint32Range
    ensures r.Some? ==> (r.value.width == Uint16 <==> vertexCount <= Uint16Range)
    ensures r.Some? ==> |r.value.values| == |indices| && AllBelow(r.value.values, r.value.width.Range())
  {
    match WidthFor(vertexCount)
    case None => None
    case Some(width) => Some(IndexBuffer(width, Wrap(indices, width)))
  }

  /**
   * When every index is a row of the mesh and the mesh is addressable, the
   * packed array holds exactly the index list.
   */
  lemma PackIndicesLossless(indices: seq<int>, vertexCount: nat)
    requires AllBelow(indices, vertexCount) && vertexCount <= Uint32Range
    ensures PackIndices(indices, vertexCount) == Some(IndexBuffer(WidthFor(vertexCount).value, indices))
  {
    var width := WidthFor(vertexCount).value;
    var packed := Wrap(indices, width);
    forall k | 0 <= k < |indices|
      ensures packed[k] == indices[k]
    {
    }
    assert packed == indices;
  }

  /** A list whose last index does not fit 16 bits has that index wrapped, so the conversion changes it. */
  lemma Uint16FromWrapsLast(indices: seq<int>)
    requires |indices| > 0 && indices[|indices| - 1] >= Uint16Range
    ensures Uint16From(indices)[|indices| - 1] == indices[|indices| - 1] % Uint16Range
    ensures Uint16From(indices) != indices
  {
    var last := |indices| - 1;
    assert Uint16From(indices)[last] != indices[last];
  }

  /** For a mesh of at most 2^16 rows the 16-bit conversion loses nothing and is the packed array. */
  lemma Uint16FromSmallMesh(indices: seq<int>, vertexCount: nat)
    requires AllBelow(indices, vertexCount) && vertexCount <= Uint16Range
    ensures Uint16From(indices) == indices
    ensures PackIndices(indices, vertexCount) == Some(IndexBuffer(Uint16, Uint16From(indices)))
  {
    PackIndicesLossless(indices, vertexCount);
  }
}
