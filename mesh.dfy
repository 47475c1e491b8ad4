/**
  The vertex layout of `UCreateMesh`: each vertex of the interleaved table is
  three position floats, three normal floats and two texture coordinates,
  and the three vertex attribute pointers describe exactly that layout. The
  table's contents are not part of the model.
 */
module Mesh {

  const FloatsPerVertex: nat := 3
  const FloatsPerNormal: nat := 3
  const FloatsPerUV: nat := 2
  /** `sizeof(float)` in bytes. */
  const SizeOfFloat: nat := 4

  /** Floats per table entry, one entry per vertex. */
  const FloatsPerEntry: nat := FloatsPerVertex + FloatsPerNormal + FloatsPerUV

  /** The byte stride between consecutive vertices. */
  const Stride: nat := SizeOfFloat * FloatsPerEntry

  /**
    `mesh.nVertices` for a table of `floatCount` floats: the table's size in
    bytes divided by the size in bytes of one entry.
   */
  function VertexCount(floatCount: nat): (n: nat)
    ensures n * FloatsPerEntry <= floatCount < (n + 1) * FloatsPerEntry
  {
    (SizeOfFloat * floatCount) / (SizeOfFloat * FloatsPerEntry)
  }

  /** A table of `n` whole entries has `n` vertices. */
  lemma VertexCountOfTable(n: nat)
    ensures VertexCount(n * FloatsPerEntry) == n
  {
  }

  /** One `glVertexAttribPointer` call: location, float count, byte stride and byte offset. */
  datatype AttributePointer = AttributePointer(location: nat, size: nat, stride: nat, offset: nat)

  /** The three attribute pointers: position, normal, texture coordinate. */
  function AttributePointers(): (ps: seq<AttributePointer>)
    ensures |ps| == 3
    ensures forall i :: 0 <= i < 3 ==> ps[i].location == i && ps[i].stride == Stride
  {
    [ AttributePointer(0, FloatsPerVertex, Stride, 0),
      AttributePointer(1, FloatsPerNormal, Stride, SizeOfFloat * FloatsPerVertex),
      AttributePointer(2, FloatsPerUV, Stride, SizeOfFloat * (FloatsPerVertex + FloatsPerNormal)) ]
  }

  /**
    The float of the table that attribute `a` of vertex `v` reads as its
    component `t`.
   */
  function FloatRead(v: nat, a: nat, t: nat): nat
    requires a < 3
  {
    var p := AttributePointers()[a];
    (v * p.stride + p.offset) / SizeOfFloat + t
  }

  /** Whether `(v, a, t)` names a component that exists. */
  predicate Component(v: nat, a: nat, t: nat, n: nat) {
    v < n && a < 3 && t < AttributePointers()[a].size
  }

  /**
    The attributes tile each entry: every float of an `n`-vertex table is read
    by exactly one component of one attribute of one vertex.
   */
  lemma LayoutIsExact(n: nat, f: nat)
    requires f < n * FloatsPerEntry
    ensures exists v, a, t :: Component(v, a, t, n) && FloatRead(v, a, t) == f
  {
    var v := f / FloatsPerEntry;
    var r := f % FloatsPerEntry;
    var a: nat := if r < 3 then 0 else if r < 6 then 1 else 2;
    var t: nat := if r < 3 then r else if r < 6 then r - 3 else r - 6;
    assert Component(v, a, t, n) && FloatRead(v, a, t) == f;
  }

  /** No float is read by two different components. */
  lemma LayoutIsDisjoint(v1: nat, a1: nat, t1: nat, v2: nat, a2: nat, t2: nat, n: nat)
    requires Component(v1, a1, t1, n) && Component(v2, a2, t2, n)
    requires FloatRead(v1, a1, t1) == FloatRead(v2, a2, t2)
    ensures v1 == v2 && a1 == a2 && t1 == t2
  {
  }
}
