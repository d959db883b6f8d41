/**
 * The structural part of the small linear algebra library in `src/types.h`: a
 * 3-vector is three consecutive floats, a 3x3 matrix is three consecutive
 * column vectors, `m(i, j)` reads or writes row `i` of column `j`, and `transpose`
 * swaps rows with columns. Floats are modelled as reals; no arithmetic is
 * performed on them here.
 */
module LinearAlgebra {

  datatype Float3 = Float3(x: real, y: real, z: real)

  /** Column-major: `x`, `y` and `z` are the matrix's three columns. */
  datatype Float3x3 = Float3x3(x: Float3, y: Float3, z: Float3)

  /** The floats of a vector in memory order. */
  function VectorLayout(v: Float3): seq<real> {
    [v.x, v.y, v.z]
  }

  /** The nine floats of a matrix in memory order. */
  function MatrixLayout(m: Float3x3): seq<real> {
    VectorLayout(m.x) + VectorLayout(m.y) + VectorLayout(m.z)
  }

  /** `float3::operator[]`: the `i`-th float stored from `x` onwards. */
  function Component(v: Float3, i: int): (r: real)
    requires 0 <= i < 3
    ensures r == VectorLayout(v)[i]
  {
    if i == 0 then v.x else if i == 1 then v.y else v.z
  }

  function Column(m: Float3x3, j: int): Float3
    requires 0 <= j < 3
  {
    if j == 0 then m.x else if j == 1 then m.y else m.z
  }

  /** `float3x3::operator()`: row `i` of column `j`, stored at offset `3 * j + i`. */
  function At(m: Float3x3, i: int, j: int): (r: real)
    requires 0 <= i < 3 && 0 <= j < 3
    ensures r == MatrixLayout(m)[3 * j + i]
  {
    Component(Column(m, j), i)
  }

  /** Writing through `float3::operator[]`: component `i` becomes `val`. */
  function SetComponent(v: Float3, i: int, val: real): (r: Float3)
    requires 0 <= i < 3
    ensures Component(r, i) == val
    ensures forall k :: 0 <= k < 3 && k != i ==> Component(r, k) == Component(v, k)
  {
    if i == 0 then v.(x := val) else if i == 1 then v.(y := val) else v.(z := val)
  }

  /** Writing through `float3x3::operator()`: entry `(i, j)` becomes `val`. */
  function SetAt(m: Float3x3, i: int, j: int, val: real): (r: Float3x3)
    requires 0 <= i < 3 && 0 <= j < 3
    ensures At(r, i, j) == val
    ensures forall i', j' :: 0 <= i' < 3 && 0 <= j' < 3 && (i', j') != (i, j) ==> At(r, i', j') == At(m, i', j')
  {
    var c := SetComponent(Column(m, j), i, val);
    if j == 0 then m.(x := c) else if j == 1 then m.(y := c) else m.(z := c)
  }

  /** Writing back the value just read leaves the matrix unchanged. */
  lemma SetAtReadBack(m: Float3x3, i: int, j: int)
    requires 0 <= i < 3 && 0 <= j < 3
    ensures SetAt(m, i, j, At(m, i, j)) == m
  {
    Extensionality(SetAt(m, i, j, At(m, i, j)), m);
  }

  function Transpose(a: Float3x3): (t: Float3x3)
    ensures forall i, j :: 0 <= i < 3 && 0 <= j < 3 ==> At(t, i, j) == At(a, j, i)
  {
    Float3x3(Float3(a.x.x, a.y.x, a.z.x),
             Float3(a.x.y, a.y.y, a.z.y),
             Float3(a.x.z, a.y.z, a.z.z))
  }

  /** A matrix is determined by its nine entries under the accessor. */
  lemma Extensionality(a: Float3x3, b: Float3x3)
    requires forall i, j :: 0 <= i < 3 && 0 <= j < 3 ==> At(a, i, j) == At(b, i, j)
    ensures a == b
  {
    assert MatrixLayout(a) == MatrixLayout(b) by {
      forall k | 0 <= k < 9
        ensures MatrixLayout(a)[k] == MatrixLayout(b)[k]
      {
        assert At(a, k % 3, k / 3) == At(b, k % 3, k / 3);
      }
    }
    assert a.x == Float3(MatrixLayout(a)[0], MatrixLayout(a)[1], MatrixLayout(a)[2]);
    assert a.y == Float3(MatrixLayout(a)[3], MatrixLayout(a)[4], MatrixLayout(a)[5]);
    assert a.z == Float3(MatrixLayout(a)[6], MatrixLayout(a)[7], MatrixLayout(a)[8]);
  }

  /** Transposing twice gives back the original matrix. */
  lemma TransposeInvolution(a: Float3x3)
    ensures Transpose(Transpose(a)) == a
  {
    Extensionality(Transpose(Transpose(a)), a);
  }

  /** In storage, transposition moves the float at offset `3 * i + j` to offset `3 * j + i`. */
  lemma TransposeLayout(a: Float3x3, i: int, j: int)
    requires 0 <= i < 3 && 0 <= j < 3
    ensures MatrixLayout(Transpose(a))[3 * j + i] == MatrixLayout(a)[3 * i + j]
  {
    assert At(Transpose(a), i, j) == At(a, j, i);
  }
}
