/** The native value types handed across the plugin boundary:
    `NativeVector3f`, `NativeMat3f` and `NativeMat4f`. Matrices are stored as
    columns; the flat indexers walk them row by row, while the float-array
    constructor and `ToFloats` walk them column by column. */
module NativeTypes {
  import opened Wrappers
  import Geometry

  /** The exception the flat indexers throw for an index out of range. */
  datatype IndexError = IndexOutOfRange

  // ---------------------------------------------------------------------------
  // NativeVector3f

  /** `NativeVector3f[i]`: 0, 1, 2 read X, Y, Z; any other index reads -1. */
  function Vec3Get(v: Geometry.Vec3, i: int): (r: real)
    ensures 0 <= i < 3 ==> r == [v.x, v.y, v.z][i]
    ensures !(0 <= i < 3) ==> r == -1.0
  {
    if i == 0 then v.x else if i == 1 then v.y else if i == 2 then v.z else -1.0
  }

  /** `NativeVector3f[i] = value`: a write to any other index is ignored. */
  function Vec3Set(v: Geometry.Vec3, i: int, value: real): (v': Geometry.Vec3)
    ensures 0 <= i < 3 ==> Vec3Get(v', i) == value
    ensures forall j :: j != i ==> Vec3Get(v', j) == Vec3Get(v, j)
    ensures !(0 <= i < 3) ==> v' == v
  {
    if i == 0 then v.(x := value)
    else if i == 1 then v.(y := value)
    else if i == 2 then v.(z := value)
    else v
  }

  /** `ToUnityVector3`: the native frame is right-handed, Unity's left-handed,
      so only Z changes sign. */
  function ToUnityVector3(v: Geometry.Vec3): (u: Geometry.Vec3)
    ensures u.x == v.x && u.y == v.y && u.z + v.z == 0.0
  {
    Geometry.Vec3(v.x, v.y, -v.z)
  }

  /** Converting twice gives the vector back, so the conversion is its own
      inverse (the same map brings Unity vectors into the native frame). */
  lemma ToUnityVector3Involutive(v: Geometry.Vec3)
    ensures ToUnityVector3(ToUnityVector3(v)) == v
  {
  }

  // ---------------------------------------------------------------------------
  // NativeMat3f

  /** Three columns. */
  datatype Mat3 = Mat3(column0: Geometry.Vec3, column1: Geometry.Vec3, column2: Geometry.Vec3)

  /** `NativeMat3f[i, j]`: column j, component i; a column outside 0..2
      reads -1. */
  function Mat3Get(m: Mat3, i: int, j: int): (r: real)
    ensures j == 0 ==> r == Vec3Get(m.column0, i)
    ensures j == 1 ==> r == Vec3Get(m.column1, i)
    ensures j == 2 ==> r == Vec3Get(m.column2, i)
    ensures !(0 <= i < 3 && 0 <= j < 3) ==> r == -1.0
  {
    if j == 0 then Vec3Get(m.column0, i)
    else if j == 1 then Vec3Get(m.column1, i)
    else if j == 2 then Vec3Get(m.column2, i)
    else -1.0
  }

  /** `NativeMat3f[i, j] = value`: a write outside the 3x3 range is ignored. */
  function Mat3Set(m: Mat3, i: int, j: int, value: real): (m': Mat3)
    ensures 0 <= i < 3 && 0 <= j < 3 ==> Mat3Get(m', i, j) == value
    ensures forall a, b :: (a, b) != (i, j) ==> Mat3Get(m', a, b) == Mat3Get(m, a, b)
    ensures !(0 <= i < 3 && 0 <= j < 3) ==> m' == m
  {
    if j == 0 then m.(column0 := Vec3Set(m.column0, i, value))
    else if j == 1 then m.(column1 := Vec3Set(m.column1, i, value))
    else if j == 2 then m.(column2 := Vec3Set(m.column2, i, value))
    else m
  }

  /** `NativeMat3f.identity`: despite its name, built from three zero
      vectors, so every entry is 0. */
  function Mat3Identity(): (m: Mat3)
    ensures forall i, j :: 0 <= i < 3 && 0 <= j < 3 ==> Mat3Get(m, i, j) == 0.0
  {
    Mat3(Geometry.Zero3, Geometry.Zero3, Geometry.Zero3)
  }

  /** `NativeMat3f[index]`, the nine cells row by row; any other index throws. */
  function Mat3GetFlat(m: Mat3, index: int): (r: Result<real, IndexError>)
    ensures r.Failure? <==> !(0 <= index < 9)
  {
    match index
    case 0 => Success(m.column0.x)
    case 1 => Success(m.column1.x)
    case 2 => Success(m.column2.x)
    case 3 => Success(m.column0.y)
    case 4 => Success(m.column1.y)
    case 5 => Success(m.column2.y)
    case 6 => Success(m.column0.z)
    case 7 => Success(m.column1.z)
    case 8 => Success(m.column2.z)
    case _ => Failure(IndexOutOfRange)
  }

  /** `NativeMat3f[index] = value`; any other index throws. */
  function Mat3SetFlat(m: Mat3, index: int, value: real): (r: Result<Mat3, IndexError>)
    ensures r.Failure? <==> !(0 <= index < 9)
  {
    match index
    case 0 => Success(m.(column0 := m.column0.(x := value)))
    case 1 => Success(m.(column1 := m.column1.(x := value)))
    case 2 => Success(m.(column2 := m.column2.(x := value)))
    case 3 => Success(m.(column0 := m.column0.(y := value)))
    case 4 => Success(m.(column1 := m.column1.(y := value)))
    case 5 => Success(m.(column2 := m.column2.(y := value)))
    case 6 => Success(m.(column0 := m.column0.(z := value)))
    case 7 => Success(m.(column1 := m.column1.(z := value)))
    case 8 => Success(m.(column2 := m.column2.(z := value)))
    case _ => Failure(IndexOutOfRange)
  }

  /** Flat index k names the cell at row k / 3, column k % 3 of the two-index
      indexer, for reading and for writing. */
  lemma Mat3FlatIsRowMajor(m: Mat3, k: int, value: real)
    requires 0 <= k < 9
    ensures Mat3GetFlat(m, k) == Success(Mat3Get(m, k / 3, k % 3))
    ensures Mat3SetFlat(m, k, value) == Success(Mat3Set(m, k / 3, k % 3, value))
  {
  }

  // ---------------------------------------------------------------------------
  // NativeMat4f

  datatype Vec4 = Vec4(x: real, y: real, z: real, w: real)

  /** Four columns. */
  datatype Mat4 = Mat4(column0: Vec4, column1: Vec4, column2: Vec4, column3: Vec4)

  /** The `float[]` constructor: four consecutive entries per column. The
      source asserts exactly 16 entries. */
  function Mat4FromFloats(source: seq<real>): (m: Mat4)
    requires |source| == 16
    ensures Mat4ToFloats(m) == source
  {
    Mat4(Vec4(source[0], source[1], source[2], source[3]),
         Vec4(source[4], source[5], source[6], source[7]),
         Vec4(source[8], source[9], source[10], source[11]),
         Vec4(source[12], source[13], source[14], source[15]))
  }

  /** `ToFloats`: the columns one after the other. */
  function Mat4ToFloats(m: Mat4): (s: seq<real>)
    ensures |s| == 16
  {
    [m.column0.x, m.column0.y, m.column0.z, m.column0.w,
     m.column1.x, m.column1.y, m.column1.z, m.column1.w,
     m.column2.x, m.column2.y, m.column2.z, m.column2.w,
     m.column3.x, m.column3.y, m.column3.z, m.column3.w]
  }

  /** `ToFloats` and the float-array constructor are inverse to each other. */
  lemma Mat4FloatsRoundTrip(m: Mat4, s: seq<real>)
    requires |s| == 16
    ensures Mat4FromFloats(Mat4ToFloats(m)) == m
    ensures Mat4ToFloats(Mat4FromFloats(s)) == s
  {
  }

  /** `NativeMat4f[index]`: the sixteen cells row by row (index = 4 * row +
      column); any other index throws. */
  function Mat4GetFlat(m: Mat4, index: int): (r: Result<real, IndexError>)
    ensures r.Failure? <==> !(0 <= index < 16)
  {
    match index
    case 0 => Success(m.column0.x)
    case 1 => Success(m.column1.x)
    case 2 => Success(m.column2.x)
    case 3 => Success(m.column3.x)
    case 4 => Success(m.column0.y)
    case 5 => Success(m.column1.y)
    case 6 => Success(m.column2.y)
    case 7 => Success(m.column3.y)
    case 8 => Success(m.column0.z)
    case 9 => Success(m.column1.z)
    case 10 => Success(m.column2.z)
    case 11 => Success(m.column3.z)
    case 12 => Success(m.column0.w)
    case 13 => Success(m.column1.w)
    case 14 => Success(m.column2.w)
    case 15 => Success(m.column3.w)
    case _ => Failure(IndexOutOfRange)
  }

  /** `NativeMat4f[index] = value`; any other index throws. */
  function Mat4SetFlat(m: Mat4, index: int, value: real): (r: Result<Mat4, IndexError>)
    ensures r.Failure? <==> !(0 <= index < 16)
  {
    match index
    case 0 => Success(m.(column0 := m.column0.(x := value)))
    case 1 => Success(m.(column1 := m.column1.(x := value)))
    case 2 => Success(m.(column2 := m.column2.(x := value)))
    case 3 => Success(m.(column3 := m.column3.(x := value)))
    case 4 => Success(m.(column0 := m.column0.(y := value)))
    case 5 => Success(m.(column1 := m.column1.(y := value)))
    case 6 => Success(m.(column2 := m.column2.(y := value)))
    case 7 => Success(m.(column3 := m.column3.(y := value)))
    case 8 => Success(m.(column0 := m.column0.(z := value)))
    case 9 => Success(m.(column1 := m.column1.(z := value)))
    case 10 => Success(m.(column2 := m.column2.(z := value)))
    case 11 => Success(m.(column3 := m.column3.(z := value)))
    case 12 => Success(m.(column0 := m.column0.(w := value)))
    case 13 => Success(m.(column1 := m.column1.(w := value)))
    case 14 => Success(m.(column2 := m.column2.(w := value)))
    case 15 => Success(m.(column3 := m.column3.(w := value)))
    case _ => Failure(IndexOutOfRange)
  }

  /** `NativeMat4f[row, column]`: delegates to the flat indexer at
      4 * row + column, with no separate check of row and column. */
  function Mat4Get(m: Mat4, row: int, column: int): (r: Result<real, IndexError>)
    ensures r.Failure? <==> !(0 <= 4 * row + column < 16)
    ensures 0 <= row < 4 && 0 <= column < 4 ==> r == Success(Mat4ToFloats(m)[4 * column + row])
  {
    Mat4GetFlat(m, row * 4 + column)
  }

  /** The flat indexer reads the transpose of the float layout: flat index k
      is column k % 4, component k / 4, which `ToFloats` stores at
      4 * (k % 4) + k / 4. */
  lemma Mat4FlatIsTransposeOfFloats(m: Mat4, k: int)
    requires 0 <= k < 16
    ensures Mat4GetFlat(m, k) == Success(Mat4ToFloats(m)[4 * (k % 4) + k / 4])
  {
  }

  /** A write through the flat indexer is read back at the same index and
      leaves the other fifteen cells unchanged. */
  lemma Mat4SetThenGet(m: Mat4, k: int, value: real)
    requires 0 <= k < 16
    ensures Mat4SetFlat(m, k, value).Success?
    ensures Mat4GetFlat(Mat4SetFlat(m, k, value).value, k) == Success(value)
    ensures forall j :: 0 <= j < 16 && j != k ==>
      Mat4GetFlat(Mat4SetFlat(m, k, value).value, j) == Mat4GetFlat(m, j)
  {
  }
}
