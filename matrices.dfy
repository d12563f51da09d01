/** Dense row-major matrix values (Matrix.h) and the specification of every
    operator on them. A matrix carries the two template parameters of the
    C++ class (`staticRows`, `staticCols`; both 0 for a dynamically sized
    matrix) beside its run-time shape, because several operations are
    refused on the static shape alone. */
module Matrices {

  /** The exceptions Matrix.h throws. */
  datatype Error =
    | OutOfRange            // std::out_of_range from two-index access
    | WrongSizes            // std::logic_error: shape mismatch
    | NotAVector            // std::logic_error: one-index access or dot on Cols != 1
    | NotA3dVector          // std::logic_error: cross on anything but 3x1
    | FixedSize             // std::logic_error: resize of a fixed-size matrix
    | WrongInitializerSize  // std::logic_error: initializer list of the wrong length

  datatype Result<T> = Ok(value: T) | Err(error: Error)

  datatype Mat<T> = Mat(staticRows: nat, staticCols: nat, rows: nat, cols: nat, data: seq<T>)
  {
    /** `Rows || Cols` in the source: either template parameter nonzero. */
    predicate IsFixed() { staticRows != 0 || staticCols != 0 }

    /** The buffer holds rows*cols elements, and a fixed-size matrix always has its static shape. */
    predicate Valid() {
      |data| == rows * cols && (IsFixed() ==> rows == staticRows && cols == staticCols)
    }
  }

  predicate SameShape<T>(a: Mat<T>, b: Mat<T>) {
    a.Valid() && b.Valid() && a.rows == b.rows && a.cols == b.cols
  }

  /** Two values of the same C++ type `Matrix<T, Rows, Cols>`. */
  predicate SameType<T>(a: Mat<T>, b: Mat<T>) {
    a.staticRows == b.staticRows && a.staticCols == b.staticCols
  }

  lemma MulMonotone(a: nat, b: nat, c: nat)
    requires a <= b
    ensures a * c <= b * c
  {
  }

  /** Row-major offsets of in-range indices stay inside the buffer. */
  lemma IndexInRange(i: nat, j: nat, rows: nat, cols: nat)
    requires i < rows && j < cols
    ensures i * cols + j < rows * cols
  {
    MulMonotone(i + 1, rows, cols);
    assert (i + 1) * cols == i * cols + cols;
  }

  /** The row-major offset determines the index pair. */
  lemma OffsetSplits(i: nat, j: nat, cols: nat)
    requires j < cols
    ensures (i * cols + j) / cols == i && (i * cols + j) % cols == j
  {
    var x := i * cols + j;
    var q, r := x / cols, x % cols;
    assert q * cols + r == x;
    if q > i {
      assert (i + 1) * cols == i * cols + cols;
      MulMonotone(i + 1, q, cols);
      assert false;
    } else if q < i {
      assert (q + 1) * cols == q * cols + cols;
      MulMonotone(q + 1, i, cols);
      assert false;
    }
  }

  /** The row-major offset of (i, j): `i * cols + j`. */
  function Offset(i: nat, j: nat, rows: nat, cols: nat): (k: nat)
    requires i < rows && j < cols
    ensures k < rows * cols
  {
    IndexInRange(i, j, rows, cols);
    i * cols + j
  }

  function Get<T>(m: Mat<T>, i: nat, j: nat): T
    requires m.Valid() && i < m.rows && j < m.cols
  {
    m.data[Offset(i, j, m.rows, m.cols)]
  }

  /** `m(i, j)` read through the bounds-checked accessor. */
  function At<T>(m: Mat<T>, i: int, j: int): (r: Result<T>)
    requires m.Valid()
    ensures r.Ok? <==> 0 <= i < m.rows && 0 <= j < m.cols
    ensures r.Err? ==> r.error == OutOfRange
    ensures r.Ok? ==> r.value == m.data[Offset(i, j, m.rows, m.cols)]
  {
    if i >= m.rows || j >= m.cols || i < 0 || j < 0 then Err(OutOfRange)
    else Ok(Get(m, i, j))
  }

  /** `m(i, j) = v` through the reference the accessor returns. */
  function Update<T>(m: Mat<T>, i: int, j: int, v: T): (r: Result<Mat<T>>)
    requires m.Valid()
    ensures r.Ok? <==> 0 <= i < m.rows && 0 <= j < m.cols
    ensures r.Err? ==> r.error == OutOfRange
    ensures r.Ok? ==> SameShape(r.value, m) && SameType(r.value, m)
  {
    if i >= m.rows || j >= m.cols || i < 0 || j < 0 then Err(OutOfRange)
    else Ok(m.(data := m.data[Offset(i, j, m.rows, m.cols) := v]))
  }

  /** Writing then reading the same element gives the written value; every other element is untouched. */
  lemma UpdateThenAt<T>(m: Mat<T>, i: int, j: int, v: T, i': int, j': int)
    requires m.Valid() && Update(m, i, j, v).Ok?
    ensures At(Update(m, i, j, v).value, i', j') ==
            if i' == i && j' == j then Ok(v) else At(m, i', j')
  {
    if 0 <= i' < m.rows && 0 <= j' < m.cols && (i' != i || j' != j) {
      OffsetsDiffer(i, j, i', j', m.rows, m.cols);
    }
  }

  lemma OffsetsDiffer(i: nat, j: nat, i': nat, j': nat, rows: nat, cols: nat)
    requires i < rows && j < cols && i' < rows && j' < cols && (i != i' || j != j')
    ensures Offset(i, j, rows, cols) != Offset(i', j', rows, cols)
  {
    OffsetSplits(i, j, cols);
    OffsetSplits(i', j', cols);
  }

  /** One-index access: only for matrices whose static column count is 1, and then it is element (i, 0). */
  function AtVec<T>(m: Mat<T>, i: int): (r: Result<T>)
    requires m.Valid()
    ensures m.staticCols != 1 ==> r == Err(NotAVector)
    ensures m.staticCols == 1 ==> r == At(m, i, 0)
  {
    if m.staticCols != 1 then Err(NotAVector) else At(m, i, 0)
  }

  function UpdateVec<T>(m: Mat<T>, i: int, v: T): (r: Result<Mat<T>>)
    requires m.Valid()
    ensures m.staticCols != 1 ==> r == Err(NotAVector)
    ensures m.staticCols == 1 ==> r == Update(m, i, 0, v)
  {
    if m.staticCols != 1 then Err(NotAVector) else Update(m, i, 0, v)
  }

  /** `Matrix<T, Rows, Cols>(initialValue)`; with `initialValue == 0` it is also the default constructor. */
  function Filled<T>(staticRows: nat, staticCols: nat, v: T): (r: Mat<T>)
    ensures r.Valid() && r.rows == staticRows && r.cols == staticCols
    ensures forall i: nat, j: nat :: i < r.rows && j < r.cols ==> Get(r, i, j) == v
  {
    var r := Mat(staticRows, staticCols, staticRows, staticCols, seq(staticRows * staticCols, _ => v));
    assert forall i: nat, j: nat :: i < r.rows && j < r.cols ==> Get(r, i, j) == v by {
      forall i: nat, j: nat | i < r.rows && j < r.cols ensures Get(r, i, j) == v {
        IndexInRange(i, j, r.rows, r.cols);
      }
    }
    r
  }

  /** Initializer-list construction: exactly Rows*Cols values, stored row-major. */
  function FromList<T>(staticRows: nat, staticCols: nat, init: seq<T>): (r: Result<Mat<T>>)
    ensures r.Ok? <==> |init| == staticRows * staticCols
    ensures r.Err? ==> r.error == WrongInitializerSize
    ensures r.Ok? ==> r.value.Valid() && r.value.rows == staticRows && r.value.cols == staticCols
    ensures r.Ok? ==> forall i: nat, j: nat :: i < staticRows && j < staticCols ==>
                        Get(r.value, i, j) == init[Offset(i, j, staticRows, staticCols)]
  {
    if |init| != staticRows * staticCols then Err(WrongInitializerSize)
    else Ok(Mat(staticRows, staticCols, staticRows, staticCols, init))
  }

  /** `std::vector::resize(n, fill)`: keeps the first elements, pads with `fill`. */
  function ResizeBuffer<T>(s: seq<T>, n: nat, fill: T): (r: seq<T>)
    ensures |r| == n
    ensures forall k :: 0 <= k < n && k < |s| ==> r[k] == s[k]
    ensures forall k :: |s| <= k < n ==> r[k] == fill
  {
    if n <= |s| then s[..n] else s + seq(n - |s|, _ => fill)
  }

  /** `resize(rows, cols[, val])`: refused for fixed-size matrices. */
  function Resize<T>(m: Mat<T>, rows: nat, cols: nat, fill: T): (r: Result<Mat<T>>)
    requires m.Valid()
    ensures r.Err? <==> m.IsFixed()
    ensures r.Err? ==> r.error == FixedSize
    ensures r.Ok? ==> r.value.Valid() && r.value.rows == rows && r.value.cols == cols
                      && |r.value.data| == rows * cols && SameType(r.value, m)
  {
    if m.IsFixed() then Err(FixedSize)
    else Ok(Mat(0, 0, rows, cols, ResizeBuffer(m.data, rows * cols, fill)))
  }

  // ---------------------------------------------------------------------
  // Arithmetic over real matrices

  /** The element-wise operators `+`, `-` and `cwiseProduct`. */
  datatype ElementOp = Plus | Minus | Times

  function Combine(op: ElementOp, x: real, y: real): real {
    match op
    case Plus => x + y
    case Minus => x - y
    case Times => x * y
  }

  /** The scalar operators `*`, `/`, `+` and `-` (and their compound forms). */
  datatype ScalarOp = ScaleBy | DivideBy | Increase | Decrease

  predicate ScalarDefined(op: ScalarOp, s: real) {
    op == DivideBy ==> s != 0.0
  }

  function ApplyScalar(op: ScalarOp, x: real, s: real): real
    requires ScalarDefined(op, s)
  {
    match op
    case ScaleBy => x * s
    case DivideBy => x / s
    case Increase => x + s
    case Decrease => x - s
  }

  /** The result of a same-shape element-wise operator: a copy of `a` whose buffer is combined with `b`'s. */
  function Elementwise(a: Mat<real>, b: Mat<real>, op: ElementOp): (r: Mat<real>)
    requires SameShape(a, b)
    ensures SameShape(r, a) && SameType(r, a)
  {
    a.(data := seq(|a.data|, k requires 0 <= k < |a.data| => Combine(op, a.data[k], b.data[k])))
  }

  /** The operator as the source runs it: a shape mismatch throws. */
  function CheckedElementwise(a: Mat<real>, b: Mat<real>, op: ElementOp): (r: Result<Mat<real>>)
    requires a.Valid() && b.Valid() && SameType(a, b)
    ensures r.Err? <==> a.rows != b.rows || a.cols != b.cols
    ensures r.Err? ==> r.error == WrongSizes
    ensures r.Ok? ==> SameShape(r.value, a) && SameType(r.value, a)
  {
    if a.rows != b.rows || a.cols != b.cols then Err(WrongSizes) else Ok(Elementwise(a, b, op))
  }

  function ScalarMap(a: Mat<real>, s: real, op: ScalarOp): (r: Mat<real>)
    requires a.Valid() && ScalarDefined(op, s)
    ensures SameShape(r, a) && SameType(r, a)
  {
    a.(data := seq(|a.data|, k requires 0 <= k < |a.data| => ApplyScalar(op, a.data[k], s)))
  }

  /** Element-wise operators act entry by entry in (row, column) terms. */
  lemma ElementwiseAt(a: Mat<real>, b: Mat<real>, op: ElementOp, i: nat, j: nat)
    requires SameShape(a, b) && i < a.rows && j < a.cols
    ensures Get(Elementwise(a, b, op), i, j) == Combine(op, Get(a, i, j), Get(b, i, j))
  {
    IndexInRange(i, j, a.rows, a.cols);
  }

  lemma ScalarMapAt(a: Mat<real>, s: real, op: ScalarOp, i: nat, j: nat)
    requires a.Valid() && ScalarDefined(op, s) && i < a.rows && j < a.cols
    ensures Get(ScalarMap(a, s, op), i, j) == ApplyScalar(op, Get(a, i, j), s)
  {
    IndexInRange(i, j, a.rows, a.cols);
  }

  /** (A + B) - B == A over the reals. */
  lemma AddThenSubtract(a: Mat<real>, b: Mat<real>)
    requires SameShape(a, b)
    ensures Elementwise(Elementwise(a, b, Plus), b, Minus) == a
  {
    var r := Elementwise(Elementwise(a, b, Plus), b, Minus);
    assert r.data == a.data;
  }

  /** Dividing by s undoes scaling by s (s nonzero); adding then subtracting s is the identity. */
  lemma ScalarInverses(a: Mat<real>, s: real)
    requires a.Valid()
    ensures s != 0.0 ==> ScalarMap(ScalarMap(a, s, ScaleBy), s, DivideBy) == a
    ensures ScalarMap(ScalarMap(a, s, Increase), s, Decrease) == a
  {
    if s != 0.0 {
      var r := ScalarMap(ScalarMap(a, s, ScaleBy), s, DivideBy);
      forall k | 0 <= k < |a.data| ensures r.data[k] == a.data[k] {
        assert r.data[k] == (a.data[k] * s) / s;
      }
      assert r.data == a.data;
    }
    var q := ScalarMap(ScalarMap(a, s, Increase), s, Decrease);
    assert q.data == a.data;
  }

  // ---------------------------------------------------------------------
  // Matrix product

  /** `sum_{k < n} a(i, k) * b(k, j)`, accumulated in the order of the source's inner loop. */
  function RowCol(a: Mat<real>, b: Mat<real>, i: nat, j: nat, n: nat): real
    requires a.Valid() && b.Valid() && i < a.rows && j < b.cols && n <= a.cols && n <= b.rows
  {
    if n == 0 then 0.0 else RowCol(a, b, i, j, n - 1) + Get(a, i, n - 1) * Get(b, n - 1, j)
  }

  /** The shape of `res` in `operator*`: `Matrix<T, Rows, RhsCols> res(0)`, resized only when both template
      parameters are 0. */
  function ProductRows(a: Mat<real>, b: Mat<real>): nat {
    if a.staticRows == 0 && b.staticCols == 0 then a.rows else a.staticRows
  }

  function ProductCols(a: Mat<real>, b: Mat<real>): nat {
    if a.staticRows == 0 && b.staticCols == 0 then b.cols else b.staticCols
  }

  /** Entry (i, j) of `res` after the triple loop: only pairs inside both operands are accumulated. */
  function ProductEntry(a: Mat<real>, b: Mat<real>, i: nat, j: nat): real
    requires a.Valid() && b.Valid() && a.cols == b.rows
  {
    if i < a.rows && j < b.cols then RowCol(a, b, i, j, a.cols) else 0.0
  }

  /** Left times right: the static shape comes from the operand types
      (`Matrix<T, Rows, Cols> * Matrix<T, Cols, RhsCols>`). */
  function Product(a: Mat<real>, b: Mat<real>): (r: Result<Mat<real>>)
    requires a.Valid() && b.Valid() && b.staticRows == a.staticCols
    ensures r.Err? <==> a.cols != b.rows
    ensures r.Err? ==> r.error == WrongSizes
    ensures r.Ok? ==> r.value.Valid() && r.value.staticRows == a.staticRows && r.value.staticCols == b.staticCols
  {
    if a.cols != b.rows then Err(WrongSizes)
    else
      var rows, cols := ProductRows(a, b), ProductCols(a, b);
      Ok(Mat(a.staticRows, b.staticCols, rows, cols,
             seq(rows * cols, k => ProductCell(a, b, cols, k))))
  }

  /** Cell k of a product with `cols` columns, in row-major order. */
  function ProductCell(a: Mat<real>, b: Mat<real>, cols: nat, k: int): real
    requires a.Valid() && b.Valid() && a.cols == b.rows
  {
    if cols == 0 || k < 0 then 0.0 else ProductEntry(a, b, k / cols, k % cols)
  }

  /** Every entry of the product is the accumulated sum of the source's triple loop. */
  lemma ProductEntryAt(a: Mat<real>, b: Mat<real>, i: nat, j: nat)
    requires a.Valid() && b.Valid() && b.staticRows == a.staticCols && a.cols == b.rows
    requires i < ProductRows(a, b) && j < ProductCols(a, b)
    ensures Get(Product(a, b).value, i, j) == ProductEntry(a, b, i, j)
  {
    var r := Product(a, b).value;
    var k := Offset(i, j, r.rows, r.cols);
    OffsetSplits(i, j, r.cols);
    assert r.data[k] == ProductCell(a, b, r.cols, k) == ProductEntry(a, b, k / r.cols, k % r.cols);
  }

  /** When the inner loop runs at all (or both operands are fixed-size) the product is rows x rhs.cols,
      and entry (i, j) is sum_k A(i, k) * B(k, j). */
  lemma ProductAt(a: Mat<real>, b: Mat<real>, i: nat, j: nat)
    requires a.Valid() && b.Valid() && b.staticRows == a.staticCols && a.cols == b.rows
    requires a.cols > 0 || (a.IsFixed() && b.IsFixed())
    requires i < a.rows && j < b.cols
    ensures Product(a, b).value.rows == a.rows && Product(a, b).value.cols == b.cols
    ensures Get(Product(a, b).value, i, j) == RowCol(a, b, i, j, a.cols)
  {
    ProductShape(a, b);
    ProductEntryAt(a, b, i, j);
  }

  /** Whatever the mix of fixed and dynamic operands, a compatible product is rows x rhs.cols. */
  lemma ProductShape(a: Mat<real>, b: Mat<real>)
    requires a.Valid() && b.Valid() && b.staticRows == a.staticCols && a.cols == b.rows
    ensures ProductRows(a, b) == a.rows || a.cols == 0
    ensures ProductCols(a, b) == b.cols || a.cols == 0
    ensures a.IsFixed() && b.IsFixed() ==> ProductRows(a, b) == a.rows && ProductCols(a, b) == b.cols
  {
  }

  // ---------------------------------------------------------------------
  // Vectors

  function Vector3(x: real, y: real, z: real): (r: Mat<real>)
    ensures r.Valid() && r.rows == 3 && r.cols == 1
  {
    Mat(3, 1, 3, 1, [x, y, z])
  }

  function Vector4(x: real, y: real, z: real, w: real): (r: Mat<real>)
    ensures r.Valid() && r.rows == 4 && r.cols == 1
  {
    Mat(4, 1, 4, 1, [x, y, z, w])
  }

  predicate IsVector3(v: Mat<real>) {
    v.staticRows == 3 && v.staticCols == 1 && v.Valid()
  }

  predicate IsVector4(v: Mat<real>) {
    v.staticRows == 4 && v.staticCols == 1 && v.Valid()
  }

  lemma Vector3Parts(v: Mat<real>)
    requires IsVector3(v)
    ensures v == Vector3(v.data[0], v.data[1], v.data[2])
  {
  }

  function DotSum(a: Mat<real>, b: Mat<real>, n: nat): real
    requires n <= |a.data| && n <= |b.data|
  {
    if n == 0 then 0.0 else DotSum(a, b, n - 1) + a.data[n - 1] * b.data[n - 1]
  }

  /** `dot`: only for `Cols == 1`, the sum of products of corresponding entries. */
  function Dot(a: Mat<real>, b: Mat<real>): (r: Result<real>)
    requires a.Valid() && b.Valid() && SameType(a, b)
    ensures r.Err? <==> a.staticCols != 1
    ensures r.Err? ==> r.error == NotAVector
  {
    if a.staticCols != 1 then Err(NotAVector) else Ok(DotSum(a, b, |a.data|))
  }

  /** `cross`: only for 3x1 vectors. */
  function Cross(a: Mat<real>, b: Mat<real>): (r: Result<Mat<real>>)
    requires a.Valid() && b.Valid() && SameType(a, b)
    ensures r.Err? <==> !IsVector3(a)
    ensures r.Err? ==> r.error == NotA3dVector
    ensures r.Ok? ==> IsVector3(r.value)
  {
    if a.staticRows != 3 || a.staticCols != 1 then Err(NotA3dVector)
    else
      var x, y := a.data, b.data;
      Ok(Vector3(x[1] * y[2] - x[2] * y[1], x[2] * y[0] - x[0] * y[2], x[0] * y[1] - x[1] * y[0]))
  }

  lemma Dot3(a: Mat<real>, b: Mat<real>)
    requires IsVector3(a) && IsVector3(b)
    ensures Dot(a, b) == Ok(a.data[0] * b.data[0] + a.data[1] * b.data[1] + a.data[2] * b.data[2])
  {
    assert DotSum(a, b, 1) == a.data[0] * b.data[0];
    assert DotSum(a, b, 2) == DotSum(a, b, 1) + a.data[1] * b.data[1];
    assert DotSum(a, b, 3) == DotSum(a, b, 2) + a.data[2] * b.data[2];
  }

  /** The cross product is orthogonal to both of its operands. */
  lemma CrossIsOrthogonal(a: Mat<real>, b: Mat<real>)
    requires IsVector3(a) && IsVector3(b)
    ensures Dot(a, Cross(a, b).value) == Ok(0.0)
    ensures Dot(b, Cross(a, b).value) == Ok(0.0)
  {
    var c := Cross(a, b).value;
    Dot3(a, c);
    Dot3(b, c);
    CrossComponents(a, b);
    TripleProductVanishes(a.data[0], a.data[1], a.data[2], b.data[0], b.data[1], b.data[2],
                          c.data[0], c.data[1], c.data[2]);
    assert a.data[0] * c.data[0] + a.data[1] * c.data[1] + a.data[2] * c.data[2] == 0.0;
    assert b.data[0] * c.data[0] + b.data[1] * c.data[1] + b.data[2] * c.data[2] == 0.0;
  }

  lemma CrossComponents(a: Mat<real>, b: Mat<real>)
    requires IsVector3(a) && IsVector3(b)
    ensures Cross(a, b).value.data[0] == a.data[1] * b.data[2] - a.data[2] * b.data[1]
    ensures Cross(a, b).value.data[1] == a.data[2] * b.data[0] - a.data[0] * b.data[2]
    ensures Cross(a, b).value.data[2] == a.data[0] * b.data[1] - a.data[1] * b.data[0]
  {
  }

  lemma TripleProductVanishes(x0: real, x1: real, x2: real, y0: real, y1: real, y2: real,
                              z0: real, z1: real, z2: real)
    requires z0 == x1 * y2 - x2 * y1 && z1 == x2 * y0 - x0 * y2 && z2 == x0 * y1 - x1 * y0
    ensures x0 * z0 + x1 * z1 + x2 * z2 == 0.0
    ensures y0 * z0 + y1 * z1 + y2 * z2 == 0.0
  {
  }

  // ---------------------------------------------------------------------
  // Vector arithmetic in components

  lemma Elementwise3(a: Mat<real>, b: Mat<real>, op: ElementOp)
    requires IsVector3(a) && IsVector3(b)
    ensures Elementwise(a, b, op) ==
            Vector3(Combine(op, a.data[0], b.data[0]), Combine(op, a.data[1], b.data[1]),
                    Combine(op, a.data[2], b.data[2]))
  {
  }

  lemma ScalarMap3(a: Mat<real>, s: real, op: ScalarOp)
    requires IsVector3(a) && ScalarDefined(op, s)
    ensures ScalarMap(a, s, op) ==
            Vector3(ApplyScalar(op, a.data[0], s), ApplyScalar(op, a.data[1], s), ApplyScalar(op, a.data[2], s))
  {
  }

  /** The square root is not computed here: the caller supplies it. */
  datatype Math = Math(sqrt: real -> real, pow: (real, real) -> real, tan: real -> real, pi: real)

  function ColumnSquares(m: Mat<real>, col: nat, n: nat): real
    requires m.Valid() && col < m.cols && n <= m.rows
  {
    if n == 0 then 0.0 else ColumnSquares(m, col, n - 1) + Get(m, n - 1, col) * Get(m, n - 1, col)
  }

  function ColumnNorms(math: Math, m: Mat<real>, n: nat): real
    requires m.Valid() && n <= m.cols
  {
    if n == 0 then 0.0 else ColumnNorms(math, m, n - 1) + math.sqrt(ColumnSquares(m, n - 1, m.rows))
  }

  /** `norm`: the sum of the columns' Euclidean lengths. */
  function Norm(math: Math, m: Mat<real>): real
    requires m.Valid()
  {
    ColumnNorms(math, m, m.cols)
  }

  /** `normalize() const`: unchanged when the norm is exactly 1, otherwise divided by it. A zero norm
      (a NaN result in the source) leaves the vector unchanged here. */
  function Normalized(math: Math, m: Mat<real>): (r: Mat<real>)
    requires m.Valid()
    ensures SameShape(r, m) && SameType(r, m)
    ensures exists c: real :: r == ScalarMap(m, c, ScaleBy)
  {
    var n := Norm(math, m);
    if n == 1.0 || n == 0.0 then
      ScaleByOne(m);
      m
    else
      DivideIsScale(m, n);
      ScalarMap(m, n, DivideBy)
  }

  lemma ScaleByOne(m: Mat<real>)
    requires m.Valid()
    ensures ScalarMap(m, 1.0, ScaleBy) == m
  {
    assert ScalarMap(m, 1.0, ScaleBy).data == m.data;
  }

  lemma DivideIsScale(m: Mat<real>, n: real)
    requires m.Valid() && n != 0.0
    ensures ScalarMap(m, n, DivideBy) == ScalarMap(m, 1.0 / n, ScaleBy)
  {
    var d, s := ScalarMap(m, n, DivideBy), ScalarMap(m, 1.0 / n, ScaleBy);
    forall k | 0 <= k < |m.data| ensures d.data[k] == s.data[k] {
      assert d.data[k] == m.data[k] / n;
      assert s.data[k] == m.data[k] * (1.0 / n);
    }
    assert d.data == s.data;
  }
}
