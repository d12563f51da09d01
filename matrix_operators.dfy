/** The arithmetic operators of Matrix.h as the source runs them: copy the
    left operand, then update its buffer in an index loop (a triple loop for
    the product). Each is proved equal to its specification in Matrices. */
module MatrixOperators {
  import opened Matrices
  import opened MatrixObjects

  /** `operator+`, `operator-` and `cwiseProduct` on two matrices of one C++ type. */
  method ElementwiseOp(a: Mat<real>, b: Mat<real>, op: ElementOp) returns (r: Result<Mat<real>>)
    requires a.Valid() && b.Valid() && SameType(a, b)
    ensures r == CheckedElementwise(a, b, op)
  {
    if a.rows != b.rows || a.cols != b.cols {
      return Err(WrongSizes);
    }
    var data := a.data;
    for i := 0 to |data|
      invariant |data| == |a.data|
      invariant forall k :: 0 <= k < i ==> data[k] == Combine(op, a.data[k], b.data[k])
      invariant forall k :: i <= k < |data| ==> data[k] == a.data[k]
    {
      data := data[i := Combine(op, data[i], b.data[i])];
    }
    assert data == Elementwise(a, b, op).data;
    r := Ok(a.(data := data));
  }

  /** `operator*`, `operator/`, `operator+` and `operator-` with a scalar right operand. */
  method ScalarOperator(a: Mat<real>, s: real, op: ScalarOp) returns (r: Mat<real>)
    requires a.Valid() && ScalarDefined(op, s)
    ensures r == ScalarMap(a, s, op)
  {
    var data := a.data;
    for i := 0 to |data|
      invariant |data| == |a.data|
      invariant forall k :: 0 <= k < i ==> data[k] == ApplyScalar(op, a.data[k], s)
      invariant forall k :: i <= k < |data| ==> data[k] == a.data[k]
    {
      data := data[i := ApplyScalar(op, data[i], s)];
    }
    r := a.(data := data);
  }

  /** Every buffer position is the offset of the pair it splits into. */
  lemma SplitOffset(k: nat, rows: nat, cols: nat)
    requires k < rows * cols
    ensures cols > 0 && k / cols < rows && k % cols < cols
    ensures Offset(k / cols, k % cols, rows, cols) == k
  {
    if k / cols >= rows {
      MulMonotone(rows, k / cols, cols);
      assert false;
    }
  }

  /** Entries before (i, j) in row-major order are finished; (i, j) itself holds `partial`. */
  ghost predicate ProductProgress(a: Mat<real>, b: Mat<real>, res: seq<real>, rows: nat, cols: nat,
                                  i: nat, j: nat, partial: real)
    requires a.Valid() && b.Valid() && a.cols == b.rows && |res| == rows * cols
  {
    forall i': nat, j': nat :: i' < rows && j' < cols ==>
      res[Offset(i', j', rows, cols)] ==
        if i' < i || (i' == i && j' < j) then ProductEntry(a, b, i', j')
        else if i' == i && j' == j then partial
        else 0.0
  }

  /** One step of the innermost loop: entry (i, j) gains `a(i, k) * b(k, j)`. */
  lemma ProductStep(a: Mat<real>, b: Mat<real>, res: seq<real>, rows: nat, cols: nat, i: nat, j: nat, k: nat)
    requires a.Valid() && b.Valid() && a.cols == b.rows && |res| == rows * cols
    requires i < a.rows && j < b.cols && k < a.cols && i < rows && j < cols
    requires ProductProgress(a, b, res, rows, cols, i, j, RowCol(a, b, i, j, k))
    ensures ProductProgress(a, b, res[Offset(i, j, rows, cols) := res[Offset(i, j, rows, cols)] +
                                       Get(a, i, k) * Get(b, k, j)],
                            rows, cols, i, j, RowCol(a, b, i, j, k + 1))
  {
    var o := Offset(i, j, rows, cols);
    var res' := res[o := res[o] + Get(a, i, k) * Get(b, k, j)];
    forall i': nat, j': nat | i' < rows && j' < cols
      ensures res'[Offset(i', j', rows, cols)] ==
        if i' < i || (i' == i && j' < j) then ProductEntry(a, b, i', j')
        else if i' == i && j' == j then RowCol(a, b, i, j, k + 1)
        else 0.0
    {
      if i' != i || j' != j {
        OffsetsDiffer(i', j', i, j, rows, cols);
      }
    }
  }

  /** Entry (i, j) is finished: the cursor moves to (i, j + 1), which is still 0. */
  lemma ProductNextColumn(a: Mat<real>, b: Mat<real>, res: seq<real>, rows: nat, cols: nat, i: nat, j: nat)
    requires a.Valid() && b.Valid() && a.cols == b.rows && |res| == rows * cols
    requires i < a.rows && j < b.cols
    requires ProductProgress(a, b, res, rows, cols, i, j, RowCol(a, b, i, j, a.cols))
    ensures ProductProgress(a, b, res, rows, cols, i, j + 1, 0.0)
  {
  }

  /** Row i is finished: entries right of rhs.cols (if the result is wider) hold 0, as the loop leaves them. */
  lemma ProductNextRow(a: Mat<real>, b: Mat<real>, res: seq<real>, rows: nat, cols: nat, i: nat)
    requires a.Valid() && b.Valid() && a.cols == b.rows && |res| == rows * cols
    requires ProductProgress(a, b, res, rows, cols, i, b.cols, 0.0)
    ensures ProductProgress(a, b, res, rows, cols, i + 1, 0, 0.0)
  {
  }

  /** After the last row every entry of the result is finished. */
  lemma ProductDone(a: Mat<real>, b: Mat<real>, res: seq<real>, rows: nat, cols: nat)
    requires a.Valid() && b.Valid() && a.cols == b.rows && |res| == rows * cols
    requires ProductProgress(a, b, res, rows, cols, a.rows, 0, 0.0)
    ensures res == seq(rows * cols, k => ProductCell(a, b, cols, k))
  {
    forall k | 0 <= k < rows * cols ensures res[k] == ProductCell(a, b, cols, k) {
      SplitOffset(k, rows, cols);
    }
  }

  /** `operator*` between matrices: a zero result (resized when both template parameters are 0) and a
      triple loop accumulating into `res(i, j)`. */
  method Multiply(a: Mat<real>, b: Mat<real>) returns (r: Result<Mat<real>>)
    requires a.Valid() && b.Valid() && b.staticRows == a.staticCols
    ensures r == Product(a, b)
  {
    if a.cols != b.rows {
      return Err(WrongSizes);
    }
    var rows, cols := ProductRows(a, b), ProductCols(a, b);
    ProductShape(a, b);
    var res := seq(rows * cols, _ => 0.0);
    for i := 0 to a.rows
      invariant |res| == rows * cols
      invariant ProductProgress(a, b, res, rows, cols, i, 0, 0.0)
    {
      for j := 0 to b.cols
        invariant |res| == rows * cols
        invariant ProductProgress(a, b, res, rows, cols, i, j, 0.0)
      {
        for k := 0 to a.cols
          invariant |res| == rows * cols
          invariant ProductProgress(a, b, res, rows, cols, i, j, RowCol(a, b, i, j, k))
        {
          // the inner loop runs only when a.cols > 0, and then the result is a.rows x b.cols
          ProductStep(a, b, res, rows, cols, i, j, k);
          var o := Offset(i, j, rows, cols);
          res := res[o := res[o] + Get(a, i, k) * Get(b, k, j)];
        }
        ProductNextColumn(a, b, res, rows, cols, i, j);
      }
      ProductNextRow(a, b, res, rows, cols, i);
    }
    ProductDone(a, b, res, rows, cols);
    r := Ok(Mat(a.staticRows, b.staticCols, rows, cols, res));
  }

  /** `dot`: refused unless `Cols == 1`; otherwise the sum of `this(i) * rhs(i)` over the buffer. */
  method DotProduct(a: Mat<real>, b: Mat<real>) returns (r: Result<real>)
    requires a.Valid() && b.Valid() && SameType(a, b)
    ensures r == Dot(a, b)
  {
    if a.staticCols != 1 {
      return Err(NotAVector);
    }
    var sum := 0.0;
    for i := 0 to |a.data|
      invariant sum == DotSum(a, b, i)
    {
      sum := sum + a.data[i] * b.data[i];
    }
    r := Ok(sum);
  }

  /** `+=`, `-=` with a matrix: the plain operator's result assigned back; a shape mismatch throws
      before anything changes. */
  method CompoundAssign(x: Matrix<real>, rhs: Mat<real>, op: ElementOp) returns (r: Result<()>)
    requires x.Valid() && rhs.Valid() && SameType(rhs, x.Value())
    modifies x
    ensures x.Valid()
    ensures CheckedElementwise(old(x.Value()), rhs, op).Ok? ==>
              r == Ok(()) && x.Value() == CheckedElementwise(old(x.Value()), rhs, op).value
    ensures CheckedElementwise(old(x.Value()), rhs, op).Err? ==>
              r == Err(WrongSizes) && x.Value() == old(x.Value())
  {
    var res := ElementwiseOp(x.Value(), rhs, op);
    if res.Err? {
      return Err(res.error);
    }
    x.Assign(res.value);
    r := Ok(());
  }

  /** `*=`, `/=`, `+=`, `-=` with a scalar: the plain operator's result assigned back. */
  method CompoundAssignScalar(x: Matrix<real>, s: real, op: ScalarOp)
    requires x.Valid() && ScalarDefined(op, s)
    modifies x
    ensures x.Valid() && x.Value() == ScalarMap(old(x.Value()), s, op)
  {
    var res := ScalarOperator(x.Value(), s, op);
    x.Assign(res);
  }
}
