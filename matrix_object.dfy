/** The mutable side of Matrix.h: a matrix object whose element writes,
    `resize` and assignment change it in place. Its value at any moment is a
    `Matrices.Mat`, and every method is stated against the value-level
    specification in module Matrices. */
module MatrixObjects {
  import opened Matrices

  class Matrix<T(0)> {
    /** The template parameters `Rows` and `Cols` (both 0 for a dynamic matrix). */
    const staticRows: nat
    const staticCols: nat
    var height: nat
    var width: nat
    var data: seq<T>

    function Value(): Mat<T>
      reads this
    {
      Mat(staticRows, staticCols, height, width, data)
    }

    ghost predicate Valid()
      reads this
    {
      Value().Valid()
    }

    /** Construction from a matrix value (the copy constructor, and every constructor through the
        value it builds: `Filled`, `FromList`). */
    constructor (m: Mat<T>)
      requires m.Valid()
      ensures Valid() && Value() == m
    {
      staticRows, staticCols := m.staticRows, m.staticCols;
      height, width, data := m.rows, m.cols, m.data;
    }

    /** `operator()(i, j)`: bounds-checked read of `data[i * cols + j]`. */
    method Read(i: int, j: int) returns (r: Result<T>)
      requires Valid()
      ensures r == At(Value(), i, j)
    {
      if i >= height || j >= width || i < 0 || j < 0 {
        return Err(OutOfRange);
      }
      r := Ok(data[Offset(i, j, height, width)]);
    }

    /** `operator()(i, j) = v`: the write goes through the same bounds check. */
    method Write(i: int, j: int, v: T) returns (r: Result<()>)
      requires Valid()
      modifies this
      ensures Valid()
      ensures Update(old(Value()), i, j, v).Ok? ==> r == Ok(()) && Value() == Update(old(Value()), i, j, v).value
      ensures Update(old(Value()), i, j, v).Err? ==> r == Err(OutOfRange) && Value() == old(Value())
    {
      if i >= height || j >= width || i < 0 || j < 0 {
        return Err(OutOfRange);
      }
      data := data[Offset(i, j, height, width) := v];
      r := Ok(());
    }

    /** `operator()(i)`: only for `Cols == 1`, then element (i, 0). */
    method ReadVec(i: int) returns (r: Result<T>)
      requires Valid()
      ensures r == AtVec(Value(), i)
    {
      if staticCols != 1 {
        return Err(NotAVector);
      }
      r := Read(i, 0);
    }

    /** `operator()(i) = v`: only for `Cols == 1`, then element (i, 0). */
    method WriteVec(i: int, v: T) returns (r: Result<()>)
      requires Valid()
      modifies this
      ensures Valid()
      ensures UpdateVec(old(Value()), i, v).Ok? ==> r == Ok(()) && Value() == UpdateVec(old(Value()), i, v).value
      ensures UpdateVec(old(Value()), i, v).Err? ==>
                r == Err(UpdateVec(old(Value()), i, v).error) && Value() == old(Value())
    {
      if staticCols != 1 {
        return Err(NotAVector);
      }
      r := Write(i, 0, v);
    }

    /** `resize(rows, cols)` and `resize(rows, cols, val)`; `fill` is `val`, or `T()` for the first form. */
    method Resize(rows: nat, cols: nat, fill: T) returns (r: Result<()>)
      requires Valid()
      modifies this
      ensures Valid()
      ensures Matrices.Resize(old(Value()), rows, cols, fill).Ok? ==>
                r == Ok(()) && Value() == Matrices.Resize(old(Value()), rows, cols, fill).value
      ensures Matrices.Resize(old(Value()), rows, cols, fill).Err? ==>
                r == Err(FixedSize) && Value() == old(Value())
    {
      if staticRows != 0 || staticCols != 0 {
        return Err(FixedSize);
      }
      height := rows;
      width := cols;
      data := ResizeBuffer(data, height * width, fill);
      r := Ok(());
    }

    /** `operator=`: the right-hand side has the same C++ type, so the same static shape. */
    method Assign(rhs: Mat<T>)
      requires Valid() && rhs.Valid() && SameType(rhs, Value())
      modifies this
      ensures Valid() && Value() == rhs
    {
      height, width, data := rhs.rows, rhs.cols, rhs.data;
    }
  }
}
