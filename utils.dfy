/** The closed-form helpers of Utils.cpp: homogeneous lift and divide, the
    change-of-basis, translation, perspective and viewport 4x4 matrices, the
    signed 2-D point-line distance, barycentric coordinates and barycentric
    interpolation. Everything is a function of its arguments. */
module Utils {
  import opened Matrices

  // ---------------------------------------------------------------------
  // 4x4 matrices acting on homogeneous points

  /** `Matrix4d`: a fixed-size 4x4 matrix. */
  predicate IsMatrix4(m: Mat<real>) {
    m.staticRows == 4 && m.staticCols == 4 && m.Valid()
  }

  /** A 4x4 matrix from its sixteen entries in row-major order. */
  function Matrix4(e: seq<real>): (m: Mat<real>)
    requires |e| == 16
    ensures IsMatrix4(m)
    ensures forall i: nat, j: nat :: i < 4 && j < 4 ==> Get(m, i, j) == e[4 * i + j]
  {
    Mat(4, 4, 4, 4, e)
  }

  /** Entry (i, j) of a 4x4 matrix, read straight from its row-major buffer. */
  function At(m: Mat<real>, i: nat, j: nat): real
    requires IsMatrix4(m) && i < 4 && j < 4
  {
    m.data[4 * i + j]
  }

  /** Row i of m times the column p. */
  function RowTimes(m: Mat<real>, i: nat, p: Mat<real>): real
    requires IsMatrix4(m) && IsVector4(p) && i < 4
  {
    At(m, i, 0) * p.data[0] + At(m, i, 1) * p.data[1] + At(m, i, 2) * p.data[2] + At(m, i, 3) * p.data[3]
  }

  /** A 4x4 matrix applied to a homogeneous point, written out by rows. */
  function Apply(m: Mat<real>, p: Mat<real>): (q: Mat<real>)
    requires IsMatrix4(m) && IsVector4(p)
    ensures IsVector4(q)
  {
    Vector4(RowTimes(m, 0, p), RowTimes(m, 1, p), RowTimes(m, 2, p), RowTimes(m, 3, p))
  }

  /** Entry (i, j) of a 4x4 matrix sits at position 4 i + j of its buffer. */
  lemma Get4(m: Mat<real>, i: nat, j: nat)
    requires IsMatrix4(m) && i < 4 && j < 4
    ensures Get(m, i, j) == At(m, i, j)
  {
    assert Offset(i, j, m.rows, m.cols) == i * 4 + j;
  }

  /** The product's inner sum over four terms, written out. */
  lemma RowCol4(a: Mat<real>, b: Mat<real>, i: nat, j: nat)
    requires a.Valid() && b.Valid() && a.cols == 4 && b.rows == 4 && i < a.rows && j < b.cols
    ensures RowCol(a, b, i, j, 4) ==
            Get(a, i, 0) * Get(b, 0, j) + Get(a, i, 1) * Get(b, 1, j)
            + Get(a, i, 2) * Get(b, 2, j) + Get(a, i, 3) * Get(b, 3, j)
  {
    assert RowCol(a, b, i, j, 1) == Get(a, i, 0) * Get(b, 0, j);
    assert RowCol(a, b, i, j, 2) == RowCol(a, b, i, j, 1) + Get(a, i, 1) * Get(b, 1, j);
    assert RowCol(a, b, i, j, 3) == RowCol(a, b, i, j, 2) + Get(a, i, 2) * Get(b, 2, j);
  }

  /** `Matrix4d * Vector4d` through the general product is the row-by-row application. */
  lemma ApplyIsProduct(m: Mat<real>, p: Mat<real>)
    requires IsMatrix4(m) && IsVector4(p)
    ensures Product(m, p) == Ok(Apply(m, p))
  {
    var r := Product(m, p).value;
    var q := Apply(m, p);
    forall i | 0 <= i < 4 ensures r.data[i] == q.data[i] {
      assert r.data[i] == ProductEntry(m, p, i, 0);
      RowCol4(m, p, i, 0);
      Get4(m, i, 0);
      Get4(m, i, 1);
      Get4(m, i, 2);
      Get4(m, i, 3);
      assert Get(p, 0, 0) == p.data[0] && Get(p, 1, 0) == p.data[1];
      assert Get(p, 2, 0) == p.data[2] && Get(p, 3, 0) == p.data[3];
    }
    assert r.data == q.data;
  }

  /** The product of two 4x4 matrices applies as the composition of the two: the renderer relies on this
      when it folds its four transforms into one matrix. */
  lemma ApplyComposes(a: Mat<real>, b: Mat<real>, p: Mat<real>)
    requires IsMatrix4(a) && IsMatrix4(b) && IsVector4(p)
    ensures Product(a, b).Ok? && IsMatrix4(Product(a, b).value)
    ensures Apply(Product(a, b).value, p) == Apply(a, Apply(b, p))
  {
    var ab := Product(a, b).value;
    ProductEntries4(a, b);
    RowOfProduct(a, b, ab, 0);
    RowOfProduct(a, b, ab, 1);
    RowOfProduct(a, b, ab, 2);
    RowOfProduct(a, b, ab, 3);
    ComposedRow(a, b, ab, p, 0);
    ComposedRow(a, b, ab, p, 1);
    ComposedRow(a, b, ab, p, 2);
    ComposedRow(a, b, ab, p, 3);
    ApplyByRows(ab, a, Apply(b, p), p);
  }

  /** Two applications that agree row by row agree. */
  lemma ApplyByRows(m: Mat<real>, n: Mat<real>, p: Mat<real>, q: Mat<real>)
    requires IsMatrix4(m) && IsMatrix4(n) && IsVector4(p) && IsVector4(q)
    requires RowTimes(m, 0, q) == RowTimes(n, 0, p) && RowTimes(m, 1, q) == RowTimes(n, 1, p)
    requires RowTimes(m, 2, q) == RowTimes(n, 2, p) && RowTimes(m, 3, q) == RowTimes(n, 3, p)
    ensures Apply(m, q) == Apply(n, p)
  {
  }

  /** Every entry of a product of 4x4 matrices is the inner sum over four terms. */
  lemma ProductEntries4(a: Mat<real>, b: Mat<real>)
    requires IsMatrix4(a) && IsMatrix4(b)
    ensures Product(a, b).Ok? && IsMatrix4(Product(a, b).value)
    ensures forall i: nat, j: nat | i < 4 && j < 4 :: Get(Product(a, b).value, i, j) == RowCol(a, b, i, j, 4)
  {
    forall i: nat, j: nat | i < 4 && j < 4 ensures Get(Product(a, b).value, i, j) == RowCol(a, b, i, j, 4) {
      ProductEntryAt(a, b, i, j);
    }
  }

  /** Entry (i, j) of ab is row i of a against column j of b. */
  predicate EntryIs(a: Mat<real>, b: Mat<real>, ab: Mat<real>, i: nat, j: nat)
    requires IsMatrix4(a) && IsMatrix4(b) && IsMatrix4(ab) && i < 4 && j < 4
  {
    At(ab, i, j) == At(a, i, 0) * At(b, 0, j) + At(a, i, 1) * At(b, 1, j) + At(a, i, 2) * At(b, 2, j) + At(a, i, 3) * At(b, 3, j)
  }

  /** Row i of a matrix whose entries are the inner sums of a and b, entry by entry. */
  lemma RowOfProduct(a: Mat<real>, b: Mat<real>, ab: Mat<real>, i: nat)
    requires IsMatrix4(a) && IsMatrix4(b) && IsMatrix4(ab) && i < 4
    requires forall i: nat, j: nat | i < 4 && j < 4 :: Get(ab, i, j) == RowCol(a, b, i, j, 4)
    ensures EntryIs(a, b, ab, i, 0) && EntryIs(a, b, ab, i, 1) && EntryIs(a, b, ab, i, 2) && EntryIs(a, b, ab, i, 3)
  {
    EntryOfProduct(a, b, ab, i, 0);
    EntryOfProduct(a, b, ab, i, 1);
    EntryOfProduct(a, b, ab, i, 2);
    EntryOfProduct(a, b, ab, i, 3);
  }

  /** Entry (i, j) of a matrix holding the inner sums of a and b, written out. */
  lemma EntryOfProduct(a: Mat<real>, b: Mat<real>, ab: Mat<real>, i: nat, j: nat)
    requires IsMatrix4(a) && IsMatrix4(b) && IsMatrix4(ab) && i < 4 && j < 4
    requires Get(ab, i, j) == RowCol(a, b, i, j, 4)
    ensures EntryIs(a, b, ab, i, j)
  {
    RowCol4At(a, b, i, j);
    Get4(ab, i, j);
  }

  /** The product's inner sum over four terms, in the entries of two 4x4 matrices. */
  lemma RowCol4At(a: Mat<real>, b: Mat<real>, i: nat, j: nat)
    requires IsMatrix4(a) && IsMatrix4(b) && i < 4 && j < 4
    ensures RowCol(a, b, i, j, 4) ==
            At(a, i, 0) * At(b, 0, j) + At(a, i, 1) * At(b, 1, j) + At(a, i, 2) * At(b, 2, j) + At(a, i, 3) * At(b, 3, j)
  {
    RowCol4(a, b, i, j);
    Get4(a, i, 0); Get4(a, i, 1); Get4(a, i, 2); Get4(a, i, 3);
    Get4(b, 0, j); Get4(b, 1, j); Get4(b, 2, j); Get4(b, 3, j);
  }

  /** Row i of the composite applied to p equals row i of the left factor applied to (right factor p). */
  lemma ComposedRow(a: Mat<real>, b: Mat<real>, ab: Mat<real>, p: Mat<real>, i: nat)
    requires IsMatrix4(a) && IsMatrix4(b) && IsMatrix4(ab) && IsVector4(p) && i < 4
    requires EntryIs(a, b, ab, i, 0) && EntryIs(a, b, ab, i, 1) && EntryIs(a, b, ab, i, 2) && EntryIs(a, b, ab, i, 3)
    ensures RowTimes(ab, i, p) == RowTimes(a, i, Apply(b, p))
  {
    var bp := Apply(b, p);
    RowCompose(At(a, i, 0), At(a, i, 1), At(a, i, 2), At(a, i, 3), b, p.data[0], p.data[1], p.data[2], p.data[3],
               At(ab, i, 0), At(ab, i, 1), At(ab, i, 2), At(ab, i, 3),
               RowTimes(b, 0, p), RowTimes(b, 1, p), RowTimes(b, 2, p), RowTimes(b, 3, p));
    assert bp.data[0] == RowTimes(b, 0, p) && bp.data[1] == RowTimes(b, 1, p);
    assert bp.data[2] == RowTimes(b, 2, p) && bp.data[3] == RowTimes(b, 3, p);
  }

  /** Associativity for one row: (x B) p == x (B p), with x a row, B 4x4 and p a column. */
  lemma RowCompose(x0: real, x1: real, x2: real, x3: real, b: Mat<real>, p0: real, p1: real, p2: real, p3: real,
                   e0: real, e1: real, e2: real, e3: real, q0: real, q1: real, q2: real, q3: real)
    requires IsMatrix4(b)
    requires e0 == x0 * At(b, 0, 0) + x1 * At(b, 1, 0) + x2 * At(b, 2, 0) + x3 * At(b, 3, 0)
    requires e1 == x0 * At(b, 0, 1) + x1 * At(b, 1, 1) + x2 * At(b, 2, 1) + x3 * At(b, 3, 1)
    requires e2 == x0 * At(b, 0, 2) + x1 * At(b, 1, 2) + x2 * At(b, 2, 2) + x3 * At(b, 3, 2)
    requires e3 == x0 * At(b, 0, 3) + x1 * At(b, 1, 3) + x2 * At(b, 2, 3) + x3 * At(b, 3, 3)
    requires q0 == At(b, 0, 0) * p0 + At(b, 0, 1) * p1 + At(b, 0, 2) * p2 + At(b, 0, 3) * p3
    requires q1 == At(b, 1, 0) * p0 + At(b, 1, 1) * p1 + At(b, 1, 2) * p2 + At(b, 1, 3) * p3
    requires q2 == At(b, 2, 0) * p0 + At(b, 2, 1) * p1 + At(b, 2, 2) * p2 + At(b, 2, 3) * p3
    requires q3 == At(b, 3, 0) * p0 + At(b, 3, 1) * p1 + At(b, 3, 2) * p2 + At(b, 3, 3) * p3
    ensures e0 * p0 + e1 * p1 + e2 * p2 + e3 * p3 == x0 * q0 + x1 * q1 + x2 * q2 + x3 * q3
  {
    RowColumnSwap(x0, x1, x2, x3, At(b, 0, 0), At(b, 0, 1), At(b, 0, 2), At(b, 0, 3), At(b, 1, 0), At(b, 1, 1),
                  At(b, 1, 2), At(b, 1, 3), At(b, 2, 0), At(b, 2, 1), At(b, 2, 2), At(b, 2, 3), At(b, 3, 0),
                  At(b, 3, 1), At(b, 3, 2), At(b, 3, 3), p0, p1, p2, p3, e0, e1, e2, e3, q0, q1, q2, q3);
  }

  /** The row associativity over plain reals: summing the products by columns first or by rows first
      gives the same total. */
  lemma RowColumnSwap(x0: real, x1: real, x2: real, x3: real,
                      b00: real, b01: real, b02: real, b03: real, b10: real, b11: real, b12: real, b13: real,
                      b20: real, b21: real, b22: real, b23: real, b30: real, b31: real, b32: real, b33: real,
                      p0: real, p1: real, p2: real, p3: real,
                      e0: real, e1: real, e2: real, e3: real, q0: real, q1: real, q2: real, q3: real)
    requires e0 == x0 * b00 + x1 * b10 + x2 * b20 + x3 * b30
    requires e1 == x0 * b01 + x1 * b11 + x2 * b21 + x3 * b31
    requires e2 == x0 * b02 + x1 * b12 + x2 * b22 + x3 * b32
    requires e3 == x0 * b03 + x1 * b13 + x2 * b23 + x3 * b33
    requires q0 == b00 * p0 + b01 * p1 + b02 * p2 + b03 * p3
    requires q1 == b10 * p0 + b11 * p1 + b12 * p2 + b13 * p3
    requires q2 == b20 * p0 + b21 * p1 + b22 * p2 + b23 * p3
    requires q3 == b30 * p0 + b31 * p1 + b32 * p2 + b33 * p3
    ensures e0 * p0 + e1 * p1 + e2 * p2 + e3 * p3 == x0 * q0 + x1 * q1 + x2 * q2 + x3 * q3
  {
    assert e0 * p0 == x0 * (b00 * p0) + x1 * (b10 * p0) + x2 * (b20 * p0) + x3 * (b30 * p0) by {
      Col(x0, x1, x2, x3, b00, b10, b20, b30, p0);
    }
    assert e1 * p1 == x0 * (b01 * p1) + x1 * (b11 * p1) + x2 * (b21 * p1) + x3 * (b31 * p1) by {
      Col(x0, x1, x2, x3, b01, b11, b21, b31, p1);
    }
    assert e2 * p2 == x0 * (b02 * p2) + x1 * (b12 * p2) + x2 * (b22 * p2) + x3 * (b32 * p2) by {
      Col(x0, x1, x2, x3, b02, b12, b22, b32, p2);
    }
    assert e3 * p3 == x0 * (b03 * p3) + x1 * (b13 * p3) + x2 * (b23 * p3) + x3 * (b33 * p3) by {
      Col(x0, x1, x2, x3, b03, b13, b23, b33, p3);
    }
    assert x0 * q0 == x0 * (b00 * p0) + x0 * (b01 * p1) + x0 * (b02 * p2) + x0 * (b03 * p3) by {
      Distribute(b00 * p0, b01 * p1, b02 * p2, b03 * p3, x0);
    }
    assert x1 * q1 == x1 * (b10 * p0) + x1 * (b11 * p1) + x1 * (b12 * p2) + x1 * (b13 * p3) by {
      Distribute(b10 * p0, b11 * p1, b12 * p2, b13 * p3, x1);
    }
    assert x2 * q2 == x2 * (b20 * p0) + x2 * (b21 * p1) + x2 * (b22 * p2) + x2 * (b23 * p3) by {
      Distribute(b20 * p0, b21 * p1, b22 * p2, b23 * p3, x2);
    }
    assert x3 * q3 == x3 * (b30 * p0) + x3 * (b31 * p1) + x3 * (b32 * p2) + x3 * (b33 * p3) by {
      Distribute(b30 * p0, b31 * p1, b32 * p2, b33 * p3, x3);
    }
    SumSwap(e0 * p0, e1 * p1, e2 * p2, e3 * p3, x0 * q0, x1 * q1, x2 * q2, x3 * q3,
            x0 * (b00 * p0), x0 * (b01 * p1), x0 * (b02 * p2), x0 * (b03 * p3),
            x1 * (b10 * p0), x1 * (b11 * p1), x1 * (b12 * p2), x1 * (b13 * p3),
            x2 * (b20 * p0), x2 * (b21 * p1), x2 * (b22 * p2), x2 * (b23 * p3),
            x3 * (b30 * p0), x3 * (b31 * p1), x3 * (b32 * p2), x3 * (b33 * p3));
  }

  /** A 4x4 table summed by columns and by rows gives the same total. */
  lemma SumSwap(c0: real, c1: real, c2: real, c3: real, r0: real, r1: real, r2: real, r3: real,
                t00: real, t01: real, t02: real, t03: real, t10: real, t11: real, t12: real, t13: real,
                t20: real, t21: real, t22: real, t23: real, t30: real, t31: real, t32: real, t33: real)
    requires c0 == t00 + t10 + t20 + t30 && c1 == t01 + t11 + t21 + t31
    requires c2 == t02 + t12 + t22 + t32 && c3 == t03 + t13 + t23 + t33
    requires r0 == t00 + t01 + t02 + t03 && r1 == t10 + t11 + t12 + t13
    requires r2 == t20 + t21 + t22 + t23 && r3 == t30 + t31 + t32 + t33
    ensures c0 + c1 + c2 + c3 == r0 + r1 + r2 + r3
  {
  }

  /** One column's share of the row associativity. */
  lemma Col(x0: real, x1: real, x2: real, x3: real, b0: real, b1: real, b2: real, b3: real, p: real)
    ensures (x0 * b0 + x1 * b1 + x2 * b2 + x3 * b3) * p == x0 * (b0 * p) + x1 * (b1 * p) + x2 * (b2 * p) + x3 * (b3 * p)
  {
    Distribute(x0 * b0, x1 * b1, x2 * b2, x3 * b3, p);
    Regroup(x0, b0, p); Regroup(x1, b1, p); Regroup(x2, b2, p); Regroup(x3, b3, p);
  }

  /** Multiplication distributes over a sum of four terms. */
  lemma Distribute(a: real, b: real, c: real, d: real, x: real)
    ensures (a + b + c + d) * x == a * x + b * x + c * x + d * x
    ensures x * (a + b + c + d) == x * a + x * b + x * c + x * d
  {
  }

  /** Three factors may be regrouped. */
  lemma Regroup(x: real, y: real, z: real)
    ensures (x * y) * z == x * (y * z)
  {
  }
  // ---------------------------------------------------------------------
  // Homogeneous coordinates

  /** `make4dHomoCoordPoint`: (x, y, z) becomes (x, y, z, 1). */
  function Lift(p: Mat<real>): (q: Mat<real>)
    requires IsVector3(p)
    ensures IsVector4(q) && q.data[3] == 1.0
  {
    Vector4(p.data[0], p.data[1], p.data[2], 1.0)
  }

  /** `homoDivideVector4d`: the first three coordinates divided by the fourth. A zero fourth coordinate
      (an IEEE infinity or NaN in the source) is outside this model. */
  function HomoDivide(q: Mat<real>): (p: Mat<real>)
    requires IsVector4(q) && q.data[3] != 0.0
    ensures IsVector3(p)
  {
    Vector3(q.data[0] / q.data[3], q.data[1] / q.data[3], q.data[2] / q.data[3])
  }

  /** Lifting a point and dividing it again gives the point back. */
  lemma DivideAfterLift(p: Mat<real>)
    requires IsVector3(p)
    ensures HomoDivide(Lift(p)) == p
  {
    Vector3Parts(p);
  }

  /** Dividing and lifting again scales the homogeneous point by 1/w: both name the same point. */
  lemma LiftAfterDivide(q: Mat<real>)
    requires IsVector4(q) && q.data[3] != 0.0
    ensures Lift(HomoDivide(q)) == ScalarMap(q, q.data[3], DivideBy)
  {
    var s := ScalarMap(q, q.data[3], DivideBy);
    assert s.data[3] == 1.0;
    assert s.data == Lift(HomoDivide(q)).data;
  }

  // ---------------------------------------------------------------------
  // The transform matrices

  /** `make3dChangeCoordSysMatrix(u, v, w)`: rows u, v, w in the upper 3x3 block, 1 at (3, 3), zeros
      elsewhere. */
  function ChangeCoordSys(u: Mat<real>, v: Mat<real>, w: Mat<real>): (m: Mat<real>)
    requires IsVector3(u) && IsVector3(v) && IsVector3(w)
    ensures IsMatrix4(m)
  {
    Matrix4([u.data[0], u.data[1], u.data[2], 0.0,
             v.data[0], v.data[1], v.data[2], 0.0,
             w.data[0], w.data[1], w.data[2], 0.0,
             0.0, 0.0, 0.0, 1.0])
  }

  /** The change of basis sends the point p to its coordinates (u.p, v.p, w.p) in the basis u, v, w. */
  lemma ChangeCoordSysMaps(u: Mat<real>, v: Mat<real>, w: Mat<real>, p: Mat<real>)
    requires IsVector3(u) && IsVector3(v) && IsVector3(w) && IsVector3(p)
    ensures Apply(ChangeCoordSys(u, v, w), Lift(p)) ==
            Lift(Vector3(Dot(u, p).value, Dot(v, p).value, Dot(w, p).value))
  {
    Dot3(u, p);
    Dot3(v, p);
    Dot3(w, p);
    var q := Apply(ChangeCoordSys(u, v, w), Lift(p));
    assert q.data[0] == Dot(u, p).value;
    assert q.data[1] == Dot(v, p).value;
    assert q.data[2] == Dot(w, p).value;
    assert q.data[3] == 1.0;
  }

  /** The entries of `make3dTranslateMatrix(t)`: the identity, with -t in rows 0..2 of column 3. */
  function TranslateMatrix(t: Mat<real>): (m: Mat<real>)
    requires IsVector3(t)
    ensures IsMatrix4(m)
  {
    Matrix4([1.0, 0.0, 0.0, -t.data[0],
             0.0, 1.0, 0.0, -t.data[1],
             0.0, 0.0, 1.0, -t.data[2],
             0.0, 0.0, 0.0, 1.0])
  }

  /** `make3dTranslateMatrix(t)` as the source builds it: a zero matrix, then for each row r a 1 on the
      diagonal and, for r < 3, `-t(r)` in column 3. */
  method MakeTranslateMatrix(t: Mat<real>) returns (res: Mat<real>)
    requires IsVector3(t)
    ensures res == TranslateMatrix(t)
  {
    var target := TranslateMatrix(t);
    res := Filled(4, 4, 0.0);
    for r := 0 to 4
      invariant IsMatrix4(res)
      invariant forall k :: 0 <= k < 16 ==> res.data[k] == if k < 4 * r then target.data[k] else 0.0
    {
      res := Update(res, r, r, 1.0).value;
      if r < 3 {
        var tr := AtVec(t, r).value;
        res := Update(res, r, 3, -tr).value;
      }
    }
    assert res.data == target.data;
  }

  /** Translation by -t: the point p goes to p - t. */
  lemma TranslateMaps(t: Mat<real>, p: Mat<real>)
    requires IsVector3(t) && IsVector3(p)
    ensures Apply(TranslateMatrix(t), Lift(p)) == Lift(Elementwise(p, t, Minus))
  {
    Elementwise3(p, t, Minus);
  }

  /** Entries of `makePerspectiveProjectionMatrix(n, f, b, t, l, r)` are defined only for a frustum of
      nonzero width, height and depth. */
  predicate FrustumDefined(n: real, f: real, b: real, t: real, l: real, r: real) {
    r != l && t != b && n != f
  }

  /** `makePerspectiveProjectionMatrix(n, f, b, t, l, r)`. */
  function Perspective(n: real, f: real, b: real, t: real, l: real, r: real): (m: Mat<real>)
    requires FrustumDefined(n, f, b, t, l, r)
    ensures IsMatrix4(m)
  {
    Matrix4([2.0 * n / (r - l), 0.0, (l + r) / (l - r), 0.0,
             0.0, 2.0 * n / (t - b), (b + t) / (b - t), 0.0,
             0.0, 0.0, (f + n) / (n - f), 2.0 * f * n / (f - n),
             0.0, 0.0, 1.0, 0.0])
  }

  /** The projected point's w is the input's z, which the later homogeneous divide divides by. */
  lemma PerspectiveKeepsDepthInW(n: real, f: real, b: real, t: real, l: real, r: real, q: Mat<real>)
    requires FrustumDefined(n, f, b, t, l, r) && IsVector4(q)
    ensures Apply(Perspective(n, f, b, t, l, r), q).data[3] == q.data[2]
  {
    var m := Perspective(n, f, b, t, l, r);
    assert Apply(m, q).data[3] == 0.0 * q.data[0] + 0.0 * q.data[1] + 1.0 * q.data[2] + 0.0 * q.data[3];
  }

  /** The perspective matrix on a point (x, y, z, 1), row by row. */
  lemma PerspectiveApplies(n: real, f: real, b: real, t: real, l: real, r: real, x: real, y: real, z: real)
    requires FrustumDefined(n, f, b, t, l, r)
    ensures Apply(Perspective(n, f, b, t, l, r), Vector4(x, y, z, 1.0)) ==
            Vector4(2.0 * n / (r - l) * x + (l + r) / (l - r) * z,
                    2.0 * n / (t - b) * y + (b + t) / (b - t) * z,
                    (f + n) / (n - f) * z + 2.0 * f * n / (f - n),
                    z)
  {
    var m := Perspective(n, f, b, t, l, r);
    var q := Apply(m, Vector4(x, y, z, 1.0));
    assert q.data[0] == m.data[0] * x + m.data[1] * y + m.data[2] * z + m.data[3] * 1.0;
    assert q.data[1] == m.data[4] * x + m.data[5] * y + m.data[6] * z + m.data[7] * 1.0;
    assert q.data[2] == m.data[8] * x + m.data[9] * y + m.data[10] * z + m.data[11] * 1.0;
    assert q.data[3] == m.data[12] * x + m.data[13] * y + m.data[14] * z + m.data[15] * 1.0;
    assert q.data[0] == 2.0 * n / (r - l) * x + (l + r) / (l - r) * z;
    assert q.data[1] == 2.0 * n / (t - b) * y + (b + t) / (b - t) * z;
    assert q.data[2] == (f + n) / (n - f) * z + 2.0 * f * n / (f - n);
    assert q.data[3] == z;
  }

  /** After the divide, the near plane z = n lands at depth 1 and the far plane z = f at depth -1. */
  lemma PerspectiveDepthRange(n: real, f: real, b: real, t: real, l: real, r: real, x: real, y: real)
    requires FrustumDefined(n, f, b, t, l, r) && n != 0.0 && f != 0.0
    ensures HomoDivide(Apply(Perspective(n, f, b, t, l, r), Vector4(x, y, n, 1.0))).data[2] == 1.0
    ensures HomoDivide(Apply(Perspective(n, f, b, t, l, r), Vector4(x, y, f, 1.0))).data[2] == -1.0
  {
    PerspectiveApplies(n, f, b, t, l, r, x, y, n);
    PerspectiveApplies(n, f, b, t, l, r, x, y, f);
    NearFar(n, f);
  }

  /** The depth row at the near and far planes, divided by w. */
  lemma NearFar(n: real, f: real)
    requires n != f && n != 0.0 && f != 0.0
    ensures ((f + n) / (n - f) * n + 2.0 * f * n / (f - n)) / n == 1.0
    ensures ((f + n) / (n - f) * f + 2.0 * f * n / (f - n)) / f == -1.0
  {
    DepthAt(n, f, n);
    DepthAt(n, f, f);
    assert (f + n) * n - 2.0 * f * n == n * (n - f);
    assert (f + n) * f - 2.0 * f * n == -f * (n - f);
    assert n * (n - f) / (n - f) == n;
    assert -f * (n - f) / (n - f) == -f;
  }

  /** The third row of the perspective matrix on a point at depth z with w = 1. */
  lemma DepthAt(n: real, f: real, z: real)
    requires n != f
    ensures (f + n) / (n - f) * z + 2.0 * f * n / (f - n) == ((f + n) * z - 2.0 * f * n) / (n - f)
  {
    var k := n - f;
    var c, d := (f + n) / k, 2.0 * f * n / (f - n);
    assert c * k == f + n;
    assert d * (f - n) == 2.0 * f * n;
    assert d * k == -(2.0 * f * n);
    var rhs := ((f + n) * z - 2.0 * f * n) / k;
    assert rhs * k == (f + n) * z - 2.0 * f * n;
    assert (c * z + d) * k == c * k * z + d * k;
    Cancel(c * z + d, rhs, k);
  }

  /** A nonzero factor cancels. */
  lemma Cancel(a: real, b: real, k: real)
    requires k != 0.0 && a * k == b * k
    ensures a == b
  {
    assert (a - b) * k == 0.0;
  }

  /** At the near plane, the frustum's left and right edges land at x = -1 and x = 1. */
  lemma PerspectiveEdges(n: real, f: real, b: real, t: real, l: real, r: real, y: real)
    requires FrustumDefined(n, f, b, t, l, r) && n != 0.0
    ensures HomoDivide(Apply(Perspective(n, f, b, t, l, r), Vector4(l, y, n, 1.0))).data[0] == -1.0
    ensures HomoDivide(Apply(Perspective(n, f, b, t, l, r), Vector4(r, y, n, 1.0))).data[0] == 1.0
  {
    PerspectiveApplies(n, f, b, t, l, r, l, y, n);
    PerspectiveApplies(n, f, b, t, l, r, r, y, n);
    LeftRight(n, l, r);
  }

  /** The x row at the near plane's left and right edges, divided by w. */
  lemma LeftRight(n: real, l: real, r: real)
    requires r != l && n != 0.0
    ensures (2.0 * n / (r - l) * l + (l + r) / (l - r) * n) / n == -1.0
    ensures (2.0 * n / (r - l) * r + (l + r) / (l - r) * n) / n == 1.0
  {
    EdgeAt(n, l, r, l);
    EdgeAt(n, l, r, r);
    assert n * (l - l - r + l) == -n * (r - l);
    assert -n * (r - l) / (r - l) == -n;
    assert n * (r - l - r + r) == n * (r - l);
    assert n * (r - l) / (r - l) == n;
  }

  /** The first row of the perspective matrix on a point at x with depth n and w = 1. */
  lemma EdgeAt(n: real, l: real, r: real, x: real)
    requires r != l
    ensures 2.0 * n / (r - l) * x + (l + r) / (l - r) * n == n * (x - l - r + x) / (r - l)
  {
    var k := r - l;
    var a, c := 2.0 * n / k, (l + r) / (l - r);
    assert a * k == 2.0 * n;
    assert c * k == -(l + r);
    var rhs := n * (x - l - r + x) / k;
    assert rhs * k == n * (x - l - r + x);
    assert (a * x + c * n) * k == a * k * x + c * k * n;
    Cancel(a * x + c * n, rhs, k);
  }

  /** `makeViewPortTransformMatrix(nx, ny)`: x and y scaled by half the image size and shifted by half of
      size - 1; z and w unchanged. */
  function Viewport(nx: int, ny: int): (m: Mat<real>)
    ensures IsMatrix4(m)
  {
    Matrix4([nx as real / 2.0, 0.0, 0.0, (nx - 1) as real / 2.0,
             0.0, ny as real / 2.0, 0.0, (ny - 1) as real / 2.0,
             0.0, 0.0, 1.0, 0.0,
             0.0, 0.0, 0.0, 1.0])
  }

  /** The viewport map on a divided point: x goes to (nx/2) x + (nx - 1)/2, y likewise, z and w stay. */
  lemma ViewportMaps(nx: int, ny: int, x: real, y: real, z: real)
    ensures Apply(Viewport(nx, ny), Vector4(x, y, z, 1.0)) ==
            Vector4(nx as real / 2.0 * x + (nx - 1) as real / 2.0, ny as real / 2.0 * y + (ny - 1) as real / 2.0,
                    z, 1.0)
  {
    var q := Apply(Viewport(nx, ny), Vector4(x, y, z, 1.0));
    assert q.data[0] == nx as real / 2.0 * x + (nx - 1) as real / 2.0;
    assert q.data[1] == ny as real / 2.0 * y + (ny - 1) as real / 2.0;
    assert q.data[2] == z && q.data[3] == 1.0;
  }

  /** The normalised range [-1, 1] spans [-1/2, nx - 1/2]: pixel centres 0 .. nx - 1 lie inside. */
  lemma ViewportEdges(nx: int, ny: int, y: real, z: real)
    ensures Apply(Viewport(nx, ny), Vector4(-1.0, y, z, 1.0)).data[0] == -0.5
    ensures Apply(Viewport(nx, ny), Vector4(1.0, y, z, 1.0)).data[0] == nx as real - 0.5
  {
  }

  // ---------------------------------------------------------------------
  // Barycentric coordinates

  /** `computePointLineDistance(v0, v1, v)`: the signed (doubled) area of the triangle v0, v1, v in the
      xy-plane; zero exactly when v is on the line through v0 and v1. */
  function PointLineDistance(v0: Mat<real>, v1: Mat<real>, v: Mat<real>): real
    requires IsVector3(v0) && IsVector3(v1) && IsVector3(v)
  {
    (v0.data[1] - v1.data[1]) * v.data[0] + (v1.data[0] - v0.data[0]) * v.data[1]
      + v0.data[0] * v1.data[1] - v1.data[0] * v0.data[1]
  }

  /** The distance vanishes at both points that define the line. */
  lemma PointLineDistanceOnEndpoints(v0: Mat<real>, v1: Mat<real>)
    requires IsVector3(v0) && IsVector3(v1)
    ensures PointLineDistance(v0, v1, v0) == 0.0 && PointLineDistance(v0, v1, v1) == 0.0
  {
  }

  /** Only the x and y coordinates of the three points matter. */
  lemma PointLineDistanceIgnoresZ(v0: Mat<real>, v1: Mat<real>, v: Mat<real>, z0: real, z1: real, z: real)
    requires IsVector3(v0) && IsVector3(v1) && IsVector3(v)
    ensures PointLineDistance(Vector3(v0.data[0], v0.data[1], z0), Vector3(v1.data[0], v1.data[1], z1),
                              Vector3(v.data[0], v.data[1], z))
            == PointLineDistance(v0, v1, v)
  {
  }

  /** The three denominators of `computeBaryCoord` are the same doubled area. */
  lemma TriangleAreaCyclic(v0: Mat<real>, v1: Mat<real>, v2: Mat<real>)
    requires IsVector3(v0) && IsVector3(v1) && IsVector3(v2)
    ensures PointLineDistance(v1, v2, v0) == PointLineDistance(v2, v0, v1) == PointLineDistance(v0, v1, v2)
  {
  }

  /** A triangle whose projection on the xy-plane has nonzero area. */
  predicate NonDegenerate(v0: Mat<real>, v1: Mat<real>, v2: Mat<real>)
    requires IsVector3(v0) && IsVector3(v1) && IsVector3(v2)
  {
    PointLineDistance(v1, v2, v0) != 0.0
  }

  /** `computeBaryCoord(v0, v1, v2, v)`: each coordinate is v's distance to the opposite edge over the
      opposite vertex's distance to it. */
  function BaryCoord(v0: Mat<real>, v1: Mat<real>, v2: Mat<real>, v: Mat<real>): (c: Mat<real>)
    requires IsVector3(v0) && IsVector3(v1) && IsVector3(v2) && IsVector3(v)
    requires NonDegenerate(v0, v1, v2)
    ensures IsVector3(c)
  {
    TriangleAreaCyclic(v0, v1, v2);
    Vector3(PointLineDistance(v1, v2, v) / PointLineDistance(v1, v2, v0),
            PointLineDistance(v2, v0, v) / PointLineDistance(v2, v0, v1),
            PointLineDistance(v0, v1, v) / PointLineDistance(v0, v1, v2))
  }

  /** For every point the three coordinates sum to 1. */
  lemma BaryCoordSumsToOne(v0: Mat<real>, v1: Mat<real>, v2: Mat<real>, v: Mat<real>)
    requires IsVector3(v0) && IsVector3(v1) && IsVector3(v2) && IsVector3(v)
    requires NonDegenerate(v0, v1, v2)
    ensures BaryCoord(v0, v1, v2, v).data[0] + BaryCoord(v0, v1, v2, v).data[1]
            + BaryCoord(v0, v1, v2, v).data[2] == 1.0
  {
    TriangleAreaCyclic(v0, v1, v2);
    var area := PointLineDistance(v1, v2, v0);
    var d0, d1, d2 := PointLineDistance(v1, v2, v), PointLineDistance(v2, v0, v), PointLineDistance(v0, v1, v);
    assert d0 + d1 + d2 == area;
    assert d0 / area + d1 / area + d2 / area == (d0 + d1 + d2) / area;
  }

  /** At the triangle's corners the coordinates are the unit vectors. */
  lemma BaryCoordAtVertices(v0: Mat<real>, v1: Mat<real>, v2: Mat<real>)
    requires IsVector3(v0) && IsVector3(v1) && IsVector3(v2)
    requires NonDegenerate(v0, v1, v2)
    ensures BaryCoord(v0, v1, v2, v0) == Vector3(1.0, 0.0, 0.0)
    ensures BaryCoord(v0, v1, v2, v1) == Vector3(0.0, 1.0, 0.0)
    ensures BaryCoord(v0, v1, v2, v2) == Vector3(0.0, 0.0, 1.0)
  {
    TriangleAreaCyclic(v0, v1, v2);
    PointLineDistanceOnEndpoints(v1, v2);
    PointLineDistanceOnEndpoints(v2, v0);
    PointLineDistanceOnEndpoints(v0, v1);
    var area := PointLineDistance(v1, v2, v0);
    assert area / area == 1.0 && 0.0 / area == 0.0;
    var c0, c1, c2 := BaryCoord(v0, v1, v2, v0), BaryCoord(v0, v1, v2, v1), BaryCoord(v0, v1, v2, v2);
    assert c0.data[0] == 1.0 && c0.data[1] == 0.0 && c0.data[2] == 0.0;
    assert c1.data[0] == 0.0 && c1.data[1] == 1.0 && c1.data[2] == 0.0;
    assert c2.data[0] == 0.0 && c2.data[1] == 0.0 && c2.data[2] == 1.0;
  }

  // ---------------------------------------------------------------------
  // Interpolation

  /** Both `linearInterpolate` overloads (positions and colours are 3x1 vectors alike):
      `v0 * b(0) + v1 * b(1) + v2 * b(2)`, summed left to right. */
  function LinearInterpolate(v0: Mat<real>, v1: Mat<real>, v2: Mat<real>, b: Mat<real>): (r: Mat<real>)
    requires IsVector3(v0) && IsVector3(v1) && IsVector3(v2) && IsVector3(b)
    ensures IsVector3(r)
  {
    Elementwise(Elementwise(ScalarMap(v0, b.data[0], ScaleBy), ScalarMap(v1, b.data[1], ScaleBy), Plus),
                ScalarMap(v2, b.data[2], ScaleBy), Plus)
  }

  /** Component k of the interpolation is the weighted sum of the k-th components. */
  lemma LinearInterpolateAt(v0: Mat<real>, v1: Mat<real>, v2: Mat<real>, b: Mat<real>, k: nat)
    requires IsVector3(v0) && IsVector3(v1) && IsVector3(v2) && IsVector3(b) && k < 3
    ensures LinearInterpolate(v0, v1, v2, b).data[k] ==
            v0.data[k] * b.data[0] + v1.data[k] * b.data[1] + v2.data[k] * b.data[2]
  {
  }

  /** A unit weight vector picks out the matching vertex. */
  lemma LinearInterpolateAtUnit(v0: Mat<real>, v1: Mat<real>, v2: Mat<real>)
    requires IsVector3(v0) && IsVector3(v1) && IsVector3(v2)
    ensures LinearInterpolate(v0, v1, v2, Vector3(1.0, 0.0, 0.0)) == v0
    ensures LinearInterpolate(v0, v1, v2, Vector3(0.0, 1.0, 0.0)) == v1
    ensures LinearInterpolate(v0, v1, v2, Vector3(0.0, 0.0, 1.0)) == v2
  {
    Vector3Parts(v0);
    Vector3Parts(v1);
    Vector3Parts(v2);
    forall b | b in [Vector3(1.0, 0.0, 0.0), Vector3(0.0, 1.0, 0.0), Vector3(0.0, 0.0, 1.0)]
      ensures LinearInterpolate(v0, v1, v2, b) ==
              Vector3(LinearInterpolate(v0, v1, v2, b).data[0], LinearInterpolate(v0, v1, v2, b).data[1],
                      LinearInterpolate(v0, v1, v2, b).data[2])
    {
      Vector3Parts(LinearInterpolate(v0, v1, v2, b));
    }
  }

  /** Interpolating the corners with a point's barycentric coordinates gives back the point's x and y:
      the coordinates computed by `computeBaryCoord` are the ones `linearInterpolate` expects. */
  lemma InterpolateBaryCoordReproduces(v0: Mat<real>, v1: Mat<real>, v2: Mat<real>, v: Mat<real>)
    requires IsVector3(v0) && IsVector3(v1) && IsVector3(v2) && IsVector3(v)
    requires NonDegenerate(v0, v1, v2)
    ensures LinearInterpolate(v0, v1, v2, BaryCoord(v0, v1, v2, v)).data[0] == v.data[0]
    ensures LinearInterpolate(v0, v1, v2, BaryCoord(v0, v1, v2, v)).data[1] == v.data[1]
  {
    LinearInterpolateAt(v0, v1, v2, BaryCoord(v0, v1, v2, v), 0);
    LinearInterpolateAt(v0, v1, v2, BaryCoord(v0, v1, v2, v), 1);
    BaryCoordWeighs(v0, v1, v2, v);
  }

  /** The corners weighted by a point's barycentric coordinates give back the point's x and y. */
  lemma BaryCoordWeighs(v0: Mat<real>, v1: Mat<real>, v2: Mat<real>, v: Mat<real>)
    requires IsVector3(v0) && IsVector3(v1) && IsVector3(v2) && IsVector3(v)
    requires NonDegenerate(v0, v1, v2)
    ensures v0.data[0] * BaryCoord(v0, v1, v2, v).data[0] + v1.data[0] * BaryCoord(v0, v1, v2, v).data[1]
            + v2.data[0] * BaryCoord(v0, v1, v2, v).data[2] == v.data[0]
    ensures v0.data[1] * BaryCoord(v0, v1, v2, v).data[0] + v1.data[1] * BaryCoord(v0, v1, v2, v).data[1]
            + v2.data[1] * BaryCoord(v0, v1, v2, v).data[2] == v.data[1]
  {
    BaryCoordOverArea(v0, v1, v2, v);
    DistancesWeighCorners(v0, v1, v2, v);
    WeightedOverArea(v0.data[0], v1.data[0], v2.data[0], PointLineDistance(v1, v2, v), PointLineDistance(v2, v0, v),
                     PointLineDistance(v0, v1, v), PointLineDistance(v1, v2, v0), v.data[0]);
    WeightedOverArea(v0.data[1], v1.data[1], v2.data[1], PointLineDistance(v1, v2, v), PointLineDistance(v2, v0, v),
                     PointLineDistance(v0, v1, v), PointLineDistance(v1, v2, v0), v.data[1]);
  }

  /** Each barycentric coordinate is a distance over the one area of the triangle. */
  lemma BaryCoordOverArea(v0: Mat<real>, v1: Mat<real>, v2: Mat<real>, v: Mat<real>)
    requires IsVector3(v0) && IsVector3(v1) && IsVector3(v2) && IsVector3(v)
    requires NonDegenerate(v0, v1, v2)
    ensures BaryCoord(v0, v1, v2, v).data[0] == PointLineDistance(v1, v2, v) / PointLineDistance(v1, v2, v0)
    ensures BaryCoord(v0, v1, v2, v).data[1] == PointLineDistance(v2, v0, v) / PointLineDistance(v1, v2, v0)
    ensures BaryCoord(v0, v1, v2, v).data[2] == PointLineDistance(v0, v1, v) / PointLineDistance(v1, v2, v0)
  {
    TriangleAreaCyclic(v0, v1, v2);
  }

  /** The corners weighted by the point's distances to the opposite edges sum to the area times the point. */
  lemma DistancesWeighCorners(v0: Mat<real>, v1: Mat<real>, v2: Mat<real>, v: Mat<real>)
    requires IsVector3(v0) && IsVector3(v1) && IsVector3(v2) && IsVector3(v)
    ensures v0.data[0] * PointLineDistance(v1, v2, v) + v1.data[0] * PointLineDistance(v2, v0, v)
            + v2.data[0] * PointLineDistance(v0, v1, v) == PointLineDistance(v1, v2, v0) * v.data[0]
    ensures v0.data[1] * PointLineDistance(v1, v2, v) + v1.data[1] * PointLineDistance(v2, v0, v)
            + v2.data[1] * PointLineDistance(v0, v1, v) == PointLineDistance(v1, v2, v0) * v.data[1]
  {
    WeightedCorners(v0.data[0], v0.data[1], v1.data[0], v1.data[1], v2.data[0], v2.data[1], v.data[0], v.data[1],
                    PointLineDistance(v1, v2, v0), PointLineDistance(v1, v2, v), PointLineDistance(v2, v0, v),
                    PointLineDistance(v0, v1, v));
  }

  /** Dividing the weights by the area divides the weighted sum by it. */
  lemma WeightedOverArea(x0: real, x1: real, x2: real, d0: real, d1: real, d2: real, area: real, x: real)
    requires area != 0.0 && x0 * d0 + x1 * d1 + x2 * d2 == area * x
    ensures x0 * (d0 / area) + x1 * (d1 / area) + x2 * (d2 / area) == x
  {
    var w0, w1, w2 := d0 / area, d1 / area, d2 / area;
    assert w0 * area == d0 && w1 * area == d1 && w2 * area == d2;
    assert (x0 * w0 + x1 * w1 + x2 * w2) * area == x0 * d0 + x1 * d1 + x2 * d2;
    Cancel(x0 * w0 + x1 * w1 + x2 * w2, x, area);
  }

  /** The polynomial identity behind barycentric reconstruction, on plain coordinates. */
  lemma WeightedCorners(x0: real, y0: real, x1: real, y1: real, x2: real, y2: real, x: real, y: real,
                        area: real, d0: real, d1: real, d2: real)
    requires area == (y1 - y2) * x0 + (x2 - x1) * y0 + x1 * y2 - x2 * y1
    requires d0 == (y1 - y2) * x + (x2 - x1) * y + x1 * y2 - x2 * y1
    requires d1 == (y2 - y0) * x + (x0 - x2) * y + x2 * y0 - x0 * y2
    requires d2 == (y0 - y1) * x + (x1 - x0) * y + x0 * y1 - x1 * y0
    ensures x0 * d0 + x1 * d1 + x2 * d2 == area * x
    ensures y0 * d0 + y1 * d1 + y2 * d2 == area * y
  {
  }
}
