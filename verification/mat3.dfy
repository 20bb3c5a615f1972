/** 3x3 matrices, column-major like `Matrix4` (row `i`, column `j` is element
    `i + 3 * j`). `Multiply` is the textbook product, which the class lacks; it
    states what `getInverse` and `getNormalMatrix` compute. */
module Mat3 {
  import Mat4

  datatype Matrix3 = Matrix3(
    e0: real, e1: real, e2: real,
    e3: real, e4: real, e5: real,
    e6: real, e7: real, e8: real)

  /** Row or column number, counting from 0. */
  type Dim = i: int | 0 <= i < 3

  /** The entry in row `i`, column `j`. */
  function Entry(m: Matrix3, i: Dim, j: Dim): real {
    match j
    case 0 => (match i case 0 => m.e0 case 1 => m.e1 case 2 => m.e2)
    case 1 => (match i case 0 => m.e3 case 1 => m.e4 case 2 => m.e5)
    case 2 => (match i case 0 => m.e6 case 1 => m.e7 case 2 => m.e8)
  }

  /** The default constructor: a zero-filled array of nine, not the identity. */
  function Zero(): Matrix3 {
    Matrix3(0.0, 0.0, 0.0, 0.0, 0.0, 0.0, 0.0, 0.0, 0.0)
  }

  /** The default matrix is singular, so it is not the identity. */
  lemma ZeroIsSingular()
    ensures Determinant(Zero()) == 0.0
    ensures Zero() != Identity()
  {
  }

  /** `set(n11, ..., n33)`: the arguments are given row by row and land in
      row `i`, column `j`, so `n12` is stored at element 3 and `n21` at element 1. */
  function Set(n11: real, n12: real, n13: real,
               n21: real, n22: real, n23: real,
               n31: real, n32: real, n33: real): (r: Matrix3)
    ensures Entry(r, 0, 0) == n11 && Entry(r, 0, 1) == n12 && Entry(r, 0, 2) == n13
    ensures Entry(r, 1, 0) == n21 && Entry(r, 1, 1) == n22 && Entry(r, 1, 2) == n23
    ensures Entry(r, 2, 0) == n31 && Entry(r, 2, 1) == n32 && Entry(r, 2, 2) == n33
  {
    Matrix3(n11, n21, n31, n12, n22, n32, n13, n23, n33)
  }

  /** The nine-argument constructor as written: it lists the arguments into the
      array in the order given, i.e. row-major, the transpose of what `set` does. */
  function ConstructAsWritten(n11: real, n12: real, n13: real,
                              n21: real, n22: real, n23: real,
                              n31: real, n32: real, n33: real): (r: Matrix3)
    ensures r == Transpose(Set(n11, n12, n13, n21, n22, n23, n31, n32, n33))
  {
    Matrix3(n11, n12, n13, n21, n22, n23, n31, n32, n33)
  }

  /** With only `n12` set, the constructor puts it in row 1, column 0 rather than row 0, column 1. */
  lemma ConstructorDisagreesWithSet()
    ensures Entry(ConstructAsWritten(0.0, 1.0, 0.0, 0.0, 0.0, 0.0, 0.0, 0.0, 0.0), 0, 1) == 0.0
    ensures Entry(Set(0.0, 1.0, 0.0, 0.0, 0.0, 0.0, 0.0, 0.0, 0.0), 0, 1) == 1.0
  {
  }

  /** The nine-argument constructor as evidently intended: the same layout as `set`. */
  function Construct(n11: real, n12: real, n13: real,
                     n21: real, n22: real, n23: real,
                     n31: real, n32: real, n33: real): (r: Matrix3)
    ensures Entry(r, 0, 1) == n12 && Entry(r, 1, 0) == n21
    ensures r == Set(n11, n12, n13, n21, n22, n23, n31, n32, n33)
  {
    Matrix3(n11, n21, n31, n12, n22, n32, n13, n23, n33)
  }

  /** `identity()`. */
  function Identity(): Matrix3 {
    Matrix3(1.0, 0.0, 0.0, 0.0, 1.0, 0.0, 0.0, 0.0, 1.0)
  }

  /** `identity()` sets the unit matrix, whose determinant is 1. */
  lemma IdentityDeterminant()
    ensures Identity() == Set(1.0, 0.0, 0.0, 0.0, 1.0, 0.0, 0.0, 0.0, 1.0)
    ensures Determinant(Identity()) == 1.0
  {
  }

  /** `copy(m)`: reads `m` back column by column through `set`, reproducing it. */
  function Copy(m: Matrix3): (r: Matrix3)
    ensures r == m
  {
    Set(m.e0, m.e3, m.e6, m.e1, m.e4, m.e7, m.e2, m.e5, m.e8)
  }

  /** `multiplyScalar(s)`. */
  function MultiplyScalar(m: Matrix3, s: real): Matrix3 {
    Matrix3(m.e0 * s, m.e1 * s, m.e2 * s, m.e3 * s, m.e4 * s, m.e5 * s, m.e6 * s, m.e7 * s, m.e8 * s)
  }

  /** Every entry of `multiplyScalar(s)` is the old entry times `s`. */
  lemma ScaledEntries(m: Matrix3, s: real)

    ensures MultiplyScalar(m, s).e0 == m.e0 * s
    ensures MultiplyScalar(m, s).e1 == m.e1 * s
    ensures MultiplyScalar(m, s).e2 == m.e2 * s
    ensures MultiplyScalar(m, s).e3 == m.e3 * s
    ensures MultiplyScalar(m, s).e4 == m.e4 * s
    ensures MultiplyScalar(m, s).e5 == m.e5 * s
    ensures MultiplyScalar(m, s).e6 == m.e6 * s
    ensures MultiplyScalar(m, s).e7 == m.e7 * s
    ensures MultiplyScalar(m, s).e8 == m.e8 * s
  {
  }

  /** The determinant formula of `determinant()`, over the elements in storage order. */
  function Det3(a: real, b: real, c: real, d: real, e: real, f: real, g: real, h: real, i: real): real {
    a * e * i - a * f * h - b * d * i + b * f * g + c * d * h - c * e * g
  }

  /** `determinant()`. */
  function Determinant(m: Matrix3): real {
    Det3(m.e0, m.e1, m.e2, m.e3, m.e4, m.e5, m.e6, m.e7, m.e8)
  }

  /** A matrix and its transpose have the same determinant. */
  lemma DeterminantOfTranspose(m: Matrix3)
    ensures Determinant(Transpose(m)) == Determinant(m)
  {
    TransposedDet3(m.e0, m.e1, m.e2, m.e3, m.e4, m.e5, m.e6, m.e7, m.e8);
  }

  lemma TransposedDet3(a: real, b: real, c: real, d: real, e: real, f: real, g: real, h: real, i: real)
    ensures Det3(a, d, g, b, e, h, c, f, i) == Det3(a, b, c, d, e, f, g, h, i)
  {
  }

  /** `transpose()`: swaps elements 1/3, 2/6 and 5/7. */
  function Transpose(m: Matrix3): (r: Matrix3)
    ensures forall i: Dim, j: Dim :: Entry(r, i, j) == Entry(m, j, i)
  {
    Matrix3(m.e0, m.e3, m.e6, m.e1, m.e4, m.e7, m.e2, m.e5, m.e8)
  }

  lemma TransposeInvolution(m: Matrix3)
    ensures Transpose(Transpose(m)) == m
  {
  }

  /** The upper-left 3x3 block of a `Matrix4`, the part `getInverse` reads. */
  function Upper(m: Mat4.Matrix4): (r: Matrix3)
    ensures forall i: Dim, j: Dim :: Entry(r, i, j) == Mat4.Entry(m, i, j)
  {
    Matrix3(m.e0, m.e1, m.e2, m.e4, m.e5, m.e6, m.e8, m.e9, m.e10)
  }

  /** The adjugate of a 3x3 matrix: the cofactor formulas `getInverse` writes into
      its elements, in the column-major element order of `Matrix3`. */
  function Cofactors(u: Matrix3): Matrix3 {
    Matrix3(
      u.e8 * u.e4 - u.e5 * u.e7,
      -u.e8 * u.e1 + u.e2 * u.e7,
      u.e5 * u.e1 - u.e2 * u.e4,
      -u.e8 * u.e3 + u.e5 * u.e6,
      u.e8 * u.e0 - u.e2 * u.e6,
      -u.e5 * u.e0 + u.e2 * u.e3,
      u.e7 * u.e3 - u.e4 * u.e6,
      -u.e7 * u.e0 + u.e1 * u.e6,
      u.e4 * u.e0 - u.e1 * u.e3)
  }

  /** The elements `getInverse` writes before scaling: the adjugate of the upper-left block. */
  function Adjugate(m: Mat4.Matrix4): Matrix3 {
    Cofactors(Upper(m))
  }

  /** The value `getInverse` divides by: the first column of the block against the first row of the adjugate. */
  function InverseDeterminant(m: Mat4.Matrix4): real {
    var te := Adjugate(m);
    m.e0 * te.e0 + m.e1 * te.e3 + m.e2 * te.e6
  }

  /** That value is the determinant of the upper-left block. */
  lemma InverseDeterminantIsDeterminant(m: Mat4.Matrix4)
    ensures InverseDeterminant(m) == Determinant(Upper(m))
  {
    var u := Upper(m);
    var te := Cofactors(u);
    assert te.e0 == u.e8 * u.e4 - u.e5 * u.e7;
    assert te.e3 == -u.e8 * u.e3 + u.e5 * u.e6;
    assert te.e6 == u.e7 * u.e3 - u.e4 * u.e6;
    calc {
      InverseDeterminant(m);
      u.e0 * te.e0 + u.e1 * te.e3 + u.e2 * te.e6;
      { WeightedSumOfEquals(u.e0, u.e1, u.e2, te.e0, te.e3, te.e6,
          u.e8 * u.e4 - u.e5 * u.e7, -u.e8 * u.e3 + u.e5 * u.e6, u.e7 * u.e3 - u.e4 * u.e6); }
      u.e0 * (u.e8 * u.e4 - u.e5 * u.e7) + u.e1 * (-u.e8 * u.e3 + u.e5 * u.e6) + u.e2 * (u.e7 * u.e3 - u.e4 * u.e6);
      { FirstColumnExpansion(u.e0, u.e1, u.e2, u.e3, u.e4, u.e5, u.e6, u.e7, u.e8); }
      Det3(u.e0, u.e1, u.e2, u.e3, u.e4, u.e5, u.e6, u.e7, u.e8);
    }
  }

  lemma WeightedSumOfEquals(a: real, b: real, c: real, x: real, y: real, z: real, x': real, y': real, z': real)
    requires x == x' && y == y' && z == z'
    ensures a * x + b * y + c * z == a * x' + b * y' + c * z'
  {
  }

  lemma FirstColumnExpansion(a11: real, a21: real, a31: real, a12: real, a22: real, a32: real, a13: real, a23: real, a33: real)
    ensures a11 * (a33 * a22 - a32 * a23) + a21 * (-a33 * a12 + a32 * a13) + a31 * (a23 * a12 - a22 * a13)
         == Det3(a11, a21, a31, a12, a22, a32, a13, a23, a33)
  {
  }

  /** `getInverse(matrix)`: the inverse of the upper-left 3x3 block of a
      `Matrix4`. A zero determinant leaves the identity (the optional error
      flag is off by default); otherwise the adjugate is scaled by one over
      the determinant. */
  function GetInverse(m: Mat4.Matrix4): (r: Matrix3)
    ensures Determinant(Upper(m)) == 0.0 ==> r == Identity()
    ensures Determinant(Upper(m)) != 0.0 ==> r == MultiplyScalar(Adjugate(m), 1.0 / Determinant(Upper(m)))
  {
    InverseDeterminantIsDeterminant(m);
    var det := InverseDeterminant(m);
    if det == 0.0 then Identity() else MultiplyScalar(Adjugate(m), 1.0 / det)
  }

  /** The textbook matrix product, the reference for what an inverse is. */
  function Multiply(a: Matrix3, b: Matrix3): Matrix3 {
    Matrix3(

      a.e0 * b.e0 + a.e3 * b.e1 + a.e6 * b.e2,
      a.e1 * b.e0 + a.e4 * b.e1 + a.e7 * b.e2,
      a.e2 * b.e0 + a.e5 * b.e1 + a.e8 * b.e2,
      a.e0 * b.e3 + a.e3 * b.e4 + a.e6 * b.e5,
      a.e1 * b.e3 + a.e4 * b.e4 + a.e7 * b.e5,
      a.e2 * b.e3 + a.e5 * b.e4 + a.e8 * b.e5,
      a.e0 * b.e6 + a.e3 * b.e7 + a.e6 * b.e8,
      a.e1 * b.e6 + a.e4 * b.e7 + a.e7 * b.e8,
      a.e2 * b.e6 + a.e5 * b.e7 + a.e8 * b.e8)
  }

  /** Row `i` of `a` times column `j` of `b`. */
  function RowTimesColumn(a: Matrix3, b: Matrix3, i: Dim, j: Dim): real {
    Entry(a, i, 0) * Entry(b, 0, j) + Entry(a, i, 1) * Entry(b, 1, j) + Entry(a, i, 2) * Entry(b, 2, j)
  }

  /** `Multiply` is row times column. */
  lemma MultiplyIsProduct(a: Matrix3, b: Matrix3, i: Dim, j: Dim)
    ensures Entry(Multiply(a, b), i, j) == RowTimesColumn(a, b, i, j)
  {
    match i {
      case 0 => MultiplyRow0(a, b, j);
      case 1 => MultiplyRow1(a, b, j);
      case 2 => MultiplyRow2(a, b, j);
    }
  }

  lemma MultiplyRow0(a: Matrix3, b: Matrix3, j: Dim)
    ensures Entry(Multiply(a, b), 0, j) == RowTimesColumn(a, b, 0, j)
  {
    match j {
      case 0 => case 1 => case 2 =>
    }
  }

  lemma MultiplyRow1(a: Matrix3, b: Matrix3, j: Dim)
    ensures Entry(Multiply(a, b), 1, j) == RowTimesColumn(a, b, 1, j)
  {
    match j {
      case 0 => case 1 => case 2 =>
    }
  }

  lemma MultiplyRow2(a: Matrix3, b: Matrix3, j: Dim)
    ensures Entry(Multiply(a, b), 2, j) == RowTimesColumn(a, b, 2, j)
  {
    match j {
      case 0 => case 1 => case 2 =>
    }
  }

  lemma ProductElement0(a: Matrix3, b: Matrix3)
    ensures Multiply(a, b).e0 == a.e0 * b.e0 + a.e3 * b.e1 + a.e6 * b.e2
  {
  }

  lemma ProductElement3(a: Matrix3, b: Matrix3)
    ensures Multiply(a, b).e3 == a.e0 * b.e3 + a.e3 * b.e4 + a.e6 * b.e5
  {
  }

  lemma ProductElement6(a: Matrix3, b: Matrix3)
    ensures Multiply(a, b).e6 == a.e0 * b.e6 + a.e3 * b.e7 + a.e6 * b.e8
  {
  }

  lemma ProductElement1(a: Matrix3, b: Matrix3)
    ensures Multiply(a, b).e1 == a.e1 * b.e0 + a.e4 * b.e1 + a.e7 * b.e2
  {
  }

  lemma ProductElement4(a: Matrix3, b: Matrix3)
    ensures Multiply(a, b).e4 == a.e1 * b.e3 + a.e4 * b.e4 + a.e7 * b.e5
  {
  }

  lemma ProductElement7(a: Matrix3, b: Matrix3)
    ensures Multiply(a, b).e7 == a.e1 * b.e6 + a.e4 * b.e7 + a.e7 * b.e8
  {
  }

  lemma ProductElement2(a: Matrix3, b: Matrix3)
    ensures Multiply(a, b).e2 == a.e2 * b.e0 + a.e5 * b.e1 + a.e8 * b.e2
  {
  }

  lemma ProductElement5(a: Matrix3, b: Matrix3)
    ensures Multiply(a, b).e5 == a.e2 * b.e3 + a.e5 * b.e4 + a.e8 * b.e5
  {
  }

  lemma ProductElement8(a: Matrix3, b: Matrix3)
    ensures Multiply(a, b).e8 == a.e2 * b.e6 + a.e5 * b.e7 + a.e8 * b.e8
  {
  }

  /** When the block is invertible, `getInverse` really inverts it. */
  lemma InverseTimesUpper(m: Mat4.Matrix4)
    requires Determinant(Upper(m)) != 0.0
    ensures Multiply(GetInverse(m), Upper(m)) == Identity()
  {
    var d := Determinant(Upper(m));
    var k := 1.0 / d;
    var adj := Adjugate(m);
    calc {
      Multiply(GetInverse(m), Upper(m));
      Multiply(MultiplyScalar(adj, k), Upper(m));
      { ScaledProduct(adj, Upper(m), k); }
      MultiplyScalar(Multiply(adj, Upper(m)), k);
      { AdjugateTimesUpper(m); }
      MultiplyScalar(MultiplyScalar(Identity(), d), k);
      { assert d * k == 1.0; }
      Identity();
    }
  }

  /** The adjugate times the block is the determinant times the identity. */
  lemma AdjugateTimesUpper(m: Mat4.Matrix4)
    ensures Multiply(Adjugate(m), Upper(m)) == MultiplyScalar(Identity(), Determinant(Upper(m)))
  {
    var u := Upper(m);
    CofactorsTimes11(u);
    CofactorsTimes12(u);
    CofactorsTimes13(u);
    CofactorsTimes21(u);
    CofactorsTimes22(u);
    CofactorsTimes23(u);
    CofactorsTimes31(u);
    CofactorsTimes32(u);
    CofactorsTimes33(u);
  }

  lemma CofactorsTimes11(u: Matrix3)
    ensures Multiply(Cofactors(u), u).e0 == Determinant(u)
  {
    var c := Cofactors(u);
    ProductElement0(c, u);
    AdjugateTimesPoly11(u.e0, u.e1, u.e2, u.e3, u.e4, u.e5, u.e6, u.e7, u.e8,
      c.e0, c.e3, c.e6, u.e0, u.e1, u.e2, Determinant(u));
  }

  lemma CofactorsTimes12(u: Matrix3)
    ensures Multiply(Cofactors(u), u).e3 == 0.0
  {
    var c := Cofactors(u);
    ProductElement3(c, u);
    AdjugateTimesPoly12(u.e0, u.e1, u.e2, u.e3, u.e4, u.e5, u.e6, u.e7, u.e8,
      c.e0, c.e3, c.e6, u.e3, u.e4, u.e5);
  }

  lemma CofactorsTimes13(u: Matrix3)
    ensures Multiply(Cofactors(u), u).e6 == 0.0
  {
    var c := Cofactors(u);
    ProductElement6(c, u);
    AdjugateTimesPoly13(u.e0, u.e1, u.e2, u.e3, u.e4, u.e5, u.e6, u.e7, u.e8,
      c.e0, c.e3, c.e6, u.e6, u.e7, u.e8);
  }

  lemma CofactorsTimes21(u: Matrix3)
    ensures Multiply(Cofactors(u), u).e1 == 0.0
  {
    var c := Cofactors(u);
    ProductElement1(c, u);
    AdjugateTimesPoly21(u.e0, u.e1, u.e2, u.e3, u.e4, u.e5, u.e6, u.e7, u.e8,
      c.e1, c.e4, c.e7, u.e0, u.e1, u.e2);
  }

  lemma CofactorsTimes22(u: Matrix3)
    ensures Multiply(Cofactors(u), u).e4 == Determinant(u)
  {
    var c := Cofactors(u);
    ProductElement4(c, u);
    AdjugateTimesPoly22(u.e0, u.e1, u.e2, u.e3, u.e4, u.e5, u.e6, u.e7, u.e8,
      c.e1, c.e4, c.e7, u.e3, u.e4, u.e5, Determinant(u));
  }

  lemma CofactorsTimes23(u: Matrix3)
    ensures Multiply(Cofactors(u), u).e7 == 0.0
  {
    var c := Cofactors(u);
    ProductElement7(c, u);
    AdjugateTimesPoly23(u.e0, u.e1, u.e2, u.e3, u.e4, u.e5, u.e6, u.e7, u.e8,
      c.e1, c.e4, c.e7, u.e6, u.e7, u.e8);
  }

  lemma CofactorsTimes31(u: Matrix3)
    ensures Multiply(Cofactors(u), u).e2 == 0.0
  {
    var c := Cofactors(u);
    ProductElement2(c, u);
    AdjugateTimesPoly31(u.e0, u.e1, u.e2, u.e3, u.e4, u.e5, u.e6, u.e7, u.e8,
      c.e2, c.e5, c.e8, u.e0, u.e1, u.e2);
  }

  lemma CofactorsTimes32(u: Matrix3)
    ensures Multiply(Cofactors(u), u).e5 == 0.0
  {
    var c := Cofactors(u);
    ProductElement5(c, u);
    AdjugateTimesPoly32(u.e0, u.e1, u.e2, u.e3, u.e4, u.e5, u.e6, u.e7, u.e8,
      c.e2, c.e5, c.e8, u.e3, u.e4, u.e5);
  }

  lemma CofactorsTimes33(u: Matrix3)
    ensures Multiply(Cofactors(u), u).e8 == Determinant(u)
  {
    ProductElement8(Cofactors(u), u);
    CofactorColumn33(u);
  }

  /** The third cofactor row dotted with the third column of `u` is the determinant. */
  lemma CofactorColumn33(u: Matrix3)
    ensures Cofactors(u).e2 * u.e6 + Cofactors(u).e5 * u.e7 + Cofactors(u).e8 * u.e8 == Determinant(u)
  {
    AdjugateTimesPoly33(u.e0, u.e1, u.e2, u.e3, u.e4, u.e5, u.e6, u.e7, u.e8,
      u.e5 * u.e1 - u.e2 * u.e4, -u.e5 * u.e0 + u.e2 * u.e3, u.e4 * u.e0 - u.e1 * u.e3,
      u.e6, u.e7, u.e8, Determinant(u));
  }

  lemma AdjugateTimesPoly11(a11: real, a21: real, a31: real, a12: real, a22: real, a32: real, a13: real, a23: real, a33: real,
    t1: real, t2: real, t3: real, u1: real, u2: real, u3: real, d: real)
    requires t1 == a33 * a22 - a32 * a23
    requires t2 == -a33 * a12 + a32 * a13
    requires t3 == a23 * a12 - a22 * a13
    requires u1 == a11 && u2 == a21 && u3 == a31
    requires d == Det3(a11, a21, a31, a12, a22, a32, a13, a23, a33)
    ensures t1 * u1 + t2 * u2 + t3 * u3 == d
  {
  }

  lemma AdjugateTimesPoly12(a11: real, a21: real, a31: real, a12: real, a22: real, a32: real, a13: real, a23: real, a33: real,
    t1: real, t2: real, t3: real, u1: real, u2: real, u3: real)
    requires t1 == a33 * a22 - a32 * a23
    requires t2 == -a33 * a12 + a32 * a13
    requires t3 == a23 * a12 - a22 * a13
    requires u1 == a12 && u2 == a22 && u3 == a32
    ensures t1 * u1 + t2 * u2 + t3 * u3 == 0.0
  {
  }

  lemma AdjugateTimesPoly13(a11: real, a21: real, a31: real, a12: real, a22: real, a32: real, a13: real, a23: real, a33: real,
    t1: real, t2: real, t3: real, u1: real, u2: real, u3: real)
    requires t1 == a33 * a22 - a32 * a23
    requires t2 == -a33 * a12 + a32 * a13
    requires t3 == a23 * a12 - a22 * a13
    requires u1 == a13 && u2 == a23 && u3 == a33
    ensures t1 * u1 + t2 * u2 + t3 * u3 == 0.0
  {
  }

  lemma AdjugateTimesPoly21(a11: real, a21: real, a31: real, a12: real, a22: real, a32: real, a13: real, a23: real, a33: real,
    t1: real, t2: real, t3: real, u1: real, u2: real, u3: real)
    requires t1 == -a33 * a21 + a31 * a23
    requires t2 == a33 * a11 - a31 * a13
    requires t3 == -a23 * a11 + a21 * a13
    requires u1 == a11 && u2 == a21 && u3 == a31
    ensures t1 * u1 + t2 * u2 + t3 * u3 == 0.0
  {
  }

  lemma AdjugateTimesPoly22(a11: real, a21: real, a31: real, a12: real, a22: real, a32: real, a13: real, a23: real, a33: real,
    t1: real, t2: real, t3: real, u1: real, u2: real, u3: real, d: real)
    requires t1 == -a33 * a21 + a31 * a23
    requires t2 == a33 * a11 - a31 * a13
    requires t3 == -a23 * a11 + a21 * a13
    requires u1 == a12 && u2 == a22 && u3 == a32
    requires d == Det3(a11, a21, a31, a12, a22, a32, a13, a23, a33)
    ensures t1 * u1 + t2 * u2 + t3 * u3 == d
  {
  }

  lemma AdjugateTimesPoly23(a11: real, a21: real, a31: real, a12: real, a22: real, a32: real, a13: real, a23: real, a33: real,
    t1: real, t2: real, t3: real, u1: real, u2: real, u3: real)
    requires t1 == -a33 * a21 + a31 * a23
    requires t2 == a33 * a11 - a31 * a13
    requires t3 == -a23 * a11 + a21 * a13
    requires u1 == a13 && u2 == a23 && u3 == a33
    ensures t1 * u1 + t2 * u2 + t3 * u3 == 0.0
  {
  }

  lemma AdjugateTimesPoly31(a11: real, a21: real, a31: real, a12: real, a22: real, a32: real, a13: real, a23: real, a33: real,
    t1: real, t2: real, t3: real, u1: real, u2: real, u3: real)
    requires t1 == a32 * a21 - a31 * a22
    requires t2 == -a32 * a11 + a31 * a12
    requires t3 == a22 * a11 - a21 * a12
    requires u1 == a11 && u2 == a21 && u3 == a31
    ensures t1 * u1 + t2 * u2 + t3 * u3 == 0.0
  {
  }

  lemma AdjugateTimesPoly32(a11: real, a21: real, a31: real, a12: real, a22: real, a32: real, a13: real, a23: real, a33: real,
    t1: real, t2: real, t3: real, u1: real, u2: real, u3: real)
    requires t1 == a32 * a21 - a31 * a22
    requires t2 == -a32 * a11 + a31 * a12
    requires t3 == a22 * a11 - a21 * a12
    requires u1 == a12 && u2 == a22 && u3 == a32
    ensures t1 * u1 + t2 * u2 + t3 * u3 == 0.0
  {
  }

  lemma AdjugateTimesPoly33(a11: real, a21: real, a31: real, a12: real, a22: real, a32: real, a13: real, a23: real, a33: real,
    t1: real, t2: real, t3: real, u1: real, u2: real, u3: real, d: real)
    requires t1 == a32 * a21 - a31 * a22
    requires t2 == -a32 * a11 + a31 * a12
    requires t3 == a22 * a11 - a21 * a12
    requires u1 == a13 && u2 == a23 && u3 == a33
    requires d == Det3(a11, a21, a31, a12, a22, a32, a13, a23, a33)
    ensures t1 * u1 + t2 * u2 + t3 * u3 == d
  {
  }

  /** Scaling the left factor scales the product. */
  lemma ScaledProduct(a: Matrix3, b: Matrix3, k: real)
    ensures Multiply(MultiplyScalar(a, k), b) == MultiplyScalar(Multiply(a, b), k)
  {
    ScaledEntries(Multiply(a, b), k);
    ScaledProductElement0(a, b, k);
    ScaledProductElement3(a, b, k);
    ScaledProductElement6(a, b, k);
    ScaledProductElement1(a, b, k);
    ScaledProductElement4(a, b, k);
    ScaledProductElement7(a, b, k);
    ScaledProductElement2(a, b, k);
    ScaledProductElement5(a, b, k);
    ScaledProductElement8(a, b, k);
  }

  lemma ScaledProductElement0(a: Matrix3, b: Matrix3, k: real)
    ensures Multiply(MultiplyScalar(a, k), b).e0 == Multiply(a, b).e0 * k
  {
    var p := MultiplyScalar(a, k);
    ScaledEntries(a, k);
    ProductElement0(p, b);
    ProductElement0(a, b);
    ScaledRow(a.e0, a.e3, a.e6, p.e0, p.e3, p.e6, b.e0, b.e1, b.e2, Multiply(a, b).e0, k);
  }

  lemma ScaledProductElement3(a: Matrix3, b: Matrix3, k: real)
    ensures Multiply(MultiplyScalar(a, k), b).e3 == Multiply(a, b).e3 * k
  {
    var p := MultiplyScalar(a, k);
    ScaledEntries(a, k);
    ProductElement3(p, b);
    ProductElement3(a, b);
    ScaledRow(a.e0, a.e3, a.e6, p.e0, p.e3, p.e6, b.e3, b.e4, b.e5, Multiply(a, b).e3, k);
  }

  lemma ScaledProductElement6(a: Matrix3, b: Matrix3, k: real)
    ensures Multiply(MultiplyScalar(a, k), b).e6 == Multiply(a, b).e6 * k
  {
    var p := MultiplyScalar(a, k);
    ScaledEntries(a, k);
    ProductElement6(p, b);
    ProductElement6(a, b);
    ScaledRow(a.e0, a.e3, a.e6, p.e0, p.e3, p.e6, b.e6, b.e7, b.e8, Multiply(a, b).e6, k);
  }

  lemma ScaledProductElement1(a: Matrix3, b: Matrix3, k: real)
    ensures Multiply(MultiplyScalar(a, k), b).e1 == Multiply(a, b).e1 * k
  {
    var p := MultiplyScalar(a, k);
    ScaledEntries(a, k);
    ProductElement1(p, b);
    ProductElement1(a, b);
    ScaledRow(a.e1, a.e4, a.e7, p.e1, p.e4, p.e7, b.e0, b.e1, b.e2, Multiply(a, b).e1, k);
  }

  lemma ScaledProductElement4(a: Matrix3, b: Matrix3, k: real)
    ensures Multiply(MultiplyScalar(a, k), b).e4 == Multiply(a, b).e4 * k
  {
    var p := MultiplyScalar(a, k);
    ScaledEntries(a, k);
    ProductElement4(p, b);
    ProductElement4(a, b);
    ScaledRow(a.e1, a.e4, a.e7, p.e1, p.e4, p.e7, b.e3, b.e4, b.e5, Multiply(a, b).e4, k);
  }

  lemma ScaledProductElement7(a: Matrix3, b: Matrix3, k: real)
    ensures Multiply(MultiplyScalar(a, k), b).e7 == Multiply(a, b).e7 * k
  {
    var p := MultiplyScalar(a, k);
    ScaledEntries(a, k);
    ProductElement7(p, b);
    ProductElement7(a, b);
    ScaledRow(a.e1, a.e4, a.e7, p.e1, p.e4, p.e7, b.e6, b.e7, b.e8, Multiply(a, b).e7, k);
  }

  lemma ScaledProductElement2(a: Matrix3, b: Matrix3, k: real)
    ensures Multiply(MultiplyScalar(a, k), b).e2 == Multiply(a, b).e2 * k
  {
    var p := MultiplyScalar(a, k);
    ScaledEntries(a, k);
    ProductElement2(p, b);
    ProductElement2(a, b);
    ScaledRow(a.e2, a.e5, a.e8, p.e2, p.e5, p.e8, b.e0, b.e1, b.e2, Multiply(a, b).e2, k);
  }

  lemma ScaledProductElement5(a: Matrix3, b: Matrix3, k: real)
    ensures Multiply(MultiplyScalar(a, k), b).e5 == Multiply(a, b).e5 * k
  {
    var p := MultiplyScalar(a, k);
    ScaledEntries(a, k);
    ProductElement5(p, b);
    ProductElement5(a, b);
    ScaledRow(a.e2, a.e5, a.e8, p.e2, p.e5, p.e8, b.e3, b.e4, b.e5, Multiply(a, b).e5, k);
  }

  lemma ScaledProductElement8(a: Matrix3, b: Matrix3, k: real)
    ensures Multiply(MultiplyScalar(a, k), b).e8 == Multiply(a, b).e8 * k
  {
    var p := MultiplyScalar(a, k);
    ScaledEntries(a, k);
    ProductElement8(p, b);
    ProductElement8(a, b);
    ScaledRow(a.e2, a.e5, a.e8, p.e2, p.e5, p.e8, b.e6, b.e7, b.e8, Multiply(a, b).e8, k);
  }

  lemma ScaledRow(a1: real, a2: real, a3: real, p1: real, p2: real, p3: real,
                  b1: real, b2: real, b3: real, s: real, k: real)
    requires p1 == a1 * k && p2 == a2 * k && p3 == a3 * k
    requires s == a1 * b1 + a2 * b2 + a3 * b3
    ensures p1 * b1 + p2 * b2 + p3 * b3 == s * k
  {
  }

  /** The transpose of a product is the product of the transposes, reversed. */
  lemma TransposeOfProduct(a: Matrix3, b: Matrix3)
    ensures Transpose(Multiply(a, b)) == Multiply(Transpose(b), Transpose(a))
  {
    ProductElement0(a, b);
    ProductElement0(Transpose(b), Transpose(a));
    ProductElement1(a, b);
    ProductElement1(Transpose(b), Transpose(a));
    ProductElement2(a, b);
    ProductElement2(Transpose(b), Transpose(a));
    ProductElement3(a, b);
    ProductElement3(Transpose(b), Transpose(a));
    ProductElement4(a, b);
    ProductElement4(Transpose(b), Transpose(a));
    ProductElement5(a, b);
    ProductElement5(Transpose(b), Transpose(a));
    ProductElement6(a, b);
    ProductElement6(Transpose(b), Transpose(a));
    ProductElement7(a, b);
    ProductElement7(Transpose(b), Transpose(a));
    ProductElement8(a, b);
    ProductElement8(Transpose(b), Transpose(a));
  }

  /** `getNormalMatrix(m)`: the transpose of `getInverse(m)`, i.e. the inverse
      transpose of the upper-left block, which undoes the block's transpose. */
  function GetNormalMatrix(m: Mat4.Matrix4): (r: Matrix3)
    ensures Determinant(Upper(m)) == 0.0 ==> r == Identity()
    ensures Determinant(Upper(m)) != 0.0 ==> Multiply(Transpose(Upper(m)), r) == Identity()
  {
    var inv := GetInverse(m);
    if Determinant(Upper(m)) != 0.0 then
      InverseTimesUpper(m);
      TransposeOfProduct(inv, Upper(m));
      Transpose(inv)
    else
      Transpose(inv)
  }

  /** `fromArray`: the array becomes the element storage. */
  function FromArray(a: seq<real>): Matrix3
    requires |a| == 9
  {
    Matrix3(a[0], a[1], a[2], a[3], a[4], a[5], a[6], a[7], a[8])
  }

  /** `toArray`: the element storage, which `fromArray` reads back. */
  function ToArray(m: Matrix3): (r: seq<real>)
    ensures |r| == 9 && FromArray(r) == m
  {
    [m.e0, m.e1, m.e2, m.e3, m.e4, m.e5, m.e6, m.e7, m.e8]
  }

  /** `transposeIntoArray(r)`: writes the transposed storage into `r` and leaves the matrix as it was. */
  function TransposeIntoArray(m: Matrix3): (r: seq<real>)
    ensures |r| == 9 && FromArray(r) == Transpose(m)
  {
    [m.e0, m.e3, m.e6, m.e1, m.e4, m.e7, m.e2, m.e5, m.e8]
  }
}
