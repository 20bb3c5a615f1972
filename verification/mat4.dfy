/** 4x4 matrices. The sixteen entries are kept in storage order (`e0` .. `e15`),
    which is column-major: the entry in row `i`, column `j` (counting from 0)
    is element `i + 4 * j`. */
module Mat4 {
  import Vec3
  import Quat

  datatype Matrix4 = Matrix4(
    e0: real, e1: real, e2: real, e3: real,
    e4: real, e5: real, e6: real, e7: real,
    e8: real, e9: real, e10: real, e11: real,
    e12: real, e13: real, e14: real, e15: real)

  /** Storage index of the `elements` array. */
  type Index = k: int | 0 <= k < 16

  /** Row or column number, counting from 0. */
  type Dim = i: int | 0 <= i < 4

  /** The `elements` array. */
  function Elements(m: Matrix4): (r: seq<real>)
    ensures |r| == 16
  {
    [m.e0, m.e1, m.e2, m.e3, m.e4, m.e5, m.e6, m.e7,
     m.e8, m.e9, m.e10, m.e11, m.e12, m.e13, m.e14, m.e15]
  }

  function At(m: Matrix4, k: Index): (r: real)
    ensures r == Elements(m)[k]
  {
    match k
    case 0 => m.e0 case 1 => m.e1 case 2 => m.e2 case 3 => m.e3
    case 4 => m.e4 case 5 => m.e5 case 6 => m.e6 case 7 => m.e7
    case 8 => m.e8 case 9 => m.e9 case 10 => m.e10 case 11 => m.e11
    case 12 => m.e12 case 13 => m.e13 case 14 => m.e14 case 15 => m.e15
  }

  /** The entry in row `i`, column `j` of the mathematical matrix. */
  function Entry(m: Matrix4, i: Dim, j: Dim): real {
    match j
    case 0 => (match i case 0 => m.e0 case 1 => m.e1 case 2 => m.e2 case 3 => m.e3)
    case 1 => (match i case 0 => m.e4 case 1 => m.e5 case 2 => m.e6 case 3 => m.e7)
    case 2 => (match i case 0 => m.e8 case 1 => m.e9 case 2 => m.e10 case 3 => m.e11)
    case 3 => (match i case 0 => m.e12 case 1 => m.e13 case 2 => m.e14 case 3 => m.e15)
  }

  /** Storage is column-major: row `i`, column `j` sits at element `i + 4 * j`. */
  lemma EntryIsColumnMajor(m: Matrix4, i: Dim, j: Dim)
    ensures Entry(m, i, j) == At(m, i + 4 * j) == Elements(m)[i + 4 * j]
  {
  }

  /** `set(n11, ..., n44)`: the arguments are given row by row and land in
      row `i`, column `j`, so `n12` is stored at element 4 and `n21` at element 1. */
  function Set(n11: real, n12: real, n13: real, n14: real,
             n21: real, n22: real, n23: real, n24: real,
             n31: real, n32: real, n33: real, n34: real,
             n41: real, n42: real, n43: real, n44: real): Matrix4 {
    Matrix4(
      n11, n21, n31, n41,
      n12, n22, n32, n42,
      n13, n23, n33, n43,
      n14, n24, n34, n44)
  }

  /** `set` puts argument `nij` in row `i`, column `j`. */
  lemma SetRowColumn(n11: real, n12: real, n13: real, n14: real,
             n21: real, n22: real, n23: real, n24: real,
             n31: real, n32: real, n33: real, n34: real,
             n41: real, n42: real, n43: real, n44: real)
    ensures var r := Set(n11, n12, n13, n14, n21, n22, n23, n24, n31, n32, n33, n34, n41, n42, n43, n44);
      Entry(r, 0, 0) == n11 && Entry(r, 0, 1) == n12 && Entry(r, 0, 2) == n13 && Entry(r, 0, 3) == n14 &&
      Entry(r, 1, 0) == n21 && Entry(r, 1, 1) == n22 && Entry(r, 1, 2) == n23 && Entry(r, 1, 3) == n24 &&
      Entry(r, 2, 0) == n31 && Entry(r, 2, 1) == n32 && Entry(r, 2, 2) == n33 && Entry(r, 2, 3) == n34 &&
      Entry(r, 3, 0) == n41 && Entry(r, 3, 1) == n42 && Entry(r, 3, 2) == n43 && Entry(r, 3, 3) == n44
  {
  }

  /** The default constructor and `identity()`. */
  function Identity(): Matrix4 {
    Matrix4(1.0, 0.0, 0.0, 0.0,
            0.0, 1.0, 0.0, 0.0,
            0.0, 0.0, 1.0, 0.0,
            0.0, 0.0, 0.0, 1.0)
  }

  /** `multiplyMatrices(a, b)`: the product `a * b`. */
  function MultiplyMatrices(a: Matrix4, b: Matrix4): Matrix4 {
    var a11, a12, a13, a14 := a.e0, a.e4, a.e8, a.e12;
    var a21, a22, a23, a24 := a.e1, a.e5, a.e9, a.e13;
    var a31, a32, a33, a34 := a.e2, a.e6, a.e10, a.e14;
    var a41, a42, a43, a44 := a.e3, a.e7, a.e11, a.e15;
    var b11, b12, b13, b14 := b.e0, b.e4, b.e8, b.e12;
    var b21, b22, b23, b24 := b.e1, b.e5, b.e9, b.e13;
    var b31, b32, b33, b34 := b.e2, b.e6, b.e10, b.e14;
    var b41, b42, b43, b44 := b.e3, b.e7, b.e11, b.e15;
    Matrix4(
      a11 * b11 + a12 * b21 + a13 * b31 + a14 * b41, a21 * b11 + a22 * b21 + a23 * b31 + a24 * b41, a31 * b11 + a32 * b21 + a33 * b31 + a34 * b41, a41 * b11 + a42 * b21 + a43 * b31 + a44 * b41,
      a11 * b12 + a12 * b22 + a13 * b32 + a14 * b42, a21 * b12 + a22 * b22 + a23 * b32 + a24 * b42, a31 * b12 + a32 * b22 + a33 * b32 + a34 * b42, a41 * b12 + a42 * b22 + a43 * b32 + a44 * b42,
      a11 * b13 + a12 * b23 + a13 * b33 + a14 * b43, a21 * b13 + a22 * b23 + a23 * b33 + a24 * b43, a31 * b13 + a32 * b23 + a33 * b33 + a34 * b43, a41 * b13 + a42 * b23 + a43 * b33 + a44 * b43,
      a11 * b14 + a12 * b24 + a13 * b34 + a14 * b44, a21 * b14 + a22 * b24 + a23 * b34 + a24 * b44, a31 * b14 + a32 * b24 + a33 * b34 + a34 * b44, a41 * b14 + a42 * b24 + a43 * b34 + a44 * b44)
  }

  /** Row `i` of `a` times column `j` of `b`: the textbook definition of a product entry. */
  function RowTimesColumn(a: Matrix4, b: Matrix4, i: Dim, j: Dim): real {
    Entry(a, i, 0) * Entry(b, 0, j) + Entry(a, i, 1) * Entry(b, 1, j)
      + Entry(a, i, 2) * Entry(b, 2, j) + Entry(a, i, 3) * Entry(b, 3, j)
  }

  /** `multiplyMatrices` is the standard matrix product. */
  lemma MultiplyIsProduct(a: Matrix4, b: Matrix4, i: Dim, j: Dim)
    ensures Entry(MultiplyMatrices(a, b), i, j) == RowTimesColumn(a, b, i, j)
  {
    match i {
      case 0 => MultiplyRow0(a, b, j);
      case 1 => MultiplyRow1(a, b, j);
      case 2 => MultiplyRow2(a, b, j);
      case 3 => MultiplyRow3(a, b, j);
    }
  }

  lemma MultiplyRow0(a: Matrix4, b: Matrix4, j: Dim)
    ensures Entry(MultiplyMatrices(a, b), 0, j) == RowTimesColumn(a, b, 0, j)
  {
    match j {
      case 0 => case 1 => case 2 => case 3 =>
    }
  }

  lemma MultiplyRow1(a: Matrix4, b: Matrix4, j: Dim)
    ensures Entry(MultiplyMatrices(a, b), 1, j) == RowTimesColumn(a, b, 1, j)
  {
    match j {
      case 0 => case 1 => case 2 => case 3 =>
    }
  }

  lemma MultiplyRow2(a: Matrix4, b: Matrix4, j: Dim)
    ensures Entry(MultiplyMatrices(a, b), 2, j) == RowTimesColumn(a, b, 2, j)
  {
    match j {
      case 0 => case 1 => case 2 => case 3 =>
    }
  }

  lemma MultiplyRow3(a: Matrix4, b: Matrix4, j: Dim)
    ensures Entry(MultiplyMatrices(a, b), 3, j) == RowTimesColumn(a, b, 3, j)
  {
    match j {
      case 0 => case 1 => case 2 => case 3 =>
    }
  }

  /** `multiply(m)`: the receiver times `m`. All 32 inputs are read into locals
      before any element is written, so the in-place call is the plain product. */
  function Multiply(t: Matrix4, m: Matrix4): (r: Matrix4)
    ensures forall i: Dim, j: Dim :: Entry(r, i, j) == RowTimesColumn(t, m, i, j)
  {
    var old_t := t;
    MultiplyIsProductAll(old_t, m);
    MultiplyMatrices(old_t, m)
  }

  lemma MultiplyIsProductAll(a: Matrix4, b: Matrix4)
    ensures forall i: Dim, j: Dim :: Entry(MultiplyMatrices(a, b), i, j) == RowTimesColumn(a, b, i, j)
  {
    forall i: Dim, j: Dim {
      MultiplyIsProduct(a, b, i, j);
    }
  }

  /** The identity is a left and a right neutral element of the product. */
  lemma IdentityNeutral(m: Matrix4)
    ensures MultiplyMatrices(Identity(), m) == m
    ensures MultiplyMatrices(m, Identity()) == m
  {
  }
  /** `transpose`: swaps the three pairs above the diagonal with those below. */
  function Transpose(m: Matrix4): Matrix4 {
    Matrix4(
      m.e0, m.e4, m.e8, m.e12,
      m.e1, m.e5, m.e9, m.e13,
      m.e2, m.e6, m.e10, m.e14,
      m.e3, m.e7, m.e11, m.e15)
  }

  /** Row `i`, column `j` of the transpose is row `j`, column `i` of the input. */
  lemma TransposeEntry(m: Matrix4, i: Dim, j: Dim)
    ensures Entry(Transpose(m), i, j) == Entry(m, j, i)
  {
    match i {
      case 0 => case 1 => case 2 => case 3 =>
    }
  }

  /** Transposing twice restores the matrix. */
  lemma TransposeInvolution(m: Matrix4)
    ensures Transpose(Transpose(m)) == m
  {
  }

  /** The transpose of a product is the product of the transposes in reverse order. */
  lemma TransposeOfProduct(a: Matrix4, b: Matrix4)
    ensures Transpose(MultiplyMatrices(a, b)) == MultiplyMatrices(Transpose(b), Transpose(a))
  {
    TransposeOfProductColumn0(a, b);
    TransposeOfProductColumn1(a, b);
    TransposeOfProductColumn2(a, b);
    TransposeOfProductColumn3(a, b);
  }

  lemma TransposeOfProductColumn0(a: Matrix4, b: Matrix4)
    ensures Transpose(MultiplyMatrices(a, b)).e0 == MultiplyMatrices(Transpose(b), Transpose(a)).e0
    ensures Transpose(MultiplyMatrices(a, b)).e1 == MultiplyMatrices(Transpose(b), Transpose(a)).e1
    ensures Transpose(MultiplyMatrices(a, b)).e2 == MultiplyMatrices(Transpose(b), Transpose(a)).e2
    ensures Transpose(MultiplyMatrices(a, b)).e3 == MultiplyMatrices(Transpose(b), Transpose(a)).e3
  {
  }

  lemma TransposeOfProductColumn1(a: Matrix4, b: Matrix4)
    ensures Transpose(MultiplyMatrices(a, b)).e4 == MultiplyMatrices(Transpose(b), Transpose(a)).e4
    ensures Transpose(MultiplyMatrices(a, b)).e5 == MultiplyMatrices(Transpose(b), Transpose(a)).e5
    ensures Transpose(MultiplyMatrices(a, b)).e6 == MultiplyMatrices(Transpose(b), Transpose(a)).e6
    ensures Transpose(MultiplyMatrices(a, b)).e7 == MultiplyMatrices(Transpose(b), Transpose(a)).e7
  {
  }

  lemma TransposeOfProductColumn2(a: Matrix4, b: Matrix4)
    ensures Transpose(MultiplyMatrices(a, b)).e8 == MultiplyMatrices(Transpose(b), Transpose(a)).e8
    ensures Transpose(MultiplyMatrices(a, b)).e9 == MultiplyMatrices(Transpose(b), Transpose(a)).e9
    ensures Transpose(MultiplyMatrices(a, b)).e10 == MultiplyMatrices(Transpose(b), Transpose(a)).e10
    ensures Transpose(MultiplyMatrices(a, b)).e11 == MultiplyMatrices(Transpose(b), Transpose(a)).e11
  {
  }

  lemma TransposeOfProductColumn3(a: Matrix4, b: Matrix4)
    ensures Transpose(MultiplyMatrices(a, b)).e12 == MultiplyMatrices(Transpose(b), Transpose(a)).e12
    ensures Transpose(MultiplyMatrices(a, b)).e13 == MultiplyMatrices(Transpose(b), Transpose(a)).e13
    ensures Transpose(MultiplyMatrices(a, b)).e14 == MultiplyMatrices(Transpose(b), Transpose(a)).e14
    ensures Transpose(MultiplyMatrices(a, b)).e15 == MultiplyMatrices(Transpose(b), Transpose(a)).e15
  {
  }

  /** `multiplyScalar`: every element times `s`. */
  function MultiplyScalar(m: Matrix4, s: real): Matrix4 {
    Matrix4(
      m.e0 * s, m.e1 * s, m.e2 * s, m.e3 * s,
      m.e4 * s, m.e5 * s, m.e6 * s, m.e7 * s,
      m.e8 * s, m.e9 * s, m.e10 * s, m.e11 * s,
      m.e12 * s, m.e13 * s, m.e14 * s, m.e15 * s)
  }


  /** `determinant`: cofactor expansion along the bottom row. */
  function Determinant(m: Matrix4): real {
    Det4(m.e0, m.e4, m.e8, m.e12, m.e1, m.e5, m.e9, m.e13,
         m.e2, m.e6, m.e10, m.e14, m.e3, m.e7, m.e11, m.e15)
  }

  /** The determinant formula on the entries, given row by row. */
  function Det4(n11: real, n12: real, n13: real, n14: real, n21: real, n22: real, n23: real, n24: real, n31: real, n32: real, n33: real, n34: real, n41: real, n42: real, n43: real, n44: real): real {
    (
      n41 * (
        n14 * n23 * n32
        - n13 * n24 * n32
        - n14 * n22 * n33
        + n12 * n24 * n33
        + n13 * n22 * n34
        - n12 * n23 * n34) +
      n42 * (
        n11 * n23 * n34
        - n11 * n24 * n33
        + n14 * n21 * n33
        - n13 * n21 * n34
        + n13 * n24 * n31
        - n14 * n23 * n31) +
      n43 * (
        n11 * n24 * n32
        - n11 * n22 * n34
        - n14 * n21 * n32
        + n12 * n21 * n34
        + n14 * n22 * n31
        - n12 * n24 * n31) +
      n44 * (
        -n13 * n22 * n31
        - n11 * n23 * n32
        + n11 * n22 * n33
        + n13 * n21 * n32
        - n12 * n21 * n33
        + n12 * n23 * n31))
  }

  /** The elements `getInverse` computes before scaling: the adjugate (the
      transposed cofactor matrix) of `m`. */
  function Adjugate(m: Matrix4): Matrix4 {
    var n11, n12, n13, n14 := m.e0, m.e4, m.e8, m.e12;
    var n21, n22, n23, n24 := m.e1, m.e5, m.e9, m.e13;
    var n31, n32, n33, n34 := m.e2, m.e6, m.e10, m.e14;
    var n41, n42, n43, n44 := m.e3, m.e7, m.e11, m.e15;
    Matrix4(
      n23 * n34 * n42 - n24 * n33 * n42 + n24 * n32 * n43 - n22 * n34 * n43 - n23 * n32 * n44 + n22 * n33 * n44, n24 * n33 * n41 - n23 * n34 * n41 - n24 * n31 * n43 + n21 * n34 * n43 + n23 * n31 * n44 - n21 * n33 * n44, n22 * n34 * n41 - n24 * n32 * n41 + n24 * n31 * n42 - n21 * n34 * n42 - n22 * n31 * n44 + n21 * n32 * n44, n23 * n32 * n41 - n22 * n33 * n41 - n23 * n31 * n42 + n21 * n33 * n42 + n22 * n31 * n43 - n21 * n32 * n43,
      n14 * n33 * n42 - n13 * n34 * n42 - n14 * n32 * n43 + n12 * n34 * n43 + n13 * n32 * n44 - n12 * n33 * n44, n13 * n34 * n41 - n14 * n33 * n41 + n14 * n31 * n43 - n11 * n34 * n43 - n13 * n31 * n44 + n11 * n33 * n44, n14 * n32 * n41 - n12 * n34 * n41 - n14 * n31 * n42 + n11 * n34 * n42 + n12 * n31 * n44 - n11 * n32 * n44, n12 * n33 * n41 - n13 * n32 * n41 + n13 * n31 * n42 - n11 * n33 * n42 - n12 * n31 * n43 + n11 * n32 * n43,
      n13 * n24 * n42 - n14 * n23 * n42 + n14 * n22 * n43 - n12 * n24 * n43 - n13 * n22 * n44 + n12 * n23 * n44, n14 * n23 * n41 - n13 * n24 * n41 - n14 * n21 * n43 + n11 * n24 * n43 + n13 * n21 * n44 - n11 * n23 * n44, n12 * n24 * n41 - n14 * n22 * n41 + n14 * n21 * n42 - n11 * n24 * n42 - n12 * n21 * n44 + n11 * n22 * n44, n13 * n22 * n41 - n12 * n23 * n41 - n13 * n21 * n42 + n11 * n23 * n42 + n12 * n21 * n43 - n11 * n22 * n43,
      n14 * n23 * n32 - n13 * n24 * n32 - n14 * n22 * n33 + n12 * n24 * n33 + n13 * n22 * n34 - n12 * n23 * n34, n13 * n24 * n31 - n14 * n23 * n31 + n14 * n21 * n33 - n11 * n24 * n33 - n13 * n21 * n34 + n11 * n23 * n34, n14 * n22 * n31 - n12 * n24 * n31 - n14 * n21 * n32 + n11 * n24 * n32 + n12 * n21 * n34 - n11 * n22 * n34, n12 * n23 * n31 - n13 * n22 * n31 + n13 * n21 * n32 - n11 * n23 * n32 - n12 * n21 * n33 + n11 * n22 * n33)
  }

  /** The determinant as `getInverse` computes it, from the first column of
      `m` and the first row of the adjugate. */
  function InverseDeterminant(m: Matrix4): real {
    var te := Adjugate(m);
    m.e0 * te.e0 + m.e1 * te.e4 + m.e2 * te.e8 + m.e3 * te.e12
  }

  /** `getInverse(m)`: a matrix whose determinant is 0 yields the identity (the
      `throwOnInvertible` flag only feeds a debug assertion); otherwise the
      adjugate is scaled by `1 / det`. */
  function GetInverse(m: Matrix4): (r: Matrix4)
    ensures Determinant(m) == 0.0 ==> r == Identity()
    ensures Determinant(m) != 0.0 ==> r == MultiplyScalar(Adjugate(m), 1.0 / Determinant(m))
  {
    var det := InverseDeterminant(m);
    InverseDeterminantIsDeterminant(m);
    if det == 0.0 then Identity()
    else MultiplyScalar(Adjugate(m), 1.0 / det)
  }
  /** The determinant `getInverse` computes is the one `determinant` computes. */
  lemma InverseDeterminantIsDeterminant(m: Matrix4)
    ensures InverseDeterminant(m) == Determinant(m)
  {
    var te := Adjugate(m);
    FirstColumnExpansion(m.e0, m.e4, m.e8, m.e12, m.e1, m.e5, m.e9, m.e13, m.e2, m.e6, m.e10, m.e14, m.e3, m.e7, m.e11, m.e15,
      te.e0, te.e4, te.e8, te.e12);
  }

  /** Expansion along the first column equals expansion along the bottom row. */
  lemma FirstColumnExpansion(n11: real, n12: real, n13: real, n14: real, n21: real, n22: real, n23: real, n24: real, n31: real, n32: real, n33: real, n34: real, n41: real, n42: real, n43: real, n44: real,
    t0: real, t4: real, t8: real, t12: real)
    requires t0 == n23 * n34 * n42 - n24 * n33 * n42 + n24 * n32 * n43 - n22 * n34 * n43 - n23 * n32 * n44 + n22 * n33 * n44
    requires t4 == n14 * n33 * n42 - n13 * n34 * n42 - n14 * n32 * n43 + n12 * n34 * n43 + n13 * n32 * n44 - n12 * n33 * n44
    requires t8 == n13 * n24 * n42 - n14 * n23 * n42 + n14 * n22 * n43 - n12 * n24 * n43 - n13 * n22 * n44 + n12 * n23 * n44
    requires t12 == n14 * n23 * n32 - n13 * n24 * n32 - n14 * n22 * n33 + n12 * n24 * n33 + n13 * n22 * n34 - n12 * n23 * n34
    ensures n11 * t0 + n21 * t4 + n31 * t8 + n41 * t12 == Det4(n11, n12, n13, n14, n21, n22, n23, n24, n31, n32, n33, n34, n41, n42, n43, n44)
  {
  }

  /** `getPosition`: the translation column, elements 12 to 14. */
  function GetPosition(m: Matrix4): Vec3.Vector3 {
    Vec3.Vector3(m.e12, m.e13, m.e14)
  }

  /** Elements that `setPosition` and `copyPosition` do not write. */
  predicate OutsidePosition(k: Index) {
    k < 12 || k == 15
  }

  /** `setPosition(v)`: `getPosition` then returns `v`, and only elements 12 to 14 change. */
  function SetPosition(m: Matrix4, v: Vec3.Vector3): (r: Matrix4)
    ensures GetPosition(r) == v
    ensures forall k: Index :: OutsidePosition(k) ==> At(r, k) == At(m, k)
  {
    m.(e12 := v.x, e13 := v.y, e14 := v.z)
  }

  /** `copyPosition(m)`: takes over the translation of `m`, nothing else. */
  function CopyPosition(t: Matrix4, m: Matrix4): (r: Matrix4)
    ensures GetPosition(r) == GetPosition(m)
    ensures forall k: Index :: OutsidePosition(k) ==> At(r, k) == At(t, k)
    ensures r == SetPosition(t, GetPosition(m))
  {
    t.(e12 := m.e12, e13 := m.e13, e14 := m.e14)
  }

  /** `makeTranslation(x, y, z)`. */
  function MakeTranslation(x: real, y: real, z: real): (r: Matrix4)
    ensures GetPosition(r) == Vec3.Vector3(x, y, z)
  {
    Set(1.0, 0.0, 0.0, x,
        0.0, 1.0, 0.0, y,
        0.0, 0.0, 1.0, z,
        0.0, 0.0, 0.0, 1.0)
  }

  /** `makeScale(x, y, z)`. */
  function MakeScale(x: real, y: real, z: real): Matrix4 {
    Set(x, 0.0, 0.0, 0.0,
        0.0, y, 0.0, 0.0,
        0.0, 0.0, z, 0.0,
        0.0, 0.0, 0.0, 1.0)
  }

  /** A translation has determinant 1 and a scale the product of its factors. */
  lemma DeterminantOfTranslationAndScale(x: real, y: real, z: real)
    ensures Determinant(MakeTranslation(x, y, z)) == 1.0
    ensures Determinant(MakeScale(x, y, z)) == x * y * z
  {
  }

  /** The identity has determinant 1. */
  lemma DeterminantOfIdentity()
    ensures Determinant(Identity()) == 1.0
  {
  }

  /** Translations compose by adding their offsets. */
  lemma TranslationsCompose(a: Vec3.Vector3, b: Vec3.Vector3)
    ensures MultiplyMatrices(MakeTranslation(a.x, a.y, a.z), MakeTranslation(b.x, b.y, b.z))
         == MakeTranslation(a.x + b.x, a.y + b.y, a.z + b.z)
  {
  }

  /** `scale(v)`: multiplies the first three columns by `v.x`, `v.y`, `v.z`;
      the translation column is left alone. */
  function Scale(m: Matrix4, v: Vec3.Vector3): (r: Matrix4)
    ensures GetPosition(r) == GetPosition(m) && r.e15 == m.e15
  {
    var x, y, z := v.x, v.y, v.z;
    m.(e0 := m.e0 * x, e4 := m.e4 * y, e8 := m.e8 * z,
       e1 := m.e1 * x, e5 := m.e5 * y, e9 := m.e9 * z,
       e2 := m.e2 * x, e6 := m.e6 * y, e10 := m.e10 * z,
       e3 := m.e3 * x, e7 := m.e7 * y, e11 := m.e11 * z)
  }

  /** Scaling in place is multiplying on the right by the scale matrix. */
  lemma ScaleIsProduct(m: Matrix4, v: Vec3.Vector3)
    ensures Scale(m, v) == MultiplyMatrices(m, MakeScale(v.x, v.y, v.z))
  {
  }

  /** `makeRotationFromQuaternion(q)`: the rotation block from the quaternion
      formulas; the fourth row and the fourth column are those of the identity. */
  function MakeRotationFromQuaternion(q: Quat.Quaternion): (r: Matrix4)
    ensures r.e3 == 0.0 && r.e7 == 0.0 && r.e11 == 0.0 && r.e15 == 1.0
    ensures GetPosition(r) == Vec3.Zero()
  {
    var x, y, z, w := q.x, q.y, q.z, q.w;
    var x2, y2, z2 := x + x, y + y, z + z;
    var xx, xy, xz := x * x2, x * y2, x * z2;
    var yy, yz, zz := y * y2, y * z2, z * z2;
    var wx, wy, wz := w * x2, w * y2, w * z2;
    Matrix4(
      1.0 - (yy + zz), xy + wz, xz - wy, 0.0,
      xy - wz, 1.0 - (xx + zz), yz + wx, 0.0,
      xz + wy, yz - wx, 1.0 - (xx + yy), 0.0,
      0.0, 0.0, 0.0, 1.0)
  }

  /** The default quaternion gives the identity rotation. */
  lemma RotationOfIdentityQuaternion()
    ensures MakeRotationFromQuaternion(Quat.Identity()) == Identity()
  {
  }

  /** `compose(position, quaternion, scale)`: rotation, then scale, then position. */
  function Compose(position: Vec3.Vector3, q: Quat.Quaternion, s: Vec3.Vector3): (r: Matrix4)
    ensures GetPosition(r) == position
    ensures r.e3 == 0.0 && r.e7 == 0.0 && r.e11 == 0.0 && r.e15 == 1.0
  {
    SetPosition(Scale(MakeRotationFromQuaternion(q), s), position)
  }

  /** With no rotation and unit scale, `compose` is the translation to `position`. */
  lemma ComposeTranslation(position: Vec3.Vector3)
    ensures Compose(position, Quat.Identity(), Vec3.Vector3(1.0, 1.0, 1.0))
         == MakeTranslation(position.x, position.y, position.z)
  {
    var ones := Vec3.Vector3(1.0, 1.0, 1.0);
    calc {
      Compose(position, Quat.Identity(), ones);
      SetPosition(Scale(MakeRotationFromQuaternion(Quat.Identity()), ones), position);
      { RotationOfIdentityQuaternion(); }
      SetPosition(Scale(Identity(), ones), position);
      { assert Scale(Identity(), ones) == Identity(); }
      SetPosition(Identity(), position);
      MakeTranslation(position.x, position.y, position.z);
    }
  }

  /** `compose` is translation times rotation times scale. */
  lemma ComposeIsProduct(position: Vec3.Vector3, q: Quat.Quaternion, s: Vec3.Vector3)
    ensures Compose(position, q, s)
         == MultiplyMatrices(MakeTranslation(position.x, position.y, position.z),
                             MultiplyMatrices(MakeRotationFromQuaternion(q), MakeScale(s.x, s.y, s.z)))
  {
    var rot := MakeRotationFromQuaternion(q);
    ScaleIsProduct(rot, s);
  }

  /** `equals`: compares the sixteen elements in order and stops at the first difference. */
  method Equals(a: Matrix4, b: Matrix4) returns (r: bool)
    ensures r <==> a == b
  {
    var te, me := Elements(a), Elements(b);
    var i := 0;
    while i < 16
      invariant 0 <= i <= 16
      invariant te[..i] == me[..i]
    {
      if te[i] != me[i] {
        return false;
      }
      i := i + 1;
    }
    assert te == te[..16] && me == me[..16];
    return true;
  }

  /** `fromArray`: asserts at least sixteen entries and takes the array over;
      the model keeps the first sixteen. */
  function FromArray(a: seq<real>): Matrix4
    requires |a| >= 16
  {
    Matrix4(a[0], a[1], a[2], a[3], a[4], a[5], a[6], a[7],
            a[8], a[9], a[10], a[11], a[12], a[13], a[14], a[15])
  }

  /** `toArray`: the elements in storage order, which `fromArray` reads back. */
  function ToArray(m: Matrix4): (r: seq<real>)
    ensures |r| == 16 && FromArray(r) == m
    ensures forall a: seq<real> :: |a| == 16 && FromArray(a) == m ==> a == r
  {
    Elements(m)
  }

  /** For an invertible matrix `getInverse` is a left inverse: the result times
      the input is the identity. */
  lemma InverseTimesMatrix(m: Matrix4)
    requires Determinant(m) != 0.0
    ensures MultiplyMatrices(GetInverse(m), m) == Identity()
  {
    var d := Determinant(m);
    var k := 1.0 / d;
    var adj := Adjugate(m);
    calc {
      MultiplyMatrices(GetInverse(m), m);
      MultiplyMatrices(MultiplyScalar(adj, k), m);
      { ScaledProduct(adj, m, k); }
      MultiplyScalar(MultiplyMatrices(adj, m), k);
      { AdjugateTimesMatrix(m); }
      MultiplyScalar(MultiplyScalar(Identity(), d), k);
      { assert d * k == 1.0; }
      Identity();
    }
  }

  /** The adjugate times the matrix is the determinant times the identity. */
  lemma AdjugateTimesMatrix(m: Matrix4)
    ensures MultiplyMatrices(Adjugate(m), m) == MultiplyScalar(Identity(), Determinant(m))
  {
    AdjugateTimesEntry11(m);
    AdjugateTimesEntry12(m);
    AdjugateTimesEntry13(m);
    AdjugateTimesEntry14(m);
    AdjugateTimesEntry21(m);
    AdjugateTimesEntry22(m);
    AdjugateTimesEntry23(m);
    AdjugateTimesEntry24(m);
    AdjugateTimesEntry31(m);
    AdjugateTimesEntry32(m);
    AdjugateTimesEntry33(m);
    AdjugateTimesEntry34(m);
    AdjugateTimesEntry41(m);
    AdjugateTimesEntry42(m);
    AdjugateTimesEntry43(m);
    AdjugateTimesEntry44(m);
  }

  lemma AdjugateTimesEntry11(m: Matrix4)
    ensures MultiplyMatrices(Adjugate(m), m).e0 == Determinant(m)
  {
    var te := Adjugate(m);
    ProductElement0(te, m);
    AdjugateTimes11(m, te.e0, te.e4, te.e8, te.e12);
  }

  lemma AdjugateTimesEntry12(m: Matrix4)
    ensures MultiplyMatrices(Adjugate(m), m).e4 == 0.0
  {
    var te := Adjugate(m);
    ProductElement4(te, m);
    AdjugateTimes12(m, te.e0, te.e4, te.e8, te.e12);
  }

  lemma AdjugateTimesEntry13(m: Matrix4)
    ensures MultiplyMatrices(Adjugate(m), m).e8 == 0.0
  {
    var te := Adjugate(m);
    ProductElement8(te, m);
    AdjugateTimes13(m, te.e0, te.e4, te.e8, te.e12);
  }

  lemma AdjugateTimesEntry14(m: Matrix4)
    ensures MultiplyMatrices(Adjugate(m), m).e12 == 0.0
  {
    var te := Adjugate(m);
    ProductElement12(te, m);
    AdjugateTimes14(m, te.e0, te.e4, te.e8, te.e12);
  }

  lemma AdjugateTimesEntry21(m: Matrix4)
    ensures MultiplyMatrices(Adjugate(m), m).e1 == 0.0
  {
    var te := Adjugate(m);
    ProductElement1(te, m);
    AdjugateTimes21(m, te.e1, te.e5, te.e9, te.e13);
  }

  lemma AdjugateTimesEntry22(m: Matrix4)
    ensures MultiplyMatrices(Adjugate(m), m).e5 == Determinant(m)
  {
    var te := Adjugate(m);
    ProductElement5(te, m);
    AdjugateTimes22(m, te.e1, te.e5, te.e9, te.e13);
  }

  lemma AdjugateTimesEntry23(m: Matrix4)
    ensures MultiplyMatrices(Adjugate(m), m).e9 == 0.0
  {
    var te := Adjugate(m);
    ProductElement9(te, m);
    AdjugateTimes23(m, te.e1, te.e5, te.e9, te.e13);
  }

  lemma AdjugateTimesEntry24(m: Matrix4)
    ensures MultiplyMatrices(Adjugate(m), m).e13 == 0.0
  {
    var te := Adjugate(m);
    ProductElement13(te, m);
    AdjugateTimes24(m, te.e1, te.e5, te.e9, te.e13);
  }

  lemma AdjugateTimesEntry31(m: Matrix4)
    ensures MultiplyMatrices(Adjugate(m), m).e2 == 0.0
  {
    var te := Adjugate(m);
    ProductElement2(te, m);
    AdjugateTimes31(m, te.e2, te.e6, te.e10, te.e14);
  }

  lemma AdjugateTimesEntry32(m: Matrix4)
    ensures MultiplyMatrices(Adjugate(m), m).e6 == 0.0
  {
    var te := Adjugate(m);
    ProductElement6(te, m);
    AdjugateTimes32(m, te.e2, te.e6, te.e10, te.e14);
  }

  lemma AdjugateTimesEntry33(m: Matrix4)
    ensures MultiplyMatrices(Adjugate(m), m).e10 == Determinant(m)
  {
    var te := Adjugate(m);
    ProductElement10(te, m);
    AdjugateTimes33(m, te.e2, te.e6, te.e10, te.e14);
  }

  lemma AdjugateTimesEntry34(m: Matrix4)
    ensures MultiplyMatrices(Adjugate(m), m).e14 == 0.0
  {
    var te := Adjugate(m);
    ProductElement14(te, m);
    AdjugateTimes34(m, te.e2, te.e6, te.e10, te.e14);
  }

  lemma AdjugateTimesEntry41(m: Matrix4)
    ensures MultiplyMatrices(Adjugate(m), m).e3 == 0.0
  {
    var te := Adjugate(m);
    ProductElement3(te, m);
    AdjugateTimes41(m, te.e3, te.e7, te.e11, te.e15);
  }

  lemma AdjugateTimesEntry42(m: Matrix4)
    ensures MultiplyMatrices(Adjugate(m), m).e7 == 0.0
  {
    var te := Adjugate(m);
    ProductElement7(te, m);
    AdjugateTimes42(m, te.e3, te.e7, te.e11, te.e15);
  }

  lemma AdjugateTimesEntry43(m: Matrix4)
    ensures MultiplyMatrices(Adjugate(m), m).e11 == 0.0
  {
    var te := Adjugate(m);
    ProductElement11(te, m);
    AdjugateTimes43(m, te.e3, te.e7, te.e11, te.e15);
  }

  lemma AdjugateTimesEntry44(m: Matrix4)
    ensures MultiplyMatrices(Adjugate(m), m).e15 == Determinant(m)
  {
    var te := Adjugate(m);
    ProductElement15(te, m);
    AdjugateTimes44(m, te.e3, te.e7, te.e11, te.e15);
  }

  lemma ProductElement0(a: Matrix4, b: Matrix4)
    ensures MultiplyMatrices(a, b).e0 == a.e0 * b.e0 + a.e4 * b.e1 + a.e8 * b.e2 + a.e12 * b.e3
  {
  }

  lemma ProductElement4(a: Matrix4, b: Matrix4)
    ensures MultiplyMatrices(a, b).e4 == a.e0 * b.e4 + a.e4 * b.e5 + a.e8 * b.e6 + a.e12 * b.e7
  {
  }

  lemma ProductElement8(a: Matrix4, b: Matrix4)
    ensures MultiplyMatrices(a, b).e8 == a.e0 * b.e8 + a.e4 * b.e9 + a.e8 * b.e10 + a.e12 * b.e11
  {
  }

  lemma ProductElement12(a: Matrix4, b: Matrix4)
    ensures MultiplyMatrices(a, b).e12 == a.e0 * b.e12 + a.e4 * b.e13 + a.e8 * b.e14 + a.e12 * b.e15
  {
  }

  lemma ProductElement1(a: Matrix4, b: Matrix4)
    ensures MultiplyMatrices(a, b).e1 == a.e1 * b.e0 + a.e5 * b.e1 + a.e9 * b.e2 + a.e13 * b.e3
  {
  }

  lemma ProductElement5(a: Matrix4, b: Matrix4)
    ensures MultiplyMatrices(a, b).e5 == a.e1 * b.e4 + a.e5 * b.e5 + a.e9 * b.e6 + a.e13 * b.e7
  {
  }

  lemma ProductElement9(a: Matrix4, b: Matrix4)
    ensures MultiplyMatrices(a, b).e9 == a.e1 * b.e8 + a.e5 * b.e9 + a.e9 * b.e10 + a.e13 * b.e11
  {
  }

  lemma ProductElement13(a: Matrix4, b: Matrix4)
    ensures MultiplyMatrices(a, b).e13 == a.e1 * b.e12 + a.e5 * b.e13 + a.e9 * b.e14 + a.e13 * b.e15
  {
  }

  lemma ProductElement2(a: Matrix4, b: Matrix4)
    ensures MultiplyMatrices(a, b).e2 == a.e2 * b.e0 + a.e6 * b.e1 + a.e10 * b.e2 + a.e14 * b.e3
  {
  }

  lemma ProductElement6(a: Matrix4, b: Matrix4)
    ensures MultiplyMatrices(a, b).e6 == a.e2 * b.e4 + a.e6 * b.e5 + a.e10 * b.e6 + a.e14 * b.e7
  {
  }

  lemma ProductElement10(a: Matrix4, b: Matrix4)
    ensures MultiplyMatrices(a, b).e10 == a.e2 * b.e8 + a.e6 * b.e9 + a.e10 * b.e10 + a.e14 * b.e11
  {
  }

  lemma ProductElement14(a: Matrix4, b: Matrix4)
    ensures MultiplyMatrices(a, b).e14 == a.e2 * b.e12 + a.e6 * b.e13 + a.e10 * b.e14 + a.e14 * b.e15
  {
  }

  lemma ProductElement3(a: Matrix4, b: Matrix4)
    ensures MultiplyMatrices(a, b).e3 == a.e3 * b.e0 + a.e7 * b.e1 + a.e11 * b.e2 + a.e15 * b.e3
  {
  }

  lemma ProductElement7(a: Matrix4, b: Matrix4)
    ensures MultiplyMatrices(a, b).e7 == a.e3 * b.e4 + a.e7 * b.e5 + a.e11 * b.e6 + a.e15 * b.e7
  {
  }

  lemma ProductElement11(a: Matrix4, b: Matrix4)
    ensures MultiplyMatrices(a, b).e11 == a.e3 * b.e8 + a.e7 * b.e9 + a.e11 * b.e10 + a.e15 * b.e11
  {
  }

  lemma ProductElement15(a: Matrix4, b: Matrix4)
    ensures MultiplyMatrices(a, b).e15 == a.e3 * b.e12 + a.e7 * b.e13 + a.e11 * b.e14 + a.e15 * b.e15
  {
  }

  // Row `i` of the adjugate against column `j` of the matrix; `t1` .. `t4`
  // stand for the adjugate's row.

  lemma AdjugateTimes11(m: Matrix4, t1: real, t2: real, t3: real, t4: real)
    requires t1 == Adjugate(m).e0
    requires t2 == Adjugate(m).e4
    requires t3 == Adjugate(m).e8
    requires t4 == Adjugate(m).e12
    ensures t1 * m.e0 + t2 * m.e1 + t3 * m.e2 + t4 * m.e3 == Determinant(m)
  {
    AdjugateTimesPoly11(m.e0, m.e4, m.e8, m.e12, m.e1, m.e5, m.e9, m.e13, m.e2, m.e6, m.e10, m.e14, m.e3, m.e7, m.e11, m.e15,
      t1, t2, t3, t4);
  }

  lemma AdjugateTimesPoly11(n11: real, n12: real, n13: real, n14: real, n21: real, n22: real, n23: real, n24: real, n31: real, n32: real, n33: real, n34: real, n41: real, n42: real, n43: real, n44: real,
    t1: real, t2: real, t3: real, t4: real)
    requires t1 == n23 * n34 * n42 - n24 * n33 * n42 + n24 * n32 * n43 - n22 * n34 * n43 - n23 * n32 * n44 + n22 * n33 * n44
    requires t2 == n14 * n33 * n42 - n13 * n34 * n42 - n14 * n32 * n43 + n12 * n34 * n43 + n13 * n32 * n44 - n12 * n33 * n44
    requires t3 == n13 * n24 * n42 - n14 * n23 * n42 + n14 * n22 * n43 - n12 * n24 * n43 - n13 * n22 * n44 + n12 * n23 * n44
    requires t4 == n14 * n23 * n32 - n13 * n24 * n32 - n14 * n22 * n33 + n12 * n24 * n33 + n13 * n22 * n34 - n12 * n23 * n34
    ensures t1 * n11 + t2 * n21 + t3 * n31 + t4 * n41 == Det4(n11, n12, n13, n14, n21, n22, n23, n24, n31, n32, n33, n34, n41, n42, n43, n44)
  {
  }

  lemma AdjugateTimes12(m: Matrix4, t1: real, t2: real, t3: real, t4: real)
    requires t1 == Adjugate(m).e0
    requires t2 == Adjugate(m).e4
    requires t3 == Adjugate(m).e8
    requires t4 == Adjugate(m).e12
    ensures t1 * m.e4 + t2 * m.e5 + t3 * m.e6 + t4 * m.e7 == 0.0
  {
    AdjugateTimesPoly12(m.e0, m.e4, m.e8, m.e12, m.e1, m.e5, m.e9, m.e13, m.e2, m.e6, m.e10, m.e14, m.e3, m.e7, m.e11, m.e15,
      t1, t2, t3, t4);
  }

  lemma AdjugateTimesPoly12(n11: real, n12: real, n13: real, n14: real, n21: real, n22: real, n23: real, n24: real, n31: real, n32: real, n33: real, n34: real, n41: real, n42: real, n43: real, n44: real,
    t1: real, t2: real, t3: real, t4: real)
    requires t1 == n23 * n34 * n42 - n24 * n33 * n42 + n24 * n32 * n43 - n22 * n34 * n43 - n23 * n32 * n44 + n22 * n33 * n44
    requires t2 == n14 * n33 * n42 - n13 * n34 * n42 - n14 * n32 * n43 + n12 * n34 * n43 + n13 * n32 * n44 - n12 * n33 * n44
    requires t3 == n13 * n24 * n42 - n14 * n23 * n42 + n14 * n22 * n43 - n12 * n24 * n43 - n13 * n22 * n44 + n12 * n23 * n44
    requires t4 == n14 * n23 * n32 - n13 * n24 * n32 - n14 * n22 * n33 + n12 * n24 * n33 + n13 * n22 * n34 - n12 * n23 * n34
    ensures t1 * n12 + t2 * n22 + t3 * n32 + t4 * n42 == 0.0
  {
  }

  lemma AdjugateTimes13(m: Matrix4, t1: real, t2: real, t3: real, t4: real)
    requires t1 == Adjugate(m).e0
    requires t2 == Adjugate(m).e4
    requires t3 == Adjugate(m).e8
    requires t4 == Adjugate(m).e12
    ensures t1 * m.e8 + t2 * m.e9 + t3 * m.e10 + t4 * m.e11 == 0.0
  {
    AdjugateTimesPoly13(m.e0, m.e4, m.e8, m.e12, m.e1, m.e5, m.e9, m.e13, m.e2, m.e6, m.e10, m.e14, m.e3, m.e7, m.e11, m.e15,
      t1, t2, t3, t4);
  }

  lemma AdjugateTimesPoly13(n11: real, n12: real, n13: real, n14: real, n21: real, n22: real, n23: real, n24: real, n31: real, n32: real, n33: real, n34: real, n41: real, n42: real, n43: real, n44: real,
    t1: real, t2: real, t3: real, t4: real)
    requires t1 == n23 * n34 * n42 - n24 * n33 * n42 + n24 * n32 * n43 - n22 * n34 * n43 - n23 * n32 * n44 + n22 * n33 * n44
    requires t2 == n14 * n33 * n42 - n13 * n34 * n42 - n14 * n32 * n43 + n12 * n34 * n43 + n13 * n32 * n44 - n12 * n33 * n44
    requires t3 == n13 * n24 * n42 - n14 * n23 * n42 + n14 * n22 * n43 - n12 * n24 * n43 - n13 * n22 * n44 + n12 * n23 * n44
    requires t4 == n14 * n23 * n32 - n13 * n24 * n32 - n14 * n22 * n33 + n12 * n24 * n33 + n13 * n22 * n34 - n12 * n23 * n34
    ensures t1 * n13 + t2 * n23 + t3 * n33 + t4 * n43 == 0.0
  {
  }

  lemma AdjugateTimes14(m: Matrix4, t1: real, t2: real, t3: real, t4: real)
    requires t1 == Adjugate(m).e0
    requires t2 == Adjugate(m).e4
    requires t3 == Adjugate(m).e8
    requires t4 == Adjugate(m).e12
    ensures t1 * m.e12 + t2 * m.e13 + t3 * m.e14 + t4 * m.e15 == 0.0
  {
    AdjugateTimesPoly14(m.e0, m.e4, m.e8, m.e12, m.e1, m.e5, m.e9, m.e13, m.e2, m.e6, m.e10, m.e14, m.e3, m.e7, m.e11, m.e15,
      t1, t2, t3, t4);
  }

  lemma AdjugateTimesPoly14(n11: real, n12: real, n13: real, n14: real, n21: real, n22: real, n23: real, n24: real, n31: real, n32: real, n33: real, n34: real, n41: real, n42: real, n43: real, n44: real,
    t1: real, t2: real, t3: real, t4: real)
    requires t1 == n23 * n34 * n42 - n24 * n33 * n42 + n24 * n32 * n43 - n22 * n34 * n43 - n23 * n32 * n44 + n22 * n33 * n44
    requires t2 == n14 * n33 * n42 - n13 * n34 * n42 - n14 * n32 * n43 + n12 * n34 * n43 + n13 * n32 * n44 - n12 * n33 * n44
    requires t3 == n13 * n24 * n42 - n14 * n23 * n42 + n14 * n22 * n43 - n12 * n24 * n43 - n13 * n22 * n44 + n12 * n23 * n44
    requires t4 == n14 * n23 * n32 - n13 * n24 * n32 - n14 * n22 * n33 + n12 * n24 * n33 + n13 * n22 * n34 - n12 * n23 * n34
    ensures t1 * n14 + t2 * n24 + t3 * n34 + t4 * n44 == 0.0
  {
  }

  lemma AdjugateTimes21(m: Matrix4, t1: real, t2: real, t3: real, t4: real)
    requires t1 == Adjugate(m).e1
    requires t2 == Adjugate(m).e5
    requires t3 == Adjugate(m).e9
    requires t4 == Adjugate(m).e13
    ensures t1 * m.e0 + t2 * m.e1 + t3 * m.e2 + t4 * m.e3 == 0.0
  {
    AdjugateTimesPoly21(m.e0, m.e4, m.e8, m.e12, m.e1, m.e5, m.e9, m.e13, m.e2, m.e6, m.e10, m.e14, m.e3, m.e7, m.e11, m.e15,
      t1, t2, t3, t4);
  }

  lemma AdjugateTimesPoly21(n11: real, n12: real, n13: real, n14: real, n21: real, n22: real, n23: real, n24: real, n31: real, n32: real, n33: real, n34: real, n41: real, n42: real, n43: real, n44: real,
    t1: real, t2: real, t3: real, t4: real)
    requires t1 == n24 * n33 * n41 - n23 * n34 * n41 - n24 * n31 * n43 + n21 * n34 * n43 + n23 * n31 * n44 - n21 * n33 * n44
    requires t2 == n13 * n34 * n41 - n14 * n33 * n41 + n14 * n31 * n43 - n11 * n34 * n43 - n13 * n31 * n44 + n11 * n33 * n44
    requires t3 == n14 * n23 * n41 - n13 * n24 * n41 - n14 * n21 * n43 + n11 * n24 * n43 + n13 * n21 * n44 - n11 * n23 * n44
    requires t4 == n13 * n24 * n31 - n14 * n23 * n31 + n14 * n21 * n33 - n11 * n24 * n33 - n13 * n21 * n34 + n11 * n23 * n34
    ensures t1 * n11 + t2 * n21 + t3 * n31 + t4 * n41 == 0.0
  {
  }

  lemma AdjugateTimes22(m: Matrix4, t1: real, t2: real, t3: real, t4: real)
    requires t1 == Adjugate(m).e1
    requires t2 == Adjugate(m).e5
    requires t3 == Adjugate(m).e9
    requires t4 == Adjugate(m).e13
    ensures t1 * m.e4 + t2 * m.e5 + t3 * m.e6 + t4 * m.e7 == Determinant(m)
  {
    AdjugateTimesPoly22(m.e0, m.e4, m.e8, m.e12, m.e1, m.e5, m.e9, m.e13, m.e2, m.e6, m.e10, m.e14, m.e3, m.e7, m.e11, m.e15,
      t1, t2, t3, t4);
  }

  lemma AdjugateTimesPoly22(n11: real, n12: real, n13: real, n14: real, n21: real, n22: real, n23: real, n24: real, n31: real, n32: real, n33: real, n34: real, n41: real, n42: real, n43: real, n44: real,
    t1: real, t2: real, t3: real, t4: real)
    requires t1 == n24 * n33 * n41 - n23 * n34 * n41 - n24 * n31 * n43 + n21 * n34 * n43 + n23 * n31 * n44 - n21 * n33 * n44
    requires t2 == n13 * n34 * n41 - n14 * n33 * n41 + n14 * n31 * n43 - n11 * n34 * n43 - n13 * n31 * n44 + n11 * n33 * n44
    requires t3 == n14 * n23 * n41 - n13 * n24 * n41 - n14 * n21 * n43 + n11 * n24 * n43 + n13 * n21 * n44 - n11 * n23 * n44
    requires t4 == n13 * n24 * n31 - n14 * n23 * n31 + n14 * n21 * n33 - n11 * n24 * n33 - n13 * n21 * n34 + n11 * n23 * n34
    ensures t1 * n12 + t2 * n22 + t3 * n32 + t4 * n42 == Det4(n11, n12, n13, n14, n21, n22, n23, n24, n31, n32, n33, n34, n41, n42, n43, n44)
  {
  }

  lemma AdjugateTimes23(m: Matrix4, t1: real, t2: real, t3: real, t4: real)
    requires t1 == Adjugate(m).e1
    requires t2 == Adjugate(m).e5
    requires t3 == Adjugate(m).e9
    requires t4 == Adjugate(m).e13
    ensures t1 * m.e8 + t2 * m.e9 + t3 * m.e10 + t4 * m.e11 == 0.0
  {
    AdjugateTimesPoly23(m.e0, m.e4, m.e8, m.e12, m.e1, m.e5, m.e9, m.e13, m.e2, m.e6, m.e10, m.e14, m.e3, m.e7, m.e11, m.e15,
      t1, t2, t3, t4);
  }

  lemma AdjugateTimesPoly23(n11: real, n12: real, n13: real, n14: real, n21: real, n22: real, n23: real, n24: real, n31: real, n32: real, n33: real, n34: real, n41: real, n42: real, n43: real, n44: real,
    t1: real, t2: real, t3: real, t4: real)
    requires t1 == n24 * n33 * n41 - n23 * n34 * n41 - n24 * n31 * n43 + n21 * n34 * n43 + n23 * n31 * n44 - n21 * n33 * n44
    requires t2 == n13 * n34 * n41 - n14 * n33 * n41 + n14 * n31 * n43 - n11 * n34 * n43 - n13 * n31 * n44 + n11 * n33 * n44
    requires t3 == n14 * n23 * n41 - n13 * n24 * n41 - n14 * n21 * n43 + n11 * n24 * n43 + n13 * n21 * n44 - n11 * n23 * n44
    requires t4 == n13 * n24 * n31 - n14 * n23 * n31 + n14 * n21 * n33 - n11 * n24 * n33 - n13 * n21 * n34 + n11 * n23 * n34
    ensures t1 * n13 + t2 * n23 + t3 * n33 + t4 * n43 == 0.0
  {
  }

  lemma AdjugateTimes24(m: Matrix4, t1: real, t2: real, t3: real, t4: real)
    requires t1 == Adjugate(m).e1
    requires t2 == Adjugate(m).e5
    requires t3 == Adjugate(m).e9
    requires t4 == Adjugate(m).e13
    ensures t1 * m.e12 + t2 * m.e13 + t3 * m.e14 + t4 * m.e15 == 0.0
  {
    AdjugateTimesPoly24(m.e0, m.e4, m.e8, m.e12, m.e1, m.e5, m.e9, m.e13, m.e2, m.e6, m.e10, m.e14, m.e3, m.e7, m.e11, m.e15,
      t1, t2, t3, t4);
  }

  lemma AdjugateTimesPoly24(n11: real, n12: real, n13: real, n14: real, n21: real, n22: real, n23: real, n24: real, n31: real, n32: real, n33: real, n34: real, n41: real, n42: real, n43: real, n44: real,
    t1: real, t2: real, t3: real, t4: real)
    requires t1 == n24 * n33 * n41 - n23 * n34 * n41 - n24 * n31 * n43 + n21 * n34 * n43 + n23 * n31 * n44 - n21 * n33 * n44
    requires t2 == n13 * n34 * n41 - n14 * n33 * n41 + n14 * n31 * n43 - n11 * n34 * n43 - n13 * n31 * n44 + n11 * n33 * n44
    requires t3 == n14 * n23 * n41 - n13 * n24 * n41 - n14 * n21 * n43 + n11 * n24 * n43 + n13 * n21 * n44 - n11 * n23 * n44
    requires t4 == n13 * n24 * n31 - n14 * n23 * n31 + n14 * n21 * n33 - n11 * n24 * n33 - n13 * n21 * n34 + n11 * n23 * n34
    ensures t1 * n14 + t2 * n24 + t3 * n34 + t4 * n44 == 0.0
  {
  }

  lemma AdjugateTimes31(m: Matrix4, t1: real, t2: real, t3: real, t4: real)
    requires t1 == Adjugate(m).e2
    requires t2 == Adjugate(m).e6
    requires t3 == Adjugate(m).e10
    requires t4 == Adjugate(m).e14
    ensures t1 * m.e0 + t2 * m.e1 + t3 * m.e2 + t4 * m.e3 == 0.0
  {
    AdjugateTimesPoly31(m.e0, m.e4, m.e8, m.e12, m.e1, m.e5, m.e9, m.e13, m.e2, m.e6, m.e10, m.e14, m.e3, m.e7, m.e11, m.e15,
      t1, t2, t3, t4);
  }

  lemma AdjugateTimesPoly31(n11: real, n12: real, n13: real, n14: real, n21: real, n22: real, n23: real, n24: real, n31: real, n32: real, n33: real, n34: real, n41: real, n42: real, n43: real, n44: real,
    t1: real, t2: real, t3: real, t4: real)
    requires t1 == n22 * n34 * n41 - n24 * n32 * n41 + n24 * n31 * n42 - n21 * n34 * n42 - n22 * n31 * n44 + n21 * n32 * n44
    requires t2 == n14 * n32 * n41 - n12 * n34 * n41 - n14 * n31 * n42 + n11 * n34 * n42 + n12 * n31 * n44 - n11 * n32 * n44
    requires t3 == n12 * n24 * n41 - n14 * n22 * n41 + n14 * n21 * n42 - n11 * n24 * n42 - n12 * n21 * n44 + n11 * n22 * n44
    requires t4 == n14 * n22 * n31 - n12 * n24 * n31 - n14 * n21 * n32 + n11 * n24 * n32 + n12 * n21 * n34 - n11 * n22 * n34
    ensures t1 * n11 + t2 * n21 + t3 * n31 + t4 * n41 == 0.0
  {
  }

  lemma AdjugateTimes32(m: Matrix4, t1: real, t2: real, t3: real, t4: real)
    requires t1 == Adjugate(m).e2
    requires t2 == Adjugate(m).e6
    requires t3 == Adjugate(m).e10
    requires t4 == Adjugate(m).e14
    ensures t1 * m.e4 + t2 * m.e5 + t3 * m.e6 + t4 * m.e7 == 0.0
  {
    AdjugateTimesPoly32(m.e0, m.e4, m.e8, m.e12, m.e1, m.e5, m.e9, m.e13, m.e2, m.e6, m.e10, m.e14, m.e3, m.e7, m.e11, m.e15,
      t1, t2, t3, t4);
  }

  lemma AdjugateTimesPoly32(n11: real, n12: real, n13: real, n14: real, n21: real, n22: real, n23: real, n24: real, n31: real, n32: real, n33: real, n34: real, n41: real, n42: real, n43: real, n44: real,
    t1: real, t2: real, t3: real, t4: real)
    requires t1 == n22 * n34 * n41 - n24 * n32 * n41 + n24 * n31 * n42 - n21 * n34 * n42 - n22 * n31 * n44 + n21 * n32 * n44
    requires t2 == n14 * n32 * n41 - n12 * n34 * n41 - n14 * n31 * n42 + n11 * n34 * n42 + n12 * n31 * n44 - n11 * n32 * n44
    requires t3 == n12 * n24 * n41 - n14 * n22 * n41 + n14 * n21 * n42 - n11 * n24 * n42 - n12 * n21 * n44 + n11 * n22 * n44
    requires t4 == n14 * n22 * n31 - n12 * n24 * n31 - n14 * n21 * n32 + n11 * n24 * n32 + n12 * n21 * n34 - n11 * n22 * n34
    ensures t1 * n12 + t2 * n22 + t3 * n32 + t4 * n42 == 0.0
  {
  }

  lemma AdjugateTimes33(m: Matrix4, t1: real, t2: real, t3: real, t4: real)
    requires t1 == Adjugate(m).e2
    requires t2 == Adjugate(m).e6
    requires t3 == Adjugate(m).e10
    requires t4 == Adjugate(m).e14
    ensures t1 * m.e8 + t2 * m.e9 + t3 * m.e10 + t4 * m.e11 == Determinant(m)
  {
    AdjugateTimesPoly33(m.e0, m.e4, m.e8, m.e12, m.e1, m.e5, m.e9, m.e13, m.e2, m.e6, m.e10, m.e14, m.e3, m.e7, m.e11, m.e15,
      t1, t2, t3, t4);
  }

  lemma AdjugateTimesPoly33(n11: real, n12: real, n13: real, n14: real, n21: real, n22: real, n23: real, n24: real, n31: real, n32: real, n33: real, n34: real, n41: real, n42: real, n43: real, n44: real,
    t1: real, t2: real, t3: real, t4: real)
    requires t1 == n22 * n34 * n41 - n24 * n32 * n41 + n24 * n31 * n42 - n21 * n34 * n42 - n22 * n31 * n44 + n21 * n32 * n44
    requires t2 == n14 * n32 * n41 - n12 * n34 * n41 - n14 * n31 * n42 + n11 * n34 * n42 + n12 * n31 * n44 - n11 * n32 * n44
    requires t3 == n12 * n24 * n41 - n14 * n22 * n41 + n14 * n21 * n42 - n11 * n24 * n42 - n12 * n21 * n44 + n11 * n22 * n44
    requires t4 == n14 * n22 * n31 - n12 * n24 * n31 - n14 * n21 * n32 + n11 * n24 * n32 + n12 * n21 * n34 - n11 * n22 * n34
    ensures t1 * n13 + t2 * n23 + t3 * n33 + t4 * n43 == Det4(n11, n12, n13, n14, n21, n22, n23, n24, n31, n32, n33, n34, n41, n42, n43, n44)
  {
  }

  lemma AdjugateTimes34(m: Matrix4, t1: real, t2: real, t3: real, t4: real)
    requires t1 == Adjugate(m).e2
    requires t2 == Adjugate(m).e6
    requires t3 == Adjugate(m).e10
    requires t4 == Adjugate(m).e14
    ensures t1 * m.e12 + t2 * m.e13 + t3 * m.e14 + t4 * m.e15 == 0.0
  {
    AdjugateTimesPoly34(m.e0, m.e4, m.e8, m.e12, m.e1, m.e5, m.e9, m.e13, m.e2, m.e6, m.e10, m.e14, m.e3, m.e7, m.e11, m.e15,
      t1, t2, t3, t4);
  }

  lemma AdjugateTimesPoly34(n11: real, n12: real, n13: real, n14: real, n21: real, n22: real, n23: real, n24: real, n31: real, n32: real, n33: real, n34: real, n41: real, n42: real, n43: real, n44: real,
    t1: real, t2: real, t3: real, t4: real)
    requires t1 == n22 * n34 * n41 - n24 * n32 * n41 + n24 * n31 * n42 - n21 * n34 * n42 - n22 * n31 * n44 + n21 * n32 * n44
    requires t2 == n14 * n32 * n41 - n12 * n34 * n41 - n14 * n31 * n42 + n11 * n34 * n42 + n12 * n31 * n44 - n11 * n32 * n44
    requires t3 == n12 * n24 * n41 - n14 * n22 * n41 + n14 * n21 * n42 - n11 * n24 * n42 - n12 * n21 * n44 + n11 * n22 * n44
    requires t4 == n14 * n22 * n31 - n12 * n24 * n31 - n14 * n21 * n32 + n11 * n24 * n32 + n12 * n21 * n34 - n11 * n22 * n34
    ensures t1 * n14 + t2 * n24 + t3 * n34 + t4 * n44 == 0.0
  {
  }

  lemma AdjugateTimes41(m: Matrix4, t1: real, t2: real, t3: real, t4: real)
    requires t1 == Adjugate(m).e3
    requires t2 == Adjugate(m).e7
    requires t3 == Adjugate(m).e11
    requires t4 == Adjugate(m).e15
    ensures t1 * m.e0 + t2 * m.e1 + t3 * m.e2 + t4 * m.e3 == 0.0
  {
    AdjugateTimesPoly41(m.e0, m.e4, m.e8, m.e12, m.e1, m.e5, m.e9, m.e13, m.e2, m.e6, m.e10, m.e14, m.e3, m.e7, m.e11, m.e15,
      t1, t2, t3, t4);
  }

  lemma AdjugateTimesPoly41(n11: real, n12: real, n13: real, n14: real, n21: real, n22: real, n23: real, n24: real, n31: real, n32: real, n33: real, n34: real, n41: real, n42: real, n43: real, n44: real,
    t1: real, t2: real, t3: real, t4: real)
    requires t1 == n23 * n32 * n41 - n22 * n33 * n41 - n23 * n31 * n42 + n21 * n33 * n42 + n22 * n31 * n43 - n21 * n32 * n43
    requires t2 == n12 * n33 * n41 - n13 * n32 * n41 + n13 * n31 * n42 - n11 * n33 * n42 - n12 * n31 * n43 + n11 * n32 * n43
    requires t3 == n13 * n22 * n41 - n12 * n23 * n41 - n13 * n21 * n42 + n11 * n23 * n42 + n12 * n21 * n43 - n11 * n22 * n43
    requires t4 == n12 * n23 * n31 - n13 * n22 * n31 + n13 * n21 * n32 - n11 * n23 * n32 - n12 * n21 * n33 + n11 * n22 * n33
    ensures t1 * n11 + t2 * n21 + t3 * n31 + t4 * n41 == 0.0
  {
  }

  lemma AdjugateTimes42(m: Matrix4, t1: real, t2: real, t3: real, t4: real)
    requires t1 == Adjugate(m).e3
    requires t2 == Adjugate(m).e7
    requires t3 == Adjugate(m).e11
    requires t4 == Adjugate(m).e15
    ensures t1 * m.e4 + t2 * m.e5 + t3 * m.e6 + t4 * m.e7 == 0.0
  {
    AdjugateTimesPoly42(m.e0, m.e4, m.e8, m.e12, m.e1, m.e5, m.e9, m.e13, m.e2, m.e6, m.e10, m.e14, m.e3, m.e7, m.e11, m.e15,
      t1, t2, t3, t4);
  }

  lemma AdjugateTimesPoly42(n11: real, n12: real, n13: real, n14: real, n21: real, n22: real, n23: real, n24: real, n31: real, n32: real, n33: real, n34: real, n41: real, n42: real, n43: real, n44: real,
    t1: real, t2: real, t3: real, t4: real)
    requires t1 == n23 * n32 * n41 - n22 * n33 * n41 - n23 * n31 * n42 + n21 * n33 * n42 + n22 * n31 * n43 - n21 * n32 * n43
    requires t2 == n12 * n33 * n41 - n13 * n32 * n41 + n13 * n31 * n42 - n11 * n33 * n42 - n12 * n31 * n43 + n11 * n32 * n43
    requires t3 == n13 * n22 * n41 - n12 * n23 * n41 - n13 * n21 * n42 + n11 * n23 * n42 + n12 * n21 * n43 - n11 * n22 * n43
    requires t4 == n12 * n23 * n31 - n13 * n22 * n31 + n13 * n21 * n32 - n11 * n23 * n32 - n12 * n21 * n33 + n11 * n22 * n33
    ensures t1 * n12 + t2 * n22 + t3 * n32 + t4 * n42 == 0.0
  {
  }

  lemma AdjugateTimes43(m: Matrix4, t1: real, t2: real, t3: real, t4: real)
    requires t1 == Adjugate(m).e3
    requires t2 == Adjugate(m).e7
    requires t3 == Adjugate(m).e11
    requires t4 == Adjugate(m).e15
    ensures t1 * m.e8 + t2 * m.e9 + t3 * m.e10 + t4 * m.e11 == 0.0
  {
    AdjugateTimesPoly43(m.e0, m.e4, m.e8, m.e12, m.e1, m.e5, m.e9, m.e13, m.e2, m.e6, m.e10, m.e14, m.e3, m.e7, m.e11, m.e15,
      t1, t2, t3, t4);
  }

  lemma AdjugateTimesPoly43(n11: real, n12: real, n13: real, n14: real, n21: real, n22: real, n23: real, n24: real, n31: real, n32: real, n33: real, n34: real, n41: real, n42: real, n43: real, n44: real,
    t1: real, t2: real, t3: real, t4: real)
    requires t1 == n23 * n32 * n41 - n22 * n33 * n41 - n23 * n31 * n42 + n21 * n33 * n42 + n22 * n31 * n43 - n21 * n32 * n43
    requires t2 == n12 * n33 * n41 - n13 * n32 * n41 + n13 * n31 * n42 - n11 * n33 * n42 - n12 * n31 * n43 + n11 * n32 * n43
    requires t3 == n13 * n22 * n41 - n12 * n23 * n41 - n13 * n21 * n42 + n11 * n23 * n42 + n12 * n21 * n43 - n11 * n22 * n43
    requires t4 == n12 * n23 * n31 - n13 * n22 * n31 + n13 * n21 * n32 - n11 * n23 * n32 - n12 * n21 * n33 + n11 * n22 * n33
    ensures t1 * n13 + t2 * n23 + t3 * n33 + t4 * n43 == 0.0
  {
  }

  lemma AdjugateTimes44(m: Matrix4, t1: real, t2: real, t3: real, t4: real)
    requires t1 == Adjugate(m).e3
    requires t2 == Adjugate(m).e7
    requires t3 == Adjugate(m).e11
    requires t4 == Adjugate(m).e15
    ensures t1 * m.e12 + t2 * m.e13 + t3 * m.e14 + t4 * m.e15 == Determinant(m)
  {
    AdjugateTimesPoly44(m.e0, m.e4, m.e8, m.e12, m.e1, m.e5, m.e9, m.e13, m.e2, m.e6, m.e10, m.e14, m.e3, m.e7, m.e11, m.e15,
      t1, t2, t3, t4);
  }

  lemma AdjugateTimesPoly44(n11: real, n12: real, n13: real, n14: real, n21: real, n22: real, n23: real, n24: real, n31: real, n32: real, n33: real, n34: real, n41: real, n42: real, n43: real, n44: real,
    t1: real, t2: real, t3: real, t4: real)
    requires t1 == n23 * n32 * n41 - n22 * n33 * n41 - n23 * n31 * n42 + n21 * n33 * n42 + n22 * n31 * n43 - n21 * n32 * n43
    requires t2 == n12 * n33 * n41 - n13 * n32 * n41 + n13 * n31 * n42 - n11 * n33 * n42 - n12 * n31 * n43 + n11 * n32 * n43
    requires t3 == n13 * n22 * n41 - n12 * n23 * n41 - n13 * n21 * n42 + n11 * n23 * n42 + n12 * n21 * n43 - n11 * n22 * n43
    requires t4 == n12 * n23 * n31 - n13 * n22 * n31 + n13 * n21 * n32 - n11 * n23 * n32 - n12 * n21 * n33 + n11 * n22 * n33
    ensures t1 * n14 + t2 * n24 + t3 * n34 + t4 * n44 == Det4(n11, n12, n13, n14, n21, n22, n23, n24, n31, n32, n33, n34, n41, n42, n43, n44)
  {
  }

  /** Scaling the left factor scales the product. */
  lemma ScaledProduct(a: Matrix4, b: Matrix4, k: real)
    ensures MultiplyMatrices(MultiplyScalar(a, k), b) == MultiplyScalar(MultiplyMatrices(a, b), k)
  {
    ScaledRowEntries1(MultiplyMatrices(a, b), k);
    ScaledRowEntries2(MultiplyMatrices(a, b), k);
    ScaledRowEntries3(MultiplyMatrices(a, b), k);
    ScaledRowEntries4(MultiplyMatrices(a, b), k);
    ScaledProductElement0(a, b, k);
    ScaledProductElement4(a, b, k);
    ScaledProductElement8(a, b, k);
    ScaledProductElement12(a, b, k);
    ScaledProductElement1(a, b, k);
    ScaledProductElement5(a, b, k);
    ScaledProductElement9(a, b, k);
    ScaledProductElement13(a, b, k);
    ScaledProductElement2(a, b, k);
    ScaledProductElement6(a, b, k);
    ScaledProductElement10(a, b, k);
    ScaledProductElement14(a, b, k);
    ScaledProductElement3(a, b, k);
    ScaledProductElement7(a, b, k);
    ScaledProductElement11(a, b, k);
    ScaledProductElement15(a, b, k);
  }

  lemma ScaledProductElement0(a: Matrix4, b: Matrix4, k: real)
    ensures MultiplyMatrices(MultiplyScalar(a, k), b).e0 == MultiplyMatrices(a, b).e0 * k
  {
    var p := MultiplyScalar(a, k);
    ScaledRowEntries1(a, k);
    ProductElement0(p, b);
    ProductElement0(a, b);
    ScaledRow(a.e0, a.e4, a.e8, a.e12, p.e0, p.e4, p.e8, p.e12, b.e0, b.e1, b.e2, b.e3, MultiplyMatrices(a, b).e0, k);
  }

  lemma ScaledProductElement4(a: Matrix4, b: Matrix4, k: real)
    ensures MultiplyMatrices(MultiplyScalar(a, k), b).e4 == MultiplyMatrices(a, b).e4 * k
  {
    var p := MultiplyScalar(a, k);
    ScaledRowEntries1(a, k);
    ProductElement4(p, b);
    ProductElement4(a, b);
    ScaledRow(a.e0, a.e4, a.e8, a.e12, p.e0, p.e4, p.e8, p.e12, b.e4, b.e5, b.e6, b.e7, MultiplyMatrices(a, b).e4, k);
  }

  lemma ScaledProductElement8(a: Matrix4, b: Matrix4, k: real)
    ensures MultiplyMatrices(MultiplyScalar(a, k), b).e8 == MultiplyMatrices(a, b).e8 * k
  {
    var p := MultiplyScalar(a, k);
    ScaledRowEntries1(a, k);
    ProductElement8(p, b);
    ProductElement8(a, b);
    ScaledRow(a.e0, a.e4, a.e8, a.e12, p.e0, p.e4, p.e8, p.e12, b.e8, b.e9, b.e10, b.e11, MultiplyMatrices(a, b).e8, k);
  }

  lemma ScaledProductElement12(a: Matrix4, b: Matrix4, k: real)
    ensures MultiplyMatrices(MultiplyScalar(a, k), b).e12 == MultiplyMatrices(a, b).e12 * k
  {
    var p := MultiplyScalar(a, k);
    ScaledRowEntries1(a, k);
    ProductElement12(p, b);
    ProductElement12(a, b);
    ScaledRow(a.e0, a.e4, a.e8, a.e12, p.e0, p.e4, p.e8, p.e12, b.e12, b.e13, b.e14, b.e15, MultiplyMatrices(a, b).e12, k);
  }

  lemma ScaledProductElement1(a: Matrix4, b: Matrix4, k: real)
    ensures MultiplyMatrices(MultiplyScalar(a, k), b).e1 == MultiplyMatrices(a, b).e1 * k
  {
    var p := MultiplyScalar(a, k);
    ScaledRowEntries2(a, k);
    ProductElement1(p, b);
    ProductElement1(a, b);
    ScaledRow(a.e1, a.e5, a.e9, a.e13, p.e1, p.e5, p.e9, p.e13, b.e0, b.e1, b.e2, b.e3, MultiplyMatrices(a, b).e1, k);
  }

  lemma ScaledProductElement5(a: Matrix4, b: Matrix4, k: real)
    ensures MultiplyMatrices(MultiplyScalar(a, k), b).e5 == MultiplyMatrices(a, b).e5 * k
  {
    var p := MultiplyScalar(a, k);
    ScaledRowEntries2(a, k);
    ProductElement5(p, b);
    ProductElement5(a, b);
    ScaledRow(a.e1, a.e5, a.e9, a.e13, p.e1, p.e5, p.e9, p.e13, b.e4, b.e5, b.e6, b.e7, MultiplyMatrices(a, b).e5, k);
  }

  lemma ScaledProductElement9(a: Matrix4, b: Matrix4, k: real)
    ensures MultiplyMatrices(MultiplyScalar(a, k), b).e9 == MultiplyMatrices(a, b).e9 * k
  {
    var p := MultiplyScalar(a, k);
    ScaledRowEntries2(a, k);
    ProductElement9(p, b);
    ProductElement9(a, b);
    ScaledRow(a.e1, a.e5, a.e9, a.e13, p.e1, p.e5, p.e9, p.e13, b.e8, b.e9, b.e10, b.e11, MultiplyMatrices(a, b).e9, k);
  }

  lemma ScaledProductElement13(a: Matrix4, b: Matrix4, k: real)
    ensures MultiplyMatrices(MultiplyScalar(a, k), b).e13 == MultiplyMatrices(a, b).e13 * k
  {
    var p := MultiplyScalar(a, k);
    ScaledRowEntries2(a, k);
    ProductElement13(p, b);
    ProductElement13(a, b);
    ScaledRow(a.e1, a.e5, a.e9, a.e13, p.e1, p.e5, p.e9, p.e13, b.e12, b.e13, b.e14, b.e15, MultiplyMatrices(a, b).e13, k);
  }

  lemma ScaledProductElement2(a: Matrix4, b: Matrix4, k: real)
    ensures MultiplyMatrices(MultiplyScalar(a, k), b).e2 == MultiplyMatrices(a, b).e2 * k
  {
    var p := MultiplyScalar(a, k);
    ScaledRowEntries3(a, k);
    ProductElement2(p, b);
    ProductElement2(a, b);
    ScaledRow(a.e2, a.e6, a.e10, a.e14, p.e2, p.e6, p.e10, p.e14, b.e0, b.e1, b.e2, b.e3, MultiplyMatrices(a, b).e2, k);
  }

  lemma ScaledProductElement6(a: Matrix4, b: Matrix4, k: real)
    ensures MultiplyMatrices(MultiplyScalar(a, k), b).e6 == MultiplyMatrices(a, b).e6 * k
  {
    var p := MultiplyScalar(a, k);
    ScaledRowEntries3(a, k);
    ProductElement6(p, b);
    ProductElement6(a, b);
    ScaledRow(a.e2, a.e6, a.e10, a.e14, p.e2, p.e6, p.e10, p.e14, b.e4, b.e5, b.e6, b.e7, MultiplyMatrices(a, b).e6, k);
  }

  lemma ScaledProductElement10(a: Matrix4, b: Matrix4, k: real)
    ensures MultiplyMatrices(MultiplyScalar(a, k), b).e10 == MultiplyMatrices(a, b).e10 * k
  {
    var p := MultiplyScalar(a, k);
    ScaledRowEntries3(a, k);
    ProductElement10(p, b);
    ProductElement10(a, b);
    ScaledRow(a.e2, a.e6, a.e10, a.e14, p.e2, p.e6, p.e10, p.e14, b.e8, b.e9, b.e10, b.e11, MultiplyMatrices(a, b).e10, k);
  }

  lemma ScaledProductElement14(a: Matrix4, b: Matrix4, k: real)
    ensures MultiplyMatrices(MultiplyScalar(a, k), b).e14 == MultiplyMatrices(a, b).e14 * k
  {
    var p := MultiplyScalar(a, k);
    ScaledRowEntries3(a, k);
    ProductElement14(p, b);
    ProductElement14(a, b);
    ScaledRow(a.e2, a.e6, a.e10, a.e14, p.e2, p.e6, p.e10, p.e14, b.e12, b.e13, b.e14, b.e15, MultiplyMatrices(a, b).e14, k);
  }

  lemma ScaledProductElement3(a: Matrix4, b: Matrix4, k: real)
    ensures MultiplyMatrices(MultiplyScalar(a, k), b).e3 == MultiplyMatrices(a, b).e3 * k
  {
    var p := MultiplyScalar(a, k);
    ScaledRowEntries4(a, k);
    ProductElement3(p, b);
    ProductElement3(a, b);
    ScaledRow(a.e3, a.e7, a.e11, a.e15, p.e3, p.e7, p.e11, p.e15, b.e0, b.e1, b.e2, b.e3, MultiplyMatrices(a, b).e3, k);
  }

  lemma ScaledProductElement7(a: Matrix4, b: Matrix4, k: real)
    ensures MultiplyMatrices(MultiplyScalar(a, k), b).e7 == MultiplyMatrices(a, b).e7 * k
  {
    var p := MultiplyScalar(a, k);
    ScaledRowEntries4(a, k);
    ProductElement7(p, b);
    ProductElement7(a, b);
    ScaledRow(a.e3, a.e7, a.e11, a.e15, p.e3, p.e7, p.e11, p.e15, b.e4, b.e5, b.e6, b.e7, MultiplyMatrices(a, b).e7, k);
  }

  lemma ScaledProductElement11(a: Matrix4, b: Matrix4, k: real)
    ensures MultiplyMatrices(MultiplyScalar(a, k), b).e11 == MultiplyMatrices(a, b).e11 * k
  {
    var p := MultiplyScalar(a, k);
    ScaledRowEntries4(a, k);
    ProductElement11(p, b);
    ProductElement11(a, b);
    ScaledRow(a.e3, a.e7, a.e11, a.e15, p.e3, p.e7, p.e11, p.e15, b.e8, b.e9, b.e10, b.e11, MultiplyMatrices(a, b).e11, k);
  }

  lemma ScaledProductElement15(a: Matrix4, b: Matrix4, k: real)
    ensures MultiplyMatrices(MultiplyScalar(a, k), b).e15 == MultiplyMatrices(a, b).e15 * k
  {
    var p := MultiplyScalar(a, k);
    ScaledRowEntries4(a, k);
    ProductElement15(p, b);
    ProductElement15(a, b);
    ScaledRow(a.e3, a.e7, a.e11, a.e15, p.e3, p.e7, p.e11, p.e15, b.e12, b.e13, b.e14, b.e15, MultiplyMatrices(a, b).e15, k);
  }

  lemma ScaledRow(a1: real, a2: real, a3: real, a4: real, p1: real, p2: real, p3: real, p4: real,
                  b1: real, b2: real, b3: real, b4: real, s: real, k: real)
    requires p1 == a1 * k && p2 == a2 * k && p3 == a3 * k && p4 == a4 * k
    requires s == a1 * b1 + a2 * b2 + a3 * b3 + a4 * b4
    ensures p1 * b1 + p2 * b2 + p3 * b3 + p4 * b4 == s * k
  {
  }

  /** Row 1 of a scaled matrix. */
  lemma ScaledRowEntries1(a: Matrix4, k: real)
    ensures MultiplyScalar(a, k).e0 == a.e0 * k
    ensures MultiplyScalar(a, k).e4 == a.e4 * k
    ensures MultiplyScalar(a, k).e8 == a.e8 * k
    ensures MultiplyScalar(a, k).e12 == a.e12 * k
  {
  }

  /** Row 2 of a scaled matrix. */
  lemma ScaledRowEntries2(a: Matrix4, k: real)
    ensures MultiplyScalar(a, k).e1 == a.e1 * k
    ensures MultiplyScalar(a, k).e5 == a.e5 * k
    ensures MultiplyScalar(a, k).e9 == a.e9 * k
    ensures MultiplyScalar(a, k).e13 == a.e13 * k
  {
  }

  /** Row 3 of a scaled matrix. */
  lemma ScaledRowEntries3(a: Matrix4, k: real)
    ensures MultiplyScalar(a, k).e2 == a.e2 * k
    ensures MultiplyScalar(a, k).e6 == a.e6 * k
    ensures MultiplyScalar(a, k).e10 == a.e10 * k
    ensures MultiplyScalar(a, k).e14 == a.e14 * k
  {
  }

  /** Row 4 of a scaled matrix. */
  lemma ScaledRowEntries4(a: Matrix4, k: real)
    ensures MultiplyScalar(a, k).e3 == a.e3 * k
    ensures MultiplyScalar(a, k).e7 == a.e7 * k
    ensures MultiplyScalar(a, k).e11 == a.e11 * k
    ensures MultiplyScalar(a, k).e15 == a.e15 * k
  {
  }


  /** `extractBasis`: the top three entries of the first three columns, read as
      the x, y and z axes. */
  function ExtractBasis(m: Matrix4): (r: (Vec3.Vector3, Vec3.Vector3, Vec3.Vector3))
    ensures forall i: Dim :: i < 3 ==>
      Vec3.GetComponent(r.0, i) == Entry(m, i, 0) && Vec3.GetComponent(r.1, i) == Entry(m, i, 1) &&
      Vec3.GetComponent(r.2, i) == Entry(m, i, 2)
  {
    (Vec3.Vector3(m.e0, m.e1, m.e2), Vec3.Vector3(m.e4, m.e5, m.e6), Vec3.Vector3(m.e8, m.e9, m.e10))
  }

  /** `makeBasis(x, y, z)`: the axes become the first three columns, with no
      translation and bottom row `[0 0 0 1]`. */
  function MakeBasis(x: Vec3.Vector3, y: Vec3.Vector3, z: Vec3.Vector3): (r: Matrix4)
    ensures forall i: Dim :: i < 3 ==>
      Entry(r, i, 0) == Vec3.GetComponent(x, i) && Entry(r, i, 1) == Vec3.GetComponent(y, i) &&
      Entry(r, i, 2) == Vec3.GetComponent(z, i) && Entry(r, i, 3) == 0.0
    ensures IsBasis(r)
  {
    Set(x.x, y.x, z.x, 0.0,
        x.y, y.y, z.y, 0.0,
        x.z, y.z, z.z, 0.0,
        0.0, 0.0, 0.0, 1.0)
  }

  /** No translation and bottom row `[0 0 0 1]`: the matrices `makeBasis` builds. */
  predicate IsBasis(m: Matrix4) {
    m.e12 == 0.0 && m.e13 == 0.0 && m.e14 == 0.0 &&
    m.e3 == 0.0 && m.e7 == 0.0 && m.e11 == 0.0 && m.e15 == 1.0
  }

  /** `extractBasis` reads back the axes `makeBasis` wrote, and `makeBasis` rebuilds
      every such matrix from its extracted axes. */
  lemma BasisRoundTrip(x: Vec3.Vector3, y: Vec3.Vector3, z: Vec3.Vector3, m: Matrix4)
    ensures ExtractBasis(MakeBasis(x, y, z)) == (x, y, z)
    ensures IsBasis(m) ==> MakeBasis(ExtractBasis(m).0, ExtractBasis(m).1, ExtractBasis(m).2) == m
  {
  }
}
