/**
 * `rep_matrix`: a matrix filled with one scalar, or a row or column
 * vector replicated into a matrix, after the requested size has been
 * checked to be non-negative.
 */
module RepMatrix {

  /** `check_nonnegative`'s `std::domain_error`: the function, the argument's name and its value. */
  datatype Error = NegativeSize(caller: string, name: string, value: int)

  datatype Result<T> = Ok(value: T) | Err(error: Error)

  /** A dense matrix, row by row; the shape is kept even when one side is 0. */
  datatype Matrix<T> = Matrix(rows: nat, cols: nat, entries: seq<seq<T>>)

  predicate Shaped<T>(a: Matrix<T>) {
    |a.entries| == a.rows && forall i :: 0 <= i < a.rows ==> |a.entries[i]| == a.cols
  }

  /** An Eigen vector: its orientation and its elements. */
  datatype Vector<T> = RowVector(elems: seq<T>) | ColVector(elems: seq<T>)

  function Column<T>(a: Matrix<T>, j: nat): (c: seq<T>)
    requires Shaped(a) && j < a.cols
    ensures |c| == a.rows && forall i :: 0 <= i < a.rows ==> c[i] == a.entries[i][j]
  {
    seq(a.rows, i requires 0 <= i < a.rows => a.entries[i][j])
  }

  function Transpose<T>(a: Matrix<T>): (t: Matrix<T>)
    requires Shaped(a)
    ensures Shaped(t) && t.rows == a.cols && t.cols == a.rows
    ensures forall i, j :: 0 <= i < t.rows && 0 <= j < t.cols ==> t.entries[i][j] == a.entries[j][i]
  {
    Matrix(a.cols, a.rows, seq(a.cols, j requires 0 <= j < a.cols => Column(a, j)))
  }

  /**
   * `rep_matrix<Ret>(x, m, n)`: an m-by-n matrix of `Ret`'s scalar type
   * with every entry `x` converted by `cast`; "rows" is checked before
   * "cols".
   */
  function RepMatrixAs<T, U>(cast: T -> U, x: T, m: int, n: int): (r: Result<Matrix<U>>)
    ensures m < 0 ==> r == Err(NegativeSize("rep_matrix", "rows", m))
    ensures 0 <= m && n < 0 ==> r == Err(NegativeSize("rep_matrix", "cols", n))
    ensures 0 <= m && 0 <= n ==> r.Ok? && Shaped(r.value) && r.value.rows == m && r.value.cols == n
    ensures r.Ok? ==>
      Shaped(r.value) &&
      forall i, j :: 0 <= i < r.value.rows && 0 <= j < r.value.cols ==> r.value.entries[i][j] == cast(x)
  {
    if m < 0 then Err(NegativeSize("rep_matrix", "rows", m))
    else if n < 0 then Err(NegativeSize("rep_matrix", "cols", n))
    else Ok(Matrix(m, n, seq(m, _ => seq(n, _ => cast(x)))))
  }

  /** `rep_matrix(x, m, n)`: the same with the dynamic matrix of `x`'s own type. */
  function RepMatrix<T>(x: T, m: int, n: int): (r: Result<Matrix<T>>)
    ensures m < 0 ==> r == Err(NegativeSize("rep_matrix", "rows", m))
    ensures 0 <= m && n < 0 ==> r == Err(NegativeSize("rep_matrix", "cols", n))
    ensures 0 <= m && 0 <= n ==> r.Ok? && Shaped(r.value) && r.value.rows == m && r.value.cols == n
    ensures r.Ok? ==>
      Shaped(r.value) &&
      forall i, j :: 0 <= i < r.value.rows && 0 <= j < r.value.cols ==> r.value.entries[i][j] == x
  {
    RepMatrixAs(t => t, x, m, n)
  }

  /**
   * `rep_matrix(x, n)` and `rep_matrix<Ret>(x, n)` on a vector: a row
   * vector stacked n times (n checked as "rows"), a column vector set
   * side by side n times (n checked as "cols").
   */
  function RepVector<T>(x: Vector<T>, n: int): (r: Result<Matrix<T>>)
    ensures n < 0 ==> r == Err(NegativeSize("rep_matrix", if x.RowVector? then "rows" else "cols", n))
    ensures 0 <= n && x.RowVector? ==>
      r.Ok? && Shaped(r.value) && r.value.rows == n && r.value.cols == |x.elems| &&
      (forall i, j :: 0 <= i < n && 0 <= j < |x.elems| ==> r.value.entries[i][j] == x.elems[j]) &&
      (forall i :: 0 <= i < n ==> r.value.entries[i] == x.elems)
    ensures 0 <= n && x.ColVector? ==>
      r.Ok? && Shaped(r.value) && r.value.rows == |x.elems| && r.value.cols == n &&
      (forall i, j :: 0 <= i < |x.elems| && 0 <= j < n ==> r.value.entries[i][j] == x.elems[i]) &&
      (forall j :: 0 <= j < n ==> Column(r.value, j) == x.elems)
  {
    match x
    case RowVector(e) =>
      if n < 0 then Err(NegativeSize("rep_matrix", "rows", n))
      else Ok(Matrix(n, |e|, seq(n, _ => e)))
    case ColVector(e) =>
      if n < 0 then Err(NegativeSize("rep_matrix", "cols", n))
      else
        var a := Matrix(|e|, n, seq(|e|, i requires 0 <= i < |e| => seq(n, _ => e[i])));
        assert forall j :: 0 <= j < n ==> Column(a, j) == e;
        Ok(a)
  }

  /** Replicating a row vector is the transpose of replicating the same elements as a column. */
  lemma RowIsTransposedColumn<T>(e: seq<T>, n: nat)
    ensures RepVector(RowVector(e), n).Ok? && RepVector(ColVector(e), n).Ok?
    ensures RepVector(RowVector(e), n).value == Transpose(RepVector(ColVector(e), n).value)
  {
  }

  /**
   * A scalar matrix is a constant row replicated: for every n >= 0 the two
   * overloads agree, errors included.
   */
  lemma ScalarIsReplicatedRow<T>(x: T, m: int, n: nat)
    ensures RepMatrix(x, m, n) == RepVector(RowVector(seq(n, _ => x)), m)
  {
  }
}
