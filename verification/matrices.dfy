/**
 Two-dimensional numpy arrays as the array helpers use them: a sample is
 a matrix of packets (rows) by features (columns). The column count is
 kept separately so that a sample with no rows still has a width.
 */
module Matrices {

  datatype Matrix = Matrix(width: nat, rows: seq<seq<real>>)
  {
    /** Every row has `width` entries, as in any numpy array. */
    ghost predicate Valid()
    {
      forall i :: 0 <= i < |rows| ==> |rows[i]| == width
    }

    /** `shape[0]`: the number of rows (packets). */
    function Height(): nat
    {
      |rows|
    }
  }

  /** Every sample of a list is a well-formed array. */
  ghost predicate AllValid(X: seq<Matrix>)
  {
    forall s :: 0 <= s < |X| ==> X[s].Valid()
  }

  /** A row of `width` zeros. */
  function ZeroRow(width: nat): (z: seq<real>)
    ensures |z| == width
    ensures forall j :: 0 <= j < width ==> z[j] == 0.0
  {
    seq(width, j => 0.0)
  }

  /** `m[:n, ...]` for `0 <= n <= shape[0]`: the first `n` rows. */
  function TakeRows(m: Matrix, n: nat): (r: Matrix)
    requires n <= m.Height()
    ensures r.width == m.width && r.Height() == n
    ensures m.Valid() ==> r.Valid()
    ensures forall i :: 0 <= i < n ==> r.rows[i] == m.rows[i]
  {
    Matrix(m.width, m.rows[..n])
  }

  /**
   `np.pad(m, ((0, n - shape[0]), (0, 0)), 'constant', constant_values=(0, 0))`
   for a non-negative pad amount: zero rows appended at the bottom.
   */
  function PadRows(m: Matrix, n: nat): (r: Matrix)
    requires m.Height() <= n
    ensures r.width == m.width && r.Height() == n
    ensures m.Valid() ==> r.Valid()
    ensures forall i :: 0 <= i < m.Height() ==> r.rows[i] == m.rows[i]
    ensures forall i :: m.Height() <= i < n ==> r.rows[i] == ZeroRow(m.width)
  {
    Matrix(m.width, m.rows + seq(n - m.Height(), i => ZeroRow(m.width)))
  }

  /** An element-wise map that also sees the column index; the shape is unchanged. */
  function MapElems(m: Matrix, f: (real, nat) -> real): (r: Matrix)
    requires m.Valid()
    ensures r.width == m.width && r.Height() == m.Height() && r.Valid()
    ensures forall i, j :: 0 <= i < m.Height() && 0 <= j < m.width ==> r.rows[i][j] == f(m.rows[i][j], j)
  {
    Matrix(m.width, seq(|m.rows|, i requires 0 <= i < |m.rows| =>
      seq(m.width, j requires 0 <= j < m.width => f(m.rows[i][j], j))))
  }

  /** Cutting the padding off again gives back the sample that was padded. */
  lemma TakePad(m: Matrix, n: nat)
    requires m.Height() <= n
    ensures TakeRows(PadRows(m, n), m.Height()) == m
  {
    assert PadRows(m, n).rows[..m.Height()] == m.rows;
  }
}
