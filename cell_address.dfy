/**
 * The cell-address codec: a (row, column) pair of the table becomes one
 * integer, `row * numCols + col`, carried in the `json_viewer` search
 * parameter, and is read back with `Math.floor(a / numCols)` and the
 * JavaScript remainder `a % numCols`.
 */
module CellAddress {
  datatype Cell = Cell(row: int, col: int)

  /** The id a JSON cell renderer gives the cell at (row, col). */
  function Encode(row: int, col: int, numCols: int): (a: int)
    ensures 0 <= col < numCols ==> row * numCols <= a < row * numCols + numCols
    ensures 0 <= row && 0 <= col && 0 <= numCols ==> 0 <= a
  {
    row * numCols + col
  }

  /** `Math.floor(a / n)` for a positive `n`. */
  function FloorDiv(a: int, n: int): (q: int)
    requires n > 0
    ensures q * n <= a < q * n + n
  {
    a / n
  }

  /** JavaScript's `a % n` for a positive `n`: the remainder takes the sign of `a`. */
  function JsRem(a: int, n: int): (r: int)
    requires n > 0
    ensures a >= 0 ==> 0 <= r < n && r == a % n
    ensures a < 0 ==> -n < r <= 0 && r == -((-a) % n)
  {
    if a >= 0 then a % n else -((-a) % n)
  }

  /** The selected cell the paginated route derives from an address. */
  function Decode(a: int, numCols: int): (c: Cell)
    requires numCols > 0
    ensures c.row * numCols <= a < c.row * numCols + numCols
    ensures a >= 0 ==> 0 <= c.row && 0 <= c.col < numCols
    ensures a < 0 ==> c.row < 0 && -numCols < c.col <= 0
  {
    Cell(FloorDiv(a, numCols), JsRem(a, numCols))
  }

  /** Floor division has a single quotient. */
  lemma FloorDivUnique(a: int, n: int, q: int)
    requires n > 0 && q * n <= a < q * n + n
    ensures FloorDiv(a, n) == q
  {
    var d := FloorDiv(a, n);
    if d < q {
      MulMonotone(d + 1, q, n);
    } else if q < d {
      MulMonotone(q + 1, d, n);
    }
  }

  lemma MulMonotone(x: int, y: int, n: int)
    requires x <= y && n > 0
    ensures x * n <= y * n
  {
    assert y * n - x * n == (y - x) * n;
  }

  /** Decoding an encoded in-range cell gives the cell back. */
  lemma DecodeEncode(row: int, col: int, numCols: int)
    requires numCols > 0 && row >= 0 && 0 <= col < numCols
    ensures Decode(Encode(row, col, numCols), numCols) == Cell(row, col)
  {
    var a := Encode(row, col, numCols);
    FloorDivUnique(a, numCols, row);
    assert a >= 0 by { MulMonotone(0, row, numCols); }
  }

  /** The start of any row, even a negative one, decodes to that row and column 0. */
  lemma DecodeRowStart(row: int, numCols: int)
    requires numCols > 0
    ensures Decode(Encode(row, 0, numCols), numCols) == Cell(row, 0)
  {
    var a := Encode(row, 0, numCols);
    FloorDivUnique(a, numCols, row);
    if a < 0 {
      assert -a == (-row) * numCols;
      FloorDivUnique(-a, numCols, -row);
    }
  }

  /** Euclidean division has a single quotient and remainder. */
  lemma DivModUnique(a: int, n: int, q: int, r: int)
    requires n > 0 && 0 <= r < n && a == q * n + r
    ensures a / n == q && a % n == r
  {
    FloorDivUnique(a, n, q);
  }

  /**
   * Encoding a decoded address gives the address back exactly when it is not
   * negative or is a multiple of `numCols`: for other negative addresses the
   * truncating remainder is off by `numCols`.
   */
  lemma EncodeDecode(a: int, numCols: int)
    requires numCols > 0
    ensures var c := Decode(a, numCols); Encode(c.row, c.col, numCols) == a <==> a >= 0 || a % numCols == 0
  {
    var c := Decode(a, numCols);
    var q, m := a / numCols, a % numCols;
    assert a == q * numCols + m;
    if a < 0 && m != 0 {
      DivModUnique(-a, numCols, -q - 1, numCols - m);
      assert c.col == m - numCols;
      assert Encode(c.row, c.col, numCols) == a - numCols;
    } else if a < 0 {
      DivModUnique(-a, numCols, -q, 0);
      assert c.col == 0;
    }
  }
}
