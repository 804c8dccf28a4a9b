/** Matrices stored row after row in one buffer, and Gauss-Jordan inversion in place. */
module GfMatrix {
  import opened Words
  import opened Gf256
  import opened Gf256Field
  import opened GfLinear
  import opened GfInverse

  lemma RowFits(r: nat, rows: nat, cols: nat)
    requires r < rows
    ensures 0 <= r * cols && (r + 1) * cols == r * cols + cols && r * cols + cols <= rows * cols
  {
    AtLeast(cols, r + 1, rows);
    AtLeast(cols, 0, r);
  }

  lemma SizeFits(rows: nat, cols: nat)
    ensures 0 <= rows * cols
  {
  }

  lemma RowsApart(r: nat, i: nat, cols: nat)
    requires r < i
    ensures r * cols + cols <= i * cols
  {
    AtLeast(cols, r + 1, i);
  }

  function PutVec(v: Vec, c: nat, val: u8): Vec
    requires c < |v|
  {
    seq(|v|, i requires 0 <= i < |v| => if i == c then val else v[i])
  }

  function Put(m: seq<Vec>, r: nat, c: nat, val: u8): seq<Vec>
    requires r < |m| && c < |m[r]|
  {
    m[r := PutVec(m[r], c, val)]
  }

  class Matrix {
    const rows: nat
    const cols: nat
    var data: seq<u8>

    ghost predicate Valid()
      reads this
    {
      |data| == rows * cols
    }

    ghost function Row(r: nat): (v: Vec)
      requires Valid() && r < rows
      reads this
      ensures |v| == cols
    {
      RowFits(r, rows, cols);
      data[r * cols..r * cols + cols]
    }

    /** The matrix as a sequence of rows. */
    ghost function Rows(): (m: seq<Vec>)
      requires Valid()
      reads this
      ensures Shape(m, rows, cols)
    {
      seq(rows, r requires 0 <= r < rows reads this requires Valid() => Row(r))
    }

    constructor (rows: nat, cols: nat)
      ensures Valid() && this.rows == rows && this.cols == cols
      ensures Rows() == seq(rows, _ => Zeros(cols))
    {
      this.rows, this.cols := rows, cols;
      SizeFits(rows, cols);
      data := Zeros(rows * cols);
      new;
      forall r | 0 <= r < rows ensures Row(r) == Zeros(cols) { RowFits(r, rows, cols); }
    }

    method Get(r: nat, c: nat) returns (x: u8)
      requires Valid() && r < rows && c < cols
      ensures x == Rows()[r][c]
    {
      RowFits(r, rows, cols);
      x := data[r * cols + c];
      assert x == Row(r)[c];
    }

    method Set(r: nat, c: nat, val: u8)
      requires Valid() && r < rows && c < cols
      modifies this
      ensures Valid() && Rows() == Put(old(Rows()), r, c, val)
    {
      RowFits(r, rows, cols);
      data := data[r * cols + c := val];
      forall i | 0 <= i < rows ensures Row(i) == if i == r then PutVec(old(Row(r)), c, val) else old(Row(i)) {
        RowFits(i, rows, cols);
        if i < r { RowsApart(i, r, cols); } else if r < i { RowsApart(r, i, cols); }
      }
    }

    method SwapRows(i: nat, j: nat)
      requires Valid() && i < rows && j < rows && i != j
      modifies this
      ensures Valid() && Rows() == Swapped(old(Rows()), i, j)
    {
      ghost var start := Rows();
      ghost var m := start;
      for c := 0 to cols
        invariant Valid() && Rows() == m && Shape(m, rows, cols)
        invariant forall r :: 0 <= r < rows && r != i && r != j ==> m[r] == start[r]
        invariant forall q :: 0 <= q < cols ==> m[i][q] == if q < c then start[j][q] else start[i][q]
        invariant forall q :: 0 <= q < cols ==> m[j][q] == if q < c then start[i][q] else start[j][q]
      {
        var tmp := Get(i, c);
        var other := Get(j, c);
        Set(i, c, other);
        Set(j, c, tmp);
        m := Put(Put(m, i, c, other), j, c, tmp);
      }
      assert m[i] == start[j] && m[j] == start[i];
    }

    method NormalizeRow(i: nat, f: u8)
      requires Valid() && i < rows
      modifies this
      ensures Valid() && Rows() == Normalized(old(Rows()), i, f)
    {
      hide Product;
      ghost var start := Rows();
      ghost var m := start;
      for c := 0 to cols
        invariant Valid() && Rows() == m && Shape(m, rows, cols)
        invariant forall r :: 0 <= r < rows && r != i ==> m[r] == start[r]
        invariant forall q :: 0 <= q < cols ==> m[i][q] == if q < c then Product(f, start[i][q]) else start[i][q]
      {
        var x := Get(i, c);
        ProductCommutes(x, f);
        Set(i, c, Product(x, f));
        m := Put(m, i, c, Product(x, f));
      }
      assert m[i] == ScaleVec(f, start[i]);
    }

    method EliminateRow(r: nat, p: nat, f: u8)
      requires Valid() && r < rows && p < rows && r != p
      modifies this
      ensures Valid() && Rows() == old(Rows())[r := AddVec(old(Rows())[r], ScaleVec(f, old(Rows())[p]))]
    {
      hide Product, GfAdd;
      ghost var start := Rows();
      ghost var m := start;
      for c := 0 to cols
        invariant Valid() && Rows() == m && Shape(m, rows, cols)
        invariant forall i :: 0 <= i < rows && i != r ==> m[i] == start[i]
        invariant forall q :: 0 <= q < cols ==>
          m[r][q] == if q < c then GfAdd(start[r][q], Product(f, start[p][q])) else start[r][q]
      {
        var above := Get(p, c);
        var sub := Product(f, above);
        var x := Get(r, c);
        Set(r, c, GfAdd(x, sub));
        m := Put(m, r, c, GfAdd(x, sub));
      }
      assert m[r] == AddVec(start[r], ScaleVec(f, start[p]));
    }

    /** Clears column `p` in every row but row `p`. */
    method ClearColumn(p: nat)
      requires Valid() && p < rows && p < cols
      modifies this
      ensures Valid() && Rows() == Cleared(old(Rows()), p, rows, cols)
    {
      hide AddVec, ScaleVec;
      ghost var start := Rows();
      for r := 0 to rows
        invariant Valid() && Rows() == Cleared(start, p, r, cols)
      {
        if r != p {
          var factor := Get(r, p);
          NothingToClear(start[r], start[p]);
          if factor != 0 {
            EliminateRow(r, p, factor);
          }
        }
        ClearedNext(start, p, r, cols);
      }
    }

    /** The first row at or below `col` with a non-zero entry in that column. */
    method FindPivot(col: nat) returns (p: nat)
      requires Valid() && col < rows && col < cols
      ensures col <= p <= rows && forall r :: col <= r < p ==> Rows()[r][col] == 0
      ensures p < rows ==> Rows()[p][col] != 0
    {
      p := col;
      while p < rows
        invariant col <= p <= rows && forall r :: col <= r < p ==> Rows()[r][col] == 0
      {
        var x := Get(p, col);
        if x != 0 {
          return;
        }
        p := p + 1;
      }
    }

    /** Copies row `q` of another matrix, at most as wide, over the left of row `r`. */
    method CopyFrom(source: Matrix, q: nat, r: nat)
      requires Valid() && source.Valid() && source != this && r < rows && q < source.rows && source.cols <= cols
      modifies this
      ensures Valid()
      ensures Rows() == old(Rows())[r := source.Rows()[q] + old(Rows())[r][source.cols..]]
    {
      ghost var start, a := Rows(), source.Rows();
      ghost var m := start;
      for c := 0 to source.cols
        invariant Valid() && Rows() == m && Shape(m, rows, cols)
        invariant forall i :: 0 <= i < rows && i != r ==> m[i] == start[i]
        invariant forall p :: 0 <= p < cols ==> m[r][p] == if p < c then a[q][p] else start[r][p]
      {
        var x := source.Get(q, c);
        Set(r, c, x);
        m := Put(m, r, c, x);
      }
      assert m[r] == a[q] + start[r][source.cols..];
    }

    /** [A | I]. */
    method Augment() returns (aug: Matrix)
      requires Valid() && rows == cols
      ensures fresh(aug) && aug.Valid() && aug.rows == rows && aug.cols == 2 * rows
      ensures aug.Rows() == Augmented(Rows(), rows)
    {
      aug := new Matrix(rows, 2 * rows);
      ghost var a := Rows();
      for r := 0 to rows
        invariant aug.Valid() && Shape(aug.Rows(), rows, 2 * rows)
        invariant forall i :: 0 <= i < rows ==>
          aug.Rows()[i] == if i < r then a[i] + Unit(i, rows) else Zeros(2 * rows)
      {
        aug.CopyFrom(this, r, r);
        aug.Set(r, rows + r, 1);
        assert aug.Rows()[r] == a[r] + Unit(r, rows);
      }
      assert aug.Rows() == Augmented(a, rows);
    }

    method TakeRight(n: nat) returns (inv: Matrix)
      requires Valid() && rows == n && cols == 2 * n
      ensures fresh(inv) && inv.Valid() && inv.rows == n && inv.cols == n && inv.Rows() == RightHalf(Rows(), n)
    {
      inv := new Matrix(n, n);
      ghost var a := Rows();
      ghost var m := inv.Rows();
      for r := 0 to n
        invariant inv.Valid() && inv.Rows() == m && Shape(m, n, n)
        invariant forall i :: 0 <= i < r ==> m[i] == a[i][n..]
      {
        ghost var before := m;
        for c := 0 to n
          invariant inv.Valid() && inv.Rows() == m && Shape(m, n, n)
          invariant forall i :: 0 <= i < n && i != r ==> m[i] == before[i]
          invariant forall q :: 0 <= q < c ==> m[r][q] == a[r][n + q]
        {
          var x := Get(r, n + c);
          inv.Set(r, c, x);
          m := Put(m, r, c, x);
        }
        assert m[r] == a[r][n..];
      }
    }

    /** Null when the matrix is singular. */
    method Invert() returns (inv: Matrix?)
      requires Valid() && rows == cols
      ensures inv == null ==> !Regular(Rows(), rows)
      ensures inv != null ==> fresh(inv) && inv.Valid() && inv.rows == rows && inv.cols == rows
      ensures inv != null ==> Inverse(Rows(), inv.Rows(), rows)
    {
      hide SameSolutions, Eliminated, Inverse, Regular, Augmented, RightHalf;
      ghost var a := Rows();
      var n := rows;
      var aug := Augment();
      var col := aug.EliminateAll(n);
      if col < n {
        Stuck(a, aug.Rows(), col, n);
        return null;
      }
      Finished(a, aug.Rows(), n);
      inv := aug.TakeRight(n);
    }

    /** Turns the left half into the identity, or stops at the first column without a pivot. */
    method EliminateAll(n: nat) returns (col: nat)
      requires Valid() && rows == n && cols == 2 * n
      modifies this
      ensures Valid() && col <= n && Eliminated(Rows(), col, 2 * n) && SameSolutions(Rows(), old(Rows()), n, 2 * n)
      ensures forall r :: col <= r < n ==> Rows()[r][col] == 0
    {
      hide SameSolutions, Eliminated, Step;
      ghost var start := Rows();
      AtTheStart(start, n, 2 * n);
      col := 0;
      while col < n
        invariant Valid() && col <= n && Eliminated(Rows(), col, 2 * n) && SameSolutions(Rows(), start, n, 2 * n)
      {
        ghost var m := Rows();
        var p := FindPivot(col);
        if p == n {
          return;
        }
        EliminateColumn(col, p);
        StepSame(m, start, col, p, n, 2 * n);
        StepEliminates(m, col, p, 2 * n);
        col := col + 1;
      }
    }

    /** Brings the pivot up, scales it to one and clears the rest of its column. */
    method EliminateColumn(col: nat, p: nat)
      requires Valid() && col < rows && col < cols && col <= p < rows && Rows()[p][col] != 0
      modifies this
      ensures Valid() && Rows() == Step(old(Rows()), col, p, cols)
    {
      hide Normalized, Cleared, GfInv;
      ghost var m := Rows();
      if p != col {
        SwapRows(col, p);
      }
      assert Rows() == Swapped(m, col, p);
      var pivot := Get(col, col);
      NormalizeRow(col, GfInv(pivot));
      ClearColumn(col);
    }
  }

  lemma AtTheStart(m: seq<Vec>, n: nat, w: nat)
    requires Shape(m, n, w)
    ensures Eliminated(m, 0, w) && SameSolutions(m, m, n, w)
  {
  }

  lemma NothingToClear(v: Vec, p: Vec)
    requires |v| == |p|
    ensures AddVec(v, ScaleVec(0, p)) == v
  {
    hide Product, GfAdd;
    forall i | 0 <= i < |v| ensures GfAdd(v[i], Product(0, p[i])) == v[i] {
      ProductZero(p[i]);
      AddZero(v[i]);
    }
  }

  lemma ClearedNext(m: seq<Vec>, p: nat, r: nat, w: nat)
    requires p < |m| && p < w && r < |m| && Shape(m, |m|, w)
    ensures Cleared(m, p, r, w)[r] == m[r] && Cleared(m, p, r, w)[p] == m[p]
    ensures Cleared(m, p, r + 1, w) ==
      if r == p then Cleared(m, p, r, w) else Cleared(m, p, r, w)[r := AddVec(m[r], ScaleVec(m[r][p], m[p]))]
  {
    hide AddVec, ScaleVec;
  }
}
