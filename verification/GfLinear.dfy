/** Vectors and row operations over GF(2^8). */
module GfLinear {
  import opened Words
  import opened Gf256
  import opened Gf256Field

  type Vec = seq<u8>

  function Dot(a: Vec, x: Vec): (r: u8)
    requires |a| == |x|
  {
    if |a| == 0 then 0 else GfAdd(Dot(a[..|a| - 1], x[..|a| - 1]), Product(a[|a| - 1], x[|a| - 1]))
  }

  function AddVec(a: Vec, b: Vec): (r: Vec)
    requires |a| == |b|
    ensures |r| == |a|
  {
    seq(|a|, i requires 0 <= i < |a| => GfAdd(a[i], b[i]))
  }

  function ScaleVec(c: u8, a: Vec): (r: Vec)
    ensures |r| == |a|
  {
    seq(|a|, i requires 0 <= i < |a| => Product(c, a[i]))
  }

  lemma {:induction false} DotAdds(a: Vec, b: Vec, x: Vec)
    requires |a| == |b| == |x|
    ensures Dot(AddVec(a, b), x) == GfAdd(Dot(a, x), Dot(b, x))
  {
    hide GfAdd, Product;
    if |a| == 0 {
      AddZero(0);
    } else {
      var n := |a| - 1;
      DotAdds(a[..n], b[..n], x[..n]);
      assert AddVec(a, b)[..n] == AddVec(a[..n], b[..n]);
      ProductAdds(a[n], b[n], x[n]);
      AddSwap(Dot(a[..n], x[..n]), Dot(b[..n], x[..n]), Product(a[n], x[n]), Product(b[n], x[n]));
    }
  }

  lemma {:induction false} DotScales(c: u8, a: Vec, x: Vec)
    requires |a| == |x|
    ensures Dot(ScaleVec(c, a), x) == Product(c, Dot(a, x))
  {
    hide GfAdd, Product;
    if |a| == 0 {
      ProductZero(c);
    } else {
      var n := |a| - 1;
      DotScales(c, a[..n], x[..n]);
      assert ScaleVec(c, a)[..n] == ScaleVec(c, a[..n]);
      ProductAssociates(c, a[n], x[n]);
      ProductAddsRight(c, Dot(a[..n], x[..n]), Product(a[n], x[n]));
    }
  }

  lemma ProductAddsRight(c: u8, a: u8, b: u8)
    ensures Product(c, GfAdd(a, b)) == GfAdd(Product(c, a), Product(c, b))
  {
    hide GfAdd, Product;
    ProductCommutes(c, GfAdd(a, b));
    ProductCommutes(c, a);
    ProductCommutes(c, b);
    ProductAdds(a, b, c);
  }

  // --- Matrices as sequences of rows ---

  predicate Shape(m: seq<Vec>, n: nat, w: nat)
  {
    |m| == n && forall r :: 0 <= r < n ==> |m[r]| == w
  }

  /** `x` is a solution of the homogeneous system with matrix `m`. */
  predicate Solves(m: seq<Vec>, x: Vec)
    requires Shape(m, |m|, |x|)
  {
    forall r :: 0 <= r < |m| ==> Dot(m[r], x) == 0
  }

  function Swapped(m: seq<Vec>, i: nat, j: nat): seq<Vec>
    requires i < |m| && j < |m|
  {
    m[i := m[j]][j := m[i]]
  }

  function Normalized(m: seq<Vec>, i: nat, c: u8): seq<Vec>
    requires i < |m|
  {
    m[i := ScaleVec(c, m[i])]
  }

  /** Rows below `r` other than row `p` with column `p` cleared by a multiple of row `p`. */
  function Cleared(m: seq<Vec>, p: nat, r: nat, w: nat): (t: seq<Vec>)
    requires p < |m| && p < w && r <= |m| && Shape(m, |m|, w)
    ensures Shape(t, |m|, w)
  {
    seq(|m|, i requires 0 <= i < |m| => if i < r && i != p then AddVec(m[i], ScaleVec(m[i][p], m[p])) else m[i])
  }

  lemma SwappedSolves(m: seq<Vec>, i: nat, j: nat, x: Vec)
    requires i < |m| && j < |m| && Shape(m, |m|, |x|)
    ensures Solves(Swapped(m, i, j), x) <==> Solves(m, x)
  {
    hide Dot;
    var s := Swapped(m, i, j);
    if Solves(s, x) {
      forall r | 0 <= r < |m| ensures Dot(m[r], x) == 0 {
        assert m[r] == s[if r == i then j else if r == j then i else r];
      }
    }
  }

  lemma NormalizedSolves(m: seq<Vec>, i: nat, c: u8, x: Vec)
    requires i < |m| && Shape(m, |m|, |x|) && c != 0
    ensures Solves(Normalized(m, i, c), x) <==> Solves(m, x)
  {
    hide Dot, Product, ScaleVec;
    DotScales(c, m[i], x);
    ProductNonZero(c, Dot(m[i], x));
    var s := Normalized(m, i, c);
    if Solves(s, x) {
      forall r | 0 <= r < |m| ensures Dot(m[r], x) == 0 {
        assert Dot(s[r], x) == 0;
      }
    }
  }

  lemma ClearedRow(m: seq<Vec>, p: nat, i: nat, x: Vec)
    requires p < |m| && p < |x| && i < |m| && Shape(m, |m|, |x|) && Dot(m[p], x) == 0
    ensures Dot(AddVec(m[i], ScaleVec(m[i][p], m[p])), x) == Dot(m[i], x)
  {
    hide Dot, Product, ScaleVec, AddVec, GfAdd;
    var f := m[i][p];
    DotAdds(m[i], ScaleVec(f, m[p]), x);
    DotScales(f, m[p], x);
    ProductZero(f);
    AddZero(Dot(m[i], x));
  }

  lemma ClearedSolves(m: seq<Vec>, p: nat, x: Vec)
    requires p < |m| && p < |x| && Shape(m, |m|, |x|)
    ensures Solves(Cleared(m, p, |m|, |x|), x) <==> Solves(m, x)
  {
    hide Dot, ScaleVec, AddVec;
    var s := Cleared(m, p, |m|, |x|);
    assert s[p] == m[p];
    if Dot(m[p], x) == 0 {
      forall i | 0 <= i < |m| ensures Dot(s[i], x) == Dot(m[i], x) {
        ClearedRow(m, p, i, x);
      }
    }
  }

  // --- One column of the elimination ---

  /** The first `k` columns are those of the identity. */
  predicate Eliminated(m: seq<Vec>, k: nat, w: nat)
    requires Shape(m, |m|, w)
  {
    k <= |m| && k <= w && forall r, j :: 0 <= r < |m| && 0 <= j < k ==> m[r][j] == if r == j then 1 else 0
  }

  function Step(m: seq<Vec>, k: nat, p: nat, w: nat): (t: seq<Vec>)
    requires Shape(m, |m|, w) && k < |m| && k < w && p < |m| && m[p][k] != 0
    ensures Shape(t, |m|, w)
  {
    var s := Swapped(m, k, p);
    Cleared(Normalized(s, k, GfInv(s[k][k])), k, |m|, w)
  }

  lemma StepSolves(m: seq<Vec>, k: nat, p: nat, x: Vec)
    requires Shape(m, |m|, |x|) && k < |m| && k < |x| && p < |m| && m[p][k] != 0
    ensures Solves(Step(m, k, p, |x|), x) <==> Solves(m, x)
  {
    hide Solves, Normalized, Cleared, GfInv;
    var s := Swapped(m, k, p);
    SwappedSolves(m, k, p, x);
    NormalizedShape(s, k, GfInv(s[k][k]), |x|);
    NormalizedSolves(s, k, GfInv(s[k][k]), x);
    ClearedSolves(Normalized(s, k, GfInv(s[k][k])), k, x);
  }

  lemma NormalizedShape(m: seq<Vec>, i: nat, c: u8, w: nat)
    requires Shape(m, |m|, w) && i < |m|
    ensures Shape(Normalized(m, i, c), |m|, w)
  {
  }

  lemma SwappedEliminated(m: seq<Vec>, k: nat, p: nat, w: nat)
    requires Shape(m, |m|, w) && k < |m| && k <= w && k <= p < |m| && Eliminated(m, k, w)
    ensures Eliminated(Swapped(m, k, p), k, w)
  {
  }

  lemma NormalizedEliminated(m: seq<Vec>, k: nat, w: nat)
    requires Shape(m, |m|, w) && k < |m| && k < w && Eliminated(m, k, w) && m[k][k] != 0
    ensures var s := Normalized(m, k, GfInv(m[k][k])); Eliminated(s, k, w) && s[k][k] == 1
  {
    hide Product, GfInv;
    InverseIs(m[k][k]);
    forall j | 0 <= j < k ensures Product(GfInv(m[k][k]), m[k][j]) == 0 { ProductZero(GfInv(m[k][k])); }
  }

  lemma ClearedEliminated(m: seq<Vec>, k: nat, w: nat)
    requires Shape(m, |m|, w) && k < |m| && k < w && Eliminated(m, k, w) && m[k][k] == 1
    ensures Eliminated(Cleared(m, k, |m|, w), k + 1, w)
  {
    hide Product, GfAdd;
    var s := Cleared(m, k, |m|, w);
    forall r, j | 0 <= r < |m| && 0 <= j < k + 1 ensures s[r][j] == if r == j then 1 else 0 {
      var f := m[r][k];
      if r != k && j < k {
        ProductZero(f);
        AddZero(m[r][j]);
      } else if r != k {
        ProductOne(f);
        AddSelf(f);
      }
    }
  }

  lemma StepEliminates(m: seq<Vec>, k: nat, p: nat, w: nat)
    requires Shape(m, |m|, w) && k < |m| && k < w && k <= p < |m| && m[p][k] != 0 && Eliminated(m, k, w)
    ensures Eliminated(Step(m, k, p, w), k + 1, w)
  {
    hide Eliminated, Normalized, Cleared, GfInv;
    var s := Swapped(m, k, p);
    SwappedEliminated(m, k, p, w);
    NormalizedShape(s, k, GfInv(s[k][k]), w);
    NormalizedEliminated(s, k, w);
    ClearedEliminated(Normalized(s, k, GfInv(s[k][k])), k, w);
  }
}
