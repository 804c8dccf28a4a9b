/** Inner products of vectors of polynomials. */
module PolynomialVectors {
  import opened PolynomialRing

  /** a[0] b[0] + ... + a[n-1] b[n-1]. */
  function Dot(a: seq<Poly>, b: seq<Poly>, n: nat): Poly
    requires n <= |a| && n <= |b|
  {
    if n == 0 then Zero() else Plus(Dot(a, b, n - 1), Times(a[n - 1], b[n - 1]))
  }

  function VecPlus(a: seq<Poly>, b: seq<Poly>): (r: seq<Poly>)
    requires |a| == |b|
    ensures |r| == |a|
  {
    seq(|a|, i requires 0 <= i < |a| => Plus(a[i], b[i]))
  }

  predicate VecEquiv(a: seq<Poly>, b: seq<Poly>, q: int)
    requires 0 < q
  {
    |a| == |b| && forall i :: 0 <= i < |a| ==> Equiv(a[i], b[i], q)
  }

  /** Inner products distribute over addition of vectors. */
  lemma {:induction false} DotPlus(a: seq<Poly>, b: seq<Poly>, c: seq<Poly>, n: nat)
    requires |b| == |c| && n <= |a| && n <= |b|
    ensures Dot(a, VecPlus(b, c), n) == Plus(Dot(a, b, n), Dot(a, c, n))
  {
    if n != 0 {
      hide Times;
      DotPlus(a, b, c, n - 1);
      TimesPlus(a[n - 1], b[n - 1], c[n - 1]);
      Interleave(Dot(a, b, n - 1), Dot(a, c, n - 1), Times(a[n - 1], b[n - 1]), Times(a[n - 1], c[n - 1]));
    } else {
      assert Zero() == Plus(Zero(), Zero());
    }
  }

  lemma Interleave(w: Poly, x: Poly, y: Poly, z: Poly)
    ensures Plus(Plus(w, x), Plus(y, z)) == Plus(Plus(w, y), Plus(x, z))
  {
  }

  lemma {:induction false} DotCommutes(a: seq<Poly>, b: seq<Poly>, n: nat)
    requires n <= |a| && n <= |b|
    ensures Dot(a, b, n) == Dot(b, a, n)
  {
    hide Times, Plus;
    if n != 0 {
      DotCommutes(a, b, n - 1);
      TimesCommutes(a[n - 1], b[n - 1]);
    }
  }

  lemma {:induction false} DotEquiv(a: seq<Poly>, b: seq<Poly>, c: seq<Poly>, n: nat, q: int)
    requires 0 < q && VecEquiv(b, c, q) && n <= |a| && n <= |b|
    ensures Equiv(Dot(a, b, n), Dot(a, c, n), q)
  {
    hide Times, Plus;
    if n != 0 {
      hide Equiv;
      DotEquiv(a, b, c, n - 1, q);
      TimesEquiv(a[n - 1], b[n - 1], c[n - 1], q);
      PlusEquiv(Dot(a, b, n - 1), Dot(a, c, n - 1), Times(a[n - 1], b[n - 1]), Times(a[n - 1], c[n - 1]), q);
    }
  }

  function Row(a: (nat, nat) -> Poly, i: nat, k: nat): (r: seq<Poly>)
    ensures |r| == k
  {
    seq(k, j requires 0 <= j => a(i, j))
  }

  /** A k-by-k matrix, given by its entries, times a vector. */
  function Apply(a: (nat, nat) -> Poly, v: seq<Poly>, k: nat): (r: seq<Poly>)
    requires |v| == k
    ensures |r| == k
  {
    seq(k, i requires 0 <= i < k => Dot(Row(a, i, k), v, k))
  }

  function Transposed(m: (nat, nat) -> Poly): (nat, nat) -> Poly
  {
    (i, j) => m(j, i)
  }

  lemma Slide(a: Poly, s: Poly, r: Poly)
    ensures Times(Times(a, s), r) == Times(s, Times(a, r))
  {
    hide Times;
    TimesCommutes(a, s);
    TimesAssociates(s, a, r);
  }

  /** The products a(i,j) s[j] r[i] of row i, for j below `m`. */
  function RowTerms(a: (nat, nat) -> Poly, s: seq<Poly>, r: seq<Poly>, i: nat, m: nat): Poly
    requires m <= |s| && i < |r|
  {
    if m == 0 then Zero() else Plus(RowTerms(a, s, r, i, m - 1), Times(s[m - 1], Times(a(i, m - 1), r[i])))
  }

  function ColTerms(a: (nat, nat) -> Poly, s: seq<Poly>, r: seq<Poly>, n: nat, j: nat): Poly
    requires n <= |r| && j < |s|
  {
    if n == 0 then Zero() else Plus(ColTerms(a, s, r, n - 1, j), Times(s[j], Times(a(n - 1, j), r[n - 1])))
  }

  function ByRows(a: (nat, nat) -> Poly, s: seq<Poly>, r: seq<Poly>, n: nat, m: nat): Poly
    requires m <= |s| && n <= |r|
  {
    if n == 0 then Zero() else Plus(ByRows(a, s, r, n - 1, m), RowTerms(a, s, r, n - 1, m))
  }

  function ByCols(a: (nat, nat) -> Poly, s: seq<Poly>, r: seq<Poly>, n: nat, m: nat): Poly
    requires m <= |s| && n <= |r|
  {
    if m == 0 then Zero() else Plus(ByCols(a, s, r, n, m - 1), ColTerms(a, s, r, n, m - 1))
  }

  lemma {:induction false} RowsAreCols(a: (nat, nat) -> Poly, s: seq<Poly>, r: seq<Poly>, n: nat, m: nat)
    requires m <= |s| && n <= |r|
    ensures ByRows(a, s, r, n, m) == ByCols(a, s, r, n, m)
  {
    hide Times, Plus;
    if n == 0 {
      NoRows(a, s, r, m);
    } else if m == 0 {
      NoCols(a, s, r, n);
    } else {
      RowsAreCols(a, s, r, n - 1, m);
      RowsAreCols(a, s, r, n, m - 1);
      RowsAreCols(a, s, r, n - 1, m - 1);
      Corner(ByRows(a, s, r, n - 1, m - 1), ColTerms(a, s, r, n - 1, m - 1), RowTerms(a, s, r, n - 1, m - 1),
             Times(s[m - 1], Times(a(n - 1, m - 1), r[n - 1])));
    }
  }

  lemma Corner(x: Poly, col: Poly, row: Poly, t: Poly)
    ensures Plus(Plus(x, col), Plus(row, t)) == Plus(Plus(x, row), Plus(col, t))
  {
    Interleave(x, col, row, t);
  }

  lemma {:induction false} NoRows(a: (nat, nat) -> Poly, s: seq<Poly>, r: seq<Poly>, m: nat)
    requires m <= |s|
    ensures ByCols(a, s, r, 0, m) == Zero()
  {
    if m != 0 {
      NoRows(a, s, r, m - 1);
      assert Plus(Zero(), Zero()) == Zero();
    }
  }

  lemma {:induction false} NoCols(a: (nat, nat) -> Poly, s: seq<Poly>, r: seq<Poly>, n: nat)
    requires n <= |r|
    ensures ByRows(a, s, r, n, 0) == Zero()
  {
    if n != 0 {
      NoCols(a, s, r, n - 1);
      assert Plus(Zero(), Zero()) == Zero();
    }
  }

  lemma {:induction false} RowIs(a: (nat, nat) -> Poly, s: seq<Poly>, r: seq<Poly>, i: nat, m: nat)
    requires m <= |s| && i < |r|
    ensures Times(Dot(Row(a, i, |s|), s, m), r[i]) == RowTerms(a, s, r, i, m)
  {
    hide Times, Plus;
    if m == 0 {
      ZeroTimes(r[i]);
    } else {
      RowIs(a, s, r, i, m - 1);
      var d, t := Dot(Row(a, i, |s|), s, m - 1), Times(a(i, m - 1), s[m - 1]);
      PlusTimes(d, t, r[i]);
      Slide(a(i, m - 1), s[m - 1], r[i]);
    }
  }

  lemma {:induction false} ColIs(a: (nat, nat) -> Poly, s: seq<Poly>, r: seq<Poly>, n: nat, j: nat)
    requires n <= |r| && j < |s|
    ensures Times(s[j], Dot(Row(Transposed(a), j, |r|), r, n)) == ColTerms(a, s, r, n, j)
  {
    hide Times, Plus;
    if n == 0 {
      ZeroTimes(s[j]);
      TimesCommutes(Zero(), s[j]);
    } else {
      ColIs(a, s, r, n - 1, j);
      TimesPlus(s[j], Dot(Row(Transposed(a), j, |r|), r, n - 1), Times(a(n - 1, j), r[n - 1]));
    }
  }

  lemma PlusTimes(x: Poly, y: Poly, z: Poly)
    ensures Times(Plus(x, y), z) == Plus(Times(x, z), Times(y, z))
  {
    hide Times, Plus;
    TimesCommutes(Plus(x, y), z);
    TimesCommutes(x, z);
    TimesCommutes(y, z);
    TimesPlus(z, x, y);
  }

  lemma ZeroTimes(x: Poly)
    ensures Times(Zero(), x) == Zero()
  {
    hide Times;
    TimesCommutes(Zero(), x);
    assert Scale(0, Zero()) == Zero();
    TimesScale(x, 0, Zero());
    var y := Times(x, Zero());
    assert forall k :: 0 <= k < 256 ==> Scale(0, y)[k] == 0;
  }

  lemma {:induction false} RowsAre(a: (nat, nat) -> Poly, s: seq<Poly>, r: seq<Poly>, n: nat)
    requires |s| == |r| && n <= |r|
    ensures Dot(Apply(a, s, |s|), r, n) == ByRows(a, s, r, n, |s|)
  {
    hide Times, Plus;
    if n != 0 {
      RowsAre(a, s, r, n - 1);
      RowIs(a, s, r, n - 1, |s|);
    }
  }

  lemma {:induction false} ColsAre(a: (nat, nat) -> Poly, s: seq<Poly>, r: seq<Poly>, m: nat)
    requires |s| == |r| && m <= |s|
    ensures Dot(s, Apply(Transposed(a), r, |r|), m) == ByCols(a, s, r, |r|, m)
  {
    hide Times, Plus;
    if m != 0 {
      ColsAre(a, s, r, m - 1);
      ColIs(a, s, r, |r|, m - 1);
    }
  }

  /** A matrix moves across an inner product as its transpose: (A s) . r = s . (A^T r). */
  lemma Adjoint(a: (nat, nat) -> Poly, s: seq<Poly>, r: seq<Poly>)
    requires |s| == |r|
    ensures Dot(Apply(a, s, |s|), r, |r|) == Dot(s, Apply(Transposed(a), r, |r|), |s|)
  {
    hide Dot, Apply, ByRows, ByCols;
    RowsAre(a, s, r, |r|);
    ColsAre(a, s, r, |s|);
    RowsAreCols(a, s, r, |r|, |s|);
  }
}
