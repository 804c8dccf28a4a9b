/** Any K rows of the systematic generator [I ; Cauchy] are independent. */
module GfCauchy {
  import opened Numbers
  import opened FiniteSets
  import opened Words
  import opened Gf256
  import opened Gf256Field
  import opened GfLinear
  import opened GfInverse

  /** The column points m, ..., m + k - 1 are disjoint from the row points 0, ..., m - 1. */
  function CauchyRow(m: nat, k: nat, x: nat): (v: Vec)
    requires x < m && m + k <= 256
    ensures |v| == k
  {
    seq(k, j requires 0 <= j < k => CauchyAt(m, k, x, j))
  }

  function CauchyAt(m: nat, k: nat, x: nat, j: nat): (r: u8)
    requires x < m && m + k <= 256 && j < k
    ensures r == Reciprocal(x, m + j)
  {
    Reciprocal(x, m + j)
  }

  function Reciprocal(x: u8, y: u8): (r: u8)
    requires x != y
    ensures r != 0
  {
    AddCancels(x, y);
    GfInv(GfAdd(x, y))
  }

  /** The entry for row point x and column j is the inverse of x xor (m + j). */
  lemma CauchyEntry(m: nat, k: nat, x: nat, j: nat)
    requires x < m && m + k <= 256 && j < k
    ensures Product(CauchyRow(m, k, x)[j], GfAdd(x, m + j)) == 1 && GfAdd(x, m + j) == Xor(x, m + j)
  {
    hide Product, Xor;
    AddCancels(x, m + j);
    InverseIs(GfAdd(x, m + j));
  }

  function Pointwise(a: Vec, b: Vec): (v: Vec)
    requires |a| == |b|
    ensures |v| == |a|
  {
    seq(|a|, i requires 0 <= i < |a| => Product(a[i], b[i]))
  }

  function Ones(n: nat): (v: Vec)
    ensures |v| == n
  {
    seq(n, _ => 1)
  }

  lemma {:induction false} SumPointwise(a: Vec, b: Vec)
    requires |a| == |b|
    ensures Dot(Pointwise(a, b), Ones(|a|)) == Dot(a, b)
  {
    hide GfAdd, Product;
    if |a| != 0 {
      var n := |a| - 1;
      SumPointwise(a[..n], b[..n]);
      assert Pointwise(a, b)[..n] == Pointwise(a[..n], b[..n]) && Ones(|a|)[..n] == Ones(n);
      ProductOne(Product(a[n], b[n]));
    }
  }

  lemma {:induction false} DotCommutes(a: Vec, b: Vec)
    requires |a| == |b|
    ensures Dot(a, b) == Dot(b, a)
  {
    hide GfAdd, Product;
    if |a| != 0 {
      var n := |a| - 1;
      DotCommutes(a[..n], b[..n]);
      ProductCommutes(a[n], b[n]);
    }
  }

  // --- Removing one point ---

  /** u_j (y_j + y_t) / (x + y_j). */
  function Weighted(u: Vec, t: nat, x: nat, m: nat): (v: Vec)
    requires x < m && m + |u| <= 256 && t < |u|
    ensures |v| == |u|
  {
    seq(|u|, j requires 0 <= j < |u| => Product(Product(u[j], GfAdd(m + j, m + t)), Reciprocal(x, m + j)))
  }

  lemma ReciprocalIs(x: u8, y: u8)
    requires x != y
    ensures Product(GfAdd(x, y), Reciprocal(x, y)) == 1
  {
    hide GfAdd, Product, GfInv;
    AddCancels(x, y);
    InverseIs(GfAdd(x, y));
  }

  /** c (y + z) / (x + y) = (x + z) c / (x + y) + c. */
  lemma Splits(c: u8, x: u8, y: u8, z: u8)
    requires x != y
    ensures Product(Product(c, GfAdd(y, z)), Reciprocal(x, y))
      == GfAdd(Product(GfAdd(x, z), Product(Reciprocal(x, y), c)), c)
  {
    hide GfAdd, Product, Reciprocal;
    var r, s, d := Reciprocal(x, y), GfAdd(x, z), GfAdd(x, y);
    ReciprocalIs(x, y);
    SumOfDifferences(x, y, z);
    ProductAddsRight(c, d, s);
    ProductAdds(Product(c, d), Product(c, s), r);
    ProductAssociates(c, d, r);
    ProductOne(c);
    ProductCommutes(c, s);
    ProductAssociates(s, c, r);
    ProductCommutes(c, r);
    AddCommutes(c, Product(s, Product(r, c)));
  }

  lemma SumOfDifferences(x: u8, y: u8, z: u8)
    ensures GfAdd(y, z) == GfAdd(GfAdd(x, y), GfAdd(x, z))
  {
    hide GfAdd;
    AddCommutes(x, y);
    AddAssociates(y, x, GfAdd(x, z));
    AddCancels(x, z);
  }

  /** (x + w) / ((x + y)(w + y)) = 1 / (w + y) + 1 / (x + y). */
  lemma PartialFractions(x: u8, w: u8, y: u8, c: u8)
    requires x != y && w != y
    ensures Product(GfAdd(x, w), Product(Reciprocal(x, y), Product(c, Reciprocal(w, y))))
      == GfAdd(Product(c, Reciprocal(w, y)), Product(c, Reciprocal(x, y)))
  {
    hide GfAdd, Product, Reciprocal;
    var p, q := Reciprocal(x, y), Product(c, Reciprocal(w, y));
    SumOfDifferences(y, x, w);
    AddCommutes(y, x);
    AddCommutes(y, w);
    ProductAdds(GfAdd(x, y), GfAdd(w, y), Product(p, q));
    ReciprocalIs(x, y);
    ProductAssociates(GfAdd(x, y), p, q);
    ProductOne(q);
    ProductCommutes(p, q);
    ProductCommutes(c, Reciprocal(w, y));
    ProductAssociates(Reciprocal(w, y), c, p);
    ReciprocalIs(w, y);
    ProductAssociates(GfAdd(w, y), Reciprocal(w, y), Product(c, p));
    ProductOne(Product(c, p));
  }

  lemma WeightedIs(u: Vec, t: nat, x: nat, m: nat)
    requires x < m && m + |u| <= 256 && t < |u|
    ensures Weighted(u, t, x, m) == AddVec(ScaleVec(GfAdd(x, m + t), Pointwise(CauchyRow(m, |u|, x), u)), u)
  {
    hide GfAdd, Product, Reciprocal;
    var f := GfAdd(x, m + t);
    forall j | 0 <= j < |u|
      ensures Weighted(u, t, x, m)[j] == GfAdd(Product(f, Product(Reciprocal(x, m + j), u[j])), u[j])
    {
      Splits(u[j], x, m + j, m + t);
    }
  }

  /** The weighted sum differs from the plain sum by a multiple of the Cauchy row. */
  lemma WeightedSum(u: Vec, t: nat, x: nat, m: nat)
    requires x < m && m + |u| <= 256 && t < |u|
    ensures Dot(Weighted(u, t, x, m), Ones(|u|))
      == GfAdd(Product(GfAdd(x, m + t), Dot(CauchyRow(m, |u|, x), u)), Dot(u, Ones(|u|)))
  {
    hide GfAdd, Product, Dot, Weighted, CauchyRow, ScaleVec, AddVec, Pointwise, Ones;
    var row, f := CauchyRow(m, |u|, x), GfAdd(x, m + t);
    var s := ScaleVec(f, Pointwise(row, u));
    WeightedIs(u, t, x, m);
    DotAdds(s, u, Ones(|u|));
    DotScales(f, Pointwise(row, u), Ones(|u|));
    SumPointwise(row, u);
  }

  /** If two Cauchy rows annihilate `u`, the first still annihilates `u` weighted by the second. */
  lemma StillVanishes(u: Vec, t: nat, x: nat, w: nat, m: nat)
    requires x < m && w < m && x != w && m + |u| <= 256 && t < |u|
    requires Dot(CauchyRow(m, |u|, x), u) == 0 && Dot(CauchyRow(m, |u|, w), u) == 0
    ensures Dot(CauchyRow(m, |u|, x), Weighted(u, t, w, m)) == 0
  {
    hide GfAdd, Product, Dot, Reciprocal;
    var row, v, ones := CauchyRow(m, |u|, x), Weighted(u, t, w, m), Ones(|u|);
    var both := AddVec(v, Weighted(u, t, x, m));
    forall j | 0 <= j < |u| ensures Product(GfAdd(x, w), Product(row[j], v[j])) == both[j] {
      PartialFractions(x, w, m + j, Product(u[j], GfAdd(m + j, m + t)));
    }
    assert ScaleVec(GfAdd(x, w), Pointwise(row, v)) == both;
    DotScales(GfAdd(x, w), Pointwise(row, v), ones);
    SumPointwise(row, v);
    DotAdds(v, Weighted(u, t, x, m), ones);
    WeightedSum(u, t, x, m);
    WeightedSum(u, t, w, m);
    var sum := Dot(u, ones);
    ProductZero(GfAdd(x, m + t));
    ProductZero(GfAdd(w, m + t));
    AddZero(sum);
    AddSelf(sum);
    AddCancels(x, w);
    ProductNonZero(GfAdd(x, w), Dot(row, v));
  }

  // --- Independence ---

  ghost function Support(u: Vec): set<int>
  {
    set j | 0 <= j < |u| && u[j] != 0
  }

  lemma WeightedSupport(u: Vec, t: nat, x: nat, m: nat)
    requires x < m && m + |u| <= 256 && t < |u|
    ensures Support(Weighted(u, t, x, m)) == Support(u) - {t}
  {
    hide GfAdd, Product, Reciprocal;
    forall j | 0 <= j < |u| ensures Weighted(u, t, x, m)[j] != 0 <==> u[j] != 0 && j != t {
      AddCancels(m + j, m + t);
      ProductNonZero(u[j], GfAdd(m + j, m + t));
      ProductNonZero(Product(u[j], GfAdd(m + j, m + t)), Reciprocal(x, m + j));
    }
  }

  lemma SingleEntry(a: Vec, u: Vec, t: nat)
    requires |a| == |u| && t < |u| && forall j :: 0 <= j < |u| && j != t ==> u[j] == 0
    ensures Dot(a, u) == Product(u[t], a[t])
  {
    hide GfAdd, Product, Dot;
    var e := Unit(t, |u|);
    forall j | 0 <= j < |u| ensures Product(u[t], e[j]) == u[j] {
      ProductOne(u[t]);
      ProductZero(u[t]);
    }
    assert u == ScaleVec(u[t], e);
    DotCommutes(a, u);
    DotScales(u[t], e, a);
    DotUnit(t, |u|, a);
  }

  /** A vector annihilated by as many Cauchy rows as it has non-zero entries is zero. */
  lemma {:induction false} Vanishes(u: Vec, xs: seq<nat>, m: nat)
    requires m + |u| <= 256 && Distinct(xs) && (forall i :: 0 <= i < |xs| ==> xs[i] < m)
    requires forall i :: 0 <= i < |xs| ==> Dot(CauchyRow(m, |u|, xs[i]), u) == 0
    requires |Support(u)| <= |xs|
    ensures u == Zeros(|u|)
    decreases |xs|
  {
    hide Dot, CauchyRow, Weighted;
    if t :| 0 <= t < |u| && u[t] != 0 {
      assert t in Support(u);
      Nonempty(Support(u), t);
      var n := |xs| - 1;
      var w := xs[n];
      var v := Weighted(u, t, w, m);
      WeightedSupport(u, t, w, m);
      assert |Support(v)| <= n;
      forall i | 0 <= i < n ensures Dot(CauchyRow(m, |u|, xs[i]), v) == 0 {
        StillVanishes(u, t, xs[i], w, m);
      }
      Vanishes(v, xs[..n], m);
      assert Support(v) == {};
      forall j | 0 <= j < |u| && j != t ensures u[j] == 0 { assert j !in Support(v); }
      OneLeft(u, t, w, m);
    }
  }

  lemma Nonempty(s: set<int>, t: int)
    requires t in s
    ensures 0 < |s| && |s - {t}| == |s| - 1
  {
  }

  lemma OneLeft(u: Vec, t: nat, w: nat, m: nat)
    requires m + |u| <= 256 && w < m && t < |u| && forall j :: 0 <= j < |u| && j != t ==> u[j] == 0
    requires Dot(CauchyRow(m, |u|, w), u) == 0
    ensures u[t] == 0
  {
    hide Dot, Product, Reciprocal;
    SingleEntry(CauchyRow(m, |u|, w), u, t);
    ProductNonZero(u[t], Reciprocal(w, m + t));
  }

  // --- Generator rows ---

  /** Row `index` of the generator: a unit row for a data shard, a Cauchy row for a parity shard. */
  function GeneratorRow(k: nat, m: nat, index: nat): (v: Vec)
    requires index < k + m <= 256
    ensures |v| == k
  {
    if index < k then Unit(index, k) else CauchyRow(m, k, index - k)
  }

  function Selection(k: nat, m: nat, chosen: seq<nat>): (a: seq<Vec>)
    requires k + m <= 256 && forall i :: 0 <= i < |chosen| ==> chosen[i] < k + m
    ensures Shape(a, |chosen|, k)
  {
    seq(|chosen|, i requires 0 <= i < |chosen| => GeneratorRow(k, m, chosen[i]))
  }

  /** The parity rows among the chosen. */
  function Parities(chosen: seq<nat>, k: nat): (xs: seq<nat>)
  {
    if |chosen| == 0 then []
    else
      var last := chosen[|chosen| - 1];
      Parities(chosen[..|chosen| - 1], k) + if last < k then [] else [last - k]
  }

  ghost function DataSet(chosen: seq<nat>, k: nat): set<int>
  {
    set i | 0 <= i < |chosen| && chosen[i] < k :: chosen[i]
  }

  lemma {:induction false} ParitiesAre(chosen: seq<nat>, k: nat)
    requires Distinct(chosen)
    ensures Distinct(Parities(chosen, k)) && |DataSet(chosen, k)| + |Parities(chosen, k)| == |chosen|
    ensures forall x :: x in Parities(chosen, k) <==> x + k in chosen && 0 <= x
  {
    if |chosen| != 0 {
      var n := |chosen| - 1;
      ParitiesAre(chosen[..n], k);
      assert chosen == chosen[..n] + [chosen[n]];
      DataSetGrows(chosen, k);
      assert chosen[n] !in chosen[..n];
      var xs := Parities(chosen[..n], k);
      if k <= chosen[n] {
        assert chosen[n] - k !in xs;
        assert forall i :: 0 <= i < |xs| ==> xs[i] in xs;
      }
    }
  }

  lemma DataSetGrows(chosen: seq<nat>, k: nat)
    requires |chosen| != 0 && Distinct(chosen)
    ensures var n := |chosen| - 1;
      |DataSet(chosen, k)| == |DataSet(chosen[..n], k)| + if chosen[n] < k then 1 else 0
  {
    var n := |chosen| - 1;
    var more: set<int> := if chosen[n] < k then {chosen[n]} else {};
    DataSetSplits(chosen, k, more);
    assert chosen[n] !in DataSet(chosen[..n], k);
  }

  lemma DataSetSplits(chosen: seq<nat>, k: nat, more: set<int>)
    requires |chosen| != 0 && more == if chosen[|chosen| - 1] < k then {chosen[|chosen| - 1]} else {}
    ensures DataSet(chosen, k) == DataSet(chosen[..|chosen| - 1], k) + more
  {
    var n := |chosen| - 1;
    forall x | x in DataSet(chosen, k) ensures x in DataSet(chosen[..n], k) + more {
      var i :| 0 <= i < |chosen| && chosen[i] < k && chosen[i] == x;
      if i < n { assert chosen[..n][i] == x; }
    }
  }

  lemma {:induction false} FullSupport(k: nat)
    ensures |Support(Ones(k))| == k
  {
    if k == 0 {
      assert Support(Ones(k)) == {};
    } else {
      FullSupport(k - 1);
      assert Support(Ones(k)) == Support(Ones(k - 1)) + {k - 1};
    }
  }

  /** A zero data symbol among the chosen leaves no more unknowns than there are parity rows. */
  lemma UnknownsAtMost(u: Vec, chosen: seq<nat>)
    requires Distinct(chosen) && |chosen| == |u|
    requires forall i :: 0 <= i < |chosen| && chosen[i] < |u| ==> u[chosen[i]] == 0
    ensures |Support(u)| <= |Parities(chosen, |u|)|
  {
    var k := |u|;
    var data := DataSet(chosen, k);
    ParitiesAre(chosen, k);
    FullSupport(k);
    var all := Support(Ones(k));
    assert data <= all && Support(u) <= all - data;
    Larger(Support(u), all - data);
    assert |all - data| == k - |data|;
  }

  lemma RowsVanish(k: nat, m: nat, chosen: seq<nat>, u: Vec)
    requires k + m <= 256 && |chosen| == k == |u| && forall i :: 0 <= i < k ==> chosen[i] < k + m
    requires Maps(Selection(k, m, chosen), u, Zeros(k))
    ensures forall i :: 0 <= i < k && chosen[i] < k ==> u[chosen[i]] == 0
    ensures forall i :: 0 <= i < k && k <= chosen[i] ==> Dot(CauchyRow(m, k, chosen[i] - k), u) == 0
  {
    hide Dot, CauchyRow, Unit;
    var a := Selection(k, m, chosen);
    forall i | 0 <= i < k
      ensures if chosen[i] < k then u[chosen[i]] == 0 else Dot(CauchyRow(m, k, chosen[i] - k), u) == 0
    {
      assert Dot(a[i], u) == 0;
      if chosen[i] < k { DotUnit(chosen[i], k, u); }
    }
  }

  /** Any K distinct rows of the generator determine the data. */
  lemma SelectionRegular(k: nat, m: nat, chosen: seq<nat>)
    requires k + m <= 256 && |chosen| == k && Distinct(chosen) && forall i :: 0 <= i < k ==> chosen[i] < k + m
    ensures Regular(Selection(k, m, chosen), k)
  {
    hide Maps, Selection, Dot, CauchyRow, Support;
    var xs := Parities(chosen, k);
    ParitiesAre(chosen, k);
    forall u: Vec | |u| == k && Maps(Selection(k, m, chosen), u, Zeros(k)) ensures u == Zeros(k) {
      RowsVanish(k, m, chosen, u);
      UnknownsAtMost(u, chosen);
      forall i | 0 <= i < |xs| ensures xs[i] < m && Dot(CauchyRow(m, k, xs[i]), u) == 0 {
        assert xs[i] in xs;
        var r :| 0 <= r < |chosen| && chosen[r] == xs[i] + k;
      }
      Vanishes(u, xs, m);
    }
  }
}
