/** What the elimination of [A | I] says about A. */
module GfInverse {
  import opened Words
  import opened Gf256
  import opened Gf256Field
  import opened GfLinear

  function Unit(r: nat, n: nat): (e: Vec)
    ensures |e| == n
  {
    seq(n, i => if i == r then 1 else 0)
  }

  /** The matrix takes `u` to `w`. */
  predicate Maps(m: seq<Vec>, u: Vec, w: Vec)
    requires Shape(m, |w|, |u|)
  {
    forall r :: 0 <= r < |w| ==> Dot(m[r], u) == w[r]
  }

  /** `b` undoes `a`, both ways. */
  ghost predicate Inverse(a: seq<Vec>, b: seq<Vec>, n: nat)
    requires Shape(a, n, n) && Shape(b, n, n)
  {
    forall u: Vec, w: Vec :: |u| == n && |w| == n ==> (Maps(a, u, w) <==> Maps(b, w, u))
  }

  /** Only zero is taken to zero. */
  ghost predicate Regular(a: seq<Vec>, n: nat)
    requires Shape(a, n, n)
  {
    forall u: Vec :: |u| == n && Maps(a, u, Zeros(n)) ==> u == Zeros(n)
  }

  ghost predicate SameSolutions(m: seq<Vec>, s: seq<Vec>, n: nat, w: nat)
    requires Shape(m, n, w) && Shape(s, n, w)
  {
    forall x: Vec :: |x| == w ==> (Solves(m, x) <==> Solves(s, x))
  }

  lemma StepSame(m: seq<Vec>, s: seq<Vec>, k: nat, p: nat, n: nat, w: nat)
    requires Shape(m, n, w) && Shape(s, n, w) && k < n && k < w && p < n && m[p][k] != 0
    requires SameSolutions(m, s, n, w)
    ensures SameSolutions(Step(m, k, p, w), s, n, w)
  {
    hide Solves, Step;
    forall x: Vec | |x| == w ensures Solves(Step(m, k, p, w), x) <==> Solves(s, x) {
      StepSolves(m, k, p, x);
    }
  }

  function Augmented(a: seq<Vec>, n: nat): (m: seq<Vec>)
    requires Shape(a, n, n)
    ensures Shape(m, n, 2 * n)
  {
    seq(n, r requires 0 <= r < n => a[r] + Unit(r, n))
  }

  function RightHalf(m: seq<Vec>, n: nat): (b: seq<Vec>)
    requires Shape(m, n, 2 * n)
    ensures Shape(b, n, n)
  {
    seq(n, r requires 0 <= r < n => m[r][n..])
  }

  lemma {:induction false} DotConcat(a: Vec, b: Vec, x: Vec, y: Vec)
    requires |a| == |x| && |b| == |y|
    ensures Dot(a + b, x + y) == GfAdd(Dot(a, x), Dot(b, y))
  {
    hide GfAdd, Product;
    if |b| == 0 {
      assert a + b == a && x + y == x;
      AddZero(Dot(a, x));
    } else {
      var n := |b| - 1;
      DotConcat(a, b[..n], x, y[..n]);
      var s, t := a + b, x + y;
      assert s[..|s| - 1] == a + b[..n] && t[..|s| - 1] == x + y[..n];
      AddAssociates(Dot(a, x), Dot(b[..n], y[..n]), Product(b[n], y[n]));
    }
  }

  lemma {:induction false} DotZeros(a: Vec, x: Vec)
    requires |a| == |x| && (a == Zeros(|a|) || x == Zeros(|x|))
    ensures Dot(a, x) == 0
  {
    hide GfAdd, Product;
    if |a| != 0 {
      var n := |a| - 1;
      DotZeros(a[..n], x[..n]);
      ProductZero(a[n]);
      ProductZero(x[n]);
      AddZero(0);
    }
  }

  lemma DotUnit(r: nat, n: nat, x: Vec)
    requires r < n == |x|
    ensures Dot(Unit(r, n), x) == x[r]
  {
    hide GfAdd, Product;
    var e := Unit(r, n);
    assert e == Zeros(r) + ([1] + Zeros(n - r - 1)) && x == x[..r] + ([x[r]] + x[r + 1..]);
    DotConcat(Zeros(r), [1] + Zeros(n - r - 1), x[..r], [x[r]] + x[r + 1..]);
    DotConcat([1], Zeros(n - r - 1), [x[r]], x[r + 1..]);
    DotZeros(Zeros(r), x[..r]);
    DotZeros(Zeros(n - r - 1), x[r + 1..]);
    DotSingle(1, x[r]);
    AddZero(x[r]);
  }

  lemma DotSingle(a: u8, x: u8)
    ensures Dot([a], [x]) == Product(a, x) && Product(1, x) == x && Product(a, 1) == a
  {
    hide GfAdd, Product;
    assert Dot([a][..0], [x][..0]) == 0;
    AddZero(Product(a, x));
    ProductOne(x);
    ProductOne(a);
  }

  /** (u, w) solves [A | I] exactly when A takes u to w. */
  lemma AugmentedSolves(a: seq<Vec>, n: nat, u: Vec, w: Vec)
    requires Shape(a, n, n) && |u| == n && |w| == n
    ensures Solves(Augmented(a, n), u + w) <==> Maps(a, u, w)
  {
    hide Dot, Unit, GfAdd;
    var m := Augmented(a, n);
    forall r | 0 <= r < n ensures Dot(m[r], u + w) == 0 <==> Dot(a[r], u) == w[r] {
      DotConcat(a[r], Unit(r, n), u, w);
      DotUnit(r, n, w);
      AddCancels(Dot(a[r], u), w[r]);
    }
  }

  /** (u, w) solves [I | B] exactly when B takes w to u. */
  lemma EliminatedSolves(m: seq<Vec>, n: nat, u: Vec, w: Vec)
    requires Shape(m, n, 2 * n) && |u| == n && |w| == n && Eliminated(m, n, 2 * n)
    ensures Solves(m, u + w) <==> Maps(RightHalf(m, n), w, u)
  {
    hide Dot, GfAdd;
    var b := RightHalf(m, n);
    forall r | 0 <= r < n ensures Dot(m[r], u + w) == 0 <==> Dot(b[r], w) == u[r] {
      assert m[r] == Unit(r, n) + b[r];
      DotConcat(Unit(r, n), b[r], u, w);
      DotUnit(r, n, u);
      AddCancels(u[r], Dot(b[r], w));
    }
  }

  /** The elimination ran to the end: the right half is the inverse. */
  lemma Finished(a: seq<Vec>, m: seq<Vec>, n: nat)
    requires Shape(a, n, n) && Shape(m, n, 2 * n) && Eliminated(m, n, 2 * n)
    requires SameSolutions(m, Augmented(a, n), n, 2 * n)
    ensures Inverse(a, RightHalf(m, n), n)
  {
    hide Solves, Maps, Eliminated, Augmented, RightHalf;
    forall u: Vec, w: Vec | |u| == n && |w| == n ensures Maps(a, u, w) <==> Maps(RightHalf(m, n), w, u) {
      AugmentedSolves(a, n, u, w);
      EliminatedSolves(m, n, u, w);
      assert |u + w| == 2 * n;
    }
  }

  /** What a column without a pivot gives: coefficients that combine the columns to zero. */
  function Dependency(m: seq<Vec>, k: nat, n: nat): (u: Vec)
    requires Shape(m, n, 2 * n) && k < n
    ensures |u| == n && u[k] == 1
  {
    seq(n, j requires 0 <= j < n => if j < k then m[j][k] else if j == k then 1 else 0)
  }

  lemma DependencyRow(m: seq<Vec>, k: nat, n: nat, r: nat)
    requires Shape(m, n, 2 * n) && k < n && r < n && Eliminated(m, k, 2 * n)
    requires forall i :: k <= i < n ==> m[i][k] == 0
    ensures Dot(m[r], Dependency(m, k, n) + Zeros(n)) == 0
  {
    hide Dot, GfAdd, Product;
    var u := Dependency(m, k, n);
    var head, tail := m[r][..k], m[r][k + 1..];
    var x := u + Zeros(n);
    assert m[r] == head + ([m[r][k]] + tail);
    assert x == u[..k] + ([1] + Zeros(2 * n - k - 1));
    DotConcat(head, [m[r][k]] + tail, u[..k], [1] + Zeros(2 * n - k - 1));
    DotConcat([m[r][k]], tail, [1], Zeros(2 * n - k - 1));
    DotSingle(m[r][k], 1);
    DotZeros(tail, Zeros(2 * n - k - 1));
    AddZero(m[r][k]);
    if r < k {
      assert head == Unit(r, k);
      DotUnit(r, k, u[..k]);
      AddSelf(m[r][k]);
    } else {
      assert head == Zeros(k);
      DotZeros(head, u[..k]);
      AddZero(0);
    }
  }

  /** The elimination stopped for want of a pivot: A takes a non-zero vector to zero. */
  lemma Stuck(a: seq<Vec>, m: seq<Vec>, k: nat, n: nat)
    requires Shape(a, n, n) && Shape(m, n, 2 * n) && k < n && Eliminated(m, k, 2 * n)
    requires forall i :: k <= i < n ==> m[i][k] == 0
    requires SameSolutions(m, Augmented(a, n), n, 2 * n)
    ensures !Regular(a, n)
  {
    hide Maps, Eliminated, Augmented, Dot, Dependency;
    var u := Dependency(m, k, n);
    var x := u + Zeros(n);
    forall r | 0 <= r < n ensures Dot(m[r], x) == 0 { DependencyRow(m, k, n, r); }
    assert |x| == 2 * n && Solves(m, x);
    AugmentedSolves(a, n, u, Zeros(n));
    assert Maps(a, u, Zeros(n));
    assert u[k] != Zeros(n)[k];
  }
}
