/** Polynomials with 32-bit coefficients, and the arithmetic loops of the key encapsulation. */
module MlKemPoly {
  import opened Words
  import opened PolynomialRing

  type Coeffs = p: seq<u32> | |p| == 256 witness seq(256, _ => 0)

  /** All coefficients are residues modulo `q`. */
  predicate Reduced(p: Coeffs, q: int)
  {
    forall k :: 0 <= k < 256 ==> p[k] < q
  }

  method Add(a: Coeffs, b: Coeffs, q: u32) returns (r: Coeffs)
    requires 0 < q && forall i :: 0 <= i < 256 ==> (a[i] as int) + b[i] < 0x1_0000_0000
    ensures r == Mod(Plus(a, b), q) && Reduced(r, q)
  {
    var out := new u32[256](_ => 0);
    for i := 0 to 256
      invariant forall k :: 0 <= k < i ==> out[k] == (a[k] + b[k]) % q
    {
      out[i] := (a[i] + b[i]) % q;
    }
    r := out[..];
    assert forall k :: 0 <= k < 256 ==> r[k] == (a[k] + b[k]) % q;
  }

  method Sub(a: Coeffs, b: Coeffs, q: u32) returns (r: Coeffs)
    requires 0 < q && forall i :: 0 <= i < 256 ==> a[i] + q < 0x1_0000_0000
    ensures r == Mod(Minus(a, b), q) && Reduced(r, q)
  {
    var out := new u32[256](_ => 0);
    for i := 0 to 256
      invariant forall k :: 0 <= k < i ==> out[k] == (a[k] - b[k]) % q
    {
      Borrow(a[i], b[i], q);
      out[i] := (a[i] + q - b[i] % q) % q;
    }
    r := out[..];
    assert forall k :: 0 <= k < 256 ==> r[k] == (a[k] - b[k]) % q;
  }

  lemma Borrow(x: nat, y: nat, q: nat)
    requires 0 < q
    ensures 0 <= y % q < q && (x + q - y % q) % q == (x - y) % q
  {
    assert y == q * (y / q) + y % q;
    assert q * (1 + y / q) == q + q * (y / q);
    SameMod(x + q - y % q, x - y, q, 1 + y / q);
  }

  /** Row `i` has contributed to coefficient `k` once its inner loop has passed the matching `j`. */
  function Done(i: nat, j: nat, k: nat): nat
  {
    if (if i <= k then k - i else k - i + 256) < j then i + 1 else i
  }

  method MulNegacyclic(a: Coeffs, b: Coeffs, q: u32) returns (r: Coeffs)
    requires 0 < q
    ensures r == Mod(Times(a, b), q) && Reduced(r, q)
  {
    hide Ext, Partial;
    var out := new u32[256](_ => 0);
    Begins(a, b);
    for i := 0 to 256
      invariant forall k :: 0 <= k < 256 ==> out[k] == Partial(a, b, k, i) % q
    {
      var ai: u64 := a[i];
      if ai == 0 {
        Skips(a, b, i);
        continue;
      }
      for j := 0 to 256
        invariant forall k :: 0 <= k < 256 ==> out[k] == Partial(a, b, k, Done(i, j, k)) % q
      {
        var bj: u64 := b[j];
        var prod := ai * bj % q;
        if i + j < 256 {
          Contributes(a, b, i, j, q);
          out[i + j] := (out[i + j] + prod) % q;
        } else {
          var idx := i + j - 256;
          Contributes(a, b, i, j, q);
          out[idx] := (out[idx] + q - prod) % q;
        }
      }
    }
    r := out[..];
    assert forall k :: 0 <= k < 256 ==> r[k] == Times(a, b)[k] % q;
  }

  lemma Begins(a: Poly, b: Poly)
    ensures forall k :: Partial(a, b, k, 0) == 0
  {
  }

  lemma Skips(a: Poly, b: Poly, i: nat)
    requires i < 256 && a[i] == 0
    ensures forall k :: Partial(a, b, k, i + 1) == Partial(a, b, k, i)
  {
  }

  lemma PartialUnfolds(a: Poly, b: Poly, k: nat, i: nat, j: nat)
    requires i < 256 && j < 256 && k == if i + j < 256 then i + j else i + j - 256
    ensures Partial(a, b, k, i + 1) == Partial(a, b, k, i) + (if i + j < 256 then a[i] * b[j] else -(a[i] * b[j]))
  {
    assert Ext(a, i) == a[i];
    assert Ext(b, k - i) == if i + j < 256 then b[j] else -b[j];
    Negated(a[i], b[j]);
  }

  /** One step of the inner loop adds the row's term to its coefficient, or takes it away past the wrap. */
  lemma Contributes(a: Poly, b: Poly, i: nat, j: nat, q: int)
    requires i < 256 && j < 256 && 0 < q
    ensures
      var k := if i + j < 256 then i + j else i + j - 256;
      var before, after := Partial(a, b, k, i), Partial(a, b, k, i + 1);
      var prod := a[i] * b[j] % q;
      after % q == if i + j < 256 then (before % q + prod) % q else (before % q + q - prod) % q
  {
    hide Partial;
    var k := if i + j < 256 then i + j else i + j - 256;
    PartialUnfolds(a, b, k, i, j);
    ModAdd(Partial(a, b, k, i), a[i] * b[j], q);
  }

  lemma Negated(x: int, y: int)
    ensures x * -y == -(x * y)
  {
  }

  lemma ModAdd(x: int, y: int, q: int)
    requires 0 < q
    ensures (x + y) % q == (x % q + y % q) % q
    ensures (x - y) % q == (x % q + q - y % q) % q
  {
    Twice(x, q);
    Twice(y, q);
    AddMod(x, x % q, y, y % q, q);
    SameMod(x % q + q - y % q, x % q - y % q, q, 1);
  }
}
