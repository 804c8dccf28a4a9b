/** The buffers sized by 138/100 and 733/1000 never lose a carry. */
module Base58Capacity {
  import opened Words
  import opened Positional

  lemma {:induction false} Blocks(a: nat, b: nat, q: nat, p: nat, n: nat)
    requires 0 < a && 0 < b && Pow(a, q) <= Pow(b, p)
    ensures Pow(a, q * n) <= Pow(b, p * n)
  {
    if n == 0 {
      Nothing(a, b);
    } else {
      hide Pow;
      Blocks(a, b, q, p, n - 1);
      PowAdd(a, q, q * (n - 1));
      PowAdd(b, p, p * (n - 1));
      assert q * n == q + q * (n - 1) && p * n == p + p * (n - 1);
      Multiply(Pow(a, q), Pow(b, p), Pow(a, q * (n - 1)), Pow(b, p * (n - 1)));
    }
  }

  lemma Nothing(a: nat, b: nat)
    requires 0 < a && 0 < b
    ensures Pow(a, 0) == 1 && Pow(b, 0) == 1
  {
  }

  lemma Multiply(x: nat, y: nat, u: nat, v: nat)
    requires x <= y && u <= v
    ensures x * u <= y * v
  {
    AtLeast(u, x, y);
    AtLeast(y, u, v);
  }

  /** Whole blocks and a remainder together. */
  lemma BlocksAnd(a: nat, b: nat, q: nat, p: nat, n: nat, r: nat, c: nat)
    requires 0 < a && 0 < b && Pow(a, q) <= Pow(b, p) && Pow(a, r) <= Pow(b, c)
    ensures Pow(a, q * n + r) <= Pow(b, p * n + c)
  {
    hide Pow;
    Blocks(a, b, q, p, n);
    PowAdd(a, q * n, r);
    PowAdd(b, p * n, c);
    Multiply(Pow(a, q * n), Pow(b, p * n), Pow(a, r), Pow(b, c));
  }

  lemma Powers58Low()
    ensures Pow(58, 0) == 1
    ensures Pow(58, 1) == 58
    ensures Pow(58, 2) == 3364
    ensures Pow(58, 3) == 195112
    ensures Pow(58, 4) == 11316496
    ensures Pow(58, 5) == 656356768
    ensures Pow(58, 6) == 38068692544
    ensures Pow(58, 7) == 2207984167552
  {
    assert Pow(58, 1) == 58 * Pow(58, 0);
    assert Pow(58, 2) == 58 * Pow(58, 1);
    assert Pow(58, 3) == 58 * Pow(58, 2);
    assert Pow(58, 4) == 58 * Pow(58, 3);
    assert Pow(58, 5) == 58 * Pow(58, 4);
    assert Pow(58, 6) == 58 * Pow(58, 5);
    assert Pow(58, 7) == 58 * Pow(58, 6);
  }

  lemma Powers58High()
    ensures Pow(58, 8) == 128063081718016
    ensures Pow(58, 9) == 7427658739644928
    ensures Pow(58, 10) == 430804206899405824
    ensures Pow(58, 11) == 24986644000165537792
    ensures Pow(58, 12) == 1449225352009601191936
    ensures Pow(58, 13) == 84055070416556869132288
    ensures Pow(58, 14) == 4875194084160298409672704
    ensures Pow(58, 15) == 282761256881297307761016832
  {
    hide Pow;
    Powers58Low();
    PowAdd(58, 7, 1);
    PowAdd(58, 7, 2);
    PowAdd(58, 7, 3);
    PowAdd(58, 7, 4);
    PowAdd(58, 7, 5);
    PowAdd(58, 7, 6);
    PowAdd(58, 7, 7);
    PowAdd(58, 1, 14);
  }

  lemma Powers256()
    ensures Pow(256, 0) == 1
    ensures Pow(256, 1) == 256
    ensures Pow(256, 2) == 65536
    ensures Pow(256, 3) == 16777216
    ensures Pow(256, 4) == 4294967296
    ensures Pow(256, 5) == 1099511627776
    ensures Pow(256, 6) == 281474976710656
    ensures Pow(256, 7) == 72057594037927936
    ensures Pow(256, 8) == 18446744073709551616
    ensures Pow(256, 9) == 4722366482869645213696
    ensures Pow(256, 10) == 1208925819614629174706176
    ensures Pow(256, 11) == 309485009821345068724781056
  {
    assert Pow(256, 1) == 256 * Pow(256, 0);
    assert Pow(256, 2) == 256 * Pow(256, 1);
    assert Pow(256, 3) == 256 * Pow(256, 2);
    assert Pow(256, 4) == 256 * Pow(256, 3);
    assert Pow(256, 5) == 256 * Pow(256, 4);
    assert Pow(256, 6) == 256 * Pow(256, 5);
    assert Pow(256, 7) == 256 * Pow(256, 6);
    assert Pow(256, 8) == 256 * Pow(256, 7);
    assert Pow(256, 9) == 256 * Pow(256, 8);
    assert Pow(256, 10) == 256 * Pow(256, 9);
    assert Pow(256, 11) == 256 * Pow(256, 10);
  }

  /** 58^71 <= 256^52. */
  lemma Seventyone()
    ensures Pow(58, 71) <= Pow(256, 52)
  {
    hide Pow;
    Powers58High();
    Powers256();
    PowAdd(58, 15, 15);
    PowAdd(58, 30, 30);
    PowAdd(58, 60, 11);
    PowAdd(256, 11, 11);
    PowAdd(256, 22, 22);
    PowAdd(256, 44, 8);
  }

  /** Eight bytes fit in eleven digits, and the remaining bytes in proportion. */
  lemma Remainder58(r: nat)
    requires r < 8
    ensures Pow(256, r) <= Pow(58, (11 * r + 7) / 8)
  {
    hide Pow;
    Powers58Low();
    Powers58High();
    Powers256();
    assert r == 0 || r == 1 || r == 2 || r == 3 || r == 4 || r == 5 || r == 6 || r == 7;
  }

  /** Base 58 of n bytes fits in n * 138 / 100 + 1 digits. */
  lemma Fits58(n: nat)
    ensures Pow(256, n) <= Pow(58, n * 138 / 100 + 1)
  {
    hide Pow;
    var q, r := n / 8, n % 8;
    Powers256();
    Powers58High();
    Remainder58(r);
    BlocksAnd(256, 58, 8, 11, q, r, (11 * r + 7) / 8);
    PowMonotone(58, 11 * q + (11 * r + 7) / 8, n * 138 / 100 + 1);
  }

  lemma Remainder256(t: nat)
    requires t < 15
    ensures Pow(58, t) <= Pow(256, (11 * t + 14) / 15)
  {
    hide Pow;
    Powers58Low();
    Powers58High();
    Powers256();
    assert t == 0 || t == 1 || t == 2 || t == 3 || t == 4 || t == 5 || t == 6 || t == 7
      || t == 8 || t == 9 || t == 10 || t == 11 || t == 12 || t == 13 || t == 14;
  }

  lemma Below71(r: nat)
    requires r < 71
    ensures Pow(58, r) <= Pow(256, r * 733 / 1000 + 1)
  {
    hide Pow;
    var s, t := r / 15, r % 15;
    Powers256();
    Powers58High();
    Remainder256(t);
    BlocksAnd(58, 256, 15, 11, s, t, (11 * t + 14) / 15);
    PowMonotone(256, 11 * s + (11 * t + 14) / 15, r * 733 / 1000 + 1);
  }

  /** Bytes of n digits fit in n * 733 / 1000 + 1. */
  lemma Fits256(n: nat)
    ensures Pow(58, n) <= Pow(256, n * 733 / 1000 + 1)
  {
    hide Pow;
    var q, r := n / 71, n % 71;
    Seventyone();
    Below71(r);
    BlocksAnd(58, 256, 71, 52, q, r, r * 733 / 1000 + 1);
    PowMonotone(256, 52 * q + (r * 733 / 1000 + 1), n * 733 / 1000 + 1);
  }
}
