/** Base58 with leading zeros kept as ones. */
module Base58 {
  import opened Wrappers
  import opened Words
  import opened Positional
  import opened Base58Capacity

  // --- The alphabet, as character codes ---

  /** 1-9, A-H, J-N, P-Z, a-k, m-z. */
  function Symbol(d: nat): (c: u8)
    requires d < 58
  {
    if d < 9 then 49 + d
    else if d < 17 then 65 + (d - 9)
    else if d < 22 then 74 + (d - 17)
    else if d < 33 then 80 + (d - 22)
    else if d < 44 then 97 + (d - 33)
    else 109 + (d - 44)
  }

  function Lookup(c: u8, d: nat): (r: Option<nat>)
    requires d <= 58
    decreases 58 - d
  {
    if d == 58 then None else if Symbol(d) == c then Some(d) else Lookup(c, d + 1)
  }

  predicate IsSymbol(c: u8)
  {
    Lookup(c, 0).Some?
  }

  lemma {:induction false} LookupFinds(c: u8, d: nat)
    requires d <= 58
    ensures Lookup(c, d).Some? ==> d <= Lookup(c, d).value < 58 && Symbol(Lookup(c, d).value) == c
    ensures Lookup(c, d).None? ==> forall e :: d <= e < 58 ==> Symbol(e) != c
    decreases 58 - d
  {
    if d < 58 && Symbol(d) != c { LookupFinds(c, d + 1); }
  }

  lemma LookupSymbol(d: nat)
    requires d < 58
    ensures Lookup(Symbol(d), 0) == Some(d)
  {
    hide Lookup;
    LookupFinds(Symbol(d), 0);
  }

  /** The alphabet is in ascending order of character codes. */
  lemma SymbolsAscend(d: nat, e: nat)
    requires d < e < 58
    ensures Symbol(d) < Symbol(e)
  {
  }

  /** It consists of the ASCII digits and letters without 0, O, I and l. */
  lemma SymbolIff(c: u8)
    ensures IsSymbol(c) <==>
      (48 <= c <= 57 || 65 <= c <= 90 || 97 <= c <= 122) && c !in {48, 79, 73, 108}
  {
    hide Lookup;
    LookupFinds(c, 0);
    if (49 <= c <= 57) { assert Symbol(c - 49) == c; }
    if (65 <= c <= 72) { assert Symbol(c - 65 + 9) == c; }
    if (74 <= c <= 78) { assert Symbol(c - 74 + 17) == c; }
    if (80 <= c <= 90) { assert Symbol(c - 80 + 22) == c; }
    if (97 <= c <= 107) { assert Symbol(c - 97 + 33) == c; }
    if (109 <= c <= 122) { assert Symbol(c - 109 + 44) == c; }
  }

  // --- One pass of the carry loop ---

  lemma {:induction false} ValueCons(base: nat, d: u8, s: Bytes)
    requires 0 < base
    ensures Value(base, [d] + s) == d * Pow(base, |s|) + Value(base, s)
  {
    if |s| == 0 {
      assert [d] + s == [d] && [d][..0] == [];
    } else {
      var n := |s| - 1;
      ValueCons(base, d, s[..n]);
      assert ([d] + s)[..n + 1] == [d] + s[..n];
      Spread(d, Pow(base, n), Value(base, s[..n]), base);
    }
  }

  lemma Spread(d: int, p: int, v: int, base: int)
    ensures (d * p + v) * base == d * (base * p) + v * base
  {
    assert d * (base * p) == d * p * base;
  }

  /** How one digit of the buffer carries into the next. */
  lemma CarryStep(base: nat, factor: nat, p: nat, d: nat, carry: nat, before: nat, after: nat, value: nat)
    requires 0 < base && d < base && carry <= factor && before * factor + value == carry * p + after
    ensures var c := carry + factor * d;
      && (d * p + before) * factor + value == c / base * (base * p) + (c % base * p + after)
      && 0 <= c / base <= factor
  {
    var c := carry + factor * d;
    Distributed(d, p, before, factor);
    Sum(carry, factor * d, p);
    DivMod(c, base);
    Rescaled(base, c / base, c % base, p);
    CarryAtMost(base, factor, d, carry);
  }

  lemma Distributed(d: int, p: int, before: int, factor: int)
    ensures (d * p + before) * factor == factor * d * p + before * factor
  {
    assert d * p * factor == factor * d * p;
  }

  lemma Rescaled(base: int, q: int, r: int, p: int)
    ensures (base * q + r) * p == q * (base * p) + r * p
  {
    assert base * q * p == q * (base * p);
  }

  lemma CarryAtMost(base: nat, factor: nat, d: nat, carry: nat)
    requires 0 < base && d < base && carry <= factor
    ensures 0 <= (carry + factor * d) / base <= factor
  {
    AtLeast(factor, d, base - 1);
    assert factor * (base - 1) == factor * base - factor;
    CarryBound(base, factor, carry + factor * d);
  }

  lemma Sum(x: int, y: int, f: int)
    ensures (x + y) * f == x * f + y * f
  {
  }

  lemma CarryBound(base: nat, factor: nat, c: nat)
    requires 0 < base && c <= factor * base
    ensures 0 <= c / base <= factor
  {
    assert c == base * (c / base) + c % base;
    if factor < c / base { AtLeast(base, factor + 1, c / base); }
    if c / base < 0 { AtLeast(base, c / base, -1); }
  }

  lemma NoCarry(carry: nat, p: nat, v: nat, total: nat)
    requires total == carry * p + v && total < p
    ensures carry == 0
  {
    if 0 < carry { AtLeast(p, 1, carry); }
  }

  /** The low digits `was` times `factor` plus `value` are the new low digits and the carry above them. */
  predicate Balanced(base: nat, factor: nat, value: nat, was: Bytes, now: Bytes, carry: nat)
    requires 0 < base
  {
    |was| == |now| && Value(base, was) * factor + value == carry * Pow(base, |was|) + Value(base, now)
  }

  lemma BalancedStep(base: nat, factor: nat, value: nat, was: Bytes, now: Bytes, carry: nat, d: u8)
    requires 2 <= base <= 256 && d < base && carry <= factor <= 256 && Balanced(base, factor, value, was, now, carry)
    ensures var c := carry + factor * d;
      && 0 <= c < 0x1_0000_0000 && 0 <= c / base <= factor && c % base < 256
      && Balanced(base, factor, value, [d] + was, [c % base] + now, c / base)
  {
    hide Value;
    CarryStep(base, factor, Pow(base, |was|), d, carry, Value(base, was), Value(base, now), value);
    SmallProduct(factor, d, carry);
    ValueCons(base, d, was);
    ValueCons(base, (carry + factor * d) % base, now);
  }

  /** Multiplies the number in the buffer by `factor` and adds `value`, least significant digit first. */
  method MulAdd(buf: array<u8>, base: nat, factor: nat, value: nat)
    requires 2 <= base <= 256 && factor <= 256 && value <= factor && IsDigits(base, buf[..])
    requires Value(base, buf[..]) * factor + value < Pow(base, buf.Length)
    modifies buf
    ensures IsDigits(base, buf[..]) && Value(base, buf[..]) == Value(base, old(buf[..])) * factor + value
  {
    hide Value, Pow, Balanced;
    ghost var start := buf[..];
    var carry: u32 := value;
    var i: nat := buf.Length;
    BalancedStart(base, factor, value, start);
    while i > 0
      invariant i <= buf.Length && carry <= factor && IsDigits(base, buf[..])
      invariant buf[..i] == start[..i] && Balanced(base, factor, value, start[i..], buf[i..], carry)
    {
      i := i - 1;
      ghost var tail := buf[i + 1..];
      BalancedStep(base, factor, value, start[i + 1..], tail, carry, buf[i]);
      assert start[i..] == [start[i]] + start[i + 1..];
      var c: u32 := carry + factor * buf[i];
      buf[i] := c % base;
      carry := c / base;
      assert buf[i..] == [buf[i]] + tail;
    }
    assert buf[0..] == buf[..] && start[0..] == start;
    BalancedEnd(base, factor, value, start, buf[..], carry);
  }

  lemma BalancedStart(base: nat, factor: nat, value: nat, s: Bytes)
    requires 0 < base
    ensures Balanced(base, factor, value, s[|s|..], s[|s|..], value)
  {
  }

  lemma BalancedEnd(base: nat, factor: nat, value: nat, was: Bytes, now: Bytes, carry: nat)
    requires 0 < base && Balanced(base, factor, value, was, now, carry)
    requires Value(base, was) * factor + value < Pow(base, |was|)
    ensures Value(base, now) == Value(base, was) * factor + value
  {
    hide Value, Pow;
    NoCarry(carry, Pow(base, |was|), Value(base, now), Value(base, was) * factor + value);
  }

  lemma SmallProduct(factor: nat, d: u8, carry: nat)
    requires factor <= 256 && carry <= factor
    ensures 0 <= factor * d && carry + factor * d < 0x1_0000_0000
  {
    AtLeast(d, factor, 256);
    AtLeast(factor, 0, d);
  }

  // --- What encoding and decoding compute ---

  function Ones(n: nat): (s: Bytes)
    ensures |s| == n
  {
    seq(n, _ => 49)
  }

  function Symbols(digits: Bytes): (s: Bytes)
    requires IsDigits(58, digits)
    ensures |s| == |digits|
  {
    seq(|digits|, i requires 0 <= i < |digits| => Symbol(digits[i]))
  }

  predicate AllSymbols(s: Bytes)
  {
    forall i :: 0 <= i < |s| ==> IsSymbol(s[i])
  }

  function DigitOf(c: u8): (d: u8)
    requires IsSymbol(c)
    ensures d < 58 && Symbol(d) == c
  {
    LookupFinds(c, 0);
    Lookup(c, 0).value
  }

  function DigitsOf(s: Bytes): (d: Bytes)
    requires AllSymbols(s)
    ensures |d| == |s| && IsDigits(58, d)
  {
    seq(|s|, i requires 0 <= i < |s| => DigitOf(s[i]))
  }

  function Encoded(data: Bytes): Bytes
  {
    Ones(Leading(data)) + Symbols(Digits(58, Value(256, data)))
  }

  function Decoded(s: Bytes): Option<Bytes>
  {
    if !AllSymbols(s) then None
    else Some(Zeros(Leading(DigitsOf(s))) + Digits(256, Value(58, DigitsOf(s))))
  }

  // --- Round trips ---

  lemma DigitsOfSymbols(z: nat, digits: Bytes)
    requires IsDigits(58, digits)
    ensures var s := Ones(z) + Symbols(digits);
      AllSymbols(s) && DigitsOf(s) == Zeros(z) + digits
  {
    hide Lookup, Symbol;
    var s := Ones(z) + Symbols(digits);
    forall i | 0 <= i < |s| ensures IsSymbol(s[i]) && DigitOf(s[i]) == if i < z then 0 else digits[i - z] {
      FirstSymbol();
      if i < z { LookupSymbol(0); } else { LookupSymbol(digits[i - z]); }
    }
  }

  lemma FirstSymbol()
    ensures Symbol(0) == 49
  {
  }

  lemma SymbolsOfDigits(s: Bytes)
    requires AllSymbols(s)
    ensures Symbols(DigitsOf(s)) == s
  {
    hide Lookup, Symbol, IsSymbol;
  }

  lemma LeadingExactly(z: nat, rest: Bytes)
    requires rest != [] ==> rest[0] != 0
    ensures Leading(Zeros(z) + rest) == z
  {
    var s := Zeros(z) + rest;
    var n := Leading(s);
    assert rest != [] ==> s[z] == rest[0];
    assert n < |s| ==> s[n] != 0;
  }

  lemma ValueAfterZeros(base: nat, z: nat, rest: Bytes)
    ensures Value(base, Zeros(z) + rest) == Value(base, rest)
  {
    ValueSkips(base, Zeros(z) + rest, z);
    assert (Zeros(z) + rest)[z..] == rest;
  }

  lemma SplitLeading(s: Bytes)
    ensures s == Zeros(Leading(s)) + s[Leading(s)..]
  {
  }

  lemma BytesAreDigits(data: Bytes)
    ensures IsDigits(256, data)
  {
  }

  /** Decoding undoes encoding, for every byte string. */
  lemma DecodeEncode(data: Bytes)
    ensures Decoded(Encoded(data)) == Some(data)
  {
    hide AllSymbols, DigitsOf, Symbols, Value, Digits, Leading;
    var z, digits := Leading(data), Digits(58, Value(256, data));
    DigitsOfSymbols(z, digits);
    DigitsValue(58, Value(256, data));
    LeadingExactly(z, digits);
    ValueAfterZeros(58, z, digits);
    BytesAreDigits(data);
    Canonical(256, data);
    SplitLeading(data);
  }

  /** Encoding undoes decoding, for every string over the alphabet. */
  lemma EncodeDecode(s: Bytes)
    requires AllSymbols(s)
    ensures Decoded(s).Some? && Encoded(Decoded(s).value) == s
  {
    hide AllSymbols, DigitsOf, Value, Digits, Leading;
    var d := DigitsOf(s);
    var z, bytes := Leading(d), Digits(256, Value(58, d));
    DigitsValue(256, Value(58, d));
    LeadingExactly(z, bytes);
    ValueAfterZeros(256, z, bytes);
    Canonical(58, d);
    SplitLeading(d);
    SymbolsOfDigits(s);
    SymbolsJoin(z, d[z..]);
  }

  lemma SymbolsJoin(z: nat, rest: Bytes)
    requires IsDigits(58, rest)
    ensures IsDigits(58, Zeros(z) + rest) && Symbols(Zeros(z) + rest) == Ones(z) + Symbols(rest)
  {
    hide Symbol;
    FirstSymbol();
  }

  // --- The loops ---

  method CountLeading(s: Bytes, mark: u8) returns (n: nat)
    ensures n <= |s| && (forall i :: 0 <= i < n ==> s[i] == mark) && (n < |s| ==> s[n] != mark)
  {
    n := 0;
    while n < |s| && s[n] == mark
      invariant n <= |s| && forall i :: 0 <= i < n ==> s[i] == mark
    {
      n := n + 1;
    }
  }

  lemma LeadingIs(s: Bytes, n: nat)
    requires n <= |s| && (forall i :: 0 <= i < n ==> s[i] == 0) && (n < |s| ==> s[n] != 0)
    ensures Leading(s) == n
  {
    var m := Leading(s);
    assert m < |s| ==> s[m] != 0;
  }

  lemma RoomFor(base: nat, factor: nat, size: nat, total: nat, s: Bytes, i: nat)
    requires 2 <= base && 2 <= factor <= 256 && i < |s| <= total && IsDigits(factor, s)
    requires Pow(factor, total) <= Pow(base, size)
    ensures Value(factor, s[..i + 1]) == Value(factor, s[..i]) * factor + s[i] < Pow(base, size)
  {
    hide Pow;
    var t := s[..i + 1];
    assert t[..i] == s[..i];
    ValueBelow(factor, t);
    PowMonotone(factor, i + 1, total);
  }

  /** Rewrites the digits `s` from base `factor` into a fresh buffer in base `base`. */
  method Convert(s: Bytes, base: nat, factor: nat, size: nat) returns (digits: Bytes)
    requires 2 <= base <= 256 && 2 <= factor <= 256 && IsDigits(factor, s) && Pow(factor, |s|) <= Pow(base, size)
    ensures digits == Digits(base, Value(factor, s))
  {
    hide Value, Pow, Digits;
    var buf := new u8[size](_ => 0);
    StartsEmpty(base, factor, s, buf[..]);
    for i := 0 to |s|
      invariant IsDigits(base, buf[..]) && Value(base, buf[..]) == Value(factor, s[..i])
    {
      RoomFor(base, factor, size, |s|, s, i);
      MulAdd(buf, base, factor, s[i]);
    }
    assert s[..|s|] == s;
    var it := CountLeading(buf[..], 0);
    LeadingIs(buf[..], it);
    Canonical(base, buf[..]);
    digits := buf[it..];
  }

  lemma StartsEmpty(base: nat, factor: nat, s: Bytes, buf: Bytes)
    requires 0 < base && forall i :: 0 <= i < |buf| ==> buf[i] == 0
    ensures Value(base, buf) == 0 && Value(factor, s[..0]) == 0 && IsDigits(base, buf)
  {
    ValueSkips(base, buf, |buf|);
  }

  method Encode(data: Bytes) returns (s: Bytes)
    ensures s == Encoded(data)
  {
    hide Value, Pow, Digits, Symbol;
    var zeros := CountLeading(data, 0);
    LeadingIs(data, zeros);
    ValueSkips(256, data, zeros);
    var size := (|data| - zeros) * 138 / 100 + 1;
    Fits58(|data| - zeros);
    var digits := Convert(data[zeros..], 58, 256, size);
    s := [];
    for i := 0 to zeros
      invariant s == Ones(i)
    {
      s := s + [49];
    }
    for i := 0 to |digits|
      invariant s == Ones(zeros) + Symbols(digits)[..i]
    {
      s := s + [Symbol(digits[i])];
    }
  }

  method Position(c: u8) returns (d: Option<nat>)
    ensures d == Lookup(c, 0)
  {
    for i := 0 to 58
      invariant Lookup(c, 0) == Lookup(c, i)
    {
      if Symbol(i) == c {
        return Some(i);
      }
    }
    d := None;
  }

  method Decode(s: Bytes) returns (r: Option<Bytes>)
    ensures r == Decoded(s)
  {
    hide Value, Pow, Digits, Symbol, Lookup;
    var zeros := CountLeading(s, 49);
    var digits: Bytes := [];
    for i := zeros to |s|
      invariant |digits| == i - zeros && IsDigits(58, digits)
      invariant forall j :: zeros <= j < i ==> IsSymbol(s[j]) && DigitOf(s[j]) == digits[j - zeros]
    {
      var d := Position(s[i]);
      if d.None? {
        return None;
      }
      LookupFinds(s[i], 0);
      digits := digits + [d.value];
    }
    OnesAreZero(s, zeros, digits);
    var size := (|s| - zeros) * 733 / 1000 + 1;
    Fits256(|s| - zeros);
    var bytes := Convert(digits, 256, 58, size);
    r := Some(Zeros(zeros) + bytes);
  }

  /** Leading ones are leading zero digits. */
  lemma OnesAreZero(s: Bytes, zeros: nat, digits: Bytes)
    requires zeros <= |s| && |digits| == |s| - zeros && IsDigits(58, digits)
    requires (forall i :: 0 <= i < zeros ==> s[i] == 49) && (zeros < |s| ==> s[zeros] != 49)
    requires forall j :: zeros <= j < |s| ==> IsSymbol(s[j]) && DigitOf(s[j]) == digits[j - zeros]
    ensures AllSymbols(s) && Leading(DigitsOf(s)) == zeros && Value(58, DigitsOf(s)) == Value(58, digits)
  {
    hide Lookup, Symbol, Value;
    FirstSymbol();
    LookupSymbol(0);
    assert DigitsOf(s) == Zeros(zeros) + digits;
    assert digits != [] ==> digits[0] == DigitOf(s[zeros]) && digits[0] != 0;
    LeadingExactly(zeros, digits);
    ValueAfterZeros(58, zeros, digits);
  }
}
