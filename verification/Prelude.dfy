// Types shared by the models: optional values, results and machine integers.
module Prelude {

  datatype Option<+T> = None | Some(value: T)

  datatype Result<+T, +E> = Ok(value: T) | Err(error: E)

  const U32_MAX := 0xFFFF_FFFF
  // The client is built for 64-bit targets only.
  const USIZE_MAX := 0xFFFF_FFFF_FFFF_FFFF

  type Byte = x: int | 0 <= x < 0x100
  type U16 = x: int | 0 <= x < 0x1_0000
  type U32 = x: int | 0 <= x < 0x1_0000_0000

  function StripPrefix(s: string, p: string): Option<string> {
    if |p| <= |s| && s[..|p|] == p then Some(s[|p|..]) else None
  }

  function StripSuffix(s: string, p: string): Option<string> {
    if |p| <= |s| && s[|s| - |p|..] == p then Some(s[..|s| - |p|]) else None
  }

  lemma HeadIsMember<T>(s: seq<T>)
    ensures s == [] || s[0] in s
  {
  }

  // Big-endian 16-bit words.
  function Be16(x: U16): seq<Byte> { [x / 256, x % 256] }

  function FromBe16(hi: Byte, lo: Byte): U16 { hi * 256 + lo }

  function Min(a: int, b: int): int { if a <= b then a else b }

  function Max(a: int, b: int): int { if a >= b then a else b }

  // Rust's `/` on signed integers truncates toward zero; Dafny's is Euclidean.
  function TruncDiv(a: int, b: int): int
    requires b > 0
  {
    if a >= 0 then a / b else -((-a) / b)
  }

  function SaturatingMul(a: nat, b: nat): nat { Min(a * b, USIZE_MAX) }

  // A set of integers drawn from [0, n) has at most n members.
  lemma {:induction false} RangeCardinality(s: set<int>, n: nat)
    requires forall x :: x in s ==> 0 <= x < n
    ensures |s| <= n
    decreases n
  {
    if n == 0 {
      assert forall x :: x !in s;
      assert s == {};
    } else {
      var rest := s - {n - 1};
      RangeCardinality(rest, n - 1);
      if n - 1 in s {
        assert s == rest + {n - 1};
      } else {
        assert s == rest;
      }
    }
  }

  lemma MulMonotone(a: int, b: int, c: nat)
    ensures a <= b ==> a * c <= b * c
  {
    if a <= b {
      assert b * c - a * c == (b - a) * c;
    }
  }

  // Quotient and remainder are unique.
  lemma DivModUnique(a: nat, c: nat, q: nat, r: nat)
    requires 0 <= r < c && a == q * c + r
    ensures a / c == q && a % c == r
  {
    var q', r' := a / c, a % c;
    assert a == q' * c + r';
    MulMonotone(q' + 1, q, c);
    MulMonotone(q + 1, q', c);
    assert (q' + 1) * c == q' * c + c;
    assert (q + 1) * c == q * c + c;
  }

  lemma AddMod(a: nat, c: nat)
    requires c > 0
    ensures (a + c) % c == a % c
  {
    assert (a / c + 1) * c == a / c * c + c;
    DivModUnique(a + c, c, a / c + 1, a % c);
  }

  lemma MultipleMod(k: nat, c: nat)
    requires c > 0
    ensures k * c % c == 0
  {
    DivModUnique(k * c, c, k, 0);
  }

  lemma SubsetCardinality<T>(a: set<T>, b: set<T>)
    requires a <= b
    ensures |a| <= |b|
  {
    assert b == a + (b - a);
    assert |b| == |a| + |b - a|;
  }

  lemma Regroup<T>(a: seq<T>, b: seq<T>, c: seq<T>)
    ensures a + b + c == a + (b + c)
  {
  }
}
