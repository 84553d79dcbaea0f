// The label encoder of client/src/splitdns/mod.rs (section 6.3 of RFC 3492), with its
// u32 arithmetic, and the decoder of section 6.2 of RFC 3492 as its specification.
module Punycode {
  import opened Prelude

  const BASE := 36
  const TMIN := 1
  const TMAX := 26
  const SKEW := 38
  const DAMP := 700
  const INITIAL_BIAS := 72
  const INITIAL_N := 128
  const MAX_CODE_POINT := 0x10_FFFF

  // Refused is the encoder's None. Overflowed is an unchecked u32 addition passing 2^32:
  // a panic in a debug build, a wrapped sum in a release build.
  datatype Encoding = Encoded(ascii: string) | Refused | Overflowed

  function Then(prefix: string, e: Encoding): Encoding {
    if e.Encoded? then Encoded(prefix + e.ascii) else e
  }

  function CodePoints(s: string): (r: seq<int>)
    ensures |r| == |s| && forall i :: 0 <= i < |s| ==> r[i] == s[i] as int
  {
    seq(|s|, i requires 0 <= i < |s| => s[i] as int)
  }

  // ---------- the variable-length integers ----------

  function Threshold(k: int, bias: int): (t: int)
    ensures TMIN <= t <= TMAX
  {
    if k <= bias then TMIN else if k >= bias + TMAX then TMAX else k - bias
  }

  // The digits the encoder writes.
  predicate IsDigit(c: char) { 'a' <= c <= 'z' || '0' <= c <= '9' }

  predicate AllDigits(s: string) { forall i :: 0 <= i < |s| ==> IsDigit(s[i]) }

  function DigitChar(d: nat): Option<char> {
    if d <= 25 then Some('a' + d as char)
    else if d <= 35 then Some('0' + (d - 26) as char)
    else None
  }

  function DigitValue(c: char): Option<nat> {
    if 'a' <= c <= 'z' then Some((c - 'a') as int)
    else if 'A' <= c <= 'Z' then Some((c - 'A') as int)
    else if '0' <= c <= '9' then Some((c - '0') as int + 26)
    else None
  }

  lemma DigitRoundTrip(d: nat)
    requires d < BASE
    ensures DigitChar(d).Some? && DigitValue(DigitChar(d).value) == Some(d)
    ensures IsDigit(DigitChar(d).value)
  {
  }

  // One step of the mixed-radix expansion of q: the digit emitted and what remains.
  function LowDigit(q: nat, t: nat): (d: nat)
    requires TMIN <= t <= TMAX && t <= q
    ensures t <= d < BASE
  {
    t + (q - t) % (BASE - t)
  }

  function HighPart(q: nat, t: nat): (h: nat)
    requires TMIN <= t <= TMAX && t <= q
    ensures 10 * h < q
  {
    ShrinksTenfold(q - t, BASE - t);
    (q - t) / (BASE - t)
  }

  lemma ShrinksTenfold(a: nat, b: nat)
    requires b >= 10
    ensures 10 * (a / b) <= a
  {
    assert a == a / b * b + a % b;
    MulMonotone(10, b, a / b);
  }

  lemma Recompose(q: nat, t: nat)
    requires TMIN <= t <= TMAX && t <= q
    ensures q == LowDigit(q, t) + HighPart(q, t) * (BASE - t)
  {
  }

  function IntegerDigits(q: nat, k: nat, bias: nat): string
    decreases q
  {
    var t := Threshold(k, bias);
    if q < t then DigitRoundTrip(q); [DigitChar(q).value]
    else
      DigitRoundTrip(LowDigit(q, t));
      [DigitChar(LowDigit(q, t)).value] + IntegerDigits(HighPart(q, t), k + BASE, bias)
  }

  // Reads one integer from the front of s, returning i plus it and the rest of s.
  function ReadInteger(s: string, k: nat, bias: nat, w: int, i: int): (r: Option<(int, string)>)
    ensures r.Some? ==> |r.value.1| < |s|
  {
    if s == "" || DigitValue(s[0]).None? then None
    else
      var d := DigitValue(s[0]).value;
      var t := Threshold(k, bias);
      if d < t then Some((i + d * w, s[1..]))
      else ReadInteger(s[1..], k + BASE, bias, w * (BASE - t), i + d * w)
  }

  // The digits written for q, by its first one.
  lemma DigitsStep(q: nat, k: nat, bias: nat)
    ensures var t := Threshold(k, bias);
      if q < t then DigitChar(q).Some? && IntegerDigits(q, k, bias) == [DigitChar(q).value]
      else
        DigitChar(LowDigit(q, t)).Some? &&
        IntegerDigits(q, k, bias) == [DigitChar(LowDigit(q, t)).value] + IntegerDigits(HighPart(q, t), k + BASE, bias)
  {
    var t := Threshold(k, bias);
    if q < t {
      DigitRoundTrip(q);
    } else {
      DigitRoundTrip(LowDigit(q, t));
    }
  }

  // Reading on from one digit.
  lemma ReadStep(c: char, d: nat, tail: string, k: nat, bias: nat, w: int, i: int)
    requires DigitValue(c) == Some(d)
    ensures var t := Threshold(k, bias);
      ReadInteger([c] + tail, k, bias, w, i) ==
      if d < t then Some((i + d * w, tail)) else ReadInteger(tail, k + BASE, bias, w * (BASE - t), i + d * w)
  {
    var s := [c] + tail;
    assert s[0] == c && s[1..] == tail;
  }

  lemma ReadLastDigit(q: nat, k: nat, bias: nat, w: int, i: int, rest: string)
    requires q < Threshold(k, bias)
    ensures ReadInteger(IntegerDigits(q, k, bias) + rest, k, bias, w, i) == Some((i + q * w, rest))
  {
    hide ReadInteger, IntegerDigits, DigitChar, DigitValue;
    DigitsStep(q, k, bias);
    DigitRoundTrip(q);
    ReadStep(DigitChar(q).value, q, rest, k, bias, w, i);
  }

  lemma ReadOneDigit(q: nat, k: nat, bias: nat, w: int, i: int, rest: string)
    requires q >= Threshold(k, bias)
    ensures var t := Threshold(k, bias);
            ReadInteger(IntegerDigits(q, k, bias) + rest, k, bias, w, i) ==
            ReadInteger(IntegerDigits(HighPart(q, t), k + BASE, bias) + rest, k + BASE, bias,
                        w * (BASE - t), i + LowDigit(q, t) * w)
  {
    hide ReadInteger, IntegerDigits, HighPart, LowDigit, DigitChar, DigitValue;
    var t := Threshold(k, bias);
    var d := LowDigit(q, t);
    DigitsStep(q, k, bias);
    DigitRoundTrip(d);
    Regroup([DigitChar(d).value], IntegerDigits(HighPart(q, t), k + BASE, bias), rest);
    ReadStep(DigitChar(d).value, d, IntegerDigits(HighPart(q, t), k + BASE, bias) + rest, k, bias, w, i);
  }

  // Reading undoes writing, whatever follows.
  lemma {:induction false} ReadIntegerDigits(q: nat, k: nat, bias: nat, w: int, i: int, rest: string)
    ensures ReadInteger(IntegerDigits(q, k, bias) + rest, k, bias, w, i) == Some((i + q * w, rest))
    decreases q
  {
    hide ReadInteger, IntegerDigits, HighPart, LowDigit;
    var t := Threshold(k, bias);
    if q < t {
      ReadLastDigit(q, k, bias, w, i, rest);
    } else {
      var w', i' := w * (BASE - t), i + LowDigit(q, t) * w;
      ReadOneDigit(q, k, bias, w, i, rest);
      ReadIntegerDigits(HighPart(q, t), k + BASE, bias, w', i', rest);
      Weigh(q, t, w, i);
    }
  }

  lemma Weigh(q: nat, t: nat, w: int, i: int)
    requires TMIN <= t <= TMAX && t <= q
    ensures (i + LowDigit(q, t) * w) + HighPart(q, t) * (w * (BASE - t)) == i + q * w
  {
    var d, h, b := LowDigit(q, t), HighPart(q, t), BASE - t;
    Recompose(q, t);
    assert (d + h * b) * w == d * w + (h * b) * w;
    assert (h * b) * w == h * (w * b);
  }

  lemma {:induction false} IntegerDigitsAreDigits(q: nat, k: nat, bias: nat)
    ensures AllDigits(IntegerDigits(q, k, bias))
    decreases q
  {
    var t := Threshold(k, bias);
    if q < t {
      DigitRoundTrip(q);
    } else {
      DigitRoundTrip(LowDigit(q, t));
      IntegerDigitsAreDigits(HighPart(q, t), k + BASE, bias);
    }
  }

  // The bound that keeps the digit counter k far from overflow.
  ghost predicate DigitCounterBound(k: int, q: int, delta: int) {
    k <= BASE + (delta - q) / 10 +
    (if q >= 400 then 0 else if q >= 40 then 36 else if q >= 4 then 72 else if q >= 1 then 108 else 144)
  }

  lemma CounterStart(delta: nat)
    ensures DigitCounterBound(BASE, delta, delta)
  {
  }

  lemma CounterStep(k: int, q: nat, t: nat, delta: nat)
    requires TMIN <= t <= TMAX && t <= q <= delta && DigitCounterBound(k, q, delta)
    ensures HighPart(q, t) <= delta && DigitCounterBound(k + BASE, HighPart(q, t), delta)
    ensures k <= delta / 10 + 144
  {
    hide HighPart;
    var h := HighPart(q, t);
    assert 10 * h < q;
  }

  method EmitInteger(delta: U32, bias: U32) returns (digits: string)
    requires bias <= 0x2000_0000
    ensures digits == IntegerDigits(delta, BASE, bias)
  {
    hide IntegerDigits, HighPart, LowDigit, DigitChar, DigitValue, DigitCounterBound;
    digits := "";
    CounterStart(delta);
    var q: U32 := delta;
    var k: U32 := BASE;
    while true
      invariant 0 <= q <= delta && DigitCounterBound(k, q, delta)
      invariant digits + IntegerDigits(q, k, bias) == IntegerDigits(delta, BASE, bias)
      decreases q
    {
      DigitsStep(q, k, bias);
      var t: U32 := if k <= bias then TMIN else if k >= bias + TMAX then TMAX else k - bias;
      if q < t {
        break;
      }
      var digit := LowDigit(q, t);
      CounterStep(k, q, t, delta);
      Regroup(digits, [DigitChar(digit).value], IntegerDigits(HighPart(q, t), k + BASE, bias));
      digits := digits + [DigitChar(digit).value];
      q := HighPart(q, t);
      k := k + BASE;
    }
    digits := digits + [DigitChar(q).value];
  }

  // ---------- bias adaptation ----------

  function AdaptLoop(delta: nat, k: nat): (bias: nat)
    ensures bias <= k + delta / 12 + 36
  {
    if delta > ((BASE - TMIN) * TMAX) / 2 then AdaptLoop(delta / (BASE - TMIN), k + BASE)
    else k + ((BASE - TMIN + 1) * delta) / (delta + SKEW)
  }

  function Damped(delta: nat, numpoints: nat, firsttime: bool): nat
    requires numpoints > 0
  {
    var d := if firsttime then delta / DAMP else delta / 2;
    d + d / numpoints
  }

  function Adapted(delta: nat, numpoints: nat, firsttime: bool): nat
    requires numpoints > 0
  {
    AdaptLoop(Damped(delta, numpoints, firsttime), 0)
  }

  method Adapt(delta: U32, numpoints: U32, firsttime: bool) returns (bias: U32)
    requires numpoints > 0
    ensures bias == Adapted(delta, numpoints, firsttime)
    ensures bias <= 0x2000_0000
  {
    var d: U32 := if firsttime then delta / DAMP else delta / 2;
    QuotientAtMost(d, numpoints);
    d := d + d / numpoints;
    ghost var start := d;
    var k: U32 := 0;
    while d > ((BASE - TMIN) * TMAX) / 2
      invariant AdaptLoop(d, k) == AdaptLoop(start, 0)
      invariant k <= (start - d) / 12
    {
      d := d / (BASE - TMIN);
      k := k + BASE;
    }
    bias := k + (((BASE - TMIN + 1) * d) / (d + SKEW));
  }

  lemma QuotientAtMost(a: nat, b: nat)
    requires b > 0
    ensures 0 <= a / b <= a
  {
    MulMonotone(1, b, a / b);
    assert a == a / b * b + a % b;
  }

  // ---------- the encoder ----------

  // The code points below n, in order.
  function Below(cps: seq<int>, n: int): seq<int> {
    if cps == [] then []
    else (if cps[0] < n then [cps[0]] else []) + Below(cps[1..], n)
  }

  predicate AnyFrom(cps: seq<int>, n: int) { exists i :: 0 <= i < |cps| && cps[i] >= n }

  // The least code point that is at least n.
  function LeastFrom(cps: seq<int>, n: int): (m: int)
    requires AnyFrom(cps, n)
    ensures m in cps && m >= n && forall i :: 0 <= i < |cps| && cps[i] >= n ==> m <= cps[i]
  {
    if |cps| == 1 then cps[0]
    else if !AnyFrom(cps[1..], n) then
      assert forall i :: 1 <= i < |cps| ==> cps[i] == cps[1..][i - 1];
      cps[0]
    else
      assert forall i :: 1 <= i < |cps| ==> cps[i] == cps[1..][i - 1];
      var rest := LeastFrom(cps[1..], n);
      if n <= cps[0] < rest then cps[0] else rest
  }

  // The outer loop from n: no code point at or above n is handled yet, h below it are.
  function EncodePass(cps: seq<int>, n: int, delta: nat, bias: nat, h: nat, b: nat): Encoding
    requires forall i :: 0 <= i < |cps| ==> 0 <= cps[i] <= MAX_CODE_POINT
    decreases MAX_CODE_POINT + 1 - n, |cps| + 1
  {
    if !AnyFrom(cps, n) then Encoded("")
    else
      var m := LeastFrom(cps, n);
      var skip := (m - n) * (h + 1);
      MulMonotone(0, m - n, h + 1);
      if skip > U32_MAX then Refused
      else if delta + skip > U32_MAX then Overflowed
      else EncodeScan(cps, m, 0, delta + skip, bias, h, b)
  }

  // The inner loop at position j of the pass that inserts the code points equal to n.
  function EncodeScan(cps: seq<int>, n: int, j: nat, delta: nat, bias: nat, h: nat, b: nat): Encoding
    requires forall i :: 0 <= i < |cps| ==> 0 <= cps[i] <= MAX_CODE_POINT
    requires j <= |cps| && n <= MAX_CODE_POINT
    decreases MAX_CODE_POINT + 1 - n, |cps| - j
  {
    if j == |cps| then
      if delta + 1 > U32_MAX then Overflowed else EncodePass(cps, n + 1, delta + 1, bias, h, b)
    else if cps[j] < n then
      if delta + 1 > U32_MAX then Refused else EncodeScan(cps, n, j + 1, delta + 1, bias, h, b)
    else if cps[j] == n then
      Then(IntegerDigits(delta, BASE, bias),
           EncodeScan(cps, n, j + 1, 0, Adapted(delta, h + 1, h == b), h + 1, b))
    else
      EncodeScan(cps, n, j + 1, delta, bias, h, b)
  }

  function AsciiOf(text: string): (r: string)
    ensures forall c :: c in r ==> c as int < INITIAL_N
  {
    if text == "" then ""
    else (if text[0] as int < INITIAL_N then [text[0]] else "") + AsciiOf(text[1..])
  }

  lemma CodePointsInRange(text: string)
    ensures forall i :: 0 <= i < |text| ==> 0 <= CodePoints(text)[i] <= MAX_CODE_POINT
  {
  }

  function Encode(text: string): Encoding {
    var ascii := AsciiOf(text);
    CodePointsInRange(text);
    Then(if ascii == "" then "" else ascii + "-",
         EncodePass(CodePoints(text), INITIAL_N, 0, INITIAL_BIAS, |ascii|, |ascii|))
  }

  // The inner loop: one pass over the code points, inserting those equal to n.
  // `stop` is the result of the whole encoding when the pass returns early.
  method InsertPass(chars: seq<int>, n: U32, delta0: U32, bias0: U32, h0: U32, basicLen: U32, output0: string)
    returns (stop: Option<Encoding>, delta: U32, bias: U32, h: U32, output: string)
    requires forall i :: 0 <= i < |chars| ==> 0 <= chars[i] <= MAX_CODE_POINT
    requires |chars| <= U32_MAX && n <= MAX_CODE_POINT && bias0 <= 0x2000_0000
    requires h0 == |Below(chars, n)|
    ensures bias <= 0x2000_0000
    ensures stop.None? ==> h == |Below(chars, n + 1)|
    ensures Then(output0, EncodeScan(chars, n, 0, delta0, bias0, h0, basicLen)) ==
            if stop.Some? then stop.value else Then(output, EncodePass(chars, n + 1, delta, bias, h, basicLen))
  {
    hide Adapted, IntegerDigits, Below, EncodePass, AnyFrom;
    ghost var whole := Then(output0, EncodeScan(chars, n, 0, delta0, bias0, h0, basicLen));
    delta, bias, h, output := delta0, bias0, h0, output0;
    assert chars[0..] == chars && chars[..0] == [];
    BelowNothing(n);
    var j := 0;
    while j < |chars|
      invariant 0 <= j <= |chars| && bias <= 0x2000_0000
      invariant h == |Below(chars[..j], n + 1)| + |Below(chars[j..], n)|
      invariant Then(output, EncodeScan(chars, n, j, delta, bias, h, basicLen)) == whole
    {
      BelowStep(chars, n, j);
      var cp := chars[j];
      if cp < n {
        if delta + 1 > U32_MAX {
          return Some(Refused), delta, bias, h, output;
        }
        delta := delta + 1;
      }
      if cp == n {
        var digits := EmitInteger(delta, bias);
        ThenThen(output, digits, EncodeScan(chars, n, j + 1, 0, Adapted(delta, h + 1, h == basicLen), h + 1, basicLen));
        output := output + digits;
        bias := Adapt(delta, h + 1, h == basicLen);
        delta := 0;
        h := h + 1;
      }
      j := j + 1;
    }
    assert chars[..j] == chars && chars[j..] == [];
    BelowNothing(n);
    if delta + 1 > U32_MAX {
      return Some(Overflowed), delta, bias, h, output;
    }
    delta := delta + 1;
    return None, delta, bias, h, output;
  }

  // The encoder as the source runs it, on u32 variables.
  method PunycodeEncode(text: string) returns (e: Encoding)
    requires |text| <= U32_MAX
    ensures e == Encode(text)
  {
    hide Below, EncodeScan, AnyFrom;
    CodePointsInRange(text);
    AsciiIsShort(text);
    var chars := CodePoints(text);
    var output := AsciiOf(text);
    var basicLen: U32 := |output|;
    if basicLen > 0 {
      output := output + "-";
    }
    var n: U32 := INITIAL_N;
    var delta: U32 := 0;
    var bias: U32 := INITIAL_BIAS;
    var total: U32 := |chars|;
    var h: U32 := basicLen;
    BelowAscii(text);
    while h < total
      invariant INITIAL_N <= n <= MAX_CODE_POINT + 1 && bias <= 0x2000_0000
      invariant h == |Below(chars, n)|
      invariant Then(output, EncodePass(chars, n, delta, bias, h, basicLen)) == Encode(text)
      decreases MAX_CODE_POINT + 1 - n
    {
      BelowCountsAll(chars, n);
      var m: U32 := LeastFrom(chars, n);
      var skip := (m - n) * (h + 1);
      MulMonotone(0, m - n, h + 1);
      if skip > U32_MAX {
        return Refused;
      }
      if delta + skip > U32_MAX {
        return Overflowed;
      }
      delta := delta + skip;
      BelowSkips(chars, n, m);
      n := m;
      var stop;
      stop, delta, bias, h, output := InsertPass(chars, n, delta, bias, h, basicLen, output);
      if stop.Some? {
        return stop.value;
      }
      n := n + 1;
    }
    BelowCountsAll(chars, n);
    return Encoded(output);
  }

  lemma BelowNothing(n: int)
    ensures Below([], n) == [] && Below([], n + 1) == []
  {
  }

  lemma ThenThen(a: string, b: string, e: Encoding)
    ensures Then(a, Then(b, e)) == Then(a + b, e)
  {
    if e.Encoded? {
      assert a + (b + e.ascii) == (a + b) + e.ascii;
    }
  }

  // ---------- counting the handled code points ----------

  lemma AsciiIsShort(text: string)
    ensures |AsciiOf(text)| <= |text|
  {
  }

  lemma {:induction false} BelowAscii(text: string)
    ensures Below(CodePoints(text), INITIAL_N) == CodePoints(AsciiOf(text))
  {
    if text != "" {
      BelowAscii(text[1..]);
      assert CodePoints(text)[1..] == CodePoints(text[1..]);
      var ascii := AsciiOf(text[1..]);
      if text[0] as int < INITIAL_N {
        assert CodePoints([text[0]] + ascii) == [text[0] as int] + CodePoints(ascii);
      } else {
        assert "" + ascii == ascii;
      }
    }
  }

  lemma {:induction false} BelowCountsAll(cps: seq<int>, n: int)
    ensures |Below(cps, n)| <= |cps|
    ensures |Below(cps, n)| < |cps| <==> AnyFrom(cps, n)
    ensures !AnyFrom(cps, n) ==> Below(cps, n) == cps
  {
    if cps != [] {
      BelowCountsAll(cps[1..], n);
      assert forall i :: 1 <= i < |cps| ==> cps[i] == cps[1..][i - 1];
      assert AnyFrom(cps, n) <==> cps[0] >= n || AnyFrom(cps[1..], n) by {
        if AnyFrom(cps[1..], n) {
          var i :| 0 <= i < |cps[1..]| && cps[1..][i] >= n;
          assert cps[i + 1] >= n;
        }
      }
      assert [cps[0]] + cps[1..] == cps;
    }
  }

  // No code point lies in [n, m), so nothing below m is missing from those below n.
  lemma {:induction false} BelowSkips(cps: seq<int>, n: int, m: int)
    requires n <= m && forall i :: 0 <= i < |cps| ==> !(n <= cps[i] < m)
    ensures Below(cps, n) == Below(cps, m)
  {
    if cps != [] {
      BelowSkips(cps[1..], n, m);
    }
  }

  lemma {:induction false} BelowAppend(a: seq<int>, b: seq<int>, n: int)
    ensures Below(a + b, n) == Below(a, n) + Below(b, n)
  {
    if a == [] {
      assert a + b == b && [] + Below(b, n) == Below(b, n);
    } else {
      BelowAppend(a[1..], b, n);
      assert (a + b)[0] == a[0] && (a + b)[1..] == a[1..] + b;
      Regroup(if a[0] < n then [a[0]] else [], Below(a[1..], n), Below(b, n));
    }
  }

  // Moving the scan position over one code point.
  lemma BelowStep(cps: seq<int>, n: int, j: nat)
    requires j < |cps|
    ensures Below(cps[..j + 1], n + 1) == Below(cps[..j], n + 1) + (if cps[j] <= n then [cps[j]] else [])
    ensures Below(cps[j..], n) == (if cps[j] < n then [cps[j]] else []) + Below(cps[j + 1..], n)
    ensures |Below(cps[..j], n + 1)| + |Below(cps[j..], n)| <= |cps|
    ensures cps[j] >= n ==> |Below(cps[..j], n + 1)| + |Below(cps[j..], n)| < |cps|
  {
    assert cps[..j + 1] == cps[..j] + [cps[j]];
    BelowAppend(cps[..j], [cps[j]], n + 1);
    assert cps[j..][1..] == cps[j + 1..];
    BelowCountsAll(cps[..j], n + 1);
    BelowCountsAll(cps[j + 1..], n);
  }
}
