// The decoder of RFC 3492 on its own: the parameters of section 5, the bias adaptation of
// section 6.1 and the procedure of section 6.2; and the delta of the procedure of section 6.3. It
// shares nothing with the encoder.
module Rfc3492 {
  import opened Prelude

  // Section 5: letters of either case are 0 to 25, digits 26 to 35.
  function DigitOf(c: char): Option<nat> {
    var n := c as int;
    if 0x61 <= n <= 0x7A then Some(n - 0x61)
    else if 0x41 <= n <= 0x5A then Some(n - 0x41)
    else if 0x30 <= n <= 0x39 then Some(n - 22)
    else None
  }

  // The threshold of the digit at k: k - bias, clamped to tmin and tmax.
  function ThresholdAt(k: int, bias: int): (t: int)
    ensures 1 <= t <= 26
  {
    Max(1, Min(26, k - bias))
  }

  function Shrunk(delta: nat, k: nat): nat {
    if delta > 455 then Shrunk(delta / 35, k + 36) else k + 36 * delta / (delta + 38)
  }

  function AdaptedBias(delta: nat, points: nat, first: bool): nat
    requires points > 0
  {
    var d := if first then delta / 700 else delta / 2;
    Shrunk(d + Quotient(d, points), 0)
  }

  function Quotient(a: nat, b: nat): nat
    requires b > 0
  {
    a / b
  }

  // A variable-length integer at the front: i plus it, and what follows.
  function Integer(s: string, k: nat, bias: nat, w: int, i: int): (r: Option<(int, string)>)
    ensures r.Some? ==> |r.value.1| < |s|
  {
    if s == "" then None
    else
      match DigitOf(s[0])
      case None => None
      case Some(d) =>
        var t := ThresholdAt(k, bias);
        if d < t then Some((i + d * w, s[1..])) else Integer(s[1..], k + 36, bias, w * (36 - t), i + d * w)
  }

  // The insertions: n is the code point to insert next, i where.
  function Inserted(s: string, n: nat, i: nat, bias: nat, output: seq<int>): Option<seq<int>>
    decreases |s|
  {
    if s == "" then Some(output)
    else
      match Integer(s, 36, bias, 1, i)
      case None => None
      case Some((sum, rest)) =>
        var len := |output| + 1;
        if sum < i || n + sum / len > 0x10FFFF then None
        else
          var cp, at := n + sum / len, sum % len;
          Inserted(rest, cp, at + 1, AdaptedBias(sum - i, len, i == 0), output[..at] + [cp] + output[at..])
  }

  // What comes before the last hyphen, as code points, and what comes after it.
  function Split(s: string, at: nat): (seq<int>, string)
    requires at <= |s|
  {
    if at == 0 then ([], s)
    else if s[at - 1] != '-' then Split(s, at - 1)
    else if at == 1 then ([], s)
    else (seq(at - 1, i requires 0 <= i < at - 1 => s[i] as int), s[at..])
  }

  function Decode(s: string): Option<seq<int>> {
    var (basic, extended) := Split(s, |s|);
    if exists i :: 0 <= i < |basic| && basic[i] >= 128 then None else Inserted(extended, 128, 0, 72, basic)
  }

  // ---------- section 6.3, the encoder's delta ----------

  // The least code point that is at least n.
  function Least(cps: seq<int>, n: int): Option<int> {
    if cps == [] then None
    else
      var rest := Least(cps[1..], n);
      if cps[0] < n || (rest.Some? && rest.value < cps[0]) then rest else Some(cps[0])
  }

  // The largest value the delta takes, in unbounded arithmetic, in the passes for the code points
  // from n on; h of them are handled.
  function PassPeak(cps: seq<int>, n: int, delta: nat, h: nat): nat
    requires forall i :: 0 <= i < |cps| ==> 0 <= cps[i] <= 0x10FFFF
    decreases 0x10FFFF + 1 - n, |cps| + 1
  {
    LeastBounds(cps, n);
    match Least(cps, n)
    case None => delta
    case Some(m) =>
      MulMonotone(0, m - n, h + 1);
      ScanPeak(cps, m, 0, delta + (m - n) * (h + 1), h)
  }

  function ScanPeak(cps: seq<int>, n: int, j: nat, delta: nat, h: nat): (p: nat)
    requires forall i :: 0 <= i < |cps| ==> 0 <= cps[i] <= 0x10FFFF
    requires j <= |cps| && n <= 0x10FFFF
    ensures p >= delta
    decreases 0x10FFFF + 1 - n, |cps| - j
  {
    if j == |cps| then Max(delta + 1, PassPeak(cps, n + 1, delta + 1, h))
    else if cps[j] < n then ScanPeak(cps, n, j + 1, delta + 1, h)
    else if cps[j] == n then Max(delta, ScanPeak(cps, n, j + 1, 0, h + 1))
    else ScanPeak(cps, n, j + 1, delta, h)
  }

  lemma {:induction false} LeastBounds(cps: seq<int>, n: int)
    ensures var m := Least(cps, n);
      (m.Some? ==> m.value in cps && m.value >= n && forall i :: 0 <= i < |cps| && cps[i] >= n ==> m.value <= cps[i]) &&
      (m.None? ==> forall i :: 0 <= i < |cps| ==> cps[i] < n)
  {
    if cps != [] {
      LeastBounds(cps[1..], n);
      assert forall i :: 1 <= i < |cps| ==> cps[i] == cps[1..][i - 1];
    }
  }

  // The basic code points are handled at the start.
  function Basic(cps: seq<int>): nat {
    if cps == [] then 0 else (if cps[0] < 128 then 1 else 0) + Basic(cps[1..])
  }

  function Peak(cps: seq<int>): nat
    requires forall i :: 0 <= i < |cps| ==> 0 <= cps[i] <= 0x10FFFF
  {
    PassPeak(cps, 128, 0, Basic(cps))
  }
}
