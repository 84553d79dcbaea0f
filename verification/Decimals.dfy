// Numbers written in decimal, against the parsers of the models.
module Decimals {
  import opened Prelude
  import opened NamePolicy
  import opened DnsResponder

  const DIGITS := "0123456789"

  // A number without leading zeros.
  function Dec(n: nat): (s: string)
    ensures s != ""
  {
    (if n < 10 then "" else Dec(n / 10)) + [DIGITS[n % 10]]
  }

  function Zeros(k: nat): string { seq(k, i => '0') }

  lemma DecStep(u: nat, v: nat)
    requires v < 10
    ensures Dec(10 * u + v) == (if u == 0 then "" else Dec(u)) + [DIGITS[v]]
  {
    assert (10 * u + v) / 10 == u && (10 * u + v) % 10 == v;
  }

  lemma DigitIs(v: nat, c: char)
    requires v < 10
    ensures '0' <= DIGITS[v] <= '9' && (DIGITS[v] - '0') as int == v && (v > 0 ==> DIGITS[v] != '0')
    ensures '0' <= c <= '9' ==> (c - '0') as int < 10 && DIGITS[(c - '0') as int] == c
  {
  }

  lemma AppendDigit(s: string, v: nat)
    requires v < 10 && IsDecimal(s)
    ensures IsDecimal(s + [DIGITS[v]]) && DecimalValue(s + [DIGITS[v]]) == 10 * DecimalValue(s) + v
  {
    DigitIs(v, '0');
    var t := s + [DIGITS[v]];
    assert t[..|t| - 1] == s;
  }

  lemma {:induction false} DecReads(n: nat)
    ensures IsDecimal(Dec(n)) && DecimalValue(Dec(n)) == n && (n > 0 ==> Dec(n)[0] != '0')
  {
    hide Dec, IsDecimal, DecimalValue;
    var u, v := n / 10, n % 10;
    DecStep(u, v);
    DigitIs(v, '0');
    NoDigits();
    if u > 0 {
      DecReads(u);
      AppendDigit(Dec(u), v);
    } else {
      AppendDigit("", v);
    }
  }

  lemma NoDigits()
    ensures IsDecimal("") && DecimalValue("") == 0
  {
  }

  // It has one digit under ten, two under a hundred, and so on.
  lemma {:induction false} DecLength(n: nat, k: nat, bound: nat)
    requires k >= 1 && bound == Power10(k)
    ensures n < bound <==> |Dec(n)| <= k
    decreases k
  {
    hide Dec;
    var u, v := n / 10, n % 10;
    DecStep(u, v);
    if k == 1 {
      assert bound == 10 * Power10(0) == 10;
    } else {
      DecLength(u, k - 1, Power10(k - 1));
    }
  }

  function Power10(k: nat): (p: nat)
    ensures p >= 1
  {
    if k == 0 then 1 else 10 * Power10(k - 1)
  }

  lemma SplitLast(t: string) returns (front: string, v: nat)
    requires t != "" && IsDecimal(t)
    ensures v < 10 && IsDecimal(front) && |front| == |t| - 1 && t == front + [DIGITS[v]]
    ensures DecimalValue(t) == 10 * DecimalValue(front) + v
  {
    hide DecimalValue;
    front, v := t[..|t| - 1], (t[|t| - 1] - '0') as int;
    DigitIs(0, t[|t| - 1]);
    assert t == front + [DIGITS[v]];
    AppendDigit(front, v);
  }

  // Every run of digits is some number with zeros in front.
  lemma {:induction false} DecimalShape(t: string)
    requires t != "" && IsDecimal(t)
    ensures var d := Dec(DecimalValue(t)); |d| <= |t| && t == Zeros(|t| - |d|) + d
    decreases |t|
  {
    hide Dec, IsDecimal, DecimalValue;
    var front, v := SplitLast(t);
    NoDigits();
    var u := DecimalValue(front);
    DecStep(u, v);
    if front == "" {
      assert Zeros(0) + t == t;
    } else {
      DecimalShape(front);
      if u == 0 {
        AllZeros(front);
      } else {
        var k := |front| - |Dec(u)|;
        Regroup(Zeros(k), Dec(u), [DIGITS[v]]);
      }
    }
  }

  lemma AllZeros(front: string)
    requires |Dec(0)| <= |front| && front == Zeros(|front| - |Dec(0)|) + Dec(0)
    ensures front == Zeros(|front|)
  {
    assert Dec(0) == ['0'];
  }

  lemma {:induction false} ZerosRead(k: nat, d: string)
    requires IsDecimal(d)
    ensures IsDecimal(Zeros(k) + d) && DecimalValue(Zeros(k) + d) == DecimalValue(d)
    decreases |d|, k
  {
    var s := Zeros(k) + d;
    if d != "" {
      assert s[..|s| - 1] == Zeros(k) + d[..|d| - 1];
      ZerosRead(k, d[..|d| - 1]);
    } else if k > 0 {
      assert s[..|s| - 1] == Zeros(k - 1) + "";
      ZerosRead(k - 1, "");
    }
  }

  // The number, with any zeros in front.
  ghost predicate Writes(t: string, v: nat) { exists k :: 0 <= k <= |t| && t == Zeros(k) + Dec(v) }

  lemma WritesIff(t: string, v: nat)
    ensures Writes(t, v) <==> t != "" && IsDecimal(t) && DecimalValue(t) == v
  {
    hide IsDecimal, DecimalValue, Dec;
    if t != "" && IsDecimal(t) && DecimalValue(t) == v {
      DecimalShape(t);
      assert t == Zeros(|t| - |Dec(v)|) + Dec(v);
    }
    if k :| 0 <= k <= |t| && t == Zeros(k) + Dec(v) {
      DecReads(v);
      ZerosRead(k, Dec(v));
    }
  }

  // The responder reads a part as a byte exactly if it is that number, with any zeros and at
  // most one plus sign in front.
  lemma OctetReadIff(s: string, v: Byte)
    ensures ParseOctet(s) == Some(v) <==> Writes(s, v) || (s != "" && s[0] == '+' && Writes(s[1..], v))
  {
    hide Writes, DecimalValue;
    WritesIff(s, v);
    if s != "" {
      WritesIff(s[1..], v);
    }
  }

  lemma OctetReads(v: Byte)
    ensures ParseOctet(Dec(v)) == Some(v) && '.' !in Dec(v)
  {
    hide Dec;
    DecReads(v);
    OctetReadIff(Dec(v), v);
    assert Dec(v) == Zeros(0) + Dec(v);
    NoDot(Dec(v));
  }

  lemma NoDot(z: string)
    requires IsDecimal(z)
    ensures '.' !in z
  {
  }

  lemma JoinFour(parts: seq<string>)
    requires |parts| == 4
    ensures Join(parts) == parts[0] + "." + parts[1] + "." + parts[2] + "." + parts[3]
  {
    var three := parts[1..];
    assert three[1..] == parts[2..];
    JoinTwo(parts[2..]);
    assert parts[2..][0] == parts[2] && parts[2..][1] == parts[3];
    Regroup(three[0], ".", Join(parts[2..]));
    assert Join(three) == three[0] + "." + Join(parts[2..]);
    assert Join(parts) == parts[0] + "." + Join(three);
  }

  lemma JoinTwo(parts: seq<string>)
    requires |parts| == 2
    ensures Join(parts) == parts[0] + "." + parts[1]
  {
    assert Join(parts[1..]) == parts[1];
  }

  // Four bytes with dots between.
  function Quad(b: seq<Byte>): string
    requires |b| == 4
  {
    Dec(b[0]) + "." + Dec(b[1]) + "." + Dec(b[2]) + "." + Dec(b[3])
  }
}
