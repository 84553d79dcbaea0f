// The encoder against the decoder of section 6.2 of RFC 3492, and when it overflows.
module PunycodeLaws {
  import opened Prelude
  import opened Punycode
  import Rfc3492

  // ---------- the decoder, in the encoder's terms ----------

  // The position of the last '-', or -1.
  function LastDash(s: string): (d: int)
    ensures -1 <= d < |s|
    ensures d >= 0 ==> s[d] == '-'
    ensures forall i :: d < i < |s| ==> s[i] != '-'
  {
    if s == "" then -1
    else if s[|s| - 1] == '-' then |s| - 1
    else LastDash(s[..|s| - 1])
  }

  // The main decoding loop: n and i say where the next code point goes.
  function DecodeFrom(s: string, n: nat, i: nat, bias: nat, output: seq<int>): Option<seq<int>>
    decreases |s|
  {
    if s == "" then Some(output)
    else
      match ReadInteger(s, BASE, bias, 1, i)
      case None => None
      case Some((i', rest)) =>
        var len := |output| + 1;
        if i' < i then None
        else
          var n' := n + i' / len;
          var at := i' % len;
          if n' > MAX_CODE_POINT then None
          else
            DecodeFrom(rest, n', at + 1, Adapted(i' - i, len, i == 0), output[..at] + [n'] + output[at..])
  }

  function Decode(s: string): Option<seq<int>> {
    var d := LastDash(s);
    if exists i :: 0 <= i < d && s[i] as int >= INITIAL_N then None
    else if d <= 0 then DecodeFrom(s, INITIAL_N, 0, INITIAL_BIAS, [])
    else DecodeFrom(s[d + 1..], INITIAL_N, 0, INITIAL_BIAS, CodePoints(s[..d]))
  }

  // ---------- decoding undoes encoding ----------

  ghost predicate InRange(cps: seq<int>) { forall i :: 0 <= i < |cps| ==> 0 <= cps[i] <= MAX_CODE_POINT }

  // What the decoder has built when the encoder's scan for n is at position j.
  ghost function Placed(cps: seq<int>, n: int, j: nat): seq<int>
    requires j <= |cps|
  {
    Below(cps[..j], n + 1) + Below(cps[j..], n)
  }

  // The decoder, `delta` insertion positions behind, will catch up at position `pos` of n.
  ghost predicate CatchesUp(dn: nat, di: nat, delta: nat, n: int, pos: nat, h: nat, b: nat) {
    && dn <= n && di <= h && pos <= h
    && dn * (h + 1) + di + delta == n * (h + 1) + pos
    && (di == 0 <==> h == b)
  }

  // One insertion: the decoder reads delta and lands exactly at n and pos.
  lemma DecodeOne(q: nat, bias: nat, rest: string, dn: nat, di: nat, output: seq<int>, n: nat, pos: nat, b: nat)
    requires CatchesUp(dn, di, q, n, pos, |output|, b) && n <= MAX_CODE_POINT
    ensures DecodeFrom(IntegerDigits(q, BASE, bias) + rest, dn, di, bias, output) ==
            DecodeFrom(rest, n, pos + 1, Adapted(q, |output| + 1, |output| == b),
                       output[..pos] + [n] + output[pos..])
  {
    hide IntegerDigits, ReadInteger, Adapted;
    var h := |output|;
    ReadIntegerDigits(q, BASE, bias, 1, di, rest);
    IntegerDigitsNonEmpty(q, BASE, bias);
    var s := IntegerDigits(q, BASE, bias) + rest;
    assert s != "";
    assert di + q == (n - dn) * (h + 1) + pos by {
      assert n * (h + 1) - dn * (h + 1) == (n - dn) * (h + 1);
    }
    DivModUnique(di + q, h + 1, n - dn, pos);
  }

  lemma IntegerDigitsNonEmpty(q: nat, k: nat, bias: nat)
    ensures |IntegerDigits(q, k, bias)| > 0
  {
  }

  lemma CatchUpInsert(dn: nat, di: nat, delta: nat, n: nat, pos: nat, h: nat, b: nat)
    requires CatchesUp(dn, di, delta, n, pos, h, b) && b <= h
    ensures CatchesUp(n, pos + 1, 0, n, pos + 1, h + 1, b)
  {
  }

  lemma CatchUpNextPass(dn: nat, di: nat, delta: nat, n: nat, h: nat, b: nat)
    requires CatchesUp(dn, di, delta, n, h, h, b)
    ensures CatchesUp(dn, di, delta + 1, n + 1, 0, h, b)
  {
    assert (n + 1) * (h + 1) == n * (h + 1) + h + 1;
  }

  lemma CatchUpSkip(dn: nat, di: nat, delta: nat, n: nat, m: nat, h: nat, b: nat)
    requires CatchesUp(dn, di, delta, n, 0, h, b) && n <= m
    ensures (m - n) * (h + 1) >= 0
    ensures CatchesUp(dn, di, delta + (m - n) * (h + 1), m, 0, h, b)
  {
    MulMonotone(0, m - n, h + 1);
    assert n * (h + 1) + (m - n) * (h + 1) == m * (h + 1);
  }

  lemma {:induction false} PassDecodes(
    cps: seq<int>, n: nat, delta: nat, bias: nat, h: nat, b: nat, dn: nat, di: nat)
    requires InRange(cps) && b <= h == |Below(cps, n)|
    requires CatchesUp(dn, di, delta, n, 0, h, b)
    ensures var e := EncodePass(cps, n, delta, bias, h, b);
            e.Encoded? ==> DecodeFrom(e.ascii, dn, di, bias, Below(cps, n)) == Some(cps)
    decreases MAX_CODE_POINT + 1 - n, |cps| + 1
  {
    hide DecodeFrom, Below, IntegerDigits, Adapted, EncodeScan, AnyFrom, CatchesUp;
    BelowCountsAll(cps, n);
    if AnyFrom(cps, n) {
      var m := LeastFrom(cps, n);
      BelowSkips(cps, n, m);
      CatchUpSkip(dn, di, delta, n, m, h, b);
      var skip := (m - n) * (h + 1);
      if skip <= U32_MAX && delta + skip <= U32_MAX {
        PlacedAtStart(cps, m);
        ScanDecodes(cps, m, 0, delta + skip, bias, h, b, dn, di);
      }
    } else {
      DecodeNothing(dn, di, bias, cps);
    }
  }

  lemma DecodeNothing(dn: nat, di: nat, bias: nat, output: seq<int>)
    ensures DecodeFrom("", dn, di, bias, output) == Some(output)
  {
  }

  lemma PlacedAtStart(cps: seq<int>, n: int)
    ensures Placed(cps, n, 0) == Below(cps, n)
    ensures Below(cps[..0], n + 1) == []
  {
    assert cps[..0] == [] && cps[0..] == cps;
  }

  lemma PlacedAtEnd(cps: seq<int>, n: int)
    ensures Placed(cps, n, |cps|) == Below(cps, n + 1)
    ensures Below(cps[..|cps|], n + 1) == Below(cps, n + 1)
  {
    assert cps[..|cps|] == cps && cps[|cps|..] == [];
  }

  // Passing a code point below or above n leaves the decoder's output alone; passing one
  // equal to n inserts it at the scan position.
  lemma PlacedStep(cps: seq<int>, n: int, j: nat)
    requires j < |cps|
    ensures var pos := |Below(cps[..j], n + 1)|;
            Placed(cps, n, j + 1) ==
            if cps[j] == n then Placed(cps, n, j)[..pos] + [n] + Placed(cps, n, j)[pos..] else Placed(cps, n, j)
    ensures |Below(cps[..j + 1], n + 1)| == |Below(cps[..j], n + 1)| + if cps[j] <= n then 1 else 0
  {
    hide Below;
    BelowStep(cps, n, j);
    InsertBetween(Below(cps[..j], n + 1), cps[j], Below(cps[j + 1..], n));
    assert Below(cps[..j], n + 1) + [] == Below(cps[..j], n + 1);
    assert [] + Below(cps[j + 1..], n) == Below(cps[j + 1..], n);
  }

  lemma InsertBetween(front: seq<int>, x: int, back: seq<int>)
    ensures (front + back)[..|front|] == front && (front + back)[|front|..] == back
    ensures (front + [x]) + back == front + [x] + back == front + ([x] + back)
  {
  }

  lemma {:induction false} ScanDecodes(
    cps: seq<int>, n: nat, j: nat, delta: nat, bias: nat, h: nat, b: nat, dn: nat, di: nat)
    requires InRange(cps) && j <= |cps| && n <= MAX_CODE_POINT && b <= h == |Placed(cps, n, j)|
    requires CatchesUp(dn, di, delta, n, |Below(cps[..j], n + 1)|, h, b)
    ensures var e := EncodeScan(cps, n, j, delta, bias, h, b);
            e.Encoded? ==> DecodeFrom(e.ascii, dn, di, bias, Placed(cps, n, j)) == Some(cps)
    decreases MAX_CODE_POINT + 1 - n, |cps| - j
  {
    hide DecodeFrom, Below, IntegerDigits, Adapted, EncodePass, CatchesUp, Placed;
    if j == |cps| {
      PlacedAtEnd(cps, n);
      CatchUpNextPass(dn, di, delta, n, h, b);
      if delta + 1 <= U32_MAX {
        PassDecodes(cps, n + 1, delta + 1, bias, h, b, dn, di);
      }
    } else {
      PlacedStep(cps, n, j);
      var pos := |Below(cps[..j], n + 1)|;
      if cps[j] < n {
        if delta + 1 <= U32_MAX {
          PosWithin(cps, n, j + 1);
          CatchUpPassed(dn, di, delta, n, pos, h, b);
          ScanDecodes(cps, n, j + 1, delta + 1, bias, h, b, dn, di);
        }
      } else if cps[j] == n {
        CatchUpInsert(dn, di, delta, n, pos, h, b);
        var out := Placed(cps, n, j);
        var rest := EncodeScan(cps, n, j + 1, 0, Adapted(delta, h + 1, h == b), h + 1, b);
        ScanDecodes(cps, n, j + 1, 0, Adapted(delta, h + 1, h == b), h + 1, b, n, pos + 1);
        if rest.Encoded? {
          DecodeOne(delta, bias, rest.ascii, dn, di, out, n, pos, b);
        }
      } else {
        ScanDecodes(cps, n, j + 1, delta, bias, h, b, dn, di);
      }
    }
  }

  lemma PosWithin(cps: seq<int>, n: int, j: nat)
    requires j <= |cps|
    ensures |Below(cps[..j], n + 1)| <= |Placed(cps, n, j)|
  {
  }

  lemma CatchUpPassed(dn: nat, di: nat, delta: nat, n: nat, pos: nat, h: nat, b: nat)
    requires CatchesUp(dn, di, delta, n, pos, h, b) && pos + 1 <= h
    ensures CatchesUp(dn, di, delta + 1, n, pos + 1, h, b)
  {
  }

  // ---------- the delimiter ----------

  lemma {:induction false} PassWritesDigits(cps: seq<int>, n: nat, delta: nat, bias: nat, h: nat, b: nat)
    requires InRange(cps)
    ensures var e := EncodePass(cps, n, delta, bias, h, b); e.Encoded? ==> AllDigits(e.ascii)
    decreases MAX_CODE_POINT + 1 - n, |cps| + 1
  {
    hide EncodeScan;
    if AnyFrom(cps, n) {
      var m := LeastFrom(cps, n);
      MulMonotone(0, m - n, h + 1);
      var skip := (m - n) * (h + 1);
      if skip <= U32_MAX && delta + skip <= U32_MAX {
        ScanWritesDigits(cps, m, 0, delta + skip, bias, h, b);
      }
    }
  }

  lemma {:induction false} ScanWritesDigits(cps: seq<int>, n: nat, j: nat, delta: nat, bias: nat, h: nat, b: nat)
    requires InRange(cps) && j <= |cps| && n <= MAX_CODE_POINT
    ensures var e := EncodeScan(cps, n, j, delta, bias, h, b); e.Encoded? ==> AllDigits(e.ascii)
    decreases MAX_CODE_POINT + 1 - n, |cps| - j
  {
    hide EncodePass, IntegerDigits, Adapted;
    if j == |cps| {
      if delta + 1 <= U32_MAX {
        PassWritesDigits(cps, n + 1, delta + 1, bias, h, b);
      }
    } else if cps[j] < n {
      if delta + 1 <= U32_MAX {
        ScanWritesDigits(cps, n, j + 1, delta + 1, bias, h, b);
      }
    } else if cps[j] == n {
      IntegerDigitsAreDigits(delta, BASE, bias);
      ScanWritesDigits(cps, n, j + 1, 0, Adapted(delta, h + 1, h == b), h + 1, b);
    } else {
      ScanWritesDigits(cps, n, j + 1, delta, bias, h, b);
    }
  }

  lemma {:induction false} LastDashAfter(prefix: string, tail: string)
    requires AllDigits(tail)
    ensures LastDash(tail) == -1
    ensures LastDash(prefix + "-" + tail) == |prefix|
    decreases |tail|
  {
    var s := prefix + "-" + tail;
    if tail == "" {
      assert s == prefix + "-";
    } else {
      var front := tail[..|tail| - 1];
      LastDashAfter(prefix, front);
      assert s[..|s| - 1] == prefix + "-" + front;
      assert s[|s| - 1] == tail[|tail| - 1];
    }
  }

  // An encoding is the label's ASCII characters, a delimiter and digits.
  lemma EncodeCharacters(text: string)
    ensures var e := Encode(text);
            e.Encoded? ==> e.ascii != "" || text == ""
    ensures var e := Encode(text);
            e.Encoded? ==> forall i :: 0 <= i < |e.ascii| ==>
              IsDigit(e.ascii[i]) || e.ascii[i] == '-' || e.ascii[i] in AsciiOf(text)
  {
    hide EncodePass;
    var ascii := AsciiOf(text);
    PassWritesDigits(CodePoints(text), INITIAL_N, 0, INITIAL_BIAS, |ascii|, |ascii|);
    if Encode(text).Encoded? {
      DecodesBack(text);
      if Encode(text).ascii == "" {
        assert Decode("") == Some([]);
      }
    }
  }

  lemma DecodesBack(text: string)
    requires Encode(text).Encoded?
    ensures Decode(Encode(text).ascii) == Some(CodePoints(text))
  {
    hide EncodePass, DecodeFrom, Decode, Below, CatchesUp;
    var ascii, cps := AsciiOf(text), CodePoints(text);
    var tail := EncodePass(cps, INITIAL_N, 0, INITIAL_BIAS, |ascii|, |ascii|);
    BelowAscii(text);
    PassWritesDigits(cps, INITIAL_N, 0, INITIAL_BIAS, |ascii|, |ascii|);
    CatchUpStart(|ascii|);
    PassDecodes(cps, INITIAL_N, 0, INITIAL_BIAS, |ascii|, |ascii|, INITIAL_N, 0);
    DecodeSplit(ascii, tail.ascii);
  }

  // ---------- the decoder of RFC 3492 ----------

  lemma SameShrink(delta: nat, k: nat)
    ensures Rfc3492.Shrunk(delta, k) == AdaptLoop(delta, k)
  {
  }

  lemma SameParameters(k: int, bias: int, c: char, delta: nat, points: nat, first: bool)
    requires points > 0
    ensures Rfc3492.ThresholdAt(k, bias) == Threshold(k, bias)
    ensures Rfc3492.DigitOf(c) == DigitValue(c)
    ensures Rfc3492.AdaptedBias(delta, points, first) == Adapted(delta, points, first)
  {
    SameShrink(Damped(delta, points, first), 0);
  }

  lemma {:induction false} SameInteger(s: string, k: nat, bias: nat, w: int, i: int)
    ensures Rfc3492.Integer(s, k, bias, w, i) == ReadInteger(s, k, bias, w, i)
    decreases |s|
  {
    hide Adapted, DigitValue;
    if s != "" {
      SameParameters(k, bias, s[0], 0, 1, true);
      if DigitValue(s[0]).Some? {
        var t := Threshold(k, bias);
        SameInteger(s[1..], k + BASE, bias, w * (BASE - t), i + DigitValue(s[0]).value * w);
      }
    }
  }

  lemma RfcStep(s: string, n: nat, i: nat, bias: nat, output: seq<int>, sum: nat, rest: string)
    requires s != "" && Rfc3492.Integer(s, 36, bias, 1, i) == Some((sum, rest)) && |rest| < |s|
    ensures var len := |output| + 1;
      Rfc3492.Inserted(s, n, i, bias, output) ==
      if sum < i || n + sum / len > MAX_CODE_POINT then None
      else Rfc3492.Inserted(rest, n + sum / len, sum % len + 1, Rfc3492.AdaptedBias(sum - i, len, i == 0),
                            output[..sum % len] + [n + sum / len] + output[sum % len..])
  {
    hide Rfc3492.Integer, Rfc3492.AdaptedBias;
  }

  lemma OwnStep(s: string, n: nat, i: nat, bias: nat, output: seq<int>, sum: nat, rest: string)
    requires s != "" && ReadInteger(s, BASE, bias, 1, i) == Some((sum, rest)) && |rest| < |s|
    ensures var len := |output| + 1;
      DecodeFrom(s, n, i, bias, output) ==
      if sum < i || n + sum / len > MAX_CODE_POINT then None
      else DecodeFrom(rest, n + sum / len, sum % len + 1, Adapted(sum - i, len, i == 0),
                      output[..sum % len] + [n + sum / len] + output[sum % len..])
  {
    hide ReadInteger, Adapted;
  }

  lemma Unreadable(s: string, n: nat, i: nat, bias: nat, output: seq<int>)
    ensures s == "" ==> Rfc3492.Inserted(s, n, i, bias, output) == DecodeFrom(s, n, i, bias, output)
    ensures var r := ReadInteger(s, BASE, bias, 1, i);
      s != "" && Rfc3492.Integer(s, 36, bias, 1, i) == r && (r.None? || r.value.0 < i) ==>
        Rfc3492.Inserted(s, n, i, bias, output) == DecodeFrom(s, n, i, bias, output)
  {
    hide ReadInteger, Rfc3492.Integer, Adapted, Rfc3492.AdaptedBias;
  }

  lemma {:induction false} SameInsertions(s: string, n: nat, i: nat, bias: nat, output: seq<int>)
    ensures Rfc3492.Inserted(s, n, i, bias, output) == DecodeFrom(s, n, i, bias, output)
    decreases |s|
  {
    hide ReadInteger, Adapted, Rfc3492.Integer, Rfc3492.AdaptedBias, Rfc3492.Inserted, DecodeFrom;
    SameInteger(s, BASE, bias, 1, i);
    Unreadable(s, n, i, bias, output);
    var r := ReadInteger(s, BASE, bias, 1, i);
    if s != "" && r.Some? && r.value.0 >= i {
      var sum: nat, rest := r.value.0, r.value.1;
      var len := |output| + 1;
      RfcStep(s, n, i, bias, output, sum, rest);
      OwnStep(s, n, i, bias, output, sum, rest);
      SameParameters(0, 0, 'a', sum - i, len, i == 0);
      QuotientAtMost(sum, len);
      if n + sum / len <= MAX_CODE_POINT {
        SameInsertions(rest, n + sum / len, sum % len + 1, Adapted(sum - i, len, i == 0),
                       output[..sum % len] + [n + sum / len] + output[sum % len..]);
      }
    }
  }

  lemma {:induction false} SplitAtDash(s: string, at: nat)
    requires at <= |s|
    ensures var d := LastDash(s[..at]);
      Rfc3492.Split(s, at) == if d <= 0 then ([], s) else (CodePoints(s[..d]), s[d + 1..])
  {
    if at > 0 {
      assert s[..at][..at - 1] == s[..at - 1];
      SplitAtDash(s, at - 1);
      if s[at - 1] == '-' {
        assert seq(at - 1, i requires 0 <= i < at - 1 => s[i] as int) == CodePoints(s[..at - 1]);
      }
    }
  }

  lemma SameDecoder(s: string)
    ensures Rfc3492.Decode(s) == Decode(s)
  {
    hide DecodeFrom, Rfc3492.Inserted, LastDash;
    var d := LastDash(s);
    assert s[..|s|] == s;
    SplitAtDash(s, |s|);
    var (basic, extended) := Rfc3492.Split(s, |s|);
    SameInsertions(extended, INITIAL_N, 0, INITIAL_BIAS, basic);
    if d > 0 {
      assert forall i :: 0 <= i < d ==> basic[i] == s[i] as int;
    }
  }

  // Whatever the encoder returns for a label, the decoder of RFC 3492 gives the label back ...
  lemma DecodeEncode(text: string)
    requires Encode(text).Encoded?
    ensures Rfc3492.Decode(Encode(text).ascii) == Some(CodePoints(text))
  {
    DecodesBack(text);
    SameDecoder(Encode(text).ascii);
  }

  lemma DecodeSplit(ascii: string, tail: string)
    requires AllDigits(tail) && forall c :: c in ascii ==> c as int < INITIAL_N
    ensures Decode((if ascii == "" then "" else ascii + "-") + tail) ==
            DecodeFrom(tail, INITIAL_N, 0, INITIAL_BIAS, CodePoints(ascii))
  {
    hide DecodeFrom, LastDash;
    LastDashAfter(ascii, tail);
    if ascii == "" {
      assert "" + tail == tail && CodePoints(ascii) == [];
    } else {
      var s := ascii + "-" + tail;
      assert s[|ascii| + 1..] == tail && s[..|ascii|] == ascii;
      forall i | 0 <= i < |ascii| ensures s[i] as int < INITIAL_N {
        assert s[i] == ascii[i] && ascii[i] in ascii;
      }
    }
  }

  lemma CatchUpStart(h: nat)
    ensures CatchesUp(INITIAL_N, 0, 0, INITIAL_N, 0, h, h)
  {
  }

  // The encoding of a label that is not all ASCII ends with one of the encoder's digits.
  lemma EncodeEndsInDigit(text: string)
    requires Encode(text).Encoded? && AnyFrom(CodePoints(text), INITIAL_N)
    ensures var e := Encode(text).ascii; e != "" && IsDigit(e[|e| - 1])
  {
    hide EncodePass, DecodeFrom, Below, CatchesUp, AnyFrom;
    var ascii, cps := AsciiOf(text), CodePoints(text);
    var tail := EncodePass(cps, INITIAL_N, 0, INITIAL_BIAS, |ascii|, |ascii|);
    BelowAscii(text);
    PassWritesDigits(cps, INITIAL_N, 0, INITIAL_BIAS, |ascii|, |ascii|);
    CatchUpStart(|ascii|);
    PassDecodes(cps, INITIAL_N, 0, INITIAL_BIAS, |ascii|, |ascii|, INITIAL_N, 0);
    DecodeNothing(INITIAL_N, 0, INITIAL_BIAS, Below(cps, INITIAL_N));
    BelowCountsAll(cps, INITIAL_N);
    assert tail.ascii != "";
  }

  // ... so distinct labels never share an encoding.
  lemma EncodeInjective(a: string, b: string)
    requires Encode(a).Encoded? && Encode(b).Encoded?
    ensures Encode(a).ascii == Encode(b).ascii ==> a == b
  {
    DecodeEncode(a);
    DecodeEncode(b);
    if Encode(a).ascii == Encode(b).ascii {
      assert CodePoints(a) == CodePoints(b);
      forall i | 0 <= i < |a| ensures a[i] == b[i] {
        assert CodePoints(a)[i] == CodePoints(b)[i];
      }
    }
  }

  // ---------- overflow ----------

  // The longest labels, in code points, that never overflow the encoder's u32 arithmetic.
  const SAFE_LENGTH := 3855

  // The largest delta that can arise with h code points handled.
  ghost function DeltaBound(h: nat): nat { (MAX_CODE_POINT - INITIAL_N) * (h + 1) + h }

  lemma DeltaBoundFits(h: nat)
    requires h < SAFE_LENGTH
    ensures DeltaBound(h) < U32_MAX
  {
  }

  lemma {:induction false} PassNeverFails(cps: seq<int>, n: nat, delta: nat, bias: nat, h: nat, b: nat)
    requires InRange(cps) && |cps| <= SAFE_LENGTH && n >= INITIAL_N && h == |Below(cps, n)|
    requires if n == INITIAL_N then delta == 0 else delta <= h + 1
    ensures EncodePass(cps, n, delta, bias, h, b).Encoded?
    decreases MAX_CODE_POINT + 1 - n, |cps| + 1
  {
    hide EncodeScan, Below, AnyFrom;
    BelowCountsAll(cps, n);
    if AnyFrom(cps, n) {
      var m := LeastFrom(cps, n);
      SkipBounded(n, m, delta, h);
      DeltaBoundFits(h);
      BelowSkips(cps, n, m);
      PlacedAtStart(cps, m);
      assert cps[0..] == cps && cps[..0] == [];
      ScanNeverFails(cps, m, 0, delta + (m - n) * (h + 1), bias, h, b);
    }
  }

  lemma SkipBounded(n: nat, m: nat, delta: nat, h: nat)
    requires INITIAL_N <= n <= m <= MAX_CODE_POINT
    requires if n == INITIAL_N then delta == 0 else delta <= h + 1
    ensures 0 <= (m - n) * (h + 1) <= DeltaBound(h)
    ensures 0 <= delta + (m - n) * (h + 1) + h <= DeltaBound(h)
  {
    MulMonotone(0, m - n, h + 1);
    if n == INITIAL_N {
      MulMonotone(m - n, MAX_CODE_POINT - INITIAL_N, h + 1);
    } else {
      MulMonotone(m - n + 1, MAX_CODE_POINT - INITIAL_N, h + 1);
      assert (m - n + 1) * (h + 1) == (m - n) * (h + 1) + h + 1;
    }
  }

  // delta plus what the rest of the scan can add stays below what u32 holds; once the pass
  // has inserted something it is at most the number of code points handled.
  lemma {:induction false} ScanNeverFails(cps: seq<int>, n: nat, j: nat, delta: nat, bias: nat, h: nat, b: nat)
    requires InRange(cps) && |cps| <= SAFE_LENGTH && INITIAL_N <= n <= MAX_CODE_POINT && j <= |cps|
    requires n in cps && h == |Below(cps[..j], n + 1)| + |Below(cps[j..], n)|
    requires delta + |Below(cps[j..], n)| <= if n in cps[..j] then h else DeltaBound(h)
    requires n !in cps[..j] ==> h < SAFE_LENGTH
    ensures EncodeScan(cps, n, j, delta, bias, h, b).Encoded?
    decreases MAX_CODE_POINT + 1 - n, |cps| - j
  {
    hide EncodePass, Below, Adapted, IntegerDigits;
    ScanWithin(cps, n, j);
    if n !in cps[..j] {
      DeltaBoundFits(h);
    }
    if j == |cps| {
      assert cps[..j] == cps && cps[j..] == [];
      PlacedAtEnd(cps, n);
      PassNeverFails(cps, n + 1, delta + 1, bias, h, b);
    } else {
      BelowStep(cps, n, j);
      assert cps[..j + 1] == cps[..j] + [cps[j]];
      if cps[j] < n {
        ScanNeverFails(cps, n, j + 1, delta + 1, bias, h, b);
      } else if cps[j] == n {
        ScanNeverFails(cps, n, j + 1, 0, Adapted(delta, h + 1, h == b), h + 1, b);
      } else {
        ScanNeverFails(cps, n, j + 1, delta, bias, h, b);
      }
    }
  }

  lemma ScanWithin(cps: seq<int>, n: int, j: nat)
    requires j <= |cps|
    ensures |Below(cps[..j], n + 1)| + |Below(cps[j..], n)| <= |cps|
    ensures j == |cps| ==> Below(cps[j..], n) == []
  {
    BelowCountsAll(cps[..j], n + 1);
    BelowCountsAll(cps[j..], n);
  }

  // A DNS label has at most 63 octets, far below this: it always encodes.
  lemma ShortLabelsEncode(text: string)
    requires |text| <= SAFE_LENGTH
    ensures Encode(text).Encoded?
  {
    BelowAscii(text);
    PassNeverFails(CodePoints(text), INITIAL_N, 0, INITIAL_BIAS, |AsciiOf(text)|, |AsciiOf(text)|);
  }

  function Repeat(c: char, n: nat): string { seq(n, i => c) }

  lemma {:induction false} AsciiOfRepeat(c: char, n: nat, last: char)
    requires c as int < INITIAL_N && last as int >= INITIAL_N
    ensures AsciiOf(Repeat(c, n) + [last]) == Repeat(c, n)
  {
    var s := Repeat(c, n) + [last];
    if n == 0 {
      assert s[1..] == "";
    } else {
      assert s[1..] == Repeat(c, n - 1) + [last];
      AsciiOfRepeat(c, n - 1, last);
      assert [c] + Repeat(c, n - 1) == Repeat(c, n);
    }
  }

  // The label that overflows soonest: ASCII letters before the last code point of all.
  function Widest(len: nat): string
    requires len > 0
  {
    Repeat('a', len - 1) + ['\U{10FFFF}']
  }

  // The bound is exact: labels of a given length all encode if and only if it is at most 3855.
  lemma SafeLengthIsExact(len: nat)
    requires len > 0
    ensures len <= 3855 <==> forall text: string :: |text| == len ==> Encode(text).Encoded?
  {
    if len <= SAFE_LENGTH {
      forall text: string | |text| == len ensures Encode(text).Encoded? {
        ShortLabelsEncode(text);
      }
    } else {
      var text := Widest(len);
      AsciiOfRepeat('a', len - 1, '\U{10FFFF}');
      var cps := CodePoints(text);
      assert cps[len - 1] == MAX_CODE_POINT;
      assert AnyFrom(cps, INITIAL_N);
      assert forall i :: 0 <= i < len - 1 ==> cps[i] == 'a' as int;
      assert LeastFrom(cps, INITIAL_N) == MAX_CODE_POINT;
      assert !Encode(text).Encoded?;
    }
  }

  // The checked multiplication refuses some label of a given length if and only if that length is
  // over 3855 code points.
  lemma RefusesIff(len: nat)
    requires len > 0
    ensures (exists text: string :: |text| == len && Encode(text) == Refused) <==> len > 3855
  {
    if len > SAFE_LENGTH {
      var text := Widest(len);
      AsciiOfRepeat('a', len - 1, '\U{10FFFF}');
      var cps := CodePoints(text);
      assert cps[len - 1] == MAX_CODE_POINT;
      assert AnyFrom(cps, INITIAL_N);
      assert forall i :: 0 <= i < len - 1 ==> cps[i] == 'a' as int;
      assert LeastFrom(cps, INITIAL_N) == MAX_CODE_POINT;
      assert |text| == len && Encode(text) == Refused;
    } else {
      forall text: string | |text| == len
        ensures Encode(text) != Refused
      {
        ShortLabelsEncode(text);
      }
    }
  }

  // ---------- exactly which labels are encoded ----------

  lemma SameLeast(cps: seq<int>, n: int)
    ensures Rfc3492.Least(cps, n) == if AnyFrom(cps, n) then Some(LeastFrom(cps, n)) else None
  {
    Rfc3492.LeastBounds(cps, n);
    if AnyFrom(cps, n) {
      var m := LeastFrom(cps, n);
      var i :| 0 <= i < |cps| && cps[i] == m;
    }
  }

  lemma {:induction false} PassEncodesIff(cps: seq<int>, n: nat, delta: nat, bias: nat, h: nat, b: nat)
    requires InRange(cps) && delta <= 0xFFFF_FFFF
    ensures EncodePass(cps, n, delta, bias, h, b).Encoded? <==> Rfc3492.PassPeak(cps, n, delta, h) <= 0xFFFF_FFFF
    decreases MAX_CODE_POINT + 1 - n, |cps| + 1
  {
    hide EncodeScan, AnyFrom, Rfc3492.Least, Rfc3492.ScanPeak;
    SameLeast(cps, n);
    if AnyFrom(cps, n) {
      var m := LeastFrom(cps, n);
      MulMonotone(0, m - n, h + 1);
      var skip := (m - n) * (h + 1);
      if delta + skip <= 0xFFFF_FFFF {
        ScanEncodesIff(cps, m, 0, delta + skip, bias, h, b);
      }
    }
  }

  lemma {:induction false} ScanEncodesIff(cps: seq<int>, n: nat, j: nat, delta: nat, bias: nat, h: nat, b: nat)
    requires InRange(cps) && j <= |cps| && n <= MAX_CODE_POINT && delta <= 0xFFFF_FFFF
    ensures EncodeScan(cps, n, j, delta, bias, h, b).Encoded? <==>
            Rfc3492.ScanPeak(cps, n, j, delta, h) <= 0xFFFF_FFFF
    decreases MAX_CODE_POINT + 1 - n, |cps| - j
  {
    hide EncodePass, Adapted, IntegerDigits, Rfc3492.PassPeak;
    if j == |cps| {
      if delta + 1 <= 0xFFFF_FFFF {
        PassEncodesIff(cps, n + 1, delta + 1, bias, h, b);
      }
    } else if cps[j] < n {
      if delta + 1 <= 0xFFFF_FFFF {
        ScanEncodesIff(cps, n, j + 1, delta + 1, bias, h, b);
      }
    } else if cps[j] == n {
      ScanEncodesIff(cps, n, j + 1, 0, Adapted(delta, h + 1, h == b), h + 1, b);
    } else {
      ScanEncodesIff(cps, n, j + 1, delta, bias, h, b);
    }
  }

  lemma {:induction false} BasicCount(text: string)
    ensures Rfc3492.Basic(CodePoints(text)) == |AsciiOf(text)|
  {
    if text != "" {
      assert CodePoints(text)[1..] == CodePoints(text[1..]);
      BasicCount(text[1..]);
    }
  }

  // A label is encoded if and only if the delta of section 6.3 of RFC 3492, in unbounded
  // arithmetic, never passes 2^32 - 1 on it.
  lemma EncodesIff(text: string)
    ensures Encode(text).Encoded? <==> Rfc3492.Peak(CodePoints(text)) <= 0xFFFF_FFFF
  {
    hide EncodePass, Rfc3492.PassPeak;
    BasicCount(text);
    PassEncodesIff(CodePoints(text), INITIAL_N, 0, INITIAL_BIAS, |AsciiOf(text)|, |AsciiOf(text)|);
  }

  // ---------- the unchecked additions ----------

  // Over code points below n the scan only counts.
  lemma {:induction false} ScanBelow(cps: seq<int>, n: nat, j: nat, upTo: nat, delta: nat, bias: nat, h: nat, b: nat)
    requires InRange(cps) && j <= upTo <= |cps| && n <= MAX_CODE_POINT && delta + (upTo - j) <= U32_MAX
    requires forall i :: j <= i < upTo ==> cps[i] < n
    ensures EncodeScan(cps, n, j, delta, bias, h, b) == EncodeScan(cps, n, upTo, delta + (upTo - j), bias, h, b)
    decreases upTo - j
  {
    hide EncodePass, Adapted, IntegerDigits;
    if j < upTo {
      ScanBelow(cps, n, j + 1, upTo, delta + 1, bias, h, b);
    }
  }

  // Over code points above n it does nothing.
  lemma {:induction false} ScanAbove(cps: seq<int>, n: nat, j: nat, upTo: nat, delta: nat, bias: nat, h: nat, b: nat)
    requires InRange(cps) && j <= upTo <= |cps| && n <= MAX_CODE_POINT
    requires forall i :: j <= i < upTo ==> cps[i] > n
    ensures EncodeScan(cps, n, j, delta, bias, h, b) == EncodeScan(cps, n, upTo, delta, bias, h, b)
    decreases upTo - j
  {
    hide EncodePass, Adapted, IntegerDigits;
    if j < upTo {
      ScanAbove(cps, n, j + 1, upTo, delta, bias, h, b);
    }
  }

  // The one insertion of n, and what is left of the pass.
  lemma ScanInsert(cps: seq<int>, n: nat, j: nat, delta: nat, bias: nat, h: nat, b: nat)
    requires InRange(cps) && j < |cps| && n <= MAX_CODE_POINT && cps[j] == n
    ensures EncodeScan(cps, n, j, delta, bias, h, b) ==
            Then(IntegerDigits(delta, BASE, bias),
                 EncodeScan(cps, n, j + 1, 0, Adapted(delta, h + 1, h == b), h + 1, b))
  {
    hide EncodePass, Adapted, IntegerDigits;
  }

  lemma ScanEnds(cps: seq<int>, n: nat, delta: nat, bias: nat, h: nat, b: nat)
    requires InRange(cps) && n <= MAX_CODE_POINT && delta < U32_MAX
    ensures EncodeScan(cps, n, |cps|, delta, bias, h, b) == EncodePass(cps, n + 1, delta + 1, bias, h, b)
  {
    hide EncodePass, Adapted, IntegerDigits;
  }

  // A label that reaches the unchecked addition with the product just within u32: 3854 letters
  // around U+0080, with 255 of them behind it, and U+10FF71 for the rest.
  const FAR := '\U{10FF71}'
  const FIRST := '\U{80}'

  function Overflowing(len: nat): string
    requires len > SAFE_LENGTH
  {
    Repeat('a', 3599) + [FIRST] + Repeat('a', 255) + Repeat(FAR, len - SAFE_LENGTH)
  }

  lemma OverflowingShape(len: nat)
    requires len > SAFE_LENGTH
    ensures var cps := CodePoints(Overflowing(len));
      |cps| == len && cps[3599] == INITIAL_N &&
      (forall i :: 0 <= i < 3599 || 3600 <= i < SAFE_LENGTH ==> cps[i] == 'a' as int) &&
      (forall i :: SAFE_LENGTH <= i < len ==> cps[i] == FAR as int)
  {
  }

  lemma {:induction false} AsciiConcat(a: string, b: string)
    ensures AsciiOf(a + b) == AsciiOf(a) + AsciiOf(b)
  {
    if a == "" {
      assert a + b == b;
    } else {
      assert (a + b)[0] == a[0] && (a + b)[1..] == a[1..] + b;
      AsciiConcat(a[1..], b);
      Regroup(if a[0] as int < INITIAL_N then [a[0]] else "", AsciiOf(a[1..]), AsciiOf(b));
    }
  }

  lemma {:induction false} AsciiRepeat(c: char, n: nat)
    ensures AsciiOf(Repeat(c, n)) == if c as int < INITIAL_N then Repeat(c, n) else ""
  {
    if n > 0 {
      assert Repeat(c, n)[1..] == Repeat(c, n - 1);
      AsciiRepeat(c, n - 1);
      assert [c] + Repeat(c, n - 1) == Repeat(c, n);
    }
  }

  lemma OverflowingAscii(len: nat)
    requires len > SAFE_LENGTH
    ensures |AsciiOf(Overflowing(len))| == 3854
  {
    hide AsciiOf;
    var x, y, z := Repeat('a', 3599), Repeat('a', 255), Repeat(FAR, len - SAFE_LENGTH);
    AsciiConcat(x + [FIRST] + y, z);
    AsciiConcat(x + [FIRST], y);
    AsciiConcat(x, [FIRST]);
    AsciiRepeat('a', 3599);
    AsciiRepeat('a', 255);
    AsciiRepeat(FAR, len - SAFE_LENGTH);
    AsciiRepeat(FIRST, 1);
    assert Repeat(FIRST, 1) == [FIRST];
  }

  // The first pass inserts U+0080 and leaves a delta of 256 ...
  lemma FirstPass(cps: seq<int>, n: nat)
    requires InRange(cps) && |cps| > SAFE_LENGTH && n == INITIAL_N && cps[3599] == n
    requires forall i :: 0 <= i < 3599 || 3600 <= i < SAFE_LENGTH ==> cps[i] < n
    requires forall i :: SAFE_LENGTH <= i < |cps| ==> cps[i] > n
    ensures EncodeScan(cps, n, 0, 0, INITIAL_BIAS, 3854, 3854) ==
            Then(IntegerDigits(3599, BASE, INITIAL_BIAS),
                 EncodePass(cps, n + 1, 256, Adapted(3599, 3855, true), 3855, 3854))
  {
    hide EncodeScan, EncodePass, Adapted, IntegerDigits;
    var bias := Adapted(3599, 3855, true);
    ScanBelow(cps, n, 0, 3599, 0, INITIAL_BIAS, 3854, 3854);
    ScanInsert(cps, n, 3599, 3599, INITIAL_BIAS, 3854, 3854);
    ScanBelow(cps, n, 3600, SAFE_LENGTH, 0, bias, 3855, 3854);
    ScanAbove(cps, n, SAFE_LENGTH, |cps|, 255, bias, 3855, 3854);
    ScanEnds(cps, n, 255, bias, 3855, 3854);
  }

  // ... and the second adds (0x10FF71 - 0x81) * 3856, which is 2^32 - 256, to it.
  lemma SecondPass(cps: seq<int>, bias: nat)
    requires InRange(cps) && |cps| > SAFE_LENGTH && cps[SAFE_LENGTH] == FAR as int
    requires forall i :: 0 <= i < |cps| ==> cps[i] <= INITIAL_N || cps[i] == FAR as int
    ensures EncodePass(cps, INITIAL_N + 1, 256, bias, 3855, 3854) == Overflowed
  {
    hide EncodeScan, Adapted, IntegerDigits;
    assert AnyFrom(cps, INITIAL_N + 1);
    assert LeastFrom(cps, INITIAL_N + 1) == FAR as int;
  }

  // An unchecked addition of the encoder passes 2^32 on some label of a given length if and
  // only if that length is over 3855 code points.
  lemma OverflowsIff(len: nat)
    ensures (exists text: string :: |text| == len && Encode(text) == Overflowed) <==> len > 3855
  {
    if len > SAFE_LENGTH {
      var text := Overflowing(len);
      OverflowingOverflows(len);
      assert |text| == len && Encode(text) == Overflowed;
    } else {
      forall text: string | |text| == len
        ensures Encode(text) != Overflowed
      {
        ShortLabelsEncode(text);
      }
    }
  }

  lemma OverflowingOverflows(len: nat)
    requires len > SAFE_LENGTH
    ensures |Overflowing(len)| == len && Encode(Overflowing(len)) == Overflowed
  {
    hide EncodeScan, Adapted, IntegerDigits, Overflowing, AsciiOf;
    var text := Overflowing(len);
    var cps := CodePoints(text);
    OverflowingShape(len);
    OverflowingAscii(len);
    FirstPass(cps, INITIAL_N);
    SecondPass(cps, Adapted(3599, 3855, true));
    StartsWithScan(cps);
  }

  lemma StartsWithScan(cps: seq<int>)
    requires InRange(cps) && |cps| > SAFE_LENGTH && cps[3599] == INITIAL_N
    ensures EncodePass(cps, INITIAL_N, 0, INITIAL_BIAS, 3854, 3854) ==
            EncodeScan(cps, INITIAL_N, 0, 0, INITIAL_BIAS, 3854, 3854)
  {
    hide EncodeScan;
    assert AnyFrom(cps, INITIAL_N);
    assert LeastFrom(cps, INITIAL_N) == INITIAL_N;
  }
}
