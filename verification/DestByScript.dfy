// How one connection of serve_dest ends and what it shows to whom, told from the answers it gets
// and the gateways its decisions list (client/src/lib.rs).
module DestByScript {
  import opened Prelude
  import opened TokenLadder
  import TokenLadderLaws

  // ---------- the lists of a decision ----------

  // A gateway with both an id and a relay address.
  predicate Full(g: Gateway) { g.id.Some? && g.relay.Some? }

  // How many of them come before the i-th gateway.
  function Rank(gateways: seq<Gateway>, i: nat): (r: nat)
    requires i <= |gateways|
    ensures r <= i
  {
    if i == 0 then 0 else Rank(gateways, i - 1) + if Full(gateways[i - 1]) then 1 else 0
  }

  // The relays are the full gateways' ids and addresses, in order.
  lemma {:induction false} RelaysAre(gateways: seq<Gateway>, i: nat)
    requires i <= |gateways|
    ensures |Relays(gateways)| == Rank(gateways, |gateways|)
    ensures i < |gateways| && Full(gateways[i]) ==>
              Rank(gateways, i) < |Relays(gateways)| &&
              Relays(gateways)[Rank(gateways, i)] == (gateways[i].id.value, gateways[i].relay.value)
  {
    if gateways != [] {
      RankTail(gateways, |gateways|);
      if i > 0 {
        RankTail(gateways, i);
        RelaysAre(gateways[1..], i - 1);
      } else {
        RelaysAre(gateways[1..], 0);
      }
    }
  }

  lemma {:induction false} RankTail(gateways: seq<Gateway>, i: nat)
    requires 1 <= i <= |gateways|
    ensures Rank(gateways, i) == (if Full(gateways[0]) then 1 else 0) + Rank(gateways[1..], i - 1)
  {
    if i > 1 {
      RankTail(gateways, i - 1);
    }
  }

  // Each place among the relays is some full gateway's.
  lemma {:induction false} RankOnto(gateways: seq<Gateway>, n: nat, r: nat) returns (i: nat)
    requires n <= |gateways| && r < Rank(gateways, n)
    ensures i < n && Full(gateways[i]) && Rank(gateways, i) == r
  {
    if r < Rank(gateways, n - 1) {
      i := RankOnto(gateways, n - 1, r);
    } else {
      i := n - 1;
    }
  }

  lemma {:induction false} RankMonotone(gateways: seq<Gateway>, i: nat, j: nat)
    requires i <= j <= |gateways|
    ensures Rank(gateways, i) <= Rank(gateways, j)
    ensures i < j && Full(gateways[i]) ==> Rank(gateways, i) < Rank(gateways, j)
  {
    if i < j {
      RankMonotone(gateways, i, j - 1);
    }
  }

  // The decision says inline, and `a` is the first inline address among its gateways.
  predicate InlineAt(d: Decision, a: Address) {
    d.inlineFlag && exists i :: 0 <= i < |d.gateways| && FirstInlineIs(d.gateways, i, a)
  }

  predicate FirstInlineIs(gateways: seq<Gateway>, i: nat, a: Address)
    requires i < |gateways|
  {
    gateways[i].inlineAddr == Some(a) && forall j :: 0 <= j < i ==> gateways[j].inlineAddr.None?
  }

  lemma {:induction false} FirstInlineAt(gateways: seq<Gateway>, a: Address)
    ensures FirstInline(gateways) == Some(a) <==> exists i :: 0 <= i < |gateways| && FirstInlineIs(gateways, i, a)
    ensures FirstInline(gateways).None? <==> forall i :: 0 <= i < |gateways| ==> gateways[i].inlineAddr.None?
  {
    if gateways != [] {
      var g, rest := gateways[0], gateways[1..];
      FirstInlineAt(rest, a);
      if g.inlineAddr.Some? {
        assert FirstInlineIs(gateways, 0, g.inlineAddr.value);
      } else {
        if i :| 0 <= i < |rest| && FirstInlineIs(rest, i, a) {
          assert FirstInlineIs(gateways, i + 1, a);
        }
        if i :| 0 <= i < |gateways| && FirstInlineIs(gateways, i, a) {
          assert FirstInlineIs(rest, i - 1, a);
        }
      }
    }
  }

  // It says inline, and some gateway has an inline address.
  predicate HasInline(d: Decision) {
    d.inlineFlag && exists i :: 0 <= i < |d.gateways| && d.gateways[i].inlineAddr.Some?
  }

  lemma HintIs(d: Decision, a: Address)
    ensures InlineHint(d) == Some(a) <==> InlineAt(d, a)
    ensures InlineHint(d).Some? <==> HasInline(d)
  {
    FirstInlineAt(d.gateways, a);
  }

  // ---------- the ladder ----------

  predicate Tokened(c: Script, t: Token) { c.admissible && c.first.Some? && c.first.value.token == Some(t) }

  // The first admission failed, and a second decision came with the token `t`.
  predicate Retried(c: Script, t: Token) {
    c.admit0.Failed? && c.retry.Some? && c.retry.value.token == Some(t)
  }

  // `t` is shown to the admission endpoint at `a`.
  predicate Admits(c: Script, a: Address, t: Token)
    requires c.first.Some?
  {
    (Tokened(c, t) && InlineAt(c.first.value, a)) ||
    (HasInline(c.first.value) && Retried(c, t) && InlineAt(c.retry.value, a))
  }

  // An admission is won with this body.
  predicate Won(c: Script, body: Body)
    requires c.first.Some?
  {
    HasInline(c.first.value) &&
    (c.admit0 == Admitted(body) ||
     (c.admit0.Failed? && c.retry.Some? && c.retry.value.token.Some? && HasInline(c.retry.value) &&
      c.admit1 == Admitted(body)))
  }

  // The credential for the relay: one that was shown to nobody, or a fresh one.
  predicate Credential(c: Script, t: Token)
    requires c.first.Some?
  {
    if !HasInline(c.first.value) then c.first.value.token == Some(t)
    else if c.admit0.Failed? && c.retry.Some? && c.retry.value.token.Some? && !HasInline(c.retry.value) then
      c.retry.value.token == Some(t)
    else c.refresh.Some? && c.refresh.value.token == Some(t)
  }

  lemma ClimbIs(c: Script, t0: Token, a: Address, t: Token, body: Body)
    requires Tokened(c, t0)
    ensures var l := Climb(c, t0, InlineHint(c.first.value));
      (AtAdmission(a, t) in l.shown <==> Admits(c, a, t)) && (l.body == Some(body) <==> Won(c, body)) &&
      (RelayToken(c, l) == Some(t) <==> Credential(c, t)) && (forall r, u :: AtRelay(r, u) !in l.shown)
  {
    hide InlineAt, InlineHint, HasInline;
    HintIs(c.first.value, a);
    if c.retry.Some? {
      HintIs(c.retry.value, a);
    }
  }

  // ---------- the connection ----------

  predicate HasToken(c: Script) { c.admissible && c.first.Some? && c.first.value.token.Some? }

  // A direct connection: an admission is won, its body names an address and a port first, and
  // the dial works.
  predicate DirectBy(c: Script, body: Body)
    requires c.first.Some?
  {
    c.directDial && Won(c, body) && |body.ips| > 0 && body.ips[0].Some? && |body.ports| > 0 && body.ports[0].Some?
  }

  // To that address, and that port cut to sixteen bits.
  ghost predicate GoesDirect(c: Script, ip: string, port: U16)
    requires c.first.Some?
  {
    exists body :: DirectBy(c, body) && ip == body.ips[0].value && port == body.ports[0].value % 65_536
  }

  ghost predicate NotDirect(c: Script)
    requires c.first.Some?
  {
    forall body :: !DirectBy(c, body)
  }

  // The i-th gateway is full, can be dialed, and none of the full ones before it can.
  predicate FirstReachable(gateways: seq<Gateway>, dial: nat -> bool, i: nat)
    requires i < |gateways|
  {
    Full(gateways[i]) && dial(Rank(gateways, i)) &&
    forall j :: 0 <= j < i && Full(gateways[j]) ==> !dial(Rank(gateways, j))
  }

  // The connection gets to the relay `r`, of the gateway that is reported as `g`.
  ghost predicate Reaches(c: Script, override: Option<Address>, g: string, r: Address)
    requires c.first.Some?
  {
    if override.Some? then g == "override" && r == override.value && c.relayDial(0)
    else
      var gateways := c.first.value.gateways;
      exists i :: 0 <= i < |gateways| && FirstReachable(gateways, c.relayDial, i) &&
                  gateways[i].id == Some(g) && gateways[i].relay == Some(r)
  }

  // The token `t` is shown there.
  ghost predicate Presents(c: Script, override: Option<Address>, g: string, r: Address, t: Token) {
    HasToken(c) && NotDirect(c) && Reaches(c, override, g, r) && Credential(c, t)
  }

  lemma ReachesIs(c: Script, override: Option<Address>, g: string, r: Address)
    requires c.first.Some?
    ensures var cs := Candidates(c.first.value, override); var k := FirstDialed(|cs|, 0, c.relayDial);
      k.Some? && cs[k.value] == (g, r) <==> Reaches(c, override, g, r)
  {
    hide Relays, Rank, Full;
    var gateways := c.first.value.gateways;
    var cs := Candidates(c.first.value, override);
    var k := FirstDialed(|cs|, 0, c.relayDial);
    if override.None? {
      RelaysAre(gateways, 0);
      if k.Some? && cs[k.value] == (g, r) {
        var i := RankOnto(gateways, |gateways|, k.value);
        RelaysAre(gateways, i);
        forall j | 0 <= j < i && Full(gateways[j])
          ensures !c.relayDial(Rank(gateways, j))
        {
          RankMonotone(gateways, j, i);
        }
        FullHas(gateways[i]);
        assert FirstReachable(gateways, c.relayDial, i);
      }
      if i :| 0 <= i < |gateways| && FirstReachable(gateways, c.relayDial, i) &&
              gateways[i].id == Some(g) && gateways[i].relay == Some(r) {
        RelaysAre(gateways, i);
        FirstPlace(gateways, c.relayDial, i);
      }
    }
  }

  lemma FullHas(g: Gateway)
    ensures Full(g) ==> g.id.Some? && g.relay.Some?
  {
  }

  lemma FirstPlace(gateways: seq<Gateway>, dial: nat -> bool, i: nat)
    requires i < |gateways| && FirstReachable(gateways, dial, i)
    ensures FirstDialed(Rank(gateways, |gateways|), 0, dial) == Some(Rank(gateways, i))
  {
    hide Rank, Full;
    RankMonotone(gateways, i, |gateways|);
    var k := FirstDialed(Rank(gateways, |gateways|), 0, dial);
    if k.Some? && k.value < Rank(gateways, i) {
      var j := RankOnto(gateways, |gateways|, k.value);
      RankMonotone(gateways, i, j);
    }
  }

  lemma DirectIs(c: Script, ip: string, port: U16)
    requires HasToken(c)
    ensures var l := Climb(c, c.first.value.token.value, InlineHint(c.first.value));
      (DirectTarget(c, l) == Some(Target(ip, port)) <==> GoesDirect(c, ip, port)) &&
      (DirectTarget(c, l).None? <==> NotDirect(c))
  {
    hide Climb, Won, InlineHint;
    var t0 := c.first.value.token.value;
    var l := Climb(c, t0, InlineHint(c.first.value));
    forall body
      ensures l.body == Some(body) <==> Won(c, body)
    {
      ClimbIs(c, t0, "", t0, body);
    }
    if l.body.Some? {
      assert Won(c, l.body.value);
      if InlineDialTarget(l.body.value).Some? && c.directDial {
        assert DirectBy(c, l.body.value);
      }
    }
    if body :| DirectBy(c, body) {
      assert l.body == Some(body);
    }
  }

  // Direct exactly if an admission was won whose body names an address and a port first, and the
  // direct dial works: that address, and that port cut to sixteen bits.
  lemma DirectIff(c: Script, override: Option<Address>, failures: U32, ip: string, port: U16)
    ensures Served(c, override, failures).1 == Direct(Target(ip, port)) <==>
            HasToken(c) && GoesDirect(c, ip, port)
  {
    hide Climb, InlineHint, DirectTarget, GoesDirect, Candidates, FirstDialed, RelayToken;
    if HasToken(c) {
      DirectIs(c, ip, port);
    }
  }

  // Which tokens are shown where, up to the relay and at it.
  lemma ShownIff(c: Script, override: Option<Address>, failures: U32, a: Address, t: Token)
    ensures AtAdmission(a, t) in Served(c, override, failures).0 <==> HasToken(c) && Admits(c, a, t)
    ensures AtRelay(a, t) in Served(c, override, failures).0 <==> exists g :: Presents(c, override, g, a, t)
  {
    hide Climb, InlineHint, DirectTarget, GoesDirect, NotDirect, Reaches, Credential, Candidates, FirstDialed, Admits;
    if HasToken(c) {
      var t0 := c.first.value.token.value;
      var l := Climb(c, t0, InlineHint(c.first.value));
      ClimbIs(c, t0, a, t, Body([], []));
      DirectIs(c, "", 0);
      var cs := Candidates(c.first.value, override);
      var k := FirstDialed(|cs|, 0, c.relayDial);
      if k.Some? {
        ReachesIs(c, override, cs[k.value].0, cs[k.value].1);
        if AtRelay(a, t) in Served(c, override, failures).0 {
          assert Presents(c, override, cs[k.value].0, a, t);
        }
      }
      if g :| Presents(c, override, g, a, t) {
        ReachesIs(c, override, g, a);
        var shown := Served(c, override, failures).0;
        assert shown == l.shown + [AtRelay(a, t)];
        assert shown[|l.shown|] == AtRelay(a, t);
      }
    }
  }

  // In what order: the first token at its admission endpoint, the second at its own, the relay last.
  lemma ShownInOrder(c: Script, override: Option<Address>, failures: U32)
    ensures var shown := Served(c, override, failures).0;
      |shown| <= 3 && (forall i :: 0 <= i < |shown| - 1 ==> shown[i].AtAdmission?) &&
      (HasToken(c) && HasInline(c.first.value) ==>
         shown != [] && shown[0].AtAdmission? && Some(shown[0].token) == c.first.value.token) &&
      (|shown| >= 2 && shown[1].AtAdmission? ==> c.retry.Some? && Some(shown[1].token) == c.retry.value.token)
  {
    hide InlineHint, HasInline, DirectTarget, Candidates, FirstDialed, RelayToken;
    if HasToken(c) {
      HintIs(c.first.value, "");
    }
  }

  // How a connection that shows its token at a relay ends.
  lemma EndsAtRelay(c: Script, override: Option<Address>, failures: U32, g: string, r: Address, t: Token)
    requires Presents(c, override, g, r, t)
    ensures Served(c, override, failures).1 ==
            if !c.written then WriteFailed
            else
              match c.ack
              case AckOk => Relayed(g)
              case AckDenied => Denied
              case AckTimedOut => TimedOut
              case AckFailed => AckBroken
  {
    hide Climb, InlineHint, DirectTarget, GoesDirect, NotDirect, Reaches, Credential, Candidates, FirstDialed;
    var t0 := c.first.value.token.value;
    ClimbIs(c, t0, "", t, Body([], []));
    DirectIs(c, "", 0);
    ReachesIs(c, override, g, r);
  }

  // Relayed through `g` exactly if a token was shown at that gateway's relay and taken, and the
  // acknowledgement was OK; denied exactly if it was a DENY.
  lemma RelayedIff(c: Script, override: Option<Address>, failures: U32, g: string)
    ensures var outcome := Served(c, override, failures).1;
      (outcome == Relayed(g) <==> (exists r, t :: Presents(c, override, g, r, t)) && c.written && c.ack == AckOk) &&
      (outcome == Denied <==> (exists x, r, t :: Presents(c, override, x, r, t)) && c.written && c.ack == AckDenied)
  {
    hide Climb, InlineHint, DirectTarget, Presents, Candidates, FirstDialed;
    var outcome := Served(c, override, failures).1;
    if outcome in {Relayed(g), Denied} {
      var x, r, t := Presented(c, override, failures);
      EndsAtRelay(c, override, failures, x, r, t);
    }
    if x, r, t :| Presents(c, override, x, r, t) {
      EndsAtRelay(c, override, failures, x, r, t);
    }
    if r, t :| Presents(c, override, g, r, t) {
      EndsAtRelay(c, override, failures, g, r, t);
    }
  }

  lemma Presented(c: Script, override: Option<Address>, failures: U32) returns (g: string, r: Address, t: Token)
    requires Served(c, override, failures).1.Relayed? || Served(c, override, failures).1.Denied?
    ensures Presents(c, override, g, r, t)
  {
    hide Climb, InlineHint, DirectTarget, GoesDirect, NotDirect, Reaches, Credential, Candidates, FirstDialed;
    var t0 := c.first.value.token.value;
    var l := Climb(c, t0, InlineHint(c.first.value));
    var cs := Candidates(c.first.value, override);
    var k := FirstDialed(|cs|, 0, c.relayDial);
    g, r := cs[k.value].0, cs[k.value].1;
    t := RelayToken(c, l).value;
    ClimbIs(c, t0, "", t, Body([], []));
    DirectIs(c, "", 0);
    ReachesIs(c, override, g, r);
  }

  // The other ways to end, before any relay.
  lemma EndsEarlyIff(c: Script, override: Option<Address>, failures: U32)
    ensures var outcome := Served(c, override, failures).1;
      (outcome == Refused <==> !c.admissible || c.first.None?) &&
      (outcome == NoToken <==> c.admissible && c.first.Some? && c.first.value.token.None?) &&
      (outcome == NoGateway <==>
         HasToken(c) && NotDirect(c) && override.None? &&
         forall i :: 0 <= i < |c.first.value.gateways| ==> !Full(c.first.value.gateways[i]))
  {
    hide Climb, InlineHint, DirectTarget, GoesDirect, NotDirect, RelayToken, Relays, Full;
    if HasToken(c) {
      DirectIs(c, "", 0);
      var gateways := c.first.value.gateways;
      RelaysAre(gateways, 0);
      if Rank(gateways, |gateways|) > 0 {
        var i := RankOnto(gateways, |gateways|, 0);
      } else {
        forall i | 0 <= i < |gateways|
          ensures !Full(gateways[i])
        {
          RankMonotone(gateways, i, |gateways|);
        }
      }
    }
  }

  // The failures counted: one more if every dial failed, as many as before if no relay was
  // dialed, none after an acknowledgement, OK or DENY, and one after any other dialed attempt.
  lemma FailuresAre(c: Script, override: Option<Address>, failures: U32)
    ensures var dialed := HasToken(c) && NotDirect(c) &&
                          exists g, r :: Reaches(c, override, g, r);
      var acked := (exists g, r, t :: Presents(c, override, g, r, t)) && c.written && c.ack in {AckOk, AckDenied};
      FailuresAfter(Served(c, override, failures).1, failures) ==
      if TokenLadderLaws.AllDialsFail(c, override) then (failures + 1) % 0x1_0000_0000
      else if !dialed then failures
      else if acked then 0
      else 1
  {
    hide Climb, InlineHint, DirectTarget, GoesDirect, NotDirect, Reaches, Credential, Candidates, FirstDialed;
    TokenLadderLaws.BacksOffIff(c, override, failures);
    if HasToken(c) {
      DirectIs(c, "", 0);
      var cs := Candidates(c.first.value, override);
      var k := FirstDialed(|cs|, 0, c.relayDial);
      if k.Some? {
        ReachesIs(c, override, cs[k.value].0, cs[k.value].1);
      }
      if g, r :| Reaches(c, override, g, r) {
        ReachesIs(c, override, g, r);
      }
    }
    AckedIff(c, override, failures);
  }

  lemma AckedIff(c: Script, override: Option<Address>, failures: U32)
    ensures var outcome := Served(c, override, failures).1;
      (outcome.Relayed? || outcome.Denied?) <==>
      (exists g, r, t :: Presents(c, override, g, r, t)) && c.written && c.ack in {AckOk, AckDenied}
  {
    hide Served, Presents;
    if Served(c, override, failures).1.Relayed? || Served(c, override, failures).1.Denied? {
      var g, r, t := Presented(c, override, failures);
      EndsAtRelay(c, override, failures, g, r, t);
    }
    if g, r, t :| Presents(c, override, g, r, t) {
      EndsAtRelay(c, override, failures, g, r, t);
    }
  }

  // The back-off in milliseconds, the random part aside, by the failures counted.
  lemma BackoffTable(failures: U32)
    ensures Backoff(0) == 200 && Backoff(1) == 400 && Backoff(2) == 800 && Backoff(3) == 1600 && Backoff(4) == 3200
    ensures failures >= 5 ==> Backoff(failures) == 6400
  {
    assert Doubled(1) == 2 && Doubled(2) == 4 && Doubled(3) == 8 && Doubled(4) == 16 && Doubled(5) == 32;
  }
}
