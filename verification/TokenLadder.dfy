// One connection of serve_dest (client/src/lib.rs): decision, inline admission, relay.
module TokenLadder {
  import opened Prelude

  type Token = string
  type Address = string

  // What a decision's body holds of each serving gateway; absent or ill-typed fields are None.
  datatype Gateway = Gateway(id: Option<string>, relay: Option<Address>, inlineAddr: Option<Address>)

  datatype Decision = Decision(token: Option<Token>, inlineFlag: bool, gateways: seq<Gateway>)

  datatype Body = Body(ips: seq<Option<string>>, ports: seq<Option<nat>>)

  datatype Admission = Failed | Admitted(body: Body)

  datatype Target = Target(ip: string, port: U16)

  datatype Ack = AckOk | AckDenied | AckTimedOut | AckFailed

  // Everything the world answers during one connection. A decision is None when the request
  // fails, is denied or cannot be decoded.
  datatype Script = Script(
    admissible: bool,               // the owner check and the posture
    first: Option<Decision>,
    admit0: Admission,
    retry: Option<Decision>,
    admit1: Admission,
    directDial: bool,
    relayDial: nat -> bool,         // by position in the candidate list
    refresh: Option<Decision>,
    written: bool,
    ack: Ack)

  datatype Presentation = AtAdmission(address: Address, token: Token) | AtRelay(relay: Address, token: Token)

  datatype Outcome =
    | Refused | NoToken | Direct(target: Target) | NoGateway | Unreachable(backoff: nat)
    | Aborted | WriteFailed | Denied | TimedOut | AckBroken | Relayed(gateway: string)

  // ---------- reading a decision ----------

  function FirstInline(gateways: seq<Gateway>): Option<Address> {
    if gateways == [] then None
    else if gateways[0].inlineAddr.Some? then gateways[0].inlineAddr
    else FirstInline(gateways[1..])
  }

  function InlineHint(d: Decision): Option<Address> {
    if d.inlineFlag then FirstInline(d.gateways) else None
  }

  // The port is cut to sixteen bits.
  function InlineDialTarget(body: Body): Option<Target> {
    if body.ips != [] && body.ips[0].Some? && body.ports != [] && body.ports[0].Some? then
      Some(Target(body.ips[0].value, body.ports[0].value % 0x1_0000))
    else None
  }

  function Relays(gateways: seq<Gateway>): seq<(string, Address)> {
    if gateways == [] then []
    else
      var g := gateways[0];
      (if g.id.Some? && g.relay.Some? then [(g.id.value, g.relay.value)] else []) + Relays(gateways[1..])
  }

  function Candidates(d: Decision, override: Option<Address>): seq<(string, Address)> {
    if override.Some? then [("override", override.value)] else Relays(d.gateways)
  }

  // Candidates are tried in order; only a failed dial moves on.
  function FirstDialed(candidates: nat, from: nat, dial: nat -> bool): (r: Option<nat>)
    requires from <= candidates
    ensures r.Some? ==> from <= r.value < candidates && dial(r.value) && forall i :: from <= i < r.value ==> !dial(i)
    ensures r.None? ==> forall i :: from <= i < candidates ==> !dial(i)
    decreases candidates - from
  {
    if from == candidates then None else if dial(from) then Some(from) else FirstDialed(candidates, from + 1, dial)
  }

  // ---------- the inline ladder ----------

  // The credential the relay would get, whether it may be burned, what was shown to admission
  // endpoints, and the admission body if one was won.
  datatype Ladder = Ladder(token: Token, burned: bool, shown: seq<Presentation>, body: Option<Body>)

  function Admitted1(c: Script): Option<Body> { if c.admit1.Admitted? then Some(c.admit1.body) else None }

  function Climb(c: Script, t0: Token, hint: Option<Address>): Ladder {
    if hint.None? then Ladder(t0, false, [], None)
    else
      var shown0 := [AtAdmission(hint.value, t0)];
      if c.admit0.Admitted? then Ladder(t0, true, shown0, Some(c.admit0.body))
      else if c.retry.None? || c.retry.value.token.None? then Ladder(t0, true, shown0, None)
      else
        var t1 := c.retry.value.token.value;
        match InlineHint(c.retry.value)
        case None => Ladder(t1, false, shown0, None)
        case Some(a1) => Ladder(t1, true, shown0 + [AtAdmission(a1, t1)], Admitted1(c))
  }

  method ClimbLadder(c: Script, t0: Token, hint: Option<Address>) returns (l: Ladder)
    ensures l == Climb(c, t0, hint)
  {
    var relayTok, burned := t0, false;
    var shown: seq<Presentation> := [];
    var admitted: Option<Body> := None;
    if hint.Some? {
      var roundAddr, roundTok := hint.value, t0;
      for round := 0 to 2
        invariant round == 0 ==> relayTok == t0 && roundTok == t0 && roundAddr == hint.value && shown == [] && !burned
        invariant round == 1 ==>
                    c.admit0.Failed? && relayTok == t0 && burned && shown == [AtAdmission(hint.value, t0)]
        invariant round == 2 ==> Ladder(relayTok, burned, shown, None) == Climb(c, t0, hint)
        invariant admitted.None?
      {
        if round == 1 {
          if c.retry.None? { break; }
          var decision := c.retry.value;
          var next := InlineHint(decision);
          if decision.token.Some? && next.Some? {
            roundTok := decision.token.value;
            roundAddr := next.value;
            relayTok := roundTok;
          } else if decision.token.Some? {
            relayTok := decision.token.value;
            burned := false;
            break;
          } else {
            break;
          }
        }
        burned := roundTok == relayTok;
        shown := shown + [AtAdmission(roundAddr, roundTok)];
        var answer := if round == 0 then c.admit0 else c.admit1;
        if answer.Admitted? {
          admitted := Some(answer.body);
          break;
        }
      }
    }
    return Ladder(relayTok, burned, shown, admitted);
  }

  // ---------- the connection ----------

  function Backoff(failures: U32): (ms: nat)
    ensures 200 <= ms <= 6400
  {
    Min(200 * Doubled(Min(failures, 5)), 6400)
  }

  function Doubled(n: nat): (p: nat)
    ensures p >= 1
  {
    if n == 0 then 1 else 2 * Doubled(n - 1)
  }

  function Next(failures: U32): U32 { (failures + 1) % 0x1_0000_0000 }

  function Acked(ack: Ack, gateway: string): Outcome {
    match ack
    case AckOk => Relayed(gateway)
    case AckDenied => Denied
    case AckTimedOut => TimedOut
    case AckFailed => AckBroken
  }

  // A refresh is wanted only for a credential that may be burned.
  function RelayToken(c: Script, l: Ladder): Option<Token> {
    if !l.burned then Some(l.token)
    else if c.refresh.None? then None
    else c.refresh.value.token
  }

  function AtTheRelay(c: Script, l: Ladder, gateway: (string, Address)): (r: (seq<Presentation>, Outcome)) {
    match RelayToken(c, l)
    case None => ([], Aborted)
    case Some(t) => ([AtRelay(gateway.1, t)], if c.written then Acked(c.ack, gateway.0) else WriteFailed)
  }

  function DirectTarget(c: Script, l: Ladder): Option<Target> {
    if l.body.Some? && c.directDial then InlineDialTarget(l.body.value) else None
  }

  // The relay path: the first candidate that can be dialed.
  function ViaRelay(c: Script, l: Ladder, candidates: seq<(string, Address)>, failures: U32)
    : (seq<Presentation>, Outcome)
  {
    if candidates == [] then ([], NoGateway)
    else
      match FirstDialed(|candidates|, 0, c.relayDial)
      case None => ([], Unreachable(Backoff(Next(failures))))
      case Some(i) => AtTheRelay(c, l, candidates[i])
  }

  // What one connection shows to whom, and how it ends.
  function Served(c: Script, override: Option<Address>, failures: U32): (seq<Presentation>, Outcome) {
    if !c.admissible || c.first.None? then ([], Refused)
    else if c.first.value.token.None? then ([], NoToken)
    else
      var l := Climb(c, c.first.value.token.value, InlineHint(c.first.value));
      if DirectTarget(c, l).Some? then (l.shown, Direct(DirectTarget(c, l).value))
      else
        var (last, outcome) := ViaRelay(c, l, Candidates(c.first.value, override), failures);
        (l.shown + last, outcome)
  }

  function FailuresAfter(outcome: Outcome, failures: U32): U32 {
    match outcome
    case Refused => failures
    case NoToken => failures
    case Direct(_) => failures
    case NoGateway => failures
    case Unreachable(_) => Next(failures)
    case Aborted => 1
    case WriteFailed => 1
    case Denied => 0
    case TimedOut => 1
    case AckBroken => 1
    case Relayed(_) => 0
  }

  class DestServer {
    const override: Option<Address>
    var dialFailures: U32
    var shown: seq<Presentation>   // every presentation so far

    constructor (override: Option<Address>)
      ensures shown == [] && dialFailures == 0 && this.override == override
    {
      this.override, dialFailures, shown := override, 0, [];
    }

    method Connection(c: Script) returns (outcome: Outcome)
      modifies this
      ensures shown == old(shown) + Served(c, override, old(dialFailures)).0
      ensures outcome == Served(c, override, old(dialFailures)).1
      ensures dialFailures == FailuresAfter(outcome, old(dialFailures))
    {
      hide Climb, ViaRelay, InlineDialTarget, Candidates;
      if !c.admissible || c.first.None? { return Refused; }
      var v := c.first.value;
      if v.token.None? { return NoToken; }
      var l := ClimbLadder(c, v.token.value, InlineHint(v));
      shown := shown + l.shown;
      if l.body.Some? {
        var target := InlineDialTarget(l.body.value);
        if target.Some? && c.directDial { return Direct(target.value); }
      }
      outcome := UseRelay(c, l, Candidates(v, override));
    }

    method UseRelay(c: Script, l: Ladder, candidates: seq<(string, Address)>) returns (outcome: Outcome)
      modifies this
      ensures shown == old(shown) + ViaRelay(c, l, candidates, old(dialFailures)).0
      ensures outcome == ViaRelay(c, l, candidates, old(dialFailures)).1
      ensures dialFailures == FailuresAfter(outcome, old(dialFailures))
    {
      hide Backoff, RelayToken;
      if candidates == [] { return NoGateway; }
      var i := 0;
      while i < |candidates| && !c.relayDial(i)
        invariant i <= |candidates|
        invariant FirstDialed(|candidates|, i, c.relayDial) == FirstDialed(|candidates|, 0, c.relayDial)
      {
        i := i + 1;
      }
      if i == |candidates| {
        dialFailures := Next(dialFailures);
        return Unreachable(Backoff(dialFailures));
      }
      dialFailures := 0;
      outcome := Present(c, l, candidates[i]);
    }

    method Present(c: Script, l: Ladder, gateway: (string, Address)) returns (outcome: Outcome)
      requires dialFailures == 0
      modifies this
      ensures shown == old(shown) + AtTheRelay(c, l, gateway).0
      ensures outcome == AtTheRelay(c, l, gateway).1
      ensures dialFailures == FailuresAfter(outcome, 0)
    {
      var relayTok := l.token;
      if l.burned {
        var refreshed := if c.refresh.Some? then c.refresh.value.token else None;
        if refreshed.None? {
          dialFailures := Next(dialFailures);
          return Aborted;
        }
        relayTok := refreshed.value;
      }
      shown := shown + [AtRelay(gateway.1, relayTok)];
      if !c.written {
        dialFailures := Next(dialFailures);
        return WriteFailed;
      }
      match c.ack {
        case AckOk => return Relayed(gateway.0);
        case AckDenied => return Denied;
        case AckTimedOut => dialFailures := Next(dialFailures); return TimedOut;
        case AckFailed => dialFailures := Next(dialFailures); return AckBroken;
      }
    }
  }
}
