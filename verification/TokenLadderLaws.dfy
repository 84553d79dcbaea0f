// Connection tokens are used once, over every run of every destination (client/src/lib.rs).
module TokenLadderLaws {
  import opened Prelude
  import opened TokenLadder

  function Tokens(shown: seq<Presentation>): seq<Token> { seq(|shown|, i requires 0 <= i < |shown| => shown[i].token) }

  function TokenOf(d: Option<Decision>): seq<Token> {
    if d.Some? && d.value.token.Some? then [d.value.token.value] else []
  }

  // Whether the connection gets past the first decision with a token.
  predicate HasToken(c: Script) { c.admissible && c.first.Some? && c.first.value.token.Some? }

  function LadderOf(c: Script): Ladder
    requires HasToken(c)
  {
    Climb(c, c.first.value.token.value, InlineHint(c.first.value))
  }

  // A second decision is asked for after a failed admission, a third for a burned credential.
  predicate Retries(c: Script) { HasToken(c) && InlineHint(c.first.value).Some? && c.admit0.Failed? }

  predicate Refreshes(c: Script, override: Option<Address>) {
    HasToken(c) && DirectTarget(c, LadderOf(c)).None? && LadderOf(c).burned &&
    FirstDialed(|Candidates(c.first.value, override)|, 0, c.relayDial).Some?
  }

  // The tokens the controller mints during one connection, in order.
  function Minted(c: Script, override: Option<Address>): seq<Token> {
    (if c.admissible then TokenOf(c.first) else []) +
    (if Retries(c) then TokenOf(c.retry) else []) +
    (if Refreshes(c, override) then TokenOf(c.refresh) else [])
  }

  predicate Distinct<T(==)>(s: seq<T>) { forall i, j :: 0 <= i < j < |s| ==> s[i] != s[j] }

  // ---------- one connection ----------

  // The flag is exact: the credential held for the relay may be burned if and only if it has
  // been shown to an admission endpoint.
  lemma BurnedIsExact(c: Script)
    requires HasToken(c)
    requires Distinct(TokenOf(c.first) + (if Retries(c) then TokenOf(c.retry) else []))
    ensures LadderOf(c).burned <==> LadderOf(c).token in Tokens(LadderOf(c).shown)
  {
    var t0 := c.first.value.token.value;
    var l := LadderOf(c);
    if InlineHint(c.first.value).Some? {
      assert Tokens([AtAdmission(InlineHint(c.first.value).value, t0)]) == [t0];
      if Retries(c) && c.retry.Some? && c.retry.value.token.Some? {
        var t1 := c.retry.value.token.value;
        var minted := TokenOf(c.first) + TokenOf(c.retry);
        assert minted[0] == t0 && minted[1] == t1;
        if InlineHint(c.retry.value).Some? {
          assert Tokens(l.shown) == [t0, t1];
        }
      }
    }
  }

  // Up to the relay, each token shown is one that was minted, and no more often.
  lemma LadderShowsMinted(c: Script)
    requires HasToken(c)
    ensures var l := LadderOf(c);
      multiset(Tokens(l.shown)) + (if l.burned then multiset{} else multiset{l.token}) <=
      multiset(TokenOf(c.first) + (if Retries(c) then TokenOf(c.retry) else []))
  {
    var t0 := c.first.value.token.value;
    var l := LadderOf(c);
    if InlineHint(c.first.value).Some? {
      if Retries(c) && c.retry.Some? && c.retry.value.token.Some? {
        var t1 := c.retry.value.token.value;
        assert TokenOf(c.first) + TokenOf(c.retry) == [t0, t1];
        if InlineHint(c.retry.value).Some? {
          assert Tokens(l.shown) == [t0, t1];
        } else {
          assert Tokens(l.shown) == [t0];
        }
      } else {
        assert Tokens(l.shown) == [t0];
        assert TokenOf(c.first) + [] == [t0];
      }
    } else {
      assert Tokens(l.shown) == [];
      assert TokenOf(c.first) + [] == [t0];
    }
  }

  lemma TokensConcat(a: seq<Presentation>, b: seq<Presentation>)
    ensures multiset(Tokens(a + b)) == multiset(Tokens(a)) + multiset(Tokens(b))
  {
    assert Tokens(a + b) == Tokens(a) + Tokens(b);
  }

  // One connection shows no token more often than the controller minted it.
  lemma ServedShowsMinted(c: Script, override: Option<Address>, failures: U32)
    ensures multiset(Tokens(Served(c, override, failures).0)) <= multiset(Minted(c, override))
  {
    hide Climb, InlineDialTarget, Candidates, FirstDialed, AtTheRelay, Backoff;
    if HasToken(c) {
      var l := LadderOf(c);
      LadderShowsMinted(c);
      var candidates := Candidates(c.first.value, override);
      var dialed := FirstDialed(|candidates|, 0, c.relayDial);
      if DirectTarget(c, l).None? && dialed.Some? {
        RelayShowsMinted(c, override, candidates[dialed.value]);
      }
      assert l.shown + [] == l.shown;
    }
  }

  lemma RelayShowsMinted(c: Script, override: Option<Address>, gateway: (string, Address))
    requires HasToken(c) && DirectTarget(c, LadderOf(c)).None?
    requires FirstDialed(|Candidates(c.first.value, override)|, 0, c.relayDial).Some?
    ensures multiset(Tokens(LadderOf(c).shown + AtTheRelay(c, LadderOf(c), gateway).0)) <= multiset(Minted(c, override))
  {
    hide Climb, InlineDialTarget, Candidates, FirstDialed;
    var l := LadderOf(c);
    LadderShowsMinted(c);
    var last := AtTheRelay(c, l, gateway).0;
    TokensConcat(l.shown, last);
    match RelayToken(c, l) {
      case None => assert Tokens(last) == [];
      case Some(t) => assert Tokens(last) == [t];
    }
  }

  // ---------- backing off ----------

  // The relay path is taken, there are candidates, and not one can be dialed.
  predicate AllDialsFail(c: Script, override: Option<Address>) {
    HasToken(c) && DirectTarget(c, LadderOf(c)).None? &&
    Candidates(c.first.value, override) != [] &&
    forall i :: 0 <= i < |Candidates(c.first.value, override)| ==> !c.relayDial(i)
  }

  // A credential that was shown cannot be replaced once a relay has been dialed.
  predicate RefreshRefused(c: Script, override: Option<Address>) {
    Refreshes(c, override) && (c.refresh.None? || c.refresh.value.token.None?)
  }

  // A connection backs off if and only if every dial failed. One that is aborted for want of a
  // credential is not such a connection: it counts a single failure and sleeps not at all.
  lemma BacksOffIff(c: Script, override: Option<Address>, failures: U32)
    ensures var outcome := Served(c, override, failures).1;
      (outcome.Unreachable? <==> AllDialsFail(c, override)) &&
      (outcome.Unreachable? ==> outcome.backoff == Backoff(FailuresAfter(outcome, failures))) &&
      (outcome == Aborted <==> RefreshRefused(c, override)) &&
      (outcome == Aborted ==> FailuresAfter(outcome, failures) == 1)
  {
    hide Climb, InlineDialTarget, Candidates, Backoff;
  }

  // ---------- every run of every destination ----------

  // A destination's task and the connections it has served.
  datatype Task = Task(override: Option<Address>, served: seq<Script>)

  function ShownBy(t: Task, failures: U32): multiset<Token>
    decreases |t.served|
  {
    if t.served == [] then multiset{}
    else
      var (shown, outcome) := Served(t.served[0], t.override, failures);
      multiset(Tokens(shown)) + ShownBy(t.(served := t.served[1..]), FailuresAfter(outcome, failures))
  }

  function MintedFor(t: Task): multiset<Token>
    decreases |t.served|
  {
    if t.served == [] then multiset{}
    else multiset(Minted(t.served[0], t.override)) + MintedFor(t.(served := t.served[1..]))
  }

  function AllShown(tasks: seq<Task>): multiset<Token> {
    if tasks == [] then multiset{} else ShownBy(tasks[0], 0) + AllShown(tasks[1..])
  }

  function AllMinted(tasks: seq<Task>): multiset<Token> {
    if tasks == [] then multiset{} else MintedFor(tasks[0]) + AllMinted(tasks[1..])
  }

  lemma {:induction false} TaskShowsMinted(t: Task, failures: U32)
    ensures ShownBy(t, failures) <= MintedFor(t)
    decreases |t.served|
  {
    hide Served, Minted;
    if t.served != [] {
      var outcome := Served(t.served[0], t.override, failures).1;
      ServedShowsMinted(t.served[0], t.override, failures);
      TaskShowsMinted(t.(served := t.served[1..]), FailuresAfter(outcome, failures));
    }
  }

  // The milliseconds a destination's task sleeps, the random part aside.
  function Slept(t: Task, failures: U32): nat
    decreases |t.served|
  {
    if t.served == [] then 0
    else
      var outcome := Served(t.served[0], t.override, failures).1;
      (if outcome.Unreachable? then outcome.backoff else 0) +
      Slept(t.(served := t.served[1..]), FailuresAfter(outcome, failures))
  }

  // Over every run a task sleeps if and only if some connection found no relay to dial: refused
  // refreshes alone, however many in a row, never make it pause.
  lemma {:induction false} SleptIff(t: Task, failures: U32)
    ensures Slept(t, failures) > 0 <==> exists i :: 0 <= i < |t.served| && AllDialsFail(t.served[i], t.override)
    decreases |t.served|
  {
    hide Served, AllDialsFail;
    if t.served != [] {
      var outcome := Served(t.served[0], t.override, failures).1;
      var rest := t.(served := t.served[1..]);
      BacksOffIff(t.served[0], t.override, failures);
      SleptIff(rest, FailuresAfter(outcome, failures));
      if i :| 0 <= i < |t.served| && AllDialsFail(t.served[i], t.override) {
        assert i > 0 ==> rest.served[i - 1] == t.served[i];
      }
      if i :| 0 <= i < |rest.served| && AllDialsFail(rest.served[i], t.override) {
        assert t.served[i + 1] == rest.served[i];
      }
    }
  }

  lemma {:induction false} TasksShowMinted(tasks: seq<Task>)
    ensures AllShown(tasks) <= AllMinted(tasks)
  {
    if tasks != [] {
      TaskShowsMinted(tasks[0], 0);
      TasksShowMinted(tasks[1..]);
    }
  }

  // If the controller never mints a token twice, then in every interleaving of any number of
  // destinations' connections, whatever the world answers and wherever the log is cut off, no
  // token is shown twice.
  lemma NoTokenTwice(tasks: seq<Task>, log: seq<Presentation>)
    requires forall t :: t in AllMinted(tasks) ==> AllMinted(tasks)[t] == 1
    requires multiset(Tokens(log)) <= AllShown(tasks)
    ensures Distinct(Tokens(log))
  {
    var s := Tokens(log);
    forall i, j | 0 <= i < j < |s|
      ensures s[i] != s[j]
    {
      TwiceCounted(s, i, j);
      ShownOnce(tasks, s[i]);
    }
  }

  lemma ShownOnce(tasks: seq<Task>, tok: Token)
    requires forall t :: t in AllMinted(tasks) ==> AllMinted(tasks)[t] == 1
    ensures AllShown(tasks)[tok] <= 1
  {
    TasksShowMinted(tasks);
    assert AllShown(tasks)[tok] <= AllMinted(tasks)[tok];
  }

  lemma TwiceCounted(s: seq<Token>, i: nat, j: nat)
    requires i < j < |s|
    ensures s[i] == s[j] ==> multiset(s)[s[i]] >= 2
  {
    assert s == s[..i] + [s[i]] + s[i + 1..j] + [s[j]] + s[j + 1..];
  }
}
