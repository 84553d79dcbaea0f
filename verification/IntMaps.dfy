// Sums and ordered walks over integer-keyed maps (the source's HashMap and BTreeMap).
module IntMaps {
  import opened Prelude

  function MinKey(s: set<int>): (k: int)
    requires s != {}
    ensures k in s && forall j :: j in s ==> k <= j
  {
    LeastExists(s);
    var k :| k in s && forall j :: j in s ==> k <= j;
    k
  }

  lemma HasMember(s: set<int>)
    ensures s == {} || exists x :: x in s
  {
    if forall x :: x !in s {
      assert s == {};
    }
  }

  lemma {:induction false} LeastExists(s: set<int>)
    requires s != {}
    ensures exists k :: k in s && forall j :: j in s ==> k <= j
  {
    HasMember(s);
    var x :| x in s;
    var rest := s - {x};
    if rest == {} {
      assert s == {x};
    } else {
      LeastExists(rest);
      var k :| k in rest && forall j :: j in rest ==> k <= j;
      var least := Min(k, x);
      assert forall j :: j in s ==> j == x || j in rest;
      assert least in s;
    }
  }

  function SumValues(m: map<int, nat>): (n: nat)
    decreases |m|
  {
    if m == map[] then 0
    else
      var k := MinKey(m.Keys);
      SmallerMap(m, k);
      m[k] + SumValues(m - {k})
  }

  lemma SmallerMap<V>(m: map<int, V>, k: int)
    requires k in m
    ensures |m - {k}| == |m| - 1
  {
    assert (m - {k}).Keys == m.Keys - {k};
    assert |(m - {k}).Keys| == |m.Keys| - 1;
  }

  // Taking any one entry out of a sum takes out its value.
  lemma {:induction false} SumRemove(m: map<int, nat>, k: int)
    requires k in m
    ensures SumValues(m) == m[k] + SumValues(m - {k})
    decreases |m|
  {
    var least := MinKey(m.Keys);
    if k != least {
      SmallerMap(m, least);
      SmallerMap(m, k);
      SumRemove(m - {least}, k);
      var n := m - {k};
      assert least in n.Keys;
      assert MinKey(n.Keys) == least;
      assert n - {least} == m - {least} - {k};
    }
  }

  lemma {:induction false} SumBound(m: map<int, nat>, bound: nat)
    requires forall k :: k in m ==> m[k] <= bound
    ensures SumValues(m) <= |m| * bound
    decreases |m|
  {
    NoSum();
    hide SumValues;
    if m != map[] {
      var k := MinKey(m.Keys);
      SumRemove(m, k);
      SmallerMap(m, k);
      SumBound(m - {k}, bound);
      AddOne(|m| - 1, bound);
    }
  }

  lemma NoSum()
    ensures SumValues(map[]) == 0
  {
  }

  lemma AddOne(n: nat, bound: nat)
    ensures (n + 1) * bound == n * bound + bound
  {
  }
}
