/** What the lists of the configuration hold after any sequence of operations. */
module ConfigHistory {
  import opened Text
  import opened ConfigStore

  /** Some of the operations removes the environment. */
  predicate Removes(ops: seq<Op>, name: string) {
    exists i :: 0 <= i < |ops| && ops[i] == RemoveEnv(name)
  }

  /** The environments, or the clusters of environments, that none of the operations removes. */
  function Spared(b: seq<Environment>, ops: seq<Op>): seq<Environment> {
    if b == [] then [] else (if Removes(ops, b[0].name) then [] else [b[0]]) + Spared(b[1..], ops)
  }

  function SparedClusters(cs: seq<Cluster>, ops: seq<Op>): seq<Cluster> {
    if cs == [] then [] else (if Removes(ops, cs[0].environment) then [] else [cs[0]]) + SparedClusters(cs[1..], ops)
  }

  lemma RemovesSplit(ops: seq<Op>, name: string)
    requires ops != []
    ensures Removes(ops, name) <==> ops[0] == RemoveEnv(name) || Removes(ops[1..], name)
  {
    if Removes(ops, name) {
      var i :| 0 <= i < |ops| && ops[i] == RemoveEnv(name);
      if i > 0 { assert ops[1..][i - 1] == RemoveEnv(name); }
    }
    if Removes(ops[1..], name) {
      var i :| 0 <= i < |ops| - 1 && ops[1..][i] == RemoveEnv(name);
      assert ops[i + 1] == RemoveEnv(name);
    }
  }

  lemma {:induction false} SparedStep(b: seq<Environment>, ops: seq<Op>)
    requires ops != []
    ensures Spared(b, ops) ==
              Spared(if ops[0].RemoveEnv? then WithoutEnvironment(b, ops[0].name) else b, ops[1..])
    decreases |b|
  {
    if b != [] {
      RemovesSplit(ops, b[0].name);
      SparedStep(b[1..], ops);
      if ops[0].RemoveEnv? && b[0].name != ops[0].name {
        var rest := WithoutEnvironment(b[1..], ops[0].name);
        assert WithoutEnvironment(b, ops[0].name) == [b[0]] + rest && ([b[0]] + rest)[1..] == rest;
      } else if ops[0].RemoveEnv? {
        assert WithoutEnvironment(b, ops[0].name) == WithoutEnvironment(b[1..], ops[0].name);
      }
    }
  }

  lemma {:induction false} SparedClustersStep(cs: seq<Cluster>, ops: seq<Op>)
    requires ops != []
    ensures SparedClusters(cs, ops) ==
              SparedClusters(if ops[0].RemoveEnv? then WithoutClusters(cs, ops[0].name) else cs, ops[1..])
    decreases |cs|
  {
    if cs != [] {
      RemovesSplit(ops, cs[0].environment);
      SparedClustersStep(cs[1..], ops);
      if ops[0].RemoveEnv? && cs[0].environment != ops[0].name {
        var rest := WithoutClusters(cs[1..], ops[0].name);
        assert WithoutClusters(cs, ops[0].name) == [cs[0]] + rest && ([cs[0]] + rest)[1..] == rest;
      } else if ops[0].RemoveEnv? {
        assert WithoutClusters(cs, ops[0].name) == WithoutClusters(cs[1..], ops[0].name);
      }
    }
  }

  lemma {:induction false} SparedConcat(a: seq<Environment>, b: seq<Environment>, ops: seq<Op>)
    ensures Spared(a + b, ops) == Spared(a, ops) + Spared(b, ops)
  {
    if a == [] {
      assert a + b == b;
    } else {
      assert (a + b)[0] == a[0] && (a + b)[1..] == a[1..] + b;
      SparedConcat(a[1..], b, ops);
      var first := if Removes(ops, a[0].name) then [] else [a[0]];
      assert first + (Spared(a[1..], ops) + Spared(b, ops)) == (first + Spared(a[1..], ops)) + Spared(b, ops);
    }
  }

  lemma {:induction false} SparedClustersConcat(a: seq<Cluster>, b: seq<Cluster>, ops: seq<Op>)
    ensures SparedClusters(a + b, ops) == SparedClusters(a, ops) + SparedClusters(b, ops)
  {
    if a == [] {
      assert a + b == b;
    } else {
      assert (a + b)[0] == a[0] && (a + b)[1..] == a[1..] + b;
      SparedClustersConcat(a[1..], b, ops);
      var first := if Removes(ops, a[0].environment) then [] else [a[0]];
      var rest, last := SparedClusters(a[1..], ops), SparedClusters(b, ops);
      assert first + (rest + last) == (first + rest) + last;
    }
  }

  /** Everything present that no operation removes is there at the end, first and in order. */
  ghost predicate StaysFirst(conf: Conf, ops: seq<Op>, after: Conf) {
    && conf.providers <= after.providers
    && Spared(conf.environments, ops) <= after.environments
    && SparedClusters(conf.clusters, ops) <= after.clusters
  }

  /** Over every sequence of appends and removals the providers stay, and so do, in order and
      before everything added, the environments and clusters that no operation removes. As it
      holds from every moment on, it holds of what is added as well. */
  lemma {:induction false} NothingLost(conf: Conf, flag: string, ops: seq<Op>)
    requires UniqueNames(conf)
    ensures StaysFirst(conf, ops, ApplyAll(conf, flag, ops))
    decreases |ops|
  {
    if ops == [] {
      SparedByNone(conf.environments);
      ClustersSparedByNone(conf.clusters);
    } else {
      var next, rest := Apply(conf, flag, ops[0]), ops[1..];
      ApplyKeepsUnique(conf, flag, ops[0]);
      NothingLost(next, flag, rest);
      SparedStep(conf.environments, ops);
      SparedClustersStep(conf.clusters, ops);
      OneApplied(conf, flag, ops[0]);
      var (environments, clusters) := Left(conf, ops[0]);
      SparedConcat(environments, next.environments[|environments|..], rest);
      SparedClustersConcat(clusters, next.clusters[|clusters|..], rest);
      assert next.environments == environments + next.environments[|environments|..];
      assert next.clusters == clusters + next.clusters[|clusters|..];
    }
  }

  lemma {:induction false} SparedByNone(b: seq<Environment>)
    ensures Spared(b, []) == b
  {
    if b != [] { SparedByNone(b[1..]); }
  }

  lemma {:induction false} ClustersSparedByNone(cs: seq<Cluster>)
    ensures SparedClusters(cs, []) == cs
  {
    if cs != [] { ClustersSparedByNone(cs[1..]); }
  }

  /** What an operation leaves of the environments and clusters that were there. */
  function Left(conf: Conf, op: Op): (seq<Environment>, seq<Cluster>) {
    if op.RemoveEnv? then (WithoutEnvironment(conf.environments, op.name), WithoutClusters(conf.clusters, op.name))
    else (conf.environments, conf.clusters)
  }

  lemma OneApplied(conf: Conf, flag: string, op: Op)
    requires UniqueNames(conf)
    ensures var next, (environments, clusters) := Apply(conf, flag, op), Left(conf, op);
            conf.providers <= next.providers && environments <= next.environments && clusters <= next.clusters
  {
    if op.RemoveEnv? { RangeRemovalExact(conf.environments, op.name); }
  }

  /** What an append would add is in the configuration. */
  predicate Holds(conf: Conf, op: Op) {
    match op
    case AddProvider(p) => p in conf.providers
    case AddEnvironment(e) => e in conf.environments
    case AddCluster(c) => c in conf.clusters
    case RemoveEnv(_) => false
  }

  predicate IsNew(conf: Conf, op: Op) {
    match op
    case AddProvider(p) => ProviderIsNew(conf, p.name)
    case AddEnvironment(e) => EnvironmentIsNew(conf, e.name)
    case AddCluster(c) => ClusterIsNew(conf, c.environment, c.name)
    case RemoveEnv(_) => false
  }

  /** None of the operations removes what the append adds. */
  predicate NotRemoved(ops: seq<Op>, op: Op) {
    && (op.AddEnvironment? ==> !Removes(ops, op.e.name))
    && (op.AddCluster? ==> !Removes(ops, op.c.environment))
  }

  /** Operation `i` is this append, its name is new by then, and nothing removes it later. */
  predicate AddsAt(conf: Conf, flag: string, ops: seq<Op>, i: nat, op: Op) {
    i < |ops| && ops[i] == op && IsNew(ApplyAll(conf, flag, ops[..i]), op) && NotRemoved(ops[i + 1..], op)
  }

  ghost predicate Adds(conf: Conf, flag: string, ops: seq<Op>, op: Op) {
    exists i: nat :: AddsAt(conf, flag, ops, i, op)
  }

  lemma {:induction false} WithoutEnvironmentLeft(b: seq<Environment>, name: string, e: Environment)
    ensures e in WithoutEnvironment(b, name) <==> e in b && e.name != name
  {
    if b != [] {
      WithoutEnvironmentLeft(b[1..], name, e);
      assert b == [b[0]] + b[1..];
    }
  }

  /** One operation keeps what it does not remove, and adds what it appends if the name is new. */
  lemma HoldsAfterOne(conf: Conf, flag: string, last: Op, op: Op)
    requires UniqueNames(conf) && !op.RemoveEnv?
    ensures Holds(Apply(conf, flag, last), op) <==>
              (Holds(conf, op) && NotRemoved([last], op)) || (last == op && IsNew(conf, op))
  {
    assert [last][0] == last;
    if last.RemoveEnv? {
      RangeRemovalExact(conf.environments, last.name);
      if op.AddEnvironment? { WithoutEnvironmentLeft(conf.environments, last.name, op.e); }
      if op.AddCluster? { ClustersLeft(conf.clusters, last.name, op.c); }
    }
  }

  lemma {:induction false} ApplyAllLast(conf: Conf, flag: string, ops: seq<Op>, last: Op)
    ensures ApplyAll(conf, flag, ops + [last]) == Apply(ApplyAll(conf, flag, ops), flag, last)
    decreases |ops|
  {
    var all := ops + [last];
    if ops == [] {
      assert all == [last] && all[1..] == [];
    } else {
      assert all[0] == ops[0] && all[1..] == ops[1..] + [last];
      ApplyAllLast(Apply(conf, flag, ops[0]), flag, ops[1..], last);
    }
  }

  lemma RemovesLast(ops: seq<Op>, last: Op, op: Op)
    ensures NotRemoved(ops + [last], op) <==> NotRemoved(ops, op) && NotRemoved([last], op)
  {
    RemovesOneOf(ops, last, if op.AddEnvironment? then op.e.name else if op.AddCluster? then op.c.environment else "");
  }

  lemma RemovesOneOf(ops: seq<Op>, last: Op, name: string)
    ensures Removes(ops + [last], name) <==> Removes(ops, name) || Removes([last], name)
  {
    assert (ops + [last])[|ops|] == last == [last][0];
    if Removes(ops, name) {
      var i :| 0 <= i < |ops| && ops[i] == RemoveEnv(name);
      assert (ops + [last])[i] == RemoveEnv(name);
    }
  }

  lemma AddsLast(conf: Conf, flag: string, ops: seq<Op>, last: Op, op: Op)
    ensures Adds(conf, flag, ops + [last], op) <==>
              || (Adds(conf, flag, ops, op) && NotRemoved([last], op))
              || (last == op && IsNew(ApplyAll(conf, flag, ops), op))
  {
    var all, n := ops + [last], |ops|;
    assert all[..n] == ops && all[n + 1..] == [] && all[n] == last;
    forall i: nat | i < n
      ensures AddsAt(conf, flag, all, i, op) <==> AddsAt(conf, flag, ops, i, op) && NotRemoved([last], op)
    {
      assert all[..i] == ops[..i] && all[i + 1..] == ops[i + 1..] + [last];
      RemovesLast(ops[i + 1..], last, op);
    }
    if Adds(conf, flag, ops, op) {
      var i: nat :| AddsAt(conf, flag, ops, i, op);
      assert i < n;
    }
    if last == op && IsNew(ApplyAll(conf, flag, ops), op) { assert AddsAt(conf, flag, all, n, op); }
  }

  /** Over every sequence of appends and removals: something is in the configuration at the end
      if and only if it was there or was appended under a name that was new by then, and no
      later operation removes its environment. */
  lemma {:induction false} HoldsExactly(conf: Conf, flag: string, ops: seq<Op>, op: Op)
    requires UniqueNames(conf) && !op.RemoveEnv?
    ensures Holds(ApplyAll(conf, flag, ops), op) <==>
              (Holds(conf, op) && NotRemoved(ops, op)) || Adds(conf, flag, ops, op)
    decreases |ops|
  {
    if ops != [] {
      var n := |ops| - 1;
      var before, last := ops[..n], ops[n];
      assert ops == before + [last];
      HoldsExactly(conf, flag, before, op);
      NamesStayUnique(conf, flag, before, "");
      ApplyAllLast(conf, flag, before, last);
      HoldsAfterOne(ApplyAll(conf, flag, before), flag, last, op);
      RemovesLast(before, last, op);
      AddsLast(conf, flag, before, last, op);
    }
  }
}
