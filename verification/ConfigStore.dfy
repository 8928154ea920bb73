/** The tarmak configuration: providers, environments and clusters, changed in place. */
module ConfigStore {
  import opened Text

  datatype Provider = Provider(name: string, body: string)
  datatype Environment = Environment(name: string, body: string)
  datatype Cluster = Cluster(environment: string, name: string, body: string)

  datatype Conf = Conf(currentCluster: string, providers: seq<Provider>, environments: seq<Environment>,
                       clusters: seq<Cluster>)

  const EmptyConf := Conf("", [], [], [])

  /* ---------- removing an environment from a slice while ranging over it ---------- */

  /** The environments without those of a name, in order. */
  function WithoutEnvironment(b: seq<Environment>, name: string): seq<Environment> {
    if b == [] then []
    else (if b[0].name == name then [] else [b[0]]) + WithoutEnvironment(b[1..], name)
  }

  /** What `for key, env := range s { if env.Name == name { s = append(s[:key], s[key+1:]...) } }`
      makes of the elements from index `i` on, after `r` removals. A removal moves the next
      element under the index just visited, so it is not looked at; and the range, whose
      length is fixed, ends on stale copies of the last element. `None` is a slice bound out
      of range. */
  function Scan(b: seq<Environment>, i: nat, r: nat, name: string): Option<seq<Environment>>
    requires r <= i
    decreases |b| - i
  {
    if i >= |b| then
      if i - r < |b| && b[|b| - 1].name == name then None else Some([])
    else if b[i].name != name then Prepend([b[i]], Scan(b, i + 1, r, name))
    else Prepend(if i + 1 < |b| then [b[i + 1]] else [], Scan(b, i + 2, r + 1, name))
  }

  function Prepend(a: seq<Environment>, r: Option<seq<Environment>>): Option<seq<Environment>> {
    if r.None? then None else Some(a + r.value)
  }

  /** The loop on the backing array of the slice; `len` is the length of the slice. */
  method RangeRemove(a: array<Environment>, name: string) returns (len: nat, panicked: bool)
    modifies a
    ensures match Scan(old(a[..]), 0, 0, name)
            case None => panicked
            case Some(kept) => !panicked && len <= a.Length && a[..len] == kept
  {
    ghost var b, r := a[..], 0;
    len, panicked := a.Length, false;
    var key := 0;
    PrependNothing(Scan(b, 0, 0, name));
    while key < a.Length && !panicked
      invariant key <= a.Length
      invariant panicked ==> Scan(b, 0, 0, name) == None
      invariant !panicked ==> len == a.Length - r && Progress(a[..], b, key, r, name)
      decreases a.Length - key
    {
      len, panicked, r := VisitSlot(a, key, len, name, b, r);
      key := key + 1;
    }
    if !panicked { Finishes(a[..], b, r, name); }
  }

  /** The body of the loop. */
  method VisitSlot(a: array<Environment>, key: nat, len: nat, name: string, ghost b: seq<Environment>, ghost r: nat)
    returns (len': nat, panicked: bool, ghost r': nat)
    requires key < a.Length && len == a.Length - r && Progress(a[..], b, key, r, name)
    modifies a
    ensures panicked ==> Scan(b, 0, 0, name) == None
    ensures !panicked ==> len' == a.Length - r' && Progress(a[..], b, key + 1, r', name)
  {
    ghost var s := a[..];
    len', panicked, r' := len, false, r;
    if a[key].name == name {
      if key + 1 > len {
        Panics(s, b, key, r, name);
        return len, true, r;
      }
      CloseGap(a, key, len);
      CutLayout(s, a[..], b, key, r, name);
      len', r' := len - 1, r + 1;
    } else {
      KeepLayout(s, b, key, r, name);
    }
  }

  /** The range comes upon a stale copy of the name. */
  lemma Panics(s: seq<Environment>, b: seq<Environment>, key: nat, r: nat, name: string)
    requires Progress(s, b, key, r, name) && |s| - r <= key < |s| && s[key].name == name
    ensures Scan(b, 0, 0, name) == None
  {
    assert Slot(s, b, key, r, key);
  }

  lemma Finishes(s: seq<Environment>, b: seq<Environment>, r: nat, name: string)
    requires Progress(s, b, |s|, r, name)
    ensures Scan(b, 0, 0, name) == Some(s[..|s| - r])
  {
    if r > 0 { assert Slot(s, b, |s|, r, |s| - 1); }
    assert s[..|s| - r] + [] == s[..|s| - r];
  }

  /** `append(s[:key], s[key+1:]...)` moves the elements after `key` one place down. */
  method CloseGap(a: array<Environment>, key: nat, len: nat)
    requires key < len <= a.Length
    modifies a
    ensures a[..] == Cut(old(a[..]), key, len)
  {
    ghost var s := a[..];
    var m := key;
    while m + 1 < len
      invariant key <= m < len
      invariant forall p :: 0 <= p < a.Length ==> a[p] == Moved(s, key, m, p)
    {
      a[m] := a[m + 1];
      m := m + 1;
    }
    forall p | 0 <= p < a.Length ensures a[..][p] == Cut(s, key, len)[p] { CutAt(s, key, len, p); }
  }

  /** Element `p` once the elements up to `m` have moved down. */
  function Moved(s: seq<Environment>, key: nat, m: nat, p: nat): Environment
    requires key <= m < |s| && p < |s|
  {
    if key <= p < m then s[p + 1] else s[p]
  }

  function Cut(s: seq<Environment>, key: nat, len: nat): (t: seq<Environment>)
    requires key < len <= |s|
    ensures |t| == |s|
  {
    s[..key] + s[key + 1..len] + s[len - 1..]
  }

  function Min(a: nat, b: nat): nat {
    if a < b then a else b
  }

  /** The backing array after `key` steps and `r` removals: from `key` on it is the original
      moved down by `r`, followed by copies of the last element. */
  ghost predicate Layout(s: seq<Environment>, b: seq<Environment>, key: nat, r: nat) {
    |s| == |b| && r <= key && r <= |b| && forall p :: Slot(s, b, key, r, p)
  }

  ghost predicate Slot(s: seq<Environment>, b: seq<Environment>, key: nat, r: nat, p: int)
    requires |s| == |b|
  {
    && (0 <= key <= p < |b| - r ==> s[p] == b[p + r])
    && (0 <= |b| - r <= p < |b| ==> s[p] == b[|b| - 1])
  }

  /** The slots below `key` are final; what the loop will return begins with them. */
  ghost predicate Progress(s: seq<Environment>, b: seq<Environment>, key: nat, r: nat, name: string) {
    && Layout(s, b, key, r)
    && Scan(b, 0, 0, name) == Prepend(s[..Min(key, |s| - r)], Scan(b, key + r, r, name))
  }

  lemma PrependNothing(r: Option<seq<Environment>>)
    ensures Prepend([], r) == r
  {
    if r.Some? { assert [] + r.value == r.value; }
  }

  lemma KeepLayout(s: seq<Environment>, b: seq<Environment>, key: nat, r: nat, name: string)
    requires Progress(s, b, key, r, name) && key < |s| && s[key].name != name
    ensures Progress(s, b, key + 1, r, name)
  {
    assert Slot(s, b, key, r, key);
    var key' := key + 1;
    forall p ensures Slot(s, b, key', r, p) { assert Slot(s, b, key, r, p); }
    if key < |s| - r {
      assert s[..key + 1] == s[..key] + [b[key + r]];
      PrependTwice(s[..key], [b[key + r]], Scan(b, key + 1 + r, r, name));
    }
  }

  lemma CutLayout(s: seq<Environment>, s': seq<Environment>, b: seq<Environment>, key: nat, r: nat, name: string)
    requires Progress(s, b, key, r, name) && key < |s| - r && s[key].name == name && s' == Cut(s, key, |s| - r)
    ensures Progress(s', b, key + 1, r + 1, name)
  {
    var i := key + r;
    var next := if i + 1 < |b| then [b[i + 1]] else [];
    assert Slot(s, b, key, r, key);
    CutKeepsLayout(s, b, key, r);
    PrependTwice(s[..key], next, Scan(b, i + 2, r + 1, name));
  }

  lemma CutKeepsLayout(s: seq<Environment>, b: seq<Environment>, key: nat, r: nat)
    requires Layout(s, b, key, r) && key < |s| - r
    ensures var s' := Cut(s, key, |s| - r);
            && Layout(s', b, key + 1, r + 1)
            && s'[..Min(key + 1, |s| - r - 1)] == s[..key] + (if key + r + 1 < |b| then [b[key + r + 1]] else [])
  {
    var len := |s| - r;
    var s', key', r' := Cut(s, key, len), key + 1, r + 1;
    forall p ensures Slot(s', b, key', r', p) {
      if 0 <= p < |s| { CutAt(s, key, len, p); }
      assert Slot(s, b, key, r, p) && Slot(s, b, key, r, p + 1);
    }
    assert s'[..key] == s[..key];
    if key + 1 < len {
      CutAt(s, key, len, key);
      assert Slot(s, b, key, r, key + 1);
    }
  }

  lemma CutAt(s: seq<Environment>, key: nat, len: nat, p: nat)
    requires key < len <= |s| && p < |s|
    ensures Cut(s, key, len)[p] == if p < key || p >= len - 1 then s[p] else s[p + 1]
  {
  }

  lemma PrependTwice(x: seq<Environment>, y: seq<Environment>, r: Option<seq<Environment>>)
    ensures Prepend(x, Prepend(y, r)) == Prepend(x + y, r)
  {
    if r.Some? { assert x + (y + r.value) == (x + y) + r.value; }
  }

  /* ---------- when that removes the environment and nothing else ---------- */

  ghost predicate AtMostOnce(b: seq<Environment>, name: string) {
    forall i, j :: 0 <= i < j < |b| ==> !(b[i].name == name && b[j].name == name)
  }

  predicate Adjacent(b: seq<Environment>, name: string, k: nat) {
    k + 1 < |b| && b[k].name == name && b[k + 1].name == name
  }

  ghost predicate NoAdjacent(b: seq<Environment>, name: string) {
    forall k: nat :: !Adjacent(b, name, k)
  }

  /** Either the name is unique, or its occurrences are apart and the last entry is not one. */
  ghost predicate Removable(b: seq<Environment>, name: string) {
    || AtMostOnce(b, name)
    || (NoAdjacent(b, name) && (b != [] ==> b[|b| - 1].name != name))
  }

  lemma WithoutFrom(b: seq<Environment>, i: nat, name: string)
    requires i < |b|
    ensures WithoutEnvironment(b[i..], name) ==
            (if b[i].name == name then [] else [b[i]]) + WithoutEnvironment(b[i + 1..], name)
  {
    assert b[i..][0] == b[i] && b[i..][1..] == b[i + 1..];
  }

  lemma {:induction false} ScanApart(b: seq<Environment>, i: nat, r: nat, name: string)
    requires r <= i && NoAdjacent(b, name) && b != [] && b[|b| - 1].name != name
    ensures Scan(b, i, r, name) == Some(if i <= |b| then WithoutEnvironment(b[i..], name) else [])
    decreases |b| - i
  {
    if i < |b| {
      WithoutFrom(b, i, name);
      if b[i].name != name {
        ScanApart(b, i + 1, r, name);
      } else {
        assert !Adjacent(b, name, i);
        WithoutFrom(b, i + 1, name);
        assert WithoutEnvironment(b[i..], name) == [b[i + 1]] + WithoutEnvironment(b[i + 2..], name);
        ScanApart(b, i + 2, r + 1, name);
      }
    }
  }

  /** From index `i` on the name does not occur. */
  lemma {:induction false} ScanNone(b: seq<Environment>, i: nat, r: nat, name: string)
    requires r <= i && forall j :: i <= j < |b| ==> b[j].name != name
    requires i - r < |b| ==> b[|b| - 1].name != name
    ensures Scan(b, i, r, name) == Some(if i <= |b| then WithoutEnvironment(b[i..], name) else [])
    decreases |b| - i
  {
    if i < |b| {
      WithoutFrom(b, i, name);
      ScanNone(b, i + 1, r, name);
    }
  }

  lemma {:induction false} ScanUnique(b: seq<Environment>, i: nat, name: string)
    requires i <= |b| && AtMostOnce(b, name) && forall j :: 0 <= j < i ==> b[j].name != name
    ensures Scan(b, i, 0, name) == Some(WithoutEnvironment(b[i..], name))
    decreases |b| - i
  {
    if i < |b| {
      WithoutFrom(b, i, name);
      if b[i].name != name {
        ScanUnique(b, i + 1, name);
      } else {
        if i + 1 < |b| {
          WithoutFrom(b, i + 1, name);
          assert WithoutEnvironment(b[i..], name) == [b[i + 1]] + WithoutEnvironment(b[i + 2..], name);
        } else {
          assert WithoutEnvironment(b[i..], name) == [] + [];
        }
        ScanNone(b, i + 2, 1, name);
      }
    }
  }

  ghost predicate Leaves(r: Option<seq<Environment>>, name: string) {
    r.Some? ==> exists n :: 0 <= n < |r.value| && r.value[n].name == name
  }

  lemma LeavesLonger(a: seq<Environment>, r: Option<seq<Environment>>, name: string)
    requires Leaves(r, name)
    ensures Leaves(Prepend(a, r), name)
  {
    if r.Some? {
      var n :| 0 <= n < |r.value| && r.value[n].name == name;
      assert (a + r.value)[|a| + n].name == name;
    }
  }

  /** Of two neighbours with the name, the second is overlooked. */
  lemma {:induction false} ScanAdjacent(b: seq<Environment>, i: nat, r: nat, name: string, k: nat)
    requires r <= i <= k && Adjacent(b, name, k)
    ensures Leaves(Scan(b, i, r, name), name)
    decreases |b| - i, k
  {
    if b[i].name != name {
      ScanAdjacent(b, i + 1, r, name, k);
      LeavesLonger([b[i]], Scan(b, i + 1, r, name), name);
    } else if b[i + 1].name == name {
      var rest := Scan(b, i + 2, r + 1, name);
      if rest.Some? { assert ([b[i + 1]] + rest.value)[0].name == name; }
    } else {
      ScanAdjacent(b, i + 2, r + 1, name, k);
      LeavesLonger([b[i + 1]], Scan(b, i + 2, r + 1, name), name);
    }
  }

  /** A last entry with the name, after an earlier removal, is met again as a stale copy. */
  lemma {:induction false} ScanLast(b: seq<Environment>, i: nat, r: nat, name: string, k: nat)
    requires NoAdjacent(b, name) && r <= i < |b| && b[|b| - 1].name == name
    requires r > 0 || (i <= k < |b| - 1 && b[k].name == name)
    ensures Scan(b, i, r, name) == None
    decreases |b| - i
  {
    if i < |b| - 1 {
      assert !Adjacent(b, name, i);
      if b[i].name != name { ScanLast(b, i + 1, r, name, k); } else { ScanLast(b, i + 2, r + 1, name, k); }
    }
  }

  lemma {:induction false} WithoutLeavesNone(b: seq<Environment>, name: string)
    ensures forall n :: 0 <= n < |WithoutEnvironment(b, name)| ==> WithoutEnvironment(b, name)[n].name != name
  {
    if b != [] { WithoutLeavesNone(b[1..], name); }
  }

  /** The loop removes the environment, keeps all others in order and stays in bounds, if and
      only if the list is `Removable`; in particular whenever names are unique. */
  lemma RangeRemovalExact(b: seq<Environment>, name: string)
    ensures Scan(b, 0, 0, name) == Some(WithoutEnvironment(b, name)) <==> Removable(b, name)
  {
    assert b[0..] == b;
    WithoutLeavesNone(b, name);
    if AtMostOnce(b, name) {
      ScanUnique(b, 0, name);
    } else if !NoAdjacent(b, name) {
      var k: nat :| Adjacent(b, name, k);
      ScanAdjacent(b, 0, 0, name, k);
    } else if b[|b| - 1].name == name {
      var i, j :| 0 <= i < j < |b| && b[i].name == name && b[j].name == name;
      ScanLast(b, 0, 0, name, i);
    } else {
      ScanApart(b, 0, 0, name);
    }
  }

  /* ---------- removing the environment's clusters ---------- */

  function WithoutClusters(cs: seq<Cluster>, env: string): seq<Cluster> {
    if cs == [] then []
    else (if cs[0].environment == env then [] else [cs[0]]) + WithoutClusters(cs[1..], env)
  }

  lemma {:induction false} WithoutClustersConcat(a: seq<Cluster>, b: seq<Cluster>, env: string)
    ensures WithoutClusters(a + b, env) == WithoutClusters(a, env) + WithoutClusters(b, env)
  {
    if a == [] {
      assert a + b == b;
    } else {
      assert (a + b)[0] == a[0] && (a + b)[1..] == a[1..] + b;
      WithoutClustersConcat(a[1..], b, env);
      var first := if a[0].environment == env then [] else [a[0]];
      var rest, last := WithoutClusters(a[1..], env), WithoutClusters(b, env);
      assert WithoutClusters(a + b, env) == first + (rest + last) == (first + rest) + last;
    }
  }

  lemma SkipCluster(cs: seq<Cluster>, i: nat, env: string)
    requires i < |cs| && WithoutClusters(cs[..i], env) == cs[..i]
    ensures cs[i].environment == env ==> WithoutClusters(cs[..i] + cs[i + 1..], env) == WithoutClusters(cs, env)
    ensures cs[i].environment != env ==> WithoutClusters(cs[..i + 1], env) == cs[..i + 1]
  {
    assert cs == cs[..i + 1] + cs[i + 1..] && cs[..i + 1] == cs[..i] + [cs[i]];
    assert [cs[i]][1..] == [];
    WithoutClustersConcat(cs[..i], [cs[i]], env);
    WithoutClustersConcat(cs[..i + 1], cs[i + 1..], env);
    WithoutClustersConcat(cs[..i], cs[i + 1..], env);
  }

  /** The index loop that steps back after each removal; it works on any list. */
  method RemoveClusters(clusters: seq<Cluster>, env: string) returns (cs: seq<Cluster>)
    ensures cs == WithoutClusters(clusters, env)
  {
    cs := clusters;
    var i := 0;
    while i < |cs|
      invariant 0 <= i <= |cs| && WithoutClusters(cs[..i], env) == cs[..i]
      invariant WithoutClusters(cs, env) == WithoutClusters(clusters, env)
      decreases |cs| - i
    {
      SkipCluster(cs, i, env);
      if cs[i].environment == env {
        ghost var before := cs;
        cs := cs[..i] + cs[i + 1..];
        assert cs[..i] == before[..i];
        i := i - 1;
      }
      i := i + 1;
    }
    assert cs[..i] == cs;
  }

  lemma {:induction false} ClustersLeft(cs: seq<Cluster>, env: string, c: Cluster)
    ensures c in WithoutClusters(cs, env) <==> c in cs && c.environment != env
  {
    if cs != [] {
      ClustersLeft(cs[1..], env, c);
      assert cs == [cs[0]] + cs[1..];
    }
  }

  /* ---------- the current cluster ---------- */

  function Dashes(s: string): nat {
    if s == "" then 0 else (if s[0] == '-' then 1 else 0) + Dashes(s[1..])
  }

  /** `strings.Split(s, "-")[0]`. */
  function FirstPart(s: string): string {
    if s == "" || s[0] == '-' then "" else [s[0]] + FirstPart(s[1..])
  }

  function FullName(c: Cluster): string {
    c.environment + "-" + c.name
  }

  /** `CurrentCluster`: the flag overrides the file; `None` is an error. */
  function CurrentCluster(conf: Conf, flag: string): Option<string> {
    var current := if flag != "" then flag else conf.currentCluster;
    if Dashes(current) == 1 then Some(current) else None
  }

  /** The current cluster of the file exists. */
  ghost predicate CurrentExists(conf: Conf) {
    exists c :: c in conf.clusters && FullName(c) == conf.currentCluster
  }

  predicate DashFree(s: string) {
    '-' !in s
  }

  ghost predicate DashFreeNames(conf: Conf) {
    forall c :: c in conf.clusters ==> DashFree(c.environment) && DashFree(c.name)
  }

  lemma {:induction false} FullNameParts(e: string, n: string)
    requires DashFree(e) && DashFree(n)
    ensures Dashes(e + "-" + n) == 1 && FirstPart(e + "-" + n) == e
  {
    var s := e + "-" + n;
    if e == "" {
      assert s[1..] == n;
      NoDashes(n);
    } else {
      assert s[0] == e[0] && s[1..] == e[1..] + "-" + n;
      FullNameParts(e[1..], n);
    }
  }

  lemma {:induction false} NoDashes(n: string)
    requires DashFree(n)
    ensures Dashes(n) == 0
  {
    if n != "" { NoDashes(n[1..]); }
  }

  /* ---------- the operations ---------- */

  datatype Removal = Panicked | Removed(conf: Conf, ok: bool)

  /** `RemoveEnvironment` in memory; without `ok` the result is not written out. */
  function Remove(conf: Conf, flag: string, env: string): Removal {
    match Scan(conf.environments, 0, 0, env)
    case None => Panicked
    case Some(environments) =>
      var conf' := conf.(environments := environments, clusters := WithoutClusters(conf.clusters, env));
      match CurrentCluster(conf', flag)
      case None => Removed(conf', false)
      case Some(current) =>
        if FirstPart(current) == env && conf'.clusters != [] then
          Removed(conf'.(currentCluster := FullName(conf'.clusters[0])), true)
        else Removed(conf', true)
  }

  /** The current cluster is of the removed environment and another one takes its place. */
  predicate ReplacesCurrent(conf: Conf, flag: string, env: string) {
    && CurrentCluster(conf, flag).Some? && FirstPart(CurrentCluster(conf, flag).value) == env
    && WithoutClusters(conf.clusters, env) != []
  }

  predicate ProviderIsNew(conf: Conf, name: string) {
    forall i :: 0 <= i < |conf.providers| ==> conf.providers[i].name != name
  }

  predicate EnvironmentIsNew(conf: Conf, name: string) {
    forall i :: 0 <= i < |conf.environments| ==> conf.environments[i].name != name
  }

  predicate ClusterIsNew(conf: Conf, env: string, name: string) {
    forall i :: 0 <= i < |conf.clusters| ==> !(conf.clusters[i].environment == env && conf.clusters[i].name == name)
  }

  datatype Op =
    | AddProvider(p: Provider)
    | AddEnvironment(e: Environment)
    | AddCluster(c: Cluster)
    | RemoveEnv(name: string)

  /** The configuration in memory after an operation; an append of a taken name is refused. */
  function Apply(conf: Conf, flag: string, op: Op): Conf {
    match op
    case AddProvider(p) => if ProviderIsNew(conf, p.name) then conf.(providers := conf.providers + [p]) else conf
    case AddEnvironment(e) =>
      if EnvironmentIsNew(conf, e.name) then conf.(environments := conf.environments + [e]) else conf
    case AddCluster(c) =>
      if ClusterIsNew(conf, c.environment, c.name) then conf.(clusters := conf.clusters + [c]) else conf
    case RemoveEnv(name) => if Remove(conf, flag, name).Panicked? then conf else Remove(conf, flag, name).conf
  }

  class Config {
    var conf: Option<Conf>
    var written: Option<Conf>
    const flagCurrentCluster: string

    /** How many writes have failed so far. */
    ghost var errors: nat

    constructor (conf: Option<Conf>, flagCurrentCluster: string)
      ensures this.conf == conf && written == None && this.flagCurrentCluster == flagCurrentCluster && errors == 0
    {
      this.conf, written, this.flagCurrentCluster, errors := conf, None, flagCurrentCluster, 0;
    }

    ghost function Value(): Conf
      reads this
    {
      if conf.None? then EmptyConf else conf.value
    }

    method WriteYAML() returns (ok: bool)
      requires conf.Some?
      modifies this`written, this`errors
      ensures ok ==> written == conf
      ensures !ok ==> written == old(written)
      ensures errors == old(errors) + if ok then 0 else 1
    {
      ok := *;
      if ok { written := conf; } else { errors := errors + 1; }
    }

    method AppendProvider(p: Provider) returns (ok: bool)
      modifies this
      ensures conf == Some(Apply(old(Value()), flagCurrentCluster, AddProvider(p)))
      ensures ok <==> ProviderIsNew(old(Value()), p.name) && errors == old(errors)
      ensures ok ==> written == conf
      ensures !ok ==> written == old(written)
    {
      if conf.None? { conf := Some(EmptyConf); }
      for i := 0 to |conf.value.providers|
        invariant conf == Some(old(Value())) && errors == old(errors)
        invariant forall j :: 0 <= j < i ==> conf.value.providers[j].name != p.name
      {
        if conf.value.providers[i].name == p.name { return false; }
      }
      conf := Some(conf.value.(providers := conf.value.providers + [p]));
      ok := WriteYAML();
    }

    method AppendEnvironment(e: Environment) returns (ok: bool)
      modifies this
      ensures conf == Some(Apply(old(Value()), flagCurrentCluster, AddEnvironment(e)))
      ensures ok <==> EnvironmentIsNew(old(Value()), e.name) && errors == old(errors)
      ensures ok ==> written == conf
      ensures !ok ==> written == old(written)
    {
      if conf.None? { conf := Some(EmptyConf); }
      for i := 0 to |conf.value.environments|
        invariant conf == Some(old(Value())) && errors == old(errors)
        invariant forall j :: 0 <= j < i ==> conf.value.environments[j].name != e.name
      {
        if conf.value.environments[i].name == e.name { return false; }
      }
      conf := Some(conf.value.(environments := conf.value.environments + [e]));
      ok := WriteYAML();
    }

    method AppendCluster(c: Cluster) returns (ok: bool)
      modifies this
      ensures conf == Some(Apply(old(Value()), flagCurrentCluster, AddCluster(c)))
      ensures ok <==> ClusterIsNew(old(Value()), c.environment, c.name) && errors == old(errors)
      ensures ok ==> written == conf
      ensures !ok ==> written == old(written)
    {
      if conf.None? { conf := Some(EmptyConf); }
      for i := 0 to |conf.value.clusters|
        invariant conf == Some(old(Value())) && errors == old(errors)
        invariant forall j :: 0 <= j < i ==>
                    !(conf.value.clusters[j].environment == c.environment && conf.value.clusters[j].name == c.name)
      {
        var other := conf.value.clusters[i];
        if other.environment == c.environment && other.name == c.name { return false; }
      }
      conf := Some(conf.value.(clusters := conf.value.clusters + [c]));
      ok := WriteYAML();
    }

    /** On a configuration that was read or created before. */
    method RemoveEnvironment(env: string) returns (ok: bool, panicked: bool)
      requires conf.Some?
      modifies this
      ensures match Remove(old(conf).value, flagCurrentCluster, env)
              case Panicked => panicked && written == old(written)
              case Removed(conf', ok') =>
                && !panicked && conf == Some(conf')
                && (ok ==> ok' && written == conf)
                && (ok' && errors == old(errors) ==> ok)
                // a failure leaves the file as it was, unless only the second of two writes fails
                && (!ok ==> written == old(written) || (ok' && written == conf))
                && (!ok && !ReplacesCurrent(old(conf).value, flagCurrentCluster, env) ==> written == old(written))
    {
      var envs := conf.value.environments;
      var backing := new Environment[|envs|](i requires 0 <= i < |envs| => envs[i]);
      assert backing[..] == envs;
      var len;
      len, panicked := RangeRemove(backing, env);
      if panicked { return false, true; }
      var clusters := RemoveClusters(conf.value.clusters, env);
      conf := Some(conf.value.(environments := backing[..len], clusters := clusters));
      var current := CurrentCluster(conf.value, flagCurrentCluster);
      if current.None? { return false, false; }
      if FirstPart(current.value) == env && |clusters| != 0 {
        conf := Some(conf.value.(currentCluster := FullName(clusters[0])));
        var _ := WriteYAML();
      }
      ok := WriteYAML();
    }
  }

  /* ---------- what the operations keep ---------- */

  ghost predicate UniqueNames(conf: Conf) {
    && (forall i, j :: 0 <= i < j < |conf.providers| ==> conf.providers[i].name != conf.providers[j].name)
    && UniqueEnvironments(conf.environments)
    && UniqueClusters(conf.clusters)
  }

  ghost predicate UniqueEnvironments(b: seq<Environment>) {
    forall i, j :: 0 <= i < j < |b| ==> b[i].name != b[j].name
  }

  ghost predicate UniqueClusters(cs: seq<Cluster>) {
    forall i, j :: 0 <= i < j < |cs| ==> FullKey(cs[i]) != FullKey(cs[j])
  }

  function FullKey(c: Cluster): (string, string) {
    (c.environment, c.name)
  }

  lemma {:induction false} WithoutEnvironmentUnique(b: seq<Environment>, name: string)
    requires UniqueEnvironments(b)
    ensures UniqueEnvironments(WithoutEnvironment(b, name))
    ensures forall e :: e in WithoutEnvironment(b, name) ==> e in b
  {
    if b != [] {
      WithoutEnvironmentUnique(b[1..], name);
      assert forall e :: e in b[1..] ==> e.name != b[0].name;
    }
  }

  lemma {:induction false} WithoutClustersUnique(cs: seq<Cluster>, env: string)
    requires UniqueClusters(cs)
    ensures UniqueClusters(WithoutClusters(cs, env))
  {
    if cs != [] {
      WithoutClustersUnique(cs[1..], env);
      forall c ensures c in WithoutClusters(cs[1..], env) ==> c in cs[1..] { ClustersLeft(cs[1..], env, c); }
      assert forall c :: c in cs[1..] ==> FullKey(c) != FullKey(cs[0]);
    }
  }

  lemma ApplyKeepsUnique(conf: Conf, flag: string, op: Op)
    requires UniqueNames(conf)
    ensures UniqueNames(Apply(conf, flag, op))
    ensures op.RemoveEnv? ==> Remove(conf, flag, op.name).Removed?
  {
    if op.RemoveEnv? {
      RangeRemovalExact(conf.environments, op.name);
      WithoutEnvironmentUnique(conf.environments, op.name);
      WithoutClustersUnique(conf.clusters, op.name);
    }
  }

  function ApplyAll(conf: Conf, flag: string, ops: seq<Op>): Conf
    decreases |ops|
  {
    if ops == [] then conf else ApplyAll(Apply(conf, flag, ops[0]), flag, ops[1..])
  }

  /** Over every sequence of appends and removals that starts from nothing, names stay unique;
      so no removal ever goes out of bounds, and each removes exactly its environment. */
  lemma {:induction false} NamesStayUnique(conf: Conf, flag: string, ops: seq<Op>, env: string)
    requires UniqueNames(conf)
    ensures UniqueNames(ApplyAll(conf, flag, ops))
    ensures var after := ApplyAll(conf, flag, ops);
            var r := Remove(after, flag, env);
            && r.Removed?
            && r.conf.environments == WithoutEnvironment(after.environments, env)
            && r.conf.clusters == WithoutClusters(after.clusters, env)
            && r.conf.providers == after.providers
    decreases |ops|
  {
    if ops == [] {
      RangeRemovalExact(conf.environments, env);
    } else {
      ApplyKeepsUnique(conf, flag, ops[0]);
      NamesStayUnique(Apply(conf, flag, ops[0]), flag, ops[1..], env);
    }
  }

  /* ---------- the current cluster in the file ---------- */

  /** The cluster in effect, by the flag or else by the file, is one of the environment: its
      name has one dash, and the environment's name is what comes before it. */
  ghost predicate InEffectIn(conf: Conf, flag: string, env: string) {
    var current := if flag != "" then flag else conf.currentCluster;
    exists n: string :: DashFree(env) && DashFree(n) && current == env + "-" + n
  }

  lemma {:induction false} OneDash(s: string)
    requires Dashes(s) == 1
    ensures exists n: string :: DashFree(FirstPart(s)) && DashFree(n) && s == FirstPart(s) + "-" + n
  {
    if s[0] == '-' {
      NoDashesMeans(s[1..]);
      assert s == "" + "-" + s[1..];
    } else {
      OneDash(s[1..]);
      var n: string :| DashFree(FirstPart(s[1..])) && DashFree(n) && s[1..] == FirstPart(s[1..]) + "-" + n;
      assert s == [s[0]] + s[1..] == FirstPart(s) + "-" + n;
    }
  }

  lemma {:induction false} NoDashesMeans(s: string)
    requires Dashes(s) == 0
    ensures DashFree(s)
  {
    if s != "" { NoDashesMeans(s[1..]); }
  }

  lemma InEffectExactly(conf: Conf, flag: string, env: string)
    ensures InEffectIn(conf, flag, env) <==>
              CurrentCluster(conf, flag).Some? && FirstPart(CurrentCluster(conf, flag).value) == env
  {
    var current := if flag != "" then flag else conf.currentCluster;
    if InEffectIn(conf, flag, env) {
      var n: string :| DashFree(env) && DashFree(n) && current == env + "-" + n;
      FullNameParts(env, n);
    }
    if Dashes(current) == 1 { OneDash(current); }
  }

  /** A removal changes the current cluster if and only if the one in effect is of that
      environment and a cluster of another is left; it then becomes the first of these. */
  lemma CurrentAfterRemoval(conf: Conf, flag: string, env: string)
    requires Remove(conf, flag, env).Removed?
    ensures var after := Remove(conf, flag, env).conf;
            if InEffectIn(conf, flag, env) && exists c :: c in conf.clusters && c.environment != env then
              exists i: nat :: IsFirstOther(conf.clusters, env, i) && after.currentCluster == FullName(conf.clusters[i])
            else after.currentCluster == conf.currentCluster
  {
    InEffectExactly(conf, flag, env);
    var left := WithoutClusters(conf.clusters, env);
    if left != [] {
      FirstLeft(conf.clusters, env);
      ClustersLeft(conf.clusters, env, left[0]);
    } else {
      forall c | c in conf.clusters ensures c.environment == env { ClustersLeft(conf.clusters, env, c); }
    }
  }

  predicate IsFirstOther(cs: seq<Cluster>, env: string, i: nat) {
    i < |cs| && cs[i].environment != env && forall j :: 0 <= j < i ==> cs[j].environment == env
  }

  lemma {:induction false} FirstLeft(cs: seq<Cluster>, env: string)
    requires WithoutClusters(cs, env) != []
    ensures exists i: nat :: IsFirstOther(cs, env, i) && cs[i] == WithoutClusters(cs, env)[0]
  {
    if cs[0].environment != env {
      assert IsFirstOther(cs, env, 0);
    } else {
      FirstLeft(cs[1..], env);
      var i: nat :| IsFirstOther(cs[1..], env, i) && cs[1..][i] == WithoutClusters(cs[1..], env)[0];
      forall j | 0 <= j < i + 1 ensures cs[j].environment == env { if j > 0 { assert cs[j] == cs[1..][j - 1]; } }
      assert IsFirstOther(cs, env, i + 1);
    }
  }

  /** Appends leave the current cluster alone. */
  lemma {:induction false} CurrentKept(conf: Conf, flag: string, ops: seq<Op>)
    requires forall i :: 0 <= i < |ops| ==> !ops[i].RemoveEnv?
    ensures ApplyAll(conf, flag, ops).currentCluster == conf.currentCluster
    decreases |ops|
  {
    if ops != [] { CurrentKept(Apply(conf, flag, ops[0]), flag, ops[1..]); }
  }

  /** With dash-free names, a current cluster that exists still does after a removal that
      leaves some cluster, if and only if it was in another environment, or the cluster in
      effect (the flag's, if given) is in the environment removed. */
  lemma CurrentSurvivesExactly(conf: Conf, flag: string, env: string)
    requires DashFreeNames(conf) && CurrentExists(conf)
    requires Remove(conf, flag, env).Removed? && Remove(conf, flag, env).conf.clusters != []
    ensures CurrentExists(Remove(conf, flag, env).conf) <==>
              !InEffectIn(conf, "", env) || InEffectIn(conf, flag, env)
  {
    InEffectExactly(conf, "", env);
    InEffectExactly(conf, flag, env);
    var after := Remove(conf, flag, env).conf;
    var left := WithoutClusters(conf.clusters, env);
    assert after.clusters == left;
    var c :| c in conf.clusters && FullName(c) == conf.currentCluster;
    FullNameParts(c.environment, c.name);
    if after.currentCluster == conf.currentCluster {
      if c.environment != env { ClustersLeft(conf.clusters, env, c); }
      if CurrentExists(after) {
        var d :| d in left && FullName(d) == conf.currentCluster;
        ClustersLeft(conf.clusters, env, d);
        FullNameParts(d.environment, d.name);
      }
    }
    assert left[0] in left;
  }

  /** Without the override flag the condition always holds. */
  lemma CurrentSurvivesWithoutFlag(conf: Conf, env: string)
    requires DashFreeNames(conf) && CurrentExists(conf)
    requires Remove(conf, "", env).Removed? && Remove(conf, "", env).conf.clusters != []
    ensures CurrentExists(Remove(conf, "", env).conf)
  {
    var c :| c in conf.clusters && FullName(c) == conf.currentCluster;
    FullNameParts(c.environment, c.name);
    CurrentSurvivesExactly(conf, "", env);
  }

  /** Clusters remain after each of the operations. */
  predicate ClustersRemain(conf: Conf, ops: seq<Op>)
    decreases |ops|
  {
    conf.clusters != [] && (ops == [] || ClustersRemain(Apply(conf, "", ops[0]), ops[1..]))
  }

  /** The current cluster exists after each of the operations. */
  ghost predicate CurrentRemains(conf: Conf, ops: seq<Op>)
    decreases |ops|
  {
    CurrentExists(conf) && (ops == [] || CurrentRemains(Apply(conf, "", ops[0]), ops[1..]))
  }

  ghost predicate AddsDashFree(ops: seq<Op>) {
    forall i :: 0 <= i < |ops| && ops[i].AddCluster? ==> DashFree(ops[i].c.environment) && DashFree(ops[i].c.name)
  }

  lemma ApplyKeepsDashFree(conf: Conf, op: Op)
    requires DashFreeNames(conf) && (op.AddCluster? ==> DashFree(op.c.environment) && DashFree(op.c.name))
    ensures DashFreeNames(Apply(conf, "", op))
  {
    if op.RemoveEnv? {
      forall c ensures c in WithoutClusters(conf.clusters, op.name) ==> c in conf.clusters {
        ClustersLeft(conf.clusters, op.name, c);
      }
    }
  }

  lemma ApplyKeepsCurrent(conf: Conf, op: Op)
    requires UniqueNames(conf) && DashFreeNames(conf) && CurrentExists(conf) && Apply(conf, "", op).clusters != []
    ensures CurrentExists(Apply(conf, "", op))
  {
    if op.RemoveEnv? {
      ApplyKeepsUnique(conf, "", op);
      CurrentSurvivesWithoutFlag(conf, op.name);
    } else {
      var c :| c in conf.clusters && FullName(c) == conf.currentCluster;
      assert c in Apply(conf, "", op).clusters;
    }
  }

  /** Over every sequence of appends and removals without the override flag, the current
      cluster exists all the time if and only if some cluster does. */
  lemma {:induction false} CurrentSurvivesAll(conf: Conf, ops: seq<Op>)
    requires UniqueNames(conf) && DashFreeNames(conf) && AddsDashFree(ops) && CurrentExists(conf)
    ensures CurrentRemains(conf, ops) <==> ClustersRemain(conf, ops)
    ensures ClustersRemain(conf, ops) ==> CurrentExists(ApplyAll(conf, "", ops))
    decreases |ops|
  {
    if ops != [] {
      var next := Apply(conf, "", ops[0]);
      ApplyKeepsUnique(conf, "", ops[0]);
      ApplyKeepsDashFree(conf, ops[0]);
      assert forall i :: 0 <= i < |ops| - 1 ==> ops[1..][i] == ops[i + 1];
      if next.clusters != [] {
        ApplyKeepsCurrent(conf, ops[0]);
        CurrentSurvivesAll(next, ops[1..]);
      }
    }
  }
}
