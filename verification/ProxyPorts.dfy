/** Defaults of the logging sinks, with the ports of their Amazon Elasticsearch proxies. */
module ProxyPorts {
  import opened Text

  const FIRST_PORT := 9200

  /** `proxy` is the port of the sink's proxy, if it has one; 0 asks for a port. */
  datatype Elasticsearch = Elasticsearch(host: string, port: int, logstashPrefix: string, tls: Option<bool>,
                                         proxy: Option<int>)
  datatype Sink = Sink(elasticsearch: Option<Elasticsearch>, types: seq<string>)

  function Proxy(s: Sink): Option<int> {
    if s.elasticsearch.Some? then s.elasticsearch.value.proxy else None
  }

  /** The proxy ports in use, 0 included. */
  function Ports(sinks: seq<Sink>): set<int> {
    set s | s in sinks && Proxy(s).Some? :: Proxy(s).value
  }

  /* ---------- the allocator ---------- */

  /** The free port that a search upwards finds first. */
  ghost predicate IsFirstFree(used: set<int>, port: int) {
    FIRST_PORT <= port && port !in used && forall q :: FIRST_PORT <= q < port ==> q in used
  }

  function FirstFreeFrom(used: set<int>, port: int): (p: int)
    ensures port <= p && p !in used && forall q :: port <= q < p ==> q in used
    decreases |set q | q in used && q >= port|
  {
    if port !in used then port
    else
      assert (set q | q in used && q >= port) == (set q | q in used && q >= port + 1) + {port};
      FirstFreeFrom(used, port + 1)
  }

  function FirstFree(used: set<int>): (p: int)
    ensures IsFirstFree(used, p)
  {
    FirstFreeFrom(used, FIRST_PORT)
  }

  /** `allocateAmazonESProxyPort`. */
  method AllocatePort(sinks: seq<Sink>) returns (currentPort: int)
    ensures IsFirstFree(Ports(sinks), currentPort)
  {
    var allocatedPorts: set<int> := {};
    for i := 0 to |sinks|
      invariant allocatedPorts == Ports(sinks[..i])
    {
      assert sinks[..i + 1] == sinks[..i] + [sinks[i]];
      PortsConcat(sinks[..i], [sinks[i]]);
      if sinks[i].elasticsearch.Some? && sinks[i].elasticsearch.value.proxy.Some? {
        allocatedPorts := allocatedPorts + {sinks[i].elasticsearch.value.proxy.value};
      }
      PortsOne(sinks[i]);
    }
    assert sinks[..|sinks|] == sinks;
    currentPort := FIRST_PORT;
    while currentPort in allocatedPorts
      invariant FIRST_PORT <= currentPort && forall q :: FIRST_PORT <= q < currentPort ==> q in allocatedPorts
      decreases |set q | q in allocatedPorts && q >= currentPort|
    {
      assert (set q | q in allocatedPorts && q >= currentPort)
          == (set q | q in allocatedPorts && q >= currentPort + 1) + {currentPort};
      currentPort := currentPort + 1;
    }
  }

  lemma PortsConcat(a: seq<Sink>, b: seq<Sink>)
    ensures Ports(a + b) == Ports(a) + Ports(b)
  {
  }

  lemma PortsOne(s: Sink)
    ensures Ports([s]) == if Proxy(s).Some? then {Proxy(s).value} else {}
  {
    assert s in [s];
  }

  lemma FirstFreeUnique(used: set<int>, p: int, q: int)
    requires IsFirstFree(used, p) && IsFirstFree(used, q)
    ensures p == q
  {
  }

  /* ---------- the defaults ---------- */

  function DefaultElasticsearch(e: Elasticsearch, used: set<int>): Elasticsearch {
    var tls := if e.tls.None? then true else e.tls.value;
    Elasticsearch(
      if e.host == "" then "127.0.0.1" else e.host,
      if e.port != 0 then e.port else if tls then 443 else 80,
      if e.logstashPrefix == "" then "logstash" else e.logstashPrefix,
      Some(tls),
      if e.proxy == Some(0) then Some(FirstFree(used)) else e.proxy)
  }

  function DefaultSink(s: Sink, used: set<int>): Sink {
    Sink(
      if s.elasticsearch.Some? then Some(DefaultElasticsearch(s.elasticsearch.value, used)) else None,
      if s.types == [] then ["all"] else s.types)
  }

  /** The sinks after the first `k` have been given their defaults. */
  function DefaultedUpTo(sinks: seq<Sink>, k: nat): (r: seq<Sink>)
    requires k <= |sinks|
    ensures |r| == |sinks|
    ensures forall j :: k <= j < |sinks| ==> r[j] == sinks[j]
  {
    if k == 0 then sinks
    else
      var before := DefaultedUpTo(sinks, k - 1);
      before[k - 1 := DefaultSink(before[k - 1], Ports(before))]
  }

  function Defaulted(sinks: seq<Sink>): seq<Sink> {
    DefaultedUpTo(sinks, |sinks|)
  }

  class Cluster {
    var loggingSinks: seq<Sink>

    constructor (loggingSinks: seq<Sink>)
      ensures this.loggingSinks == loggingSinks
    {
      this.loggingSinks := loggingSinks;
    }

    /** The logging part of `SetDefaults_Cluster`; the sinks are distinct objects. */
    method SetDefaults()
      modifies this
      ensures loggingSinks == Defaulted(old(loggingSinks))
    {
      for i := 0 to |loggingSinks|
        invariant |loggingSinks| == |old(loggingSinks)| && loggingSinks == DefaultedUpTo(old(loggingSinks), i)
      {
        var s := loggingSinks[i];
        if s.elasticsearch.Some? {
          var e := s.elasticsearch.value;
          if e.host == "" { e := e.(host := "127.0.0.1"); }
          if e.tls.None? { e := e.(tls := Some(true)); }
          if e.port == 0 { e := e.(port := if e.tls.value then 443 else 80); }
          if e.logstashPrefix == "" { e := e.(logstashPrefix := "logstash"); }
          if e.proxy == Some(0) {
            var port := AllocatePort(loggingSinks);
            FirstFreeUnique(Ports(loggingSinks), port, FirstFree(Ports(loggingSinks)));
            e := e.(proxy := Some(port));
          }
          s := s.(elasticsearch := Some(e));
        }
        if |s.types| == 0 { s := s.(types := ["all"]); }
        loggingSinks := loggingSinks[i := s];
      }
    }
  }

  /* ---------- the ports that come out ---------- */

  /** A sink keeps what it was given at its turn. */
  lemma {:induction false} SettledAt(sinks: seq<Sink>, i: nat, k: nat)
    requires i < k <= |sinks|
    ensures DefaultedUpTo(sinks, k)[i] == DefaultSink(sinks[i], Ports(DefaultedUpTo(sinks, i)))
  {
    if k > i + 1 { SettledAt(sinks, i, k - 1); }
  }

  lemma {:induction false} PortCount(sinks: seq<Sink>)
    ensures |Ports(sinks)| <= |sinks|
  {
    if sinks != [] {
      var init, last := sinks[..|sinks| - 1], sinks[|sinks| - 1];
      assert sinks == init + [last];
      PortCount(init);
      PortsConcat(init, [last]);
      PortsOne(last);
      CardinalityOfUnion(Ports(init), Ports([last]));
    }
  }

  lemma CardinalityOfUnion(a: set<int>, b: set<int>)
    ensures |a + b| <= |a| + |b|
  {
    assert a + b == a + (b - a);
    assert |b - a| + |b * a| == |b|;
  }

  lemma {:induction false} IntervalSize(lo: int, hi: int, s: set<int>)
    requires lo <= hi && forall q :: lo <= q < hi ==> q in s
    ensures hi - lo <= |s|
    decreases hi - lo
  {
    if lo < hi {
      IntervalSize(lo, hi - 1, s - {hi - 1});
    }
  }

  /** By the pigeonhole principle the search stays within as many ports as there are sinks. */
  lemma FirstFreeBound(sinks: seq<Sink>, i: nat)
    requires i < |sinks| && Proxy(sinks[i]) == Some(0)
    ensures FirstFree(Ports(sinks)) < FIRST_PORT + |sinks|
  {
    var used := Ports(sinks);
    assert 0 in used by { assert sinks[i] in sinks; }
    IntervalSize(FIRST_PORT, FirstFree(used), used - {0});
    PortCount(sinks);
  }

  /** A port that a sink asks for: taken at its turn from the ports then free, smallest
      first; within `FIRST_PORT .. FIRST_PORT + n - 1`; different from every other sink's
      final port. A port that is given stays. */
  lemma DefaultedPorts(sinks: seq<Sink>, i: nat)
    requires i < |sinks| && Proxy(sinks[i]).Some?
    ensures var r := Defaulted(sinks);
            && Proxy(r[i]).Some?
            && (Proxy(sinks[i]) != Some(0) ==> Proxy(r[i]) == Proxy(sinks[i]))
            && (Proxy(sinks[i]) == Some(0) ==>
                  && FIRST_PORT <= Proxy(r[i]).value < FIRST_PORT + |sinks|
                  && (forall j :: 0 <= j < |sinks| && j != i ==> Proxy(r[j]) != Proxy(r[i]))
                  && (forall q :: FIRST_PORT <= q < Proxy(r[i]).value ==> TakenBefore(sinks, r, i, q)))
  {
    var n := |sinks|;
    SettledAt(sinks, i, n);
    if Proxy(sinks[i]) == Some(0) {
      var r, before := Defaulted(sinks), DefaultedUpTo(sinks, i);
      FirstFreeBound(before, i);
      forall j | 0 <= j < n && j != i ensures Proxy(r[j]) != Proxy(r[i]) {
        if j < i { PortsDiffer(sinks, j, i); } else { PortsDifferLater(sinks, i, j); }
      }
      forall q | FIRST_PORT <= q < Proxy(r[i]).value ensures TakenBefore(sinks, r, i, q) {
        SmallerIsTaken(sinks, i, q);
      }
    }
  }

  lemma {:induction false} SmallerIsTaken(sinks: seq<Sink>, i: nat, q: int)
    requires i < |sinks| && Proxy(sinks[i]) == Some(0)
    requires FIRST_PORT <= q < FirstFree(Ports(DefaultedUpTo(sinks, i)))
    ensures TakenBefore(sinks, Defaulted(sinks), i, q)
  {
    var before := DefaultedUpTo(sinks, i);
    var j := OwnerOf(before, q);
    FinalProxy(sinks, j, i);
  }

  lemma OwnerOf(sinks: seq<Sink>, q: int) returns (j: nat)
    requires q in Ports(sinks)
    ensures j < |sinks| && Proxy(sinks[j]) == Some(q)
  {
    var s :| s in sinks && Proxy(s).Some? && Proxy(s).value == q;
    j :| 0 <= j < |sinks| && sinks[j] == s;
  }

  /** A port other than 0 that a sink has at some turn is its final one. */
  lemma FinalProxy(sinks: seq<Sink>, j: nat, i: nat)
    requires j < |sinks| && i <= |sinks| && Proxy(DefaultedUpTo(sinks, i)[j]) != Some(0)
    ensures Proxy(Defaulted(sinks)[j]) == Proxy(DefaultedUpTo(sinks, i)[j])
    ensures j >= i ==> Proxy(sinks[j]) == Proxy(DefaultedUpTo(sinks, i)[j])
  {
    SettledAt(sinks, j, |sinks|);
    if j < i { SettledAt(sinks, j, i); }
  }

  /** At sink `i`'s turn, port `q` belonged to a sink before it or to one that came with it. */
  ghost predicate TakenBefore(sinks: seq<Sink>, r: seq<Sink>, i: nat, q: int)
    requires |r| == |sinks|
  {
    exists j :: 0 <= j < |sinks| && j != i && Proxy(r[j]) == Some(q) && (j < i || Proxy(sinks[j]) == Some(q))
  }

  /** An earlier sink's port was taken when sink `i` asked. */
  lemma PortsDiffer(sinks: seq<Sink>, j: nat, i: nat)
    requires j < i < |sinks| && Proxy(sinks[i]) == Some(0)
    ensures Proxy(Defaulted(sinks)[j]) != Proxy(Defaulted(sinks)[i])
  {
    var before := DefaultedUpTo(sinks, i);
    SettledAt(sinks, i, |sinks|);
    SettledAt(sinks, j, |sinks|);
    SettledAt(sinks, j, i);
    assert before[j] in before;
  }

  /** A later sink either came with another port or asked when this one was taken. */
  lemma PortsDifferLater(sinks: seq<Sink>, i: nat, j: nat)
    requires i < j < |sinks| && Proxy(sinks[i]) == Some(0)
    ensures Proxy(Defaulted(sinks)[j]) != Proxy(Defaulted(sinks)[i])
  {
    if Proxy(sinks[j]) == Some(0) {
      PortsDiffer(sinks, i, j);
    } else {
      var before := DefaultedUpTo(sinks, i);
      SettledAt(sinks, i, |sinks|);
      SettledAt(sinks, j, |sinks|);
      assert before[j] in before;
    }
  }

  lemma {:induction false} AlreadyDefaulted(sinks: seq<Sink>, k: nat)
    requires k <= |sinks| && forall i :: 0 <= i < |sinks| ==> Complete(sinks[i])
    ensures DefaultedUpTo(sinks, k) == sinks
  {
    if k > 0 {
      AlreadyDefaulted(sinks, k - 1);
      assert Complete(sinks[k - 1]);
    }
  }

  predicate Complete(s: Sink) {
    && s.types != []
    && (s.elasticsearch.Some? ==>
          var e := s.elasticsearch.value;
          e.host != "" && e.port != 0 && e.logstashPrefix != "" && e.tls.Some? && e.proxy != Some(0))
  }

  /** A field keeps what it was given; `blank` asks for the default. */
  predicate Filled<T(==)>(before: T, blank: T, after: T, default_: T) {
    after == if before == blank then default_ else before
  }

  /** Whatever is given stays; a missing host is the local one, TLS is on unless it was turned
      off, and a missing port is the one that goes with it. */
  lemma {:induction false} DefaultsExactly(sinks: seq<Sink>, i: nat)
    requires i < |sinks|
    ensures var s, r := sinks[i], Defaulted(sinks)[i];
            && Filled(s.types, [], r.types, ["all"])
            && (r.elasticsearch.Some? <==> s.elasticsearch.Some?)
            && (r.elasticsearch.Some? ==>
                  var e, f := s.elasticsearch.value, r.elasticsearch.value;
                  && Filled(e.host, "", f.host, "127.0.0.1")
                  && Filled(e.logstashPrefix, "", f.logstashPrefix, "logstash")
                  && Filled(e.tls, None, f.tls, Some(true))
                  && Filled(e.port, 0, f.port, if f.tls == Some(false) then 80 else 443)
                  && (e.proxy.Some? <==> f.proxy.Some?))
  {
    SettledAt(sinks, i, |sinks|);
  }

  /** Defaulting twice is defaulting once. */
  lemma DefaultedTwice(sinks: seq<Sink>)
    ensures Defaulted(Defaulted(sinks)) == Defaulted(sinks)
  {
    var r := Defaulted(sinks);
    forall i | 0 <= i < |r| ensures Complete(r[i]) { SettledAt(sinks, i, |sinks|); }
    AlreadyDefaulted(r, |r|);
  }
}
