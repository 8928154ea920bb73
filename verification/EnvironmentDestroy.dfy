/** Destroying a whole environment: the hub last, and each cluster under its own preparation. */
module EnvironmentDestroy {
  import opened Text

  /** What happens to the outside, in order. `DestroyStarted` carries the cluster whose code
      and plugins terraform was prepared with. */
  datatype Event =
    | Prepared(cluster: string)
    | DestroyStarted(cluster: string, preparedFor: string)
    | DestroyDone(cluster: string)
    | MetadataRemoved(cluster: string)
    | Archived
    | EnvironmentRemoved

  datatype Outcome = Done | Failed | Declined | Panicked

  /* ---------- what the order has to be ---------- */

  ghost predicate Happened(events: seq<Event>, n: nat, e: Event) {
    exists i :: 0 <= i < n && i < |events| && events[i] == e
  }

  /** Everything that may only happen after the cluster was destroyed and forgotten. */
  ghost predicate Gone(events: seq<Event>, n: nat, cluster: string) {
    Happened(events, n, DestroyDone(cluster)) && Happened(events, n, MetadataRemoved(cluster))
  }

  ghost predicate OthersGone(events: seq<Event>, n: nat, clusters: seq<string>, hub: string) {
    forall c :: c in clusters && c != hub ==> Gone(events, n, c)
  }

  /** The rule for one event, given those before it. */
  ghost predicate InOrder(events: seq<Event>, n: nat, clusters: seq<string>, hub: string)
    requires n < |events|
  {
    match events[n]
    case DestroyStarted(c, p) =>
      p == c && Happened(events, n, Prepared(c)) && (c == hub ==> OthersGone(events, n, clusters, hub))
    case DestroyDone(c) => Happened(events, n, DestroyStarted(c, c))
    case MetadataRemoved(c) => Happened(events, n, DestroyDone(c))
    case Archived =>
      && Gone(events, n, hub) && OthersGone(events, n, clusters, hub)
      && !Happened(events, n, EnvironmentRemoved)
    case EnvironmentRemoved => Gone(events, n, hub) && OthersGone(events, n, clusters, hub)
    case _ => true
  }

  ghost predicate AllInOrder(events: seq<Event>, clusters: seq<string>, hub: string) {
    forall n :: 0 <= n < |events| ==> InOrder(events, n, clusters, hub)
  }

  lemma HappenedStays(events: seq<Event>, more: seq<Event>, n: nat, e: Event)
    requires n <= |events|
    ensures Happened(events, n, e) <==> Happened(events + more, n, e)
  {
    if Happened(events + more, n, e) {
      var i :| 0 <= i < n && i < |events + more| && (events + more)[i] == e;
      assert events[i] == e;
    }
    if Happened(events, n, e) {
      var i :| 0 <= i < n && i < |events| && events[i] == e;
      assert (events + more)[i] == e;
    }
  }

  lemma HappenedBefore(events: seq<Event>, events': seq<Event>, e: Event)
    requires events <= events' && Happened(events, |events|, e)
    ensures Happened(events', |events'|, e)
  {
    var i :| 0 <= i < |events| && events[i] == e;
    assert events'[i] == e;
  }

  /** Appending an event keeps the order if the rule holds for it. */
  lemma AppendInOrder(events: seq<Event>, e: Event, clusters: seq<string>, hub: string)
    requires AllInOrder(events, clusters, hub)
    requires InOrder(events + [e], |events|, clusters, hub)
    ensures AllInOrder(events + [e], clusters, hub)
  {
    forall n | 0 <= n < |events + [e]| ensures InOrder(events + [e], n, clusters, hub) {
      if n < |events| {
        assert InOrder(events, n, clusters, hub) && (events + [e])[n] == events[n];
        forall x ensures Happened(events, n, x) <==> Happened(events + [e], n, x) { HappenedStays(events, [e], n, x); }
        assert forall c :: Gone(events, n, c) <==> Gone(events + [e], n, c);
        assert OthersGone(events, n, clusters, hub) <==> OthersGone(events + [e], n, clusters, hub);
      }
    }
  }

  /* ---------- the whole course ---------- */

  function Preparing(prepared: bool, c: string): seq<Event> {
    if prepared then [] else [Prepared(c)]
  }

  function Destroying(c: string): seq<Event> {
    [DestroyStarted(c, c), DestroyDone(c)]
  }

  /** A cluster that nothing is prepared for yet is destroyed and forgotten. */
  function OneCluster(c: string): seq<Event> {
    [Prepared(c), DestroyStarted(c, c), DestroyDone(c), MetadataRemoved(c)]
  }

  function UpTo(clusters: seq<string>, hub: string, n: nat): seq<Event>
    requires n <= |clusters|
  {
    if n == 0 then []
    else UpTo(clusters, hub, n - 1) + if clusters[n - 1] == hub then [] else OneCluster(clusters[n - 1])
  }

  /** Everything that happens if nothing fails. */
  function Whole(clusters: seq<string>, hub: string): seq<Event> {
    UpTo(clusters, hub, |clusters|) + OneCluster(hub)
  }

  function Afterwards(archive: bool, removeFromConfig: bool): seq<Event> {
    (if archive then [Archived] else []) + if removeFromConfig then [EnvironmentRemoved] else []
  }

  lemma {:induction false} PrefixOfWhole(clusters: seq<string>, hub: string, n: nat)
    requires n <= |clusters|
    ensures UpTo(clusters, hub, n) <= Whole(clusters, hub)
    decreases |clusters| - n
  {
    if n < |clusters| { PrefixOfWhole(clusters, hub, n + 1); }
  }

  /* ---------- the code ---------- */

  class CmdTarmak {
    const clusters: seq<string>
    const hub: Option<string>

    /** Fields of the terraform wrapper. */
    var prepared: bool
    var preparedFor: string

    var events: seq<Event>

    /** How many steps have failed so far. */
    ghost var errors: nat

    constructor (clusters: seq<string>, hub: Option<string>)
      ensures this.clusters == clusters && this.hub == hub && !prepared && events == [] && errors == 0
    {
      this.clusters, this.hub, prepared, preparedFor, events := clusters, hub, false, "", [];
      errors := 0;
    }

    /** The outcome of a step. */
    method Try() returns (ok: bool)
      modifies this`errors
      ensures errors == old(errors) + if ok then 0 else 1
    {
      ok := *;
      if !ok { errors := errors + 1; }
    }

    /** Everything recorded so far respects the order. */
    ghost predicate Valid()
      reads this
    {
      && hub.Some? && AllInOrder(events, clusters, hub.value)
      && (prepared ==> Happened(events, |events|, Prepared(preparedFor)))
    }

    method Record(e: Event)
      requires Valid() && InOrder(events + [e], |events|, clusters, hub.value)
      modifies this`events
      ensures Valid() && events == old(events) + [e]
    {
      AppendInOrder(events, e, clusters, hub.value);
      if prepared { HappenedBefore(events, events + [e], Prepared(preparedFor)); }
      events := events + [e];
    }

    method ResetTerraformWrapper()
      modifies this`prepared
      ensures !prepared
    {
      prepared := false;
    }

    method PrepareFor(cluster: string) returns (ok: bool)
      requires Valid() && (prepared ==> preparedFor == cluster)
      modifies this
      ensures Valid() && errors == old(errors) + if ok then 0 else 1
      ensures if ok then prepared && preparedFor == cluster && events == old(events) + Preparing(old(prepared), cluster)
              else !prepared && events == old(events)
    {
      ok := true;
      if !prepared {
        ok := Try();
        if !ok { return; }
        Record(Prepared(cluster));
        assert events[|events| - 1] == Prepared(cluster);
        prepared, preparedFor := true, cluster;
      }
    }

    /** `terraformWrapper` with the destroy command: it prepares only if nothing is prepared. */
    method TerraformDestroy(cluster: string) returns (ok: bool)
      requires Valid() && (prepared ==> preparedFor == cluster)
      requires cluster == hub.value ==> OthersGone(events, |events|, clusters, hub.value)
      modifies this
      ensures Valid() && old(events) <= events && (EnvironmentRemoved in events ==> EnvironmentRemoved in old(events))
      ensures prepared ==> preparedFor == cluster
      ensures ok ==> Happened(events, |events|, DestroyDone(cluster))
      ensures events <= old(events) + Preparing(old(prepared), cluster) + Destroying(cluster)
      ensures ok <==> events == old(events) + Preparing(old(prepared), cluster) + Destroying(cluster)
      ensures errors == old(errors) + if ok then 0 else 1
    {
      ok := PrepareFor(cluster);
      if !ok { return; }
      if cluster == hub.value { OthersStayGone(old(events), events, clusters, hub.value); }
      ghost var before := events;
      ok := RunDestroy(cluster);
      assert ok ==> events == before + Destroying(cluster);
    }

    method RunDestroy(cluster: string) returns (ok: bool)
      requires Valid() && prepared && preparedFor == cluster
      requires cluster == hub.value ==> OthersGone(events, |events|, clusters, hub.value)
      modifies this`events, this`errors
      ensures Valid() && errors == old(errors) + if ok then 0 else 1
      ensures events == old(events) + if ok then Destroying(cluster) else Destroying(cluster)[..1]
      ensures ok ==> Happened(events, |events|, DestroyDone(cluster))
    {
      RuleForStart(events, cluster, preparedFor, clusters, hub.value);
      Record(DestroyStarted(cluster, preparedFor));
      ok := Try();
      if ok {
        RuleForDone(events, cluster, clusters, hub.value);
        Record(DestroyDone(cluster));
        assert events[|events| - 1] == DestroyDone(cluster);
      }
    }

    /** `Destroy`: set-up, terraform destroy, removal of the known hosts file. */
    method Destroy(cluster: string) returns (ok: bool)
      requires Valid() && (prepared ==> preparedFor == cluster)
      requires cluster == hub.value ==> OthersGone(events, |events|, clusters, hub.value)
      modifies this
      ensures Valid() && old(events) <= events && (EnvironmentRemoved in events ==> EnvironmentRemoved in old(events))
      ensures prepared ==> preparedFor == cluster
      ensures ok ==> Happened(events, |events|, DestroyDone(cluster))
      ensures events <= old(events) + Preparing(old(prepared), cluster) + Destroying(cluster)
      ensures ok ==> events == old(events) + Preparing(old(prepared), cluster) + Destroying(cluster)
      ensures errors == old(errors) + if ok then 0 else 1
    {
      ok := Try();
      if !ok { return; }
      ok := TerraformDestroy(cluster);
      if ok { ok := Try(); }
    }

    /** `DestroyClusterMetadata`. */
    method DestroyClusterMetadata(cluster: string) returns (ok: bool)
      requires Valid() && Happened(events, |events|, DestroyDone(cluster))
      modifies this`events, this`errors
      ensures Valid() && old(events) <= events && (EnvironmentRemoved in events ==> EnvironmentRemoved in old(events))
      ensures ok ==> Gone(events, |events|, cluster)
      ensures events <= old(events) + [MetadataRemoved(cluster)]
      ensures ok ==> events == old(events) + [MetadataRemoved(cluster)]
      ensures errors == old(errors) + if ok then 0 else 1
    {
      ok := Try();
      if !ok { return; }
      HappenedStays(events, [MetadataRemoved(cluster)], |events|, DestroyDone(cluster));
      Record(MetadataRemoved(cluster));
      assert events[|events| - 1] == MetadataRemoved(cluster);
      ghost var i :| 0 <= i < |old(events)| && old(events)[i] == DestroyDone(cluster);
      assert events[i] == DestroyDone(cluster);
      ok := Try();
    }

    method DestroyAndForget(cluster: string) returns (ok: bool)
      requires Valid() && (prepared ==> preparedFor == cluster)
      requires cluster == hub.value ==> OthersGone(events, |events|, clusters, hub.value)
      modifies this
      ensures Valid() && old(events) <= events && (EnvironmentRemoved in events ==> EnvironmentRemoved in old(events))
      ensures ok ==> Gone(events, |events|, cluster)
      ensures !old(prepared) ==> events <= old(events) + OneCluster(cluster)
      ensures !old(prepared) && ok ==> events == old(events) + OneCluster(cluster)
      ensures errors == old(errors) + if ok then 0 else 1
    {
      ok := Destroy(cluster);
      if ok { ok := DestroyClusterMetadata(cluster); }
    }

    /** `DestroyEnvironment`, on a wrapper that prepared nothing yet. A missing hub is a nil
        dereference. The answers are those to the three questions; auto-approval is three
        times yes. */
    method DestroyEnvironment(destroyAll: bool, archive: bool, removeFromConfig: bool) returns (outcome: Outcome)
      requires !prepared && events == []
      modifies this
      ensures outcome == Panicked <==> destroyAll && hub.None?
      ensures outcome == Panicked ==> events == []
      ensures outcome == Failed <==> errors > old(errors)
      ensures outcome == Declined <==> !destroyAll
      ensures !destroyAll ==> events == []
      ensures hub.Some? ==> AllInOrder(events, clusters, hub.value)
      ensures outcome == Done ==>
                && hub.Some?
                && (forall c :: c in clusters ==> Gone(events, |events|, c)) && Gone(events, |events|, hub.value)
                && (removeFromConfig <==> Happened(events, |events|, EnvironmentRemoved))
      ensures hub.Some? && destroyAll ==>
                && events <= Whole(clusters, hub.value) + Afterwards(archive, removeFromConfig)
                && (outcome == Done ==> events == Whole(clusters, hub.value) + Afterwards(archive, removeFromConfig))
    {
      if !destroyAll { return Declined; }
      if hub.None? { return Panicked; }
      var ok := DestroyClusters();
      if !ok { return Failed; }
      ghost var before := events;
      ok := ArchiveAndRemove(archive, removeFromConfig);
      if !ok { return Failed; }
      StillGone(before, events, clusters, hub.value);
      RemovedExactly(before, archive, removeFromConfig);
      outcome := Done;
    }

    /** The end of `DestroyEnvironment`. */
    method ArchiveAndRemove(archive: bool, removeFromConfig: bool) returns (ok: bool)
      requires Valid() && Gone(events, |events|, hub.value) && OthersGone(events, |events|, clusters, hub.value)
      requires EnvironmentRemoved !in events
      modifies this`events, this`errors
      ensures Valid() && old(events) <= events <= old(events) + Afterwards(archive, removeFromConfig)
      ensures ok ==> events == old(events) + Afterwards(archive, removeFromConfig)
      ensures errors == old(errors) + if ok then 0 else 1
    {
      ghost var before := events;
      if archive {
        ok := Try();
        if !ok { return; }
        RuleForEnd(events, Archived, clusters, hub.value);
        Record(Archived);
        StillGone(before, events, clusters, hub.value);
      }
      if removeFromConfig {
        ok := Try();
        if !ok { return; }
        RuleForEnd(events, EnvironmentRemoved, clusters, hub.value);
        Record(EnvironmentRemoved);
      }
      ok := true;
    }

    /** The loop over the clusters and the hub after it. */
    method DestroyClusters() returns (ok: bool)
      requires Valid() && !prepared && events == []
      modifies this
      ensures Valid() && EnvironmentRemoved !in events
      ensures ok ==> Gone(events, |events|, hub.value) && OthersGone(events, |events|, clusters, hub.value)
      ensures events <= Whole(clusters, hub.value) && (ok ==> events == Whole(clusters, hub.value))
      ensures errors == old(errors) + if ok then 0 else 1
    {
      ok := DestroyOthers();
      NeverRemoved(clusters, hub.value);
      if !ok { return; }
      UpToGone(clusters, hub.value, |clusters|);
      ghost var before := events;
      ok := DestroyAndForget(hub.value);
      if ok { OthersStayGone(before, events, clusters, hub.value); }
    }

    method DestroyOthers() returns (ok: bool)
      requires Valid() && !prepared && events == []
      modifies this
      ensures Valid() && events <= Whole(clusters, hub.value)
      ensures ok ==> !prepared && events == UpTo(clusters, hub.value, |clusters|)
      ensures errors == old(errors) + if ok then 0 else 1
    {
      for n := 0 to |clusters|
        invariant Valid() && !prepared && events == UpTo(clusters, hub.value, n) && errors == old(errors)
      {
        PrefixOfWhole(clusters, hub.value, n + 1);
        if clusters[n] != hub.value {
          ok := DestroyAndForget(clusters[n]);
          if !ok { return; }
          ResetTerraformWrapper();
        }
      }
      PrefixOfWhole(clusters, hub.value, |clusters|);
      ok := true;
    }
  }

  lemma {:induction false} UpToGone(clusters: seq<string>, hub: string, n: nat)
    requires n <= |clusters|
    ensures var events := UpTo(clusters, hub, n);
            forall m :: 0 <= m < n && clusters[m] != hub ==> Gone(events, |events|, clusters[m])
  {
    if n > 0 {
      var events, c := UpTo(clusters, hub, n - 1), clusters[n - 1];
      var events' := UpTo(clusters, hub, n);
      UpToGone(clusters, hub, n - 1);
      forall m | 0 <= m < n && clusters[m] != hub ensures Gone(events', |events'|, clusters[m]) {
        if m < n - 1 {
          GoneStays(events, events', clusters[m]);
        } else {
          assert events'[|events| + 2] == DestroyDone(c) && events'[|events| + 3] == MetadataRemoved(c);
        }
      }
    }
  }

  lemma RemovedExactly(before: seq<Event>, archive: bool, removeFromConfig: bool)
    requires EnvironmentRemoved !in before
    ensures var events := before + Afterwards(archive, removeFromConfig);
            removeFromConfig <==> Happened(events, |events|, EnvironmentRemoved)
  {
    var events := before + Afterwards(archive, removeFromConfig);
    if removeFromConfig { assert events[|events| - 1] == EnvironmentRemoved; }
    assert forall i :: 0 <= i < |before| ==> events[i] == before[i] != EnvironmentRemoved;
  }

  lemma {:induction false} NeverRemovedUpTo(clusters: seq<string>, hub: string, n: nat)
    requires n <= |clusters|
    ensures EnvironmentRemoved !in UpTo(clusters, hub, n)
  {
    if n > 0 { NeverRemovedUpTo(clusters, hub, n - 1); }
  }

  lemma NeverRemoved(clusters: seq<string>, hub: string)
    ensures EnvironmentRemoved !in Whole(clusters, hub)
  {
    NeverRemovedUpTo(clusters, hub, |clusters|);
  }

  lemma GoneStays(events: seq<Event>, events': seq<Event>, c: string)
    requires events <= events' && Gone(events, |events|, c)
    ensures Gone(events', |events'|, c)
  {
    var i :| 0 <= i < |events| && events[i] == DestroyDone(c);
    var j :| 0 <= j < |events| && events[j] == MetadataRemoved(c);
    assert events'[i] == DestroyDone(c) && events'[j] == MetadataRemoved(c);
  }

  lemma OthersStayGone(events: seq<Event>, events': seq<Event>, clusters: seq<string>, hub: string)
    requires events <= events' && OthersGone(events, |events|, clusters, hub)
    ensures OthersGone(events', |events'|, clusters, hub)
  {
    forall c | c in clusters && c != hub ensures Gone(events', |events'|, c) { GoneStays(events, events', c); }
  }

  lemma StillGone(events: seq<Event>, events': seq<Event>, clusters: seq<string>, hub: string)
    requires events <= events' && Gone(events, |events|, hub) && OthersGone(events, |events|, clusters, hub)
    ensures Gone(events', |events'|, hub) && OthersGone(events', |events'|, clusters, hub)
  {
    GoneStays(events, events', hub);
    OthersStayGone(events, events', clusters, hub);
  }

  lemma GoneBefore(events: seq<Event>, e: Event, c: string)
    ensures Gone(events + [e], |events|, c) <==> Gone(events, |events|, c)
  {
    HappenedStays(events, [e], |events|, DestroyDone(c));
    HappenedStays(events, [e], |events|, MetadataRemoved(c));
  }

  lemma RuleForStart(events: seq<Event>, c: string, preparedFor: string, clusters: seq<string>, hub: string)
    requires preparedFor == c && (c == hub ==> OthersGone(events, |events|, clusters, hub))
    requires Happened(events, |events|, Prepared(c))
    ensures InOrder(events + [DestroyStarted(c, preparedFor)], |events|, clusters, hub)
  {
    HappenedStays(events, [DestroyStarted(c, preparedFor)], |events|, Prepared(c));
    forall x ensures Gone(events + [DestroyStarted(c, preparedFor)], |events|, x) <==> Gone(events, |events|, x) {
      GoneBefore(events, DestroyStarted(c, preparedFor), x);
    }
  }

  lemma RuleForDone(events: seq<Event>, c: string, clusters: seq<string>, hub: string)
    requires events != [] && events[|events| - 1] == DestroyStarted(c, c)
    ensures InOrder(events + [DestroyDone(c)], |events|, clusters, hub)
  {
    assert (events + [DestroyDone(c)])[|events| - 1] == DestroyStarted(c, c);
  }

  lemma RuleForEnd(events: seq<Event>, e: Event, clusters: seq<string>, hub: string)
    requires e.Archived? || e.EnvironmentRemoved?
    requires Gone(events, |events|, hub) && OthersGone(events, |events|, clusters, hub)
    requires EnvironmentRemoved !in events
    ensures InOrder(events + [e], |events|, clusters, hub)
  {
    HappenedStays(events, [e], |events|, EnvironmentRemoved);
    forall x ensures Gone(events + [e], |events|, x) <==> Gone(events, |events|, x) { GoneBefore(events, e, x); }
  }

  lemma HappenedIsIn(events: seq<Event>, n: nat, e: Event)
    requires n <= |events|
    ensures Happened(events, n, e) <==> e in events[..n]
  {
    if Happened(events, n, e) {
      var i :| 0 <= i < n && events[i] == e;
      assert events[..n][i] == e;
    }
  }

  /** The order, read off any recorded sequence: before the hub's destroy starts, every other
      cluster is gone; before the environment leaves the config, all of them and the hub
      are; no destroy runs but under its own cluster's preparation; and the environment is
      archived before it leaves the config. */
  lemma OrderMeans(events: seq<Event>, clusters: seq<string>, hub: string, n: nat, c: string)
    requires AllInOrder(events, clusters, hub) && n < |events|
    ensures events[n].DestroyStarted? ==>
              events[n].preparedFor == events[n].cluster && Prepared(events[n].cluster) in events[..n]
    ensures events[n].DestroyDone? ==> DestroyStarted(events[n].cluster, events[n].cluster) in events[..n]
    ensures events[n] == Archived ==> EnvironmentRemoved !in events[..n]
    ensures events[n].DestroyStarted? && events[n].cluster == hub && c in clusters && c != hub ==>
              exists i, j :: 0 <= i < n && 0 <= j < n && events[i] == DestroyDone(c) && events[j] == MetadataRemoved(c)
    ensures events[n] == EnvironmentRemoved && (c == hub || c in clusters) ==>
              exists i, j :: 0 <= i < n && 0 <= j < n && events[i] == DestroyDone(c) && events[j] == MetadataRemoved(c)
  {
    assert InOrder(events, n, clusters, hub);
    forall e ensures Happened(events, n, e) <==> e in events[..n] { HappenedIsIn(events, n, e); }
    if Gone(events, n, c) {
      var i :| 0 <= i < n && i < |events| && events[i] == DestroyDone(c);
      var j :| 0 <= j < n && j < |events| && events[j] == MetadataRemoved(c);
    }
  }
}
