/** What the publish and converge protocol guarantees in every run, and what it does not. */
module WingGuarantees {
  import opened Text
  import opened WingProtocol
  import opened WingInvariant

  /** The state after `actions`, from the start. */
  function After(md5: string -> string, actions: seq<Action>): State {
    Execute(md5, Init, actions)
  }

  /* ---------- publishing ---------- */

  /** Whatever uploads are under way, each able to stop between its writes, the pointer has
      only ever named stored objects whose content has that hash; so a reader that got the
      pointer gets a complete matching manifest. */
  lemma PointerNamesStoredManifest(md5: string -> string, actions: seq<Action>, t: nat)
    ensures var s := After(md5, actions);
            && (forall k :: 0 <= k < |s.pointers| ==>
                  s.pointers[k] in s.objects && md5(s.objects[s.pointers[k]]) == s.pointers[k])
            && (t in s.runs && s.runs[t].fetch.PointerRead? ==>
                  var f := Step(md5, s, ReadObject(t)).runs[t].fetch;
                  f.HashFetched? && f.k == s.runs[t].fetch.k && md5(f.content) == s.pointers[f.k])
  {
    Reachable(md5, actions);
    var s := After(md5, actions);
    if t in s.runs { assert RunOk(md5, s, s.runs[t]); }
  }

  lemma {:induction false} ExecuteConcat(md5: string -> string, s: State, a: seq<Action>, b: seq<Action>)
    ensures Execute(md5, s, a + b) == Execute(md5, Execute(md5, s, a), b)
    decreases |a|
  {
    if a == [] {
      assert a + b == b;
    } else {
      assert (a + b)[0] == a[0] && (a + b)[1..] == a[1..] + b;
      ExecuteConcat(md5, Step(md5, s, a[0]), a[1..], b);
    }
  }

  /** Versions stored from some state on have seen every manifest published by then. */
  lemma {:induction false} LaterVersionsSawMore(md5: string -> string, s: State, actions: seq<Action>, r: nat)
    requires Inv(md5, s) && |s.log| <= r < |Execute(md5, s, actions).log|
    ensures |s.pointers| <= Execute(md5, s, actions).log[r].pointersSeen
    ensures |s.legacy| <= Execute(md5, s, actions).log[r].legacySeen
    decreases |actions|
  {
    var s' := Step(md5, s, actions[0]);
    StepKeeps(md5, s, actions[0]);
    if r < |s'.log| {
      ExecuteKeeps(md5, s', actions[1..]);
      assert Execute(md5, s, actions).log[r] == s'.log[r];
      NewEntrySaw(md5, s, actions[0], r);
    } else {
      LaterVersionsSawMore(md5, s', actions[1..], r);
    }
  }

  lemma NewEntrySaw(md5: string -> string, s: State, a: Action, r: nat)
    requires |s.log| <= r < |Step(md5, s, a).log|
    ensures Step(md5, s, a).log[r].pointersSeen == |s.pointers|
    ensures Step(md5, s, a).log[r].legacySeen == |s.legacy|
  {
  }

  /** Freshness, from end to end: take any point of any run. A converge that the controller
      starts because of a request stored after that point fetches, if the hash provider
      answers, a manifest published no earlier than any manifest published by that point,
      and that manifest has the hash the pointer named. If the agent falls back to the
      legacy object, the same holds in the order of the legacy uploads. (The manifests
      published by that point have the positions below `|s0.pointers|`.) */
  lemma RequestedConvergeIsFresh(md5: string -> string, before: seq<Action>, after: seq<Action>, t: nat)
    ensures var s0, s := After(md5, before), After(md5, before + after);
            t in s.runs && s.runs[t].cause.Some? && s.runs[t].cause.value >= |s0.log| ==>
              match s.runs[t].fetch
              case NotYet => true
              case PointerRead(k) => |s0.pointers| <= k + 1
              case HashFetched(k, content) =>
                k < |s.pointers| && md5(content) == s.pointers[k] && |s0.pointers| <= k + 1
              case LegacyFetched(l, content) =>
                l < |s.legacy| && content == s.legacy[l] && |s0.legacy| <= l + 1
  {
    var s0, s := After(md5, before), After(md5, before + after);
    Reachable(md5, before);
    Reachable(md5, before + after);
    ExecuteConcat(md5, Init, before, after);
    if t in s.runs && s.runs[t].cause.Some? && s.runs[t].cause.value >= |s0.log| {
      assert RunOk(md5, s, s.runs[t]);
      LaterVersionsSawMore(md5, s0, after, s.runs[t].cause.value);
    }
  }

  /** In particular the process that stored the request gets its own upload or a later one. */
  lemma RequesterIsServed(md5: string -> string, actions: seq<Action>, id: nat, t: nat)
    ensures var s := After(md5, actions);
            && id in s.clis && s.clis[id].AskStored? && t in s.runs && s.runs[t].cause == Some(s.clis[id].version) ==>
              && (s.runs[t].fetch.HashFetched? ==> s.clis[id].k <= s.runs[t].fetch.k)
              && (s.runs[t].fetch.LegacyFetched? ==> s.clis[id].l <= s.runs[t].fetch.l)
  {
    Reachable(md5, actions);
    var s := After(md5, actions);
    if id in s.clis { assert CliOk(md5, s, s.clis[id]); }
    if t in s.runs { assert RunOk(md5, s, s.runs[t]); }
  }

  /* ---------- the instance object ---------- */

  /** No request is erased by a report and no report by a request: in every run, each
      stored report left the spec as it was, each stored request left the status and the
      other section of the spec as they were, and every stored section carries a stamp. */
  lemma NothingErased(md5: string -> string, actions: seq<Action>, i: nat)
    requires i < |After(md5, actions).log|
    ensures var log := After(md5, actions).log;
            && (log[i].obj.Some? ==> Stamped(log[i].obj.value))
            && (log[i].op.Reported? ==>
                  && i > 0 && log[i - 1].obj.Some? && log[i].obj.Some?
                  && log[i].obj.value.spec == log[i - 1].obj.value.spec)
            && (log[i].op.Asked? ==>
                  && i > 0 && log[i - 1].obj.Some? && log[i].obj.Some?
                  && log[i].obj.value.status == log[i - 1].obj.value.status
                  && log[i].obj.value.spec.Some? && log[i].obj.value.spec.value.converge == Some(log[i].stamp)
                  && log[i].obj.value.spec.value.dryRun ==
                     (if log[i - 1].obj.value.spec.Some? then log[i - 1].obj.value.spec.value.dryRun else None))
  {
    Reachable(md5, actions);
    assert EntryOk(After(md5, actions).log, i);
  }

  ghost predicate NotDeletedBetween(log: seq<Entry>, i: nat, j: nat) {
    forall m :: i < m <= j && m < |log| ==> log[m].obj.Some?
  }

  /** As long as the instance is not deleted, its stored update stamp never decreases. */
  lemma UpdateStampsNeverDecrease(md5: string -> string, actions: seq<Action>, i: nat, j: nat)
    requires i <= j < |After(md5, actions).log| && After(md5, actions).log[i].obj.Some?
    requires NotDeletedBetween(After(md5, actions).log, i, j)
    ensures var log := After(md5, actions).log;
            HasConverge(log[i]) && HasConverge(log[j]) && UpdateStamp(log[i]) <= UpdateStamp(log[j])
  {
    Reachable(md5, actions);
    StampsUpTo(After(md5, actions).log, i, j);
  }

  lemma {:induction false} StampsUpTo(log: seq<Entry>, i: nat, j: nat)
    requires i <= j < |log| && log[i].obj.Some? && NotDeletedBetween(log, i, j)
    requires forall m :: 0 <= m <= j ==> EntryOk(log, m)
    ensures HasConverge(log[i]) && HasConverge(log[j]) && UpdateStamp(log[i]) <= UpdateStamp(log[j])
  {
    StatusNotNewer(log, i);
    StatusNotNewer(log, j);
    if i < j {
      assert EntryOk(log, j);
      StampsUpTo(log, i, j - 1);
      StatusNotNewer(log, j - 1);
    }
  }

  /* ---------- the controller ---------- */

  /** A report stored after version `r`, up to version `v`, with a later stamp. */
  ghost predicate ReportedAfter(log: seq<Entry>, r: nat, v: nat)
    requires r <= v < |log|
  {
    exists w :: r < w <= v && log[w].op.Reported? && log[w].stamp > log[r].stamp
  }

  ghost predicate Requested(e: Entry) {
    e.obj.Some? && e.obj.value.spec.Some? && e.obj.value.spec.value.converge.Some?
  }

  /** On a version that carries a request, the controller skips the converge exactly when a
      report was stored after the request and stamped strictly later. */
  lemma SkipsExactlyAfterReport(md5: string -> string, actions: seq<Action>, v: nat)
    requires v < |After(md5, actions).log| && Requested(After(md5, actions).log[v])
    ensures var log := After(md5, actions).log;
            !ShouldConverge(log[v].obj.value) <==> ReportedAfter(log, LastAsk(log, v), v)
  {
    Reachable(md5, actions);
    DecisionOf(After(md5, actions).log, v);
  }

  lemma DecisionOf(log: seq<Entry>, v: nat)
    requires v < |log| && Requested(log[v]) && forall i :: 0 <= i <= v ==> EntryOk(log, i)
    ensures !ShouldConverge(log[v].obj.value) <==> ReportedAfter(log, LastAsk(log, v), v)
  {
    var r := LastAsk(log, v);
    RequestOrigin(log, v);
    StatusNotNewer(log, v);
    assert EntryOk(log, v) && EntryOk(log, r);
    if v == r {
      StatusNotNewer(log, r - 1);
    } else {
      forall w | r < w <= v ensures log[w].stamp <= log[v].stamp { StampsMonotone(log, w, v); }
    }
  }

  /** A decision that starts a run for request `r` has seen no report stored after it with a
      later stamp. */
  lemma StartSawNoLaterReport(md5: string -> string, actions: seq<Action>, j: nat)
    requires j < |After(md5, actions).syncs| && After(md5, actions).syncs[j].started.Some?
    ensures var s := After(md5, actions);
            var r := s.syncs[j].started.value;
            && s.syncs[j].seen <= |s.log|
            && forall w :: r < w < s.syncs[j].seen && s.log[w].op.Reported? ==> s.log[w].stamp <= s.log[r].stamp
  {
    var s := After(md5, actions);
    Reachable(md5, actions);
    assert SyncOk(s, s.syncs[j]);
    DecisionOf(s.log, s.syncs[j].seen - 1);
  }

  /* ---------- what is not guaranteed ---------- */

  lemma Do(md5: string -> string, actions: seq<Action>, s: State, a: Action) returns (actions': seq<Action>, s': State)
    requires s == After(md5, actions)
    ensures actions' == actions + [a] && s' == Step(md5, s, a) && s' == After(md5, actions')
  {
    actions', s' := actions + [a], Step(md5, s, a);
    ExecuteConcat(md5, Init, actions, [a]);
    assert [a][1..] == [];
    assert Execute(md5, s', []) == s';
  }

  /** A first run reports once, so that the instance exists. */
  lemma FirstReport(md5: string -> string) returns (actions: seq<Action>, s: State)
    ensures s == After(md5, actions)
    ensures s == Init.(log := [Entry(Created, 1, Some(Instance(None, Some(Status(Some(Report(Converging, 1)), None)))),
                                     0, 0)],
                       runs := map[0 := Run(None, NotYet, Idle)])
  {
    actions, s := [], Init;
    actions, s := Do(md5, actions, s, StartRun(0));
    actions, s := Do(md5, actions, s, Get(0));
    actions, s := Do(md5, actions, s, AdmitReport(0, Converging));
    actions, s := Do(md5, actions, s, CommitReport(0));
  }

  lemma SetTwice<K, V>(m: map<K, V>, k: K, x: V, y: V)
    ensures m[k := x][k := y] == m[k := y]
  {
  }

  function Publish(md5: string -> string, s: State, id: nat, content: string): State {
    s.(objects := s.objects[md5(content) := content],
       pointers := s.pointers + [md5(content)],
       legacy := s.legacy + [content],
       clis := s.clis[id := Published(content, |s.legacy|, |s.pointers|)])
  }

  /** Process `id` uploads `content` without interruption. */
  lemma Upload(md5: string -> string, actions0: seq<Action>, s0: State, id: nat, content: string)
    returns (actions: seq<Action>, s: State)
    requires s0 == After(md5, actions0) && id !in s0.clis
    ensures s == After(md5, actions) && s == Publish(md5, s0, id, content)
  {
    var l, k := |s0.legacy|, |s0.pointers|;
    actions, s := Do(md5, actions0, s0, PutLegacy(id, content));
    SetTwice(s0.clis, id, LegacyPut(content, l), ObjectPut(content, l));
    actions, s := Do(md5, actions, s, PutObject(id));
    assert s.clis == s0.clis[id := ObjectPut(content, l)];
    SetTwice(s0.clis, id, ObjectPut(content, l), Published(content, l, k));
    actions, s := Do(md5, actions, s, PutPointer(id));
  }

  function Ask(s: State, id: nat, l: nat, k: nat): State
    requires Current(s.log).Some?
  {
    s.(log := s.log + [Entry(Asked, s.now, Some(Admit(AskFor(Current(s.log).value), s.now)), |s.pointers|, |s.legacy|)],
       clis := s.clis[id := AskStored(l, k, |s.log|)])
  }

  /** Process `id`, having published, asks without interruption. */
  lemma AskNow(md5: string -> string, actions0: seq<Action>, s0: State, id: nat, content: string, l: nat, k: nat)
    returns (actions: seq<Action>, s: State)
    requires s0 == After(md5, actions0) && Current(s0.log).Some?
    requires id in s0.clis && s0.clis[id] == Published(content, l, k)
    ensures s == After(md5, actions) && s == Ask(s0, id, l, k)
  {
    var v, copy := |s0.log| - 1, Current(s0.log).value;
    var w := Write(Some(v), Admit(AskFor(copy), s0.now), s0.now);
    actions, s := Do(md5, actions0, s0, List(id));
    SetTwice(s0.clis, id, Listed(l, k, v, copy), AskAdmitted(l, k, w));
    actions, s := Do(md5, actions, s, AdmitAsk(id));
    assert s == s0.(clis := s0.clis[id := AskAdmitted(l, k, w)]);
    SetTwice(s0.clis, id, AskAdmitted(l, k, w), AskStored(l, k, |s0.log|));
    actions, s := Do(md5, actions, s, CommitAsk(id));
  }

  /** Process `id` uploads `content`, is scheduled without interruption, and asks. */
  lemma UploadAndAsk(md5: string -> string, actions0: seq<Action>, s0: State, id: nat, content: string)
    returns (actions: seq<Action>, s: State)
    requires s0 == After(md5, actions0) && id !in s0.clis && Current(s0.log).Some?
    ensures s == After(md5, actions)
    ensures s == Ask(Publish(md5, s0, id, content), id, |s0.legacy|, |s0.pointers|)
  {
    actions, s := Upload(md5, actions0, s0, id, content);
    actions, s := AskNow(md5, actions, s, id, content, |s0.legacy|, |s0.pointers|);
  }

  /** Run `t` stores a report. */
  lemma StoreReport(md5: string -> string, actions0: seq<Action>, s0: State, t: nat, state: ManifestState)
    returns (actions: seq<Action>, s: State)
    requires s0 == After(md5, actions0) && t in s0.runs && Current(s0.log).Some?
    ensures s == After(md5, actions)
    ensures s == s0.(
      log := s0.log + [Entry(Reported, s0.now, Some(Admit(ReportOn(Current(s0.log).value, state), s0.now)),
                             |s0.pointers|, |s0.legacy|)],
      runs := s0.runs[t := s0.runs[t].(report := Idle)])
  {
    actions, s := Do(md5, actions0, s0, Get(t));
    actions, s := Do(md5, actions, s, AdmitReport(t, state));
    actions, s := Do(md5, actions, s, CommitReport(t));
    assert s.runs == s0.runs[t := s0.runs[t].(report := Idle)];
  }

  /** The instance exists and was asked to converge within the same second. */
  lemma AskedAtOnce(md5: string -> string, content: string) returns (actions: seq<Action>, s: State)
    ensures s == After(md5, actions)
    ensures s.now == 1 && s.seen == 0 && s.syncs == [] && s.clis.Keys == {6}
    ensures s.runs == map[0 := Run(None, NotYet, Idle)]
    ensures |s.log| == 2 && s.log[1].op == Asked && s.log[1].stamp == 1
    ensures s.log[1].obj == Some(Instance(Some(Spec(Some(1), None)), Some(Status(Some(Report(Converging, 1)), None))))
    ensures s.pointers == [md5(content)] && md5(content) in s.objects && |s.legacy| == 1
  {
    actions, s := FirstReport(md5);
    actions, s := UploadAndAsk(md5, actions, s, 6, content);
  }

  /** The controller sees the request and starts a run for it. */
  lemma FirstStart(md5: string -> string) returns (actions: seq<Action>, s: State)
    ensures s == After(md5, actions)
    ensures s.now == 1 && s.seen == 2 && s.syncs == [Sync(2, Some(1))] && s.runs.Keys == {0, 1}
    ensures |s.log| == 2 && s.log[1].op == Asked
    ensures s.log[1].obj == Some(Instance(Some(Spec(Some(1), None)), Some(Status(Some(Report(Converging, 1)), None))))
  {
    actions, s := AskedAtOnce(md5, "manifest");
    actions, s := Do(md5, actions, s, Observe(2));
    assert LastAsk(s.log, 1) == 1;
    actions, s := Do(md5, actions, s, Decide(1));
  }

  lemma FirstConverge(md5: string -> string) returns (actions: seq<Action>, s: State)
    ensures s == After(md5, actions)
    ensures s.now == 1 && s.seen == 2 && s.syncs == [Sync(2, Some(1))] && s.runs.Keys == {0, 1}
    ensures |s.log| == 3 && s.log[1].op == Asked && s.log[2].op == Reported
    ensures s.log[2].obj == Some(Instance(Some(Spec(Some(1), None)), Some(Status(Some(Report(Converged, 1)), None))))
  {
    actions, s := FirstStart(md5);
    actions, s := StoreReport(md5, actions, s, 1, Converged);
  }

  /** One request can cause two converges, even with a cache that has seen everything and
      with every report stored: timestamps only tell seconds apart. */
  lemma TwoConvergesForOneRequest(md5: string -> string) returns (actions: seq<Action>, s: State)
    ensures s == After(md5, actions) && s.seen == |s.log| == 3
    ensures s.syncs == [Sync(2, Some(1)), Sync(3, Some(1))] && s.log[2].op == Reported
  {
    actions, s := FirstConverge(md5);
    actions, s := Do(md5, actions, s, Observe(3));
    assert LastAsk(s.log, 2) == LastAsk(s.log, 1) == 1;
    actions, s := Do(md5, actions, s, Decide(2));
  }

  /** A run fetches the manifest published so far. */
  lemma FetchedOlder(md5: string -> string) returns (actions: seq<Action>, s: State)
    ensures s == After(md5, actions)
    ensures s.now == 1 && s.seen == 0 && s.syncs == [] && s.clis.Keys == {6} && |s.pointers| == |s.legacy| == 1
    ensures s.runs.Keys == {0} && s.runs[0].cause.None? && s.runs[0].fetch.HashFetched? && s.runs[0].fetch.k == 0
    ensures |s.log| == 2
    ensures Current(s.log) == Some(Instance(Some(Spec(Some(1), None)), Some(Status(Some(Report(Converging, 1)), None))))
  {
    actions, s := AskedAtOnce(md5, "older");
    actions, s := Do(md5, actions, s, ReadPointer(0));
    actions, s := Do(md5, actions, s, ReadObject(0));
  }

  lemma NewerAsked(md5: string -> string) returns (actions: seq<Action>, s: State)
    ensures s == After(md5, actions)
    ensures s.now == 2 && s.seen == 0 && s.syncs == []
    ensures s.runs.Keys == {0} && s.runs[0].fetch.HashFetched? && s.runs[0].fetch.k == 0
    ensures |s.log| == 3 && s.log[2].op == Asked && s.log[2].pointersSeen == 2
    ensures s.log[2].obj == Some(Instance(Some(Spec(Some(1), None)), Some(Status(Some(Report(Converging, 1)), None))))
  {
    actions, s := FetchedOlder(md5);
    actions, s := UploadAndAsk(md5, actions, s, 7, "newer");
    actions, s := Do(md5, actions, s, Tick);
  }

  lemma HiddenRequest(md5: string -> string) returns (actions: seq<Action>, s: State)
    ensures s == After(md5, actions) && s.seen == 0 && |s.log| == 4 && s.syncs == []
    ensures s.log[2].op == Asked && s.log[2].pointersSeen == 2
    ensures s.runs.Keys == {0} && s.runs[0].fetch.HashFetched? && s.runs[0].fetch.k == 0
    ensures s.log[3].obj == Some(Instance(Some(Spec(Some(1), None)), Some(Status(Some(Report(Converged, 2)), None))))
  {
    actions, s := NewerAsked(md5);
    actions, s := StoreReport(md5, actions, s, 0, Converged);
  }

  /** A request can go unanswered: a run that fetched an older manifest reports after the
      request, and the controller, with a cache that has seen everything, then skips it. */
  lemma OlderRunHidesRequest(md5: string -> string) returns (actions: seq<Action>, s: State)
    ensures s == After(md5, actions) && s.seen == |s.log| == 4
    ensures s.log[2].op == Asked && s.log[2].pointersSeen == 2
    ensures s.runs.Keys == {0} && s.runs[0].fetch.HashFetched? && s.runs[0].fetch.k == 0
    ensures s.syncs == [Sync(4, None)]
  {
    actions, s := HiddenRequest(md5);
    actions, s := Do(md5, actions, s, Observe(4));
    actions, s := Do(md5, actions, s, Decide(1));
  }
}
