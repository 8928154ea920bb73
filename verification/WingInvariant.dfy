/** Every step of the converge protocol keeps its invariant, and what that says of the log. */
module WingInvariant {
  import opened Text
  import opened WingProtocol

  /* ---------- every step keeps the invariant ---------- */

  /** What no step takes back. */
  ghost predicate Grows(s: State, s': State) {
    && s.now <= s'.now && s.log <= s'.log
    && s.pointers <= s'.pointers && s.legacy <= s'.legacy && s.objects.Keys <= s'.objects.Keys
  }

  lemma CliStays(md5: string -> string, s: State, s': State, c: Cli)
    requires Grows(s, s') && CliOk(md5, s, c)
    ensures CliOk(md5, s', c)
  {
  }

  lemma RunStays(md5: string -> string, s: State, s': State, r: Run)
    requires Grows(s, s') && RunOk(md5, s, r)
    ensures RunOk(md5, s', r)
  {
  }

  lemma {:induction false} LastAskStays(log: seq<Entry>, log': seq<Entry>, v: nat)
    requires v < |log| && log <= log'
    ensures LastAsk(log', v) == LastAsk(log, v)
  {
    if !log[v].op.Asked? && v > 0 { LastAskStays(log, log', v - 1); }
  }

  lemma SyncStays(s: State, s': State, e: Sync)
    requires Grows(s, s') && SyncOk(s, e)
    ensures SyncOk(s', e)
  {
    if e.started.Some? { LastAskStays(s.log, s'.log, e.seen - 1); }
  }

  /** The parts of the invariant that a step does not touch survive its growth. */
  lemma OthersStay(md5: string -> string, s: State, s': State)
    requires Inv(md5, s) && Grows(s, s')
    ensures forall id :: id in s.clis ==> CliOk(md5, s', s.clis[id])
    ensures forall t :: t in s.runs ==> RunOk(md5, s', s.runs[t])
    ensures forall j :: 0 <= j < |s.syncs| ==> SyncOk(s', s.syncs[j])
    ensures forall i :: 0 <= i < |s.log| ==> EntryOk(s'.log, i) && EntryBounded(s', i)
  {
    forall id | id in s.clis ensures CliOk(md5, s', s.clis[id]) { CliStays(md5, s, s', s.clis[id]); }
    forall t | t in s.runs ensures RunOk(md5, s', s.runs[t]) { RunStays(md5, s, s', s.runs[t]); }
    forall j | 0 <= j < |s.syncs| ensures SyncOk(s', s.syncs[j]) { SyncStays(s, s', s.syncs[j]); }
    forall i | 0 <= i < |s.log| ensures EntryOk(s'.log, i) && EntryBounded(s', i) {
      assert EntryOk(s.log, i) && EntryBounded(s, i);
    }
  }

  lemma AskIsProper(i: Instance, now: Time)
    requires Stamped(i) && i.status.Some? && now > 0
    ensures AskOf(i, Admit(AskFor(i), now), now) && Stamped(Admit(AskFor(i), now))
  {
  }

  lemma ReportIsProper(i: Instance, state: ManifestState, now: Time)
    requires Stamped(i) && now > 0
    ensures ReportOf(i, Admit(ReportOn(i, state), now), now) && Stamped(Admit(ReportOn(i, state), now))
  {
  }

  /** A step that grows the stores properly and moves at most one process and one run. */
  lemma Assemble(md5: string -> string, s: State, s': State, id: nat, t: nat)
    requires Inv(md5, s) && Grows(s, s') && s'.seen <= |s'.log|
    requires forall i :: |s.log| <= i < |s'.log| ==> EntryOk(s'.log, i) && EntryBounded(s', i)
    requires forall h :: h in s'.objects ==> md5(s'.objects[h]) == h
    requires forall k :: |s.pointers| <= k < |s'.pointers| ==> s'.pointers[k] in s'.objects
    requires forall i :: i in s'.clis && i != id ==> i in s.clis && s'.clis[i] == s.clis[i]
    requires id in s'.clis ==> CliOk(md5, s', s'.clis[id])
    requires forall i :: i in s'.runs && i != t ==> i in s.runs && s'.runs[i] == s.runs[i]
    requires t in s'.runs ==> RunOk(md5, s', s'.runs[t])
    requires s.syncs <= s'.syncs && forall j :: |s.syncs| <= j < |s'.syncs| ==> SyncOk(s', s'.syncs[j])
    ensures Inv(md5, s')
  {
    OthersStay(md5, s, s');
  }

  /** A step of one process that leaves the runs alone. */
  lemma CliMoves(md5: string -> string, s: State, s': State, id: nat)
    requires Inv(md5, s) && Grows(s, s') && id in s'.clis && s'.clis == s.clis[id := s'.clis[id]]
    requires s'.runs == s.runs && s'.syncs == s.syncs && s'.seen == s.seen
    requires forall i :: |s.log| <= i < |s'.log| ==> EntryOk(s'.log, i) && EntryBounded(s', i)
    requires forall h :: h in s'.objects ==> md5(s'.objects[h]) == h
    requires forall k :: |s.pointers| <= k < |s'.pointers| ==> s'.pointers[k] in s'.objects
    requires CliOk(md5, s', s'.clis[id])
    ensures Inv(md5, s')
  {
    if 0 in s.runs { RunStays(md5, s, s', s.runs[0]); }
    Assemble(md5, s, s', id, 0);
  }

  /** A step of one run that publishes nothing. */
  lemma RunMoves(md5: string -> string, s: State, s': State, t: nat)
    requires Inv(md5, s) && Grows(s, s') && t in s'.runs && s'.runs == s.runs[t := s'.runs[t]]
    requires s'.clis == s.clis && s'.objects == s.objects && s'.pointers == s.pointers && s'.seen == s.seen
    requires forall i :: |s.log| <= i < |s'.log| ==> EntryOk(s'.log, i) && EntryBounded(s', i)
    requires RunOk(md5, s', s'.runs[t])
    requires s.syncs <= s'.syncs && forall j :: |s.syncs| <= j < |s'.syncs| ==> SyncOk(s', s'.syncs[j])
    ensures Inv(md5, s')
  {
    if 0 in s.clis { CliStays(md5, s, s', s.clis[0]); }
    Assemble(md5, s, s', 0, t);
  }

  lemma PublishKeeps(md5: string -> string, s: State, id: nat, a: Action)
    requires Inv(md5, s) && id in s.clis && (a.PutObject? || a.PutPointer? || a.List?)
    ensures Grows(s, CliStep(md5, s, id, a)) && Inv(md5, CliStep(md5, s, id, a))
  {
    var s' := CliStep(md5, s, id, a);
    assert CliOk(md5, s, s.clis[id]);
    if s' != s { CliMoves(md5, s, s', id); }
  }

  lemma AdmitAskKeeps(md5: string -> string, s: State, id: nat)
    requires Inv(md5, s) && id in s.clis
    ensures Grows(s, CliStep(md5, s, id, AdmitAsk(id))) && Inv(md5, CliStep(md5, s, id, AdmitAsk(id)))
  {
    var s' := CliStep(md5, s, id, AdmitAsk(id));
    assert CliOk(md5, s, s.clis[id]);
    if s.clis[id].Listed? {
      var c := s.clis[id];
      assert EntryOk(s.log, c.version) && EntryBounded(s, c.version);
      AskIsProper(c.copy, s.now);
      CliMoves(md5, s, s', id);
    }
  }

  /** A committed write is a proper next version. */
  lemma CommitIsProper(md5: string -> string, s: State, w: Write, op: Op)
    requires Inv(md5, s) && CanCommit(s.log, w) && WriteOk(s, w, op.Asked?)
    requires !op.Deleted? && (w.base.None? <==> op.Created?)
    ensures var s' := Commit(s, op, w.stamp, Some(w.obj));
            EntryOk(s'.log, |s.log|) && EntryBounded(s', |s.log|)
  {
  }

  lemma CommitAskKeeps(md5: string -> string, s: State, id: nat)
    requires Inv(md5, s) && id in s.clis
    ensures Grows(s, CliStep(md5, s, id, CommitAsk(id))) && Inv(md5, CliStep(md5, s, id, CommitAsk(id)))
  {
    var c := s.clis[id];
    assert CliOk(md5, s, c);
    if c.AskAdmitted? && CanCommit(s.log, c.write) { AcceptKeeps(md5, s, id, c.l, c.k, c.write); }
  }

  /** An accepted request. */
  lemma AcceptKeeps(md5: string -> string, s: State, id: nat, l: nat, k: nat, w: Write)
    requires Inv(md5, s) && id in s.clis && CanCommit(s.log, w) && WriteOk(s, w, true)
    requires l < |s.legacy| && k < |s.pointers|
    ensures var s' := Commit(s, Asked, w.stamp, Some(w.obj)).(clis := s.clis[id := AskStored(l, k, |s.log|)]);
            Grows(s, s') && Inv(md5, s')
  {
    var s' := Commit(s, Asked, w.stamp, Some(w.obj)).(clis := s.clis[id := AskStored(l, k, |s.log|)]);
    CommitIsProper(md5, s, w, Asked);
    assert EntryBounded(s', |s.log|);
    CliMoves(md5, s, s', id);
  }

  lemma FetchKeeps(md5: string -> string, s: State, t: nat, a: Action)
    requires Inv(md5, s) && t in s.runs && (a.ReadPointer? || a.ReadObject? || a.ReadLegacy? || a.Get?)
    ensures Grows(s, RunStep(s, t, a)) && Inv(md5, RunStep(s, t, a))
  {
    var s' := RunStep(s, t, a);
    var r := s.runs[t];
    assert RunOk(md5, s, r);
    if r.cause.Some? { assert EntryBounded(s, r.cause.value); }
    if s' != s { RunMoves(md5, s, s', t); }
  }

  lemma AdmitReportKeeps(md5: string -> string, s: State, t: nat, state: ManifestState)
    requires Inv(md5, s) && t in s.runs
    ensures Grows(s, RunStep(s, t, AdmitReport(t, state))) && Inv(md5, RunStep(s, t, AdmitReport(t, state)))
  {
    var s' := RunStep(s, t, AdmitReport(t, state));
    var r := s.runs[t];
    assert RunOk(md5, s, r);
    if r.report.Got? {
      assert EntryOk(s.log, r.report.version) && EntryBounded(s, r.report.version);
      ReportIsProper(r.report.copy, state, s.now);
      RunMoves(md5, s, s', t);
    } else if r.report.GotNone? {
      ReportIsProper(Instance(None, None), state, s.now);
      RunMoves(md5, s, s', t);
    }
  }

  lemma CommitReportKeeps(md5: string -> string, s: State, t: nat)
    requires Inv(md5, s) && t in s.runs
    ensures Grows(s, RunStep(s, t, CommitReport(t))) && Inv(md5, RunStep(s, t, CommitReport(t)))
  {
    var s' := RunStep(s, t, CommitReport(t));
    var r := s.runs[t];
    assert RunOk(md5, s, r);
    if r.report.ReportAdmitted? {
      var w := r.report.write;
      if CanCommit(s.log, w) {
        CommitIsProper(md5, s, w, if w.base.Some? then Reported else Created);
        assert EntryBounded(s', |s.log|);
      }
      RunMoves(md5, s, s', t);
    }
  }

  lemma DecideKeeps(md5: string -> string, s: State, t: nat)
    requires Inv(md5, s)
    ensures Grows(s, DecideStep(s, t)) && Inv(md5, DecideStep(s, t))
  {
    if t !in s.runs {
      if s.seen == 0 || s.log[s.seen - 1].obj.None? {
        CreateKeeps(md5, s, t);
      } else if ShouldConverge(s.log[s.seen - 1].obj.value) {
        StartKeeps(md5, s, t);
      } else {
        SkipKeeps(md5, s, t);
      }
    }
  }

  lemma CreateKeeps(md5: string -> string, s: State, t: nat)
    requires Inv(md5, s) && t !in s.runs && (s.seen == 0 || s.log[s.seen - 1].obj.None?)
    ensures Grows(s, DecideStep(s, t)) && Inv(md5, DecideStep(s, t))
  {
    RunMoves(md5, s, DecideStep(s, t), t);
  }

  lemma SkipKeeps(md5: string -> string, s: State, t: nat)
    requires Inv(md5, s) && t !in s.runs && s.seen > 0 && s.log[s.seen - 1].obj.Some?
    requires !ShouldConverge(s.log[s.seen - 1].obj.value)
    ensures Grows(s, DecideStep(s, t)) && Inv(md5, DecideStep(s, t))
  {
    NothingMoves(md5, s, DecideStep(s, t));
  }

  lemma StartKeeps(md5: string -> string, s: State, t: nat)
    requires Inv(md5, s) && t !in s.runs && s.seen > 0 && s.log[s.seen - 1].obj.Some?
    requires ShouldConverge(s.log[s.seen - 1].obj.value)
    ensures Grows(s, DecideStep(s, t)) && Inv(md5, DecideStep(s, t))
  {
    assert forall i :: 0 <= i < s.seen ==> EntryOk(s.log, i);
    RequestOrigin(s.log, s.seen - 1);
    RunMoves(md5, s, DecideStep(s, t), t);
  }

  /** A step that moves neither a process nor a run. */
  lemma NothingMoves(md5: string -> string, s: State, s': State)
    requires Inv(md5, s) && Grows(s, s') && s'.seen <= |s'.log|
    requires s'.clis == s.clis && s'.runs == s.runs && s'.objects == s.objects && s'.pointers == s.pointers
    requires forall i :: |s.log| <= i < |s'.log| ==> EntryOk(s'.log, i) && EntryBounded(s', i)
    requires s.syncs <= s'.syncs && forall j :: |s.syncs| <= j < |s'.syncs| ==> SyncOk(s', s'.syncs[j])
    ensures Inv(md5, s')
  {
    if 0 in s.clis { CliStays(md5, s, s', s.clis[0]); }
    if 0 in s.runs { RunStays(md5, s, s', s.runs[0]); }
    Assemble(md5, s, s', 0, 0);
  }

  lemma StartsKeep(md5: string -> string, s: State, a: Action)
    requires Inv(md5, s) && (a.PutLegacy? || a.StartRun?)
    ensures Grows(s, Step(md5, s, a)) && Inv(md5, Step(md5, s, a))
  {
    var s' := Step(md5, s, a);
    if s' != s {
      if a.PutLegacy? { CliMoves(md5, s, s', a.id); } else { RunMoves(md5, s, s', a.t); }
    }
  }

  lemma OtherStepsKeep(md5: string -> string, s: State, a: Action)
    requires Inv(md5, s) && (a.Tick? || a.Observe? || a.Delete?)
    ensures Grows(s, Step(md5, s, a)) && Inv(md5, Step(md5, s, a))
  {
    var s' := Step(md5, s, a);
    if a.Delete? {
      DeleteKeeps(md5, s);
    } else {
      NothingMoves(md5, s, s');
    }
  }

  lemma DeleteKeeps(md5: string -> string, s: State)
    requires Inv(md5, s)
    ensures Grows(s, Step(md5, s, Delete)) && Inv(md5, Step(md5, s, Delete))
  {
    var s' := Step(md5, s, Delete);
    if Current(s.log).Some? {
      assert EntryOk(s'.log, |s.log|) && EntryBounded(s', |s.log|);
      NothingMoves(md5, s, s');
    }
  }

  lemma StepKeeps(md5: string -> string, s: State, a: Action)
    requires Inv(md5, s)
    ensures Grows(s, Step(md5, s, a)) && Inv(md5, Step(md5, s, a))
  {
    match a
    case PutLegacy(_, _) => StartsKeep(md5, s, a);
    case StartRun(_) => StartsKeep(md5, s, a);
    case Decide(t) => DecideKeeps(md5, s, t);
    case Tick => OtherStepsKeep(md5, s, a);
    case Observe(_) => OtherStepsKeep(md5, s, a);
    case Delete => OtherStepsKeep(md5, s, a);
    case PutObject(id) => if id in s.clis { CliStepKeeps(md5, s, id, a); }
    case PutPointer(id) => if id in s.clis { CliStepKeeps(md5, s, id, a); }
    case List(id) => if id in s.clis { CliStepKeeps(md5, s, id, a); }
    case AdmitAsk(id) => if id in s.clis { CliStepKeeps(md5, s, id, a); }
    case CommitAsk(id) => if id in s.clis { CliStepKeeps(md5, s, id, a); }
    case ReadPointer(t) => if t in s.runs { RunStepKeeps(md5, s, t, a); }
    case ReadObject(t) => if t in s.runs { RunStepKeeps(md5, s, t, a); }
    case ReadLegacy(t) => if t in s.runs { RunStepKeeps(md5, s, t, a); }
    case Get(t) => if t in s.runs { RunStepKeeps(md5, s, t, a); }
    case AdmitReport(t, _) => if t in s.runs { RunStepKeeps(md5, s, t, a); }
    case CommitReport(t) => if t in s.runs { RunStepKeeps(md5, s, t, a); }
  }

  lemma CliStepKeeps(md5: string -> string, s: State, id: nat, a: Action)
    requires Inv(md5, s) && id in s.clis
    requires a.PutObject? || a.PutPointer? || a.List? || a.AdmitAsk? || a.CommitAsk?
    ensures Grows(s, CliStep(md5, s, id, a)) && Inv(md5, CliStep(md5, s, id, a))
  {
    match a
    case AdmitAsk(_) => AdmitAskKeeps(md5, s, id);
    case CommitAsk(_) => CommitAskKeeps(md5, s, id);
    case _ => PublishKeeps(md5, s, id, a);
  }

  lemma RunStepKeeps(md5: string -> string, s: State, t: nat, a: Action)
    requires Inv(md5, s) && t in s.runs
    requires a.ReadPointer? || a.ReadObject? || a.ReadLegacy? || a.Get? || a.AdmitReport? || a.CommitReport?
    ensures Grows(s, RunStep(s, t, a)) && Inv(md5, RunStep(s, t, a))
  {
    match a
    case AdmitReport(_, state) => AdmitReportKeeps(md5, s, t, state);
    case CommitReport(_) => CommitReportKeeps(md5, s, t);
    case _ => FetchKeeps(md5, s, t, a);
  }

  lemma {:induction false} ExecuteKeeps(md5: string -> string, s: State, actions: seq<Action>)
    requires Inv(md5, s)
    ensures Grows(s, Execute(md5, s, actions)) && Inv(md5, Execute(md5, s, actions))
    decreases |actions|
  {
    if actions != [] {
      StepKeeps(md5, s, actions[0]);
      ExecuteKeeps(md5, Step(md5, s, actions[0]), actions[1..]);
    }
  }

  /** Every state of every run satisfies the invariant. */
  lemma Reachable(md5: string -> string, actions: seq<Action>)
    ensures Inv(md5, Execute(md5, Init, actions))
  {
    ExecuteKeeps(md5, Init, actions);
  }

  /* ---------- following a request through the log ---------- */

  /** A requested converge goes back to one stored request; since then only reports. */
  lemma {:induction false} RequestOrigin(log: seq<Entry>, v: nat)
    requires v < |log| && forall i :: 0 <= i <= v ==> EntryOk(log, i)
    requires log[v].obj.Some? && log[v].obj.value.spec.Some? && log[v].obj.value.spec.value.converge.Some?
    ensures var r := LastAsk(log, v);
            && log[r].op.Asked?
            && log[v].obj.value.spec.value.converge == Some(log[r].stamp)
            && forall i :: r < i <= v ==> log[i].op.Reported?
  {
    assert EntryOk(log, v);
    if log[v].op.Reported? { RequestOrigin(log, v - 1); }
  }

  predicate HasConverge(e: Entry) {
    e.obj.Some? && e.obj.value.status.Some? && e.obj.value.status.value.converge.Some?
  }

  /** The update stamp of the status in an entry. */
  function UpdateStamp(e: Entry): Time
    requires HasConverge(e)
  {
    e.obj.value.status.value.converge.value.stamp
  }

  /** The stored status is never newer than the version that stores it. */
  lemma {:induction false} StatusNotNewer(log: seq<Entry>, v: nat)
    requires v < |log| && forall i :: 0 <= i <= v ==> EntryOk(log, i)
    requires log[v].obj.Some?
    ensures HasConverge(log[v]) && UpdateStamp(log[v]) <= log[v].stamp
  {
    assert EntryOk(log, v);
    if log[v].op.Asked? { StatusNotNewer(log, v - 1); }
  }

  /** Stamps never go back between two versions with no deletion in between. */
  lemma {:induction false} StampsMonotone(log: seq<Entry>, i: nat, v: nat)
    requires i <= v < |log| && forall j :: 0 <= j <= v ==> EntryOk(log, j)
    requires forall j :: i < j <= v ==> log[j].op.Reported? || log[j].op.Asked?
    ensures log[i].stamp <= log[v].stamp
  {
    if i < v {
      assert EntryOk(log, v);
      StampsMonotone(log, i, v - 1);
    }
  }
}
