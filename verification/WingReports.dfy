/** What a stored report says, and when it is stored. */
module WingReports {
  import opened Text
  import opened WingProtocol
  import opened WingInvariant
  import opened WingGuarantees
  import opened WingOthers
  import opened WingWait

  /** The instance's status is a report of this state and stamp, and nothing else. */
  predicate Says(i: Option<Instance>, state: ManifestState, stamp: Time) {
    i.Some? && i.value.status == Some(Status(Some(Report(state, stamp)), None))
  }

  predicate Shows(i: Option<Instance>, state: ManifestState) {
    && i.Some? && i.value.status.Some? && i.value.status.value.converge.Some?
    && i.value.status.value.converge.value.state == state
  }

  /** The run has looked the instance up, whether or not there was one. */
  predicate HasLooked(s: State, t: nat) {
    RunOf(s, t).Some? && (s.runs[t].report.Got? || s.runs[t].report.GotNone?)
  }

  /** Nothing was stored since the run looked the instance up; or there was none, and is none. */
  predicate StillAsFound(found: Reporting, log: seq<Entry>) {
    match found
    case Got(v, _) => Current(log).Some? && v == |log| - 1
    case GotNone => Current(log).None?
    case _ => false
  }

  lemma AdmitsAsGiven(md5: string -> string, s: State, t: nat, state: ManifestState)
    requires HasLooked(s, t)
    ensures var s' := Step(md5, s, AdmitReport(t, state));
            && RunOf(s', t).Some? && s'.runs[t].report.ReportAdmitted? && s'.log == s.log
            && var w := s'.runs[t].report.write;
               && w.stamp == s.now && Says(Some(w.obj), state, s.now)
               && (w.base.Some? <==> s.runs[t].report.Got?)
               && (w.base.Some? ==> w.base.value == s.runs[t].report.version)
               && w.obj.spec == if w.base.Some? then Admit(s.runs[t].report.copy, s.now).spec else None
  {
  }

  lemma CommitsAsGiven(md5: string -> string, s: State, t: nat)
    requires RunOf(s, t).Some? && s.runs[t].report.ReportAdmitted?
    ensures var w := s.runs[t].report.write;
            var op := if w.base.Some? then Reported else Created;
            var entry := Entry(op, w.stamp, Some(w.obj), |s.pointers|, |s.legacy|);
            Step(md5, s, CommitReport(t)).log == if CanCommit(s.log, w) then s.log + [entry] else s.log
  {
  }

  /** A report admitted at a time, with any steps of others before it is sent to the store, is
      stored if and only if the instance is still as it was found; and what is then stored is the
      state that was given, with the time of its admission. */
  lemma StoredAsGiven(md5: string -> string, s: State, t: nat, state: ManifestState, others: seq<Action>)
    requires HasLooked(s, t) && NotRun(others, t)
    ensures var found := s.runs[t].report;
            var met := Execute(md5, Step(md5, s, AdmitReport(t, state)), others);
            var after := Step(md5, met, CommitReport(t));
            if StillAsFound(found, met.log) then
              && |after.log| == |met.log| + 1 && met.log <= after.log
              && Says(Current(after.log), state, s.now) && after.log[|met.log|].stamp == s.now
              && after.log[|met.log|].op == (if found.Got? then Reported else Created)
            else after.log == met.log
  {
    AdmitsAsGiven(md5, s, t, state);
    var s' := Step(md5, s, AdmitReport(t, state));
    OthersKeepRun(md5, s', others, t);
    CommitsAsGiven(md5, Execute(md5, s', others), t);
  }

  /* ---------- where a stored state comes from ---------- */

  /** Some run sent a report of this state. */
  ghost predicate Sent(actions: seq<Action>, state: ManifestState) {
    exists j :: 0 <= j < |actions| && actions[j].AdmitReport? && actions[j].state == state
  }

  predicate StateAmong(i: Option<Instance>, sent: set<ManifestState>) {
    i.Some? && i.value.status.Some? && i.value.status.value.converge.Some? ==>
      i.value.status.value.converge.value.state in sent
  }

  predicate EntryAmong(e: Entry, sent: set<ManifestState>) {
    e.op.Reported? || e.op.Created? ==> StateAmong(e.obj, sent)
  }

  predicate RunAmong(r: Run, sent: set<ManifestState>) {
    r.report.ReportAdmitted? ==> StateAmong(Some(r.report.write.obj), sent)
  }

  /** Every state reported, or about to be, is one of these. */
  ghost predicate StatesAmong(s: State, sent: set<ManifestState>) {
    && (forall i :: 0 <= i < |s.log| ==> EntryAmong(s.log[i], sent))
    && (forall t :: t in s.runs ==> RunAmong(s.runs[t], sent))
  }

  lemma StatesAmongReport(md5: string -> string, s: State, a: Action, sent: set<ManifestState>)
    requires StatesAmong(s, sent) && a.AdmitReport? && a.state in sent
    ensures StatesAmong(Step(md5, s, a), sent)
  {
    if HasLooked(s, a.t) { AdmitsAsGiven(md5, s, a.t, a.state); }
  }

  lemma StatesAmongCommit(md5: string -> string, s: State, a: Action, sent: set<ManifestState>)
    requires StatesAmong(s, sent) && a.CommitReport?
    ensures StatesAmong(Step(md5, s, a), sent)
  {
    if a.t in s.runs && s.runs[a.t].report.ReportAdmitted? { CommitsAsGiven(md5, s, a.t); }
  }

  lemma StatesAmongOther(md5: string -> string, s: State, a: Action, sent: set<ManifestState>)
    requires StatesAmong(s, sent) && !a.AdmitReport? && !a.CommitReport?
    ensures StatesAmong(Step(md5, s, a), sent)
  {
  }

  lemma {:induction false} StatesAmongAll(md5: string -> string, s: State, actions: seq<Action>,
                                          sent: set<ManifestState>)
    requires StatesAmong(s, sent) && forall a :: a in actions && a.AdmitReport? ==> a.state in sent
    ensures StatesAmong(Execute(md5, s, actions), sent)
    decreases |actions|
  {
    if actions != [] {
      if actions[0].AdmitReport? {
        StatesAmongReport(md5, s, actions[0], sent);
      } else if actions[0].CommitReport? {
        StatesAmongCommit(md5, s, actions[0], sent);
      } else {
        StatesAmongOther(md5, s, actions[0], sent);
      }
      StatesAmongAll(md5, Step(md5, s, actions[0]), actions[1..], sent);
    }
  }

  /** In every run, every state that the instance ever shows was sent by some report; so it
      shows Converged only if a run reported that. */
  lemma ShownWasSent(md5: string -> string, actions: seq<Action>, i: nat)
    requires i < |After(md5, actions).log| && After(md5, actions).log[i].obj.Some?
    ensures var status := After(md5, actions).log[i].obj.value.status;
            status.Some? && status.value.converge.Some? ==> Sent(actions, status.value.converge.value.state)
  {
    var sent := set state: ManifestState | Sent(actions, state);
    forall a | a in actions && a.AdmitReport? ensures a.state in sent {
      var j :| 0 <= j < |actions| && actions[j] == a;
      assert Sent(actions, actions[j].state);
    }
    StatesAmongAll(md5, Init, actions, sent);
    Reachable(md5, actions);
    StatusOfLastReport(After(md5, actions).log, i);
    assert EntryAmong(After(md5, actions).log[LastReport(After(md5, actions).log, i)], sent);
  }
}
