/** Waiting for the instances to converge, and what its success says about a request. */
module WingWait {
  import opened Text
  import opened WingProtocol
  import opened WingInvariant
  import opened WingGuarantees

  const RETRIES: nat := 100

  /** The state a listed instance is counted under; one without a status is left out. */
  function StateOf(i: Instance): Option<ManifestState> {
    if i.status.Some? && i.status.value.converge.Some? then Some(i.status.value.converge.value.state) else None
  }

  /** The report on the instance, if there is one, says Converged. */
  predicate NoOtherReport(i: Instance) {
    i.status.Some? && i.status.value.converge.Some? ==> i.status.value.converge.value.state == Converged
  }

  /** There is a report on the instance, and it says Converged. */
  predicate SaysConverged(i: Instance) {
    i.status.Some? && i.status.value.converge.Some? && i.status.value.converge.value.state == Converged
  }

  /** Nothing listed is in another state than Converged; also when nothing is listed. */
  predicate LooksConverged(instances: seq<Instance>) {
    forall i :: 0 <= i < |instances| ==> NoOtherReport(instances[i])
  }

  function Listing(s: State): seq<Instance> {
    if Current(s.log).Some? then [Current(s.log).value] else []
  }

  /* ---------- the code ---------- */

  /** `checkAllInstancesConverged` on the instances indexed by state. */
  method AllInstancesConverged(instances: seq<Instance>) returns (ok: bool)
    ensures ok <==> LooksConverged(instances)
  {
    var byState: map<ManifestState, seq<nat>> := map[];
    for pos := 0 to |instances|
      invariant forall k :: 0 <= k < pos && StateOf(instances[k]).Some? ==>
                  StateOf(instances[k]).value in byState && k in byState[StateOf(instances[k]).value]
      invariant forall state :: state in byState ==>
                  forall k :: k in byState[state] ==> k < pos && StateOf(instances[k]) == Some(state)
    {
      var state := StateOf(instances[pos]);
      if state.Some? {
        if state.value !in byState { byState := byState[state.value := []]; }
        byState := byState[state.value := byState[state.value] + [pos]];
      }
    }
    var notConverged: seq<nat> := [];
    var left := byState.Keys;
    while left != {}
      invariant left <= byState.Keys
      invariant forall k :: k in notConverged <==>
                  exists state :: state in byState && state !in left && state != Converged && k in byState[state]
      decreases |left|
    {
      var state :| state in left;
      left := left - {state};
      if |byState[state]| != 0 && state != Converged {
        notConverged := notConverged + byState[state];
      }
    }
    ok := |notConverged| == 0;
    if !ok {
      ghost var k := notConverged[0];
      assert k in notConverged;
      ghost var state :| state in byState && state != Converged && k in byState[state];
      assert StateOf(instances[k]) == Some(state);
    }
    if !LooksConverged(instances) {
      ghost var k :| 0 <= k < |instances| && !NoOtherReport(instances[k]);
      assert k in notConverged;
    }
  }

  /** The steps others take before the first `n` listings. */
  function Until(w: seq<seq<Action>>, n: nat): seq<Action>
    requires n <= |w|
  {
    if n == 0 then [] else Until(w, n - 1) + w[n - 1]
  }

  /** What listing `n` (from 0) shows. */
  function Listed(md5: string -> string, s: State, w: seq<seq<Action>>, n: nat): seq<Instance>
    requires n < |w|
  {
    Listing(Execute(md5, s, Until(w, n + 1)))
  }

  /** `WaitForConvergance`, from state `s`. The others take the steps `w[n]` before listing
      `n`; `fails` is the listing, if any, that fails, and the wait is cancelled by the time
      of listing `cancelled`, if any. A cancelled wait still succeeds on what was listed. */
  method WaitForConvergance(md5: string -> string, s: State, w: seq<seq<Action>>, fails: Option<nat>,
                            cancelled: Option<nat>)
    returns (ok: bool, n: nat)
    requires |w| == RETRIES
    ensures n < RETRIES && forall k :: 0 <= k < n ==> !LooksConverged(Listed(md5, s, w, k))
    ensures ok <==> fails != Some(n) && LooksConverged(Listed(md5, s, w, n))
    ensures !ok ==> fails == Some(n) || (cancelled.Some? && cancelled.value <= n) || n == RETRIES - 1
    ensures cancelled.Some? ==> n <= cancelled.value
  {
    var retries := RETRIES;
    var now := s;
    n := 0;
    while true
      invariant retries == RETRIES - n && n < RETRIES
      invariant now == Execute(md5, s, Until(w, n))
      invariant forall k :: 0 <= k < n ==> !LooksConverged(Listed(md5, s, w, k))
      invariant cancelled.Some? ==> n <= cancelled.value
      decreases retries
    {
      ExecuteConcat(md5, s, Until(w, n), w[n]);
      now := Execute(md5, now, w[n]);
      if fails == Some(n) { return false, n; }
      ok := AllInstancesConverged(Listing(now));
      if ok { return; }
      if cancelled.Some? && cancelled.value <= n { return; }
      retries := retries - 1;
      if retries == 0 { break; }
      n := n + 1;
    }
    ok := false;
  }

  /* ---------- what success says ---------- */

  /** The version whose status the version `v` still has. */
  function LastReport(log: seq<Entry>, v: nat): (w: nat)
    requires v < |log|
    ensures w <= v
  {
    if log[v].op.Asked? && v > 0 then LastReport(log, v - 1) else v
  }

  lemma {:induction false} StatusOfLastReport(log: seq<Entry>, v: nat)
    requires v < |log| && log[v].obj.Some? && forall i :: 0 <= i <= v ==> EntryOk(log, i)
    ensures var w := LastReport(log, v);
            && (log[w].op.Reported? || log[w].op.Created?) && log[w].obj.Some?
            && log[v].obj.value.status == log[w].obj.value.status && StateOf(log[v].obj.value).Some?
            && forall i :: w < i <= v ==> log[i].op.Asked?
  {
    assert EntryOk(log, v);
    if log[v].op.Asked? { StatusOfLastReport(log, v - 1); }
  }

  ghost predicate ReportedSince(log: seq<Entry>, r: nat) {
    exists w :: r < w < |log| && log[w].op.Reported?
  }

  /** Success after a request means: if a report was stored since, the latest one says
      Converged; if none was, the status is older than the request and said so before. The
      caller is told nothing about its request exactly in the second case. */
  lemma SuccessMeans(md5: string -> string, actions: seq<Action>, r: nat)
    requires var log := After(md5, actions).log;
             r < |log| && log[r].op.Asked? && forall i :: r < i < |log| ==> log[i].op.Asked? || log[i].op.Reported?
    ensures var log := After(md5, actions).log;
            var w := LastReport(log, |log| - 1);
            && (ReportedSince(log, r) <==> w > r)
            && log[w].obj.Some? && r > 0 && log[r - 1].obj.Some?
            && (LooksConverged(Listing(After(md5, actions))) <==>
                  SaysConverged(log[if w > r then w else r - 1].obj.value))
  {
    var log := After(md5, actions).log;
    var v := |log| - 1;
    Reachable(md5, actions);
    assert EntryOk(log, v) && EntryOk(log, r);
    StatusOfLastReport(log, v);
    StatusOfLastReport(log, r - 1);
    var w := LastReport(log, v);
    assert EntryOk(log, w);
    if w <= r { SameLastReport(log, r - 1, v); }
    OneListed(log[v].obj.value);
    assert Current(log) == log[v].obj;
  }

  lemma OneListed(i: Instance)
    requires StateOf(i).Some?
    ensures LooksConverged([i]) <==> SaysConverged(i)
  {
    assert [i][0] == i;
  }

  lemma {:induction false} SameLastReport(log: seq<Entry>, u: nat, v: nat)
    requires u <= v < |log| && LastReport(log, v) <= u
    ensures LastReport(log, u) == LastReport(log, v)
  {
    if u < v { SameLastReport(log, u, v - 1); }
  }

  /** That case is always possible: on any instance that last converged, a process can ask
      and, before any run has reported, wait successfully. */
  lemma StaleSuccess(md5: string -> string, before: seq<Action>, id: nat, content: string)
    returns (actions: seq<Action>, s: State)
    requires var s0 := After(md5, before);
             id !in s0.clis && Current(s0.log).Some? && SaysConverged(Current(s0.log).value)
    ensures s == After(md5, actions) && id in s.clis && s.clis[id].AskStored? && s.clis[id].version == |s.log| - 1
    ensures LooksConverged(Listing(s))
  {
    var s0 := After(md5, before);
    Reachable(md5, before);
    assert EntryOk(s0.log, |s0.log| - 1);
    actions, s := UploadAndAsk(md5, before, s0, id, content);
  }
}
