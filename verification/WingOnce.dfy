/** One request, one converge: when the controller cannot start a second one. */
module WingOnce {
  import opened Text
  import opened WingProtocol
  import opened WingInvariant
  import opened WingGuarantees
  import opened WingOthers
  import opened WingReports

  /** The decision `t` starts a run for the request stored in version `r`. */
  predicate Starts(md5: string -> string, s: State, t: nat, r: nat) {
    t !in s.runs && RunOf(Step(md5, s, Decide(t)), t) == Some(Run(Some(r), NotYet, Idle))
  }

  /** A report stored after version `r` with a later stamp, among the versions seen. */
  predicate SeesLaterReport(s: State, r: nat, w: nat) {
    r < w < s.seen <= |s.log| && s.log[w].op.Reported? && s.log[w].stamp > s.log[r].stamp
  }

  /** A decision starts a run for a request exactly when it is the latest one seen and no
      report seen since is stamped later. */
  lemma StartsExactly(md5: string -> string, s: State, t: nat, r: nat)
    requires Inv(md5, s)
    ensures Starts(md5, s, t, r) <==>
              && t !in s.runs && s.seen > 0 && Requested(s.log[s.seen - 1]) && r == LastAsk(s.log, s.seen - 1)
              && !exists w :: SeesLaterReport(s, r, w)
  {
    if t !in s.runs && s.seen > 0 && Requested(s.log[s.seen - 1]) {
      var v := s.seen - 1;
      var last := LastAsk(s.log, v);
      DecisionOf(s.log, v);
      if ReportedAfter(s.log, last, v) {
        var w :| last < w <= v && s.log[w].op.Reported? && s.log[w].stamp > s.log[last].stamp;
        assert SeesLaterReport(s, last, w);
      }
    }
  }

  /** Once the controller has seen a report stamped later than a request, no decision starts
      a run for that request, then or ever after. */
  lemma NeverAgain(md5: string -> string, s: State, later: seq<Action>, t: nat, r: nat, w: nat)
    requires Inv(md5, s) && SeesLaterReport(s, r, w)
    ensures !Starts(md5, Execute(md5, s, later), t, r)
  {
    ExecuteKeeps(md5, s, later);
    SeenGrows(md5, s, later);
    var s' := Execute(md5, s, later);
    assert SeesLaterReport(s', r, w);
    StartsExactly(md5, s', t, r);
  }

  lemma {:induction false} SeenGrows(md5: string -> string, s: State, actions: seq<Action>)
    requires Inv(md5, s)
    ensures s.seen <= Execute(md5, s, actions).seen
    decreases |actions|
  {
    if actions != [] {
      StepKeeps(md5, s, actions[0]);
      SeenGrowsStep(md5, s, actions[0]);
      SeenGrows(md5, Step(md5, s, actions[0]), actions[1..]);
    }
  }

  lemma SeenGrowsStep(md5: string -> string, s: State, a: Action)
    ensures s.seen <= Step(md5, s, a).seen
  {
  }

  /* ---------- a clock that advances ---------- */

  lemma {:induction false} ClockAdvances(md5: string -> string, s: State, a: seq<Action>, b: seq<Action>)
    requires Inv(md5, s)
    ensures Inv(md5, Execute(md5, s, a + [Tick] + b)) && Grows(s, Execute(md5, s, a + [Tick] + b))
    ensures s.now < Execute(md5, s, a + [Tick] + b).now
  {
    ExecuteKeeps(md5, s, a);
    ExecuteConcat(md5, s, a, [Tick]);
    ExecuteConcat(md5, s, a + [Tick], b);
    assert [Tick][1..] == [];
    var s' := Execute(md5, s, a);
    StepKeeps(md5, s', Tick);
    ExecuteKeeps(md5, Step(md5, s', Tick), b);
  }

  /** The run that a request started reports: the clock ticks, the run admits a report on the
      instance it got, and the report is stored. What the others do meanwhile is arbitrary. */
  datatype Course = Course(a: seq<Action>, b: seq<Action>, state: ManifestState, c: seq<Action>)

  function Ticked(md5: string -> string, s0: State, t: nat, course: Course): State {
    Execute(md5, Step(md5, s0, Decide(t)), course.a + [Tick] + course.b)
  }

  function Admitted(md5: string -> string, s0: State, t: nat, course: Course): State {
    Execute(md5, Step(md5, Ticked(md5, s0, t, course), AdmitReport(t, course.state)), course.c)
  }

  function Stored(md5: string -> string, s0: State, t: nat, course: Course): State {
    Step(md5, Admitted(md5, s0, t, course), CommitReport(t))
  }

  predicate ReportsOnce(md5: string -> string, s0: State, t: nat, course: Course) {
    && NotRun(course.c, t)
    && RunOf(Ticked(md5, s0, t, course), t).Some? && Ticked(md5, s0, t, course).runs[t].report.Got?
    && |Stored(md5, s0, t, course).log| > |Admitted(md5, s0, t, course).log|
  }

  /** When the run admits its report, the clock is past the stamp of the request. */
  lemma TickedIsLater(md5: string -> string, s0: State, t: nat, r: nat, course: Course)
    requires Inv(md5, s0) && Starts(md5, s0, t, r)
    ensures var s := Ticked(md5, s0, t, course);
            Inv(md5, s) && r < |s.log| && s.log[r].stamp < s.now
  {
    StartsExactly(md5, s0, t, r);
    assert EntryBounded(s0, r);
    StepKeeps(md5, s0, Decide(t));
    ClockAdvances(md5, Step(md5, s0, Decide(t)), course.a, course.b);
  }

  /** A report admitted at a time is stored with that stamp. */
  lemma StoredWithStamp(md5: string -> string, s: State, t: nat, state: ManifestState, c: seq<Action>)
    requires Inv(md5, s) && RunOf(s, t).Some? && s.runs[t].report.Got? && NotRun(c, t)
    ensures var admitted := Execute(md5, Step(md5, s, AdmitReport(t, state)), c);
            var stored := Step(md5, admitted, CommitReport(t));
            && Inv(md5, stored) && s.log <= admitted.log <= stored.log
            && (|stored.log| > |admitted.log| ==>
                  && |stored.log| == |admitted.log| + 1
                  && stored.log[|admitted.log|].op.Reported? && stored.log[|admitted.log|].stamp == s.now)
  {
    var s' := Step(md5, s, AdmitReport(t, state));
    StepKeeps(md5, s, AdmitReport(t, state));
    ExecuteKeeps(md5, s', c);
    StepKeeps(md5, Execute(md5, s', c), CommitReport(t));
    StoredAsGiven(md5, s, t, state, c);
  }

  /** A report admitted after the clock advanced is stamped later than the request. */
  lemma ReportIsLater(md5: string -> string, s0: State, t: nat, r: nat, course: Course)
    requires Inv(md5, s0) && Starts(md5, s0, t, r) && ReportsOnce(md5, s0, t, course)
    ensures var s := Stored(md5, s0, t, course);
            var w := |s.log| - 1;
            Inv(md5, s) && r < w && s.log[w].op.Reported? && s.log[w].stamp > s.log[r].stamp
  {
    TickedIsLater(md5, s0, t, r, course);
    StoredWithStamp(md5, Ticked(md5, s0, t, course), t, course.state, course.c);
  }

  /** A later report has been seen for the request. */
  ghost predicate SettledFor(s: State, r: nat) {
    exists w :: SeesLaterReport(s, r, w)
  }

  lemma CourseSettles(md5: string -> string, s0: State, t: nat, r: nat, course: Course, s: State, d: seq<Action>)
    requires Inv(md5, s0) && Starts(md5, s0, t, r) && ReportsOnce(md5, s0, t, course)
    requires s == Execute(md5, Stored(md5, s0, t, course), d) && s.seen == |s.log|
    ensures Inv(md5, s) && SettledFor(s, r)
  {
    var stored := Stored(md5, s0, t, course);
    ReportIsLater(md5, s0, t, r, course);
    ExecuteKeeps(md5, stored, d);
    SeenLater(stored, s, r);
  }

  lemma SeenLater(stored: State, s: State, r: nat)
    requires stored.log <= s.log && s.seen == |s.log| && |stored.log| > r + 1
    requires var w := |stored.log| - 1;
             stored.log[w].op.Reported? && stored.log[w].stamp > stored.log[r].stamp
    ensures SettledFor(s, r)
  {
    assert SeesLaterReport(s, r, |stored.log| - 1);
  }

  /** At most one converge for a request: once the run it started has stored a report after
      the clock advanced, and the cache has caught up with that report, no decision ever
      starts another run for it. */
  lemma AtMostOneConverge(md5: string -> string, before: seq<Action>, t: nat, r: nat, course: Course,
                          d: seq<Action>, later: seq<Action>, t': nat)
    requires var s0 := After(md5, before);
             && Starts(md5, s0, t, r) && ReportsOnce(md5, s0, t, course)
             && var s := Execute(md5, Stored(md5, s0, t, course), d);
                s.seen == |s.log|
    ensures !Starts(md5, Execute(md5, Execute(md5, Stored(md5, After(md5, before), t, course), d), later), t', r)
  {
    var s0 := After(md5, before);
    Reachable(md5, before);
    var s := Execute(md5, Stored(md5, s0, t, course), d);
    CourseSettles(md5, s0, t, r, course, s, d);
    var w :| SeesLaterReport(s, r, w);
    NeverAgain(md5, s, later, t', r, w);
  }

  /* ---------- the whole life of a controller ---------- */

  /** The queue hands out one item at a time: a decision, and what happens until the next. */
  datatype Round = Round(t: nat, rest: seq<Action>)

  predicate NoDecision(actions: seq<Action>) {
    forall i :: 0 <= i < |actions| ==> !actions[i].Decide?
  }

  function AfterRound(md5: string -> string, s: State, round: Round): State {
    Execute(md5, Step(md5, s, Decide(round.t)), round.rest)
  }

  function AfterRounds(md5: string -> string, s: State, rounds: seq<Round>): State {
    if rounds == [] then s else AfterRound(md5, AfterRounds(md5, s, rounds[..|rounds| - 1]), rounds[|rounds| - 1])
  }

  /** The rest of the round is this course and then `d`. */
  predicate Follows(rest: seq<Action>, t: nat, course: Course, d: seq<Action>) {
    rest == (course.a + [Tick] + course.b) + ([AdmitReport(t, course.state)] + course.c) + ([CommitReport(t)] + d)
  }

  /** A run that the decision started has, before the next decision, stored a report after
      the clock advanced, and the cache has caught up. */
  ghost predicate Finished(md5: string -> string, s: State, round: Round) {
    (exists r :: Starts(md5, s, round.t, r)) ==>
      exists course, d ::
        && Follows(round.rest, round.t, course, d) && ReportsOnce(md5, s, round.t, course)
        && AfterRound(md5, s, round).seen == |AfterRound(md5, s, round).log|
  }

  ghost predicate Orderly(md5: string -> string, s: State, rounds: seq<Round>) {
    && (forall i :: 0 <= i < |rounds| ==> NoDecision(rounds[i].rest))
    && (forall i :: 0 <= i < |rounds| - 1 ==> FinishedAt(md5, s, rounds, i))
  }

  ghost predicate FinishedAt(md5: string -> string, s: State, rounds: seq<Round>, i: nat)
    requires i < |rounds|
  {
    Finished(md5, AfterRounds(md5, s, rounds[..i]), rounds[i])
  }

  /** No request started two runs. */
  ghost predicate OnceEach(syncs: seq<Sync>) {
    forall i, j :: 0 <= i < j < |syncs| && syncs[i].started.Some? ==> syncs[j].started != syncs[i].started
  }

  /** A later report has been seen for every request that started a run. */
  ghost predicate Settled(s: State) {
    forall j :: 0 <= j < |s.syncs| && s.syncs[j].started.Some? ==> SettledFor(s, s.syncs[j].started.value)
  }

  lemma {:induction false} NoDecisionKeepsSyncs(md5: string -> string, s: State, actions: seq<Action>)
    requires NoDecision(actions)
    ensures Execute(md5, s, actions).syncs == s.syncs
    decreases |actions|
  {
    if actions != [] {
      OtherStepKeepsSyncs(md5, s, actions[0]);
      NoDecisionKeepsSyncs(md5, Step(md5, s, actions[0]), actions[1..]);
    }
  }

  lemma OtherStepKeepsSyncs(md5: string -> string, s: State, a: Action)
    requires !a.Decide?
    ensures Step(md5, s, a).syncs == s.syncs
  {
  }

  lemma SettledStays(md5: string -> string, s: State, actions: seq<Action>, r: nat)
    requires Inv(md5, s) && SettledFor(s, r)
    ensures SettledFor(Execute(md5, s, actions), r)
  {
    var w :| SeesLaterReport(s, r, w);
    ExecuteKeeps(md5, s, actions);
    SeenGrows(md5, s, actions);
    assert SeesLaterReport(Execute(md5, s, actions), r, w);
  }

  /** A decision adds at most one entry, and if that starts a run, it is for its request. */
  lemma DecisionAdds(md5: string -> string, s: State, t: nat)
    requires Inv(md5, s)
    ensures var syncs := Step(md5, s, Decide(t)).syncs;
            || syncs == s.syncs
            || exists e: Sync :: syncs == s.syncs + [e] && (e.started.Some? ==> Starts(md5, s, t, e.started.value))
  {
    var syncs := Step(md5, s, Decide(t)).syncs;
    if syncs != s.syncs {
      var e := syncs[|s.syncs|];
      assert syncs == s.syncs + [e];
    }
  }

  lemma DecisionKeepsOnce(md5: string -> string, s: State, t: nat)
    requires Inv(md5, s) && Settled(s) && OnceEach(s.syncs)
    ensures OnceEach(Step(md5, s, Decide(t)).syncs)
  {
    DecisionAdds(md5, s, t);
    var syncs := Step(md5, s, Decide(t)).syncs;
    if syncs != s.syncs {
      var e: Sync :| syncs == s.syncs + [e] && (e.started.Some? ==> Starts(md5, s, t, e.started.value));
      if e.started.Some? { StartsExactly(md5, s, t, e.started.value); }
      forall i, j | 0 <= i < j < |syncs| && syncs[i].started.Some? ensures syncs[j].started != syncs[i].started {
        assert syncs[i] == s.syncs[i];
        if j < |s.syncs| { assert syncs[j] == s.syncs[j]; } else { assert SettledFor(s, s.syncs[i].started.value); }
      }
    }
  }

  /** The states along the rest of a finished round. */
  lemma RoundIsCourse(md5: string -> string, s: State, round: Round, course: Course, d: seq<Action>)
    requires Follows(round.rest, round.t, course, d)
    ensures AfterRound(md5, s, round) == Execute(md5, Stored(md5, s, round.t, course), d)
  {
    var s1 := Step(md5, s, Decide(round.t));
    var x, y := course.a + [Tick] + course.b, [AdmitReport(round.t, course.state)] + course.c;
    var z := [CommitReport(round.t)] + d;
    ExecuteConcat(md5, s1, x + y, z);
    ExecuteConcat(md5, s1, x, y);
    assert y[1..] == course.c && z[1..] == d;
  }

  lemma FinishedSettles(md5: string -> string, s: State, round: Round, r: nat)
    requires Inv(md5, s) && Finished(md5, s, round) && Starts(md5, s, round.t, r)
    ensures SettledFor(AfterRound(md5, s, round), r)
  {
    var course, d :| && Follows(round.rest, round.t, course, d) && ReportsOnce(md5, s, round.t, course)
                     && AfterRound(md5, s, round).seen == |AfterRound(md5, s, round).log|;
    RoundIsCourse(md5, s, round, course, d);
    CourseSettles(md5, s, round.t, r, course, Execute(md5, Stored(md5, s, round.t, course), d), d);
  }

  lemma RoundKeeps(md5: string -> string, s: State, round: Round)
    requires Inv(md5, s) && Settled(s) && OnceEach(s.syncs) && NoDecision(round.rest)
    ensures Inv(md5, AfterRound(md5, s, round)) && OnceEach(AfterRound(md5, s, round).syncs)
  {
    var s1 := Step(md5, s, Decide(round.t));
    StepKeeps(md5, s, Decide(round.t));
    ExecuteKeeps(md5, s1, round.rest);
    NoDecisionKeepsSyncs(md5, s1, round.rest);
    DecisionKeepsOnce(md5, s, round.t);
  }

  lemma RoundSettles(md5: string -> string, s: State, round: Round)
    requires Inv(md5, s) && Settled(s) && NoDecision(round.rest) && Finished(md5, s, round)
    ensures Settled(AfterRound(md5, s, round))
  {
    var s1, s2 := Step(md5, s, Decide(round.t)), AfterRound(md5, s, round);
    StepKeeps(md5, s, Decide(round.t));
    NoDecisionKeepsSyncs(md5, s1, round.rest);
    DecisionAdds(md5, s, round.t);
    forall j | 0 <= j < |s2.syncs| && s2.syncs[j].started.Some? ensures SettledFor(s2, s2.syncs[j].started.value) {
      var r := s2.syncs[j].started.value;
      if j < |s.syncs| {
        assert s2.syncs[j] == s.syncs[j];
        SettledForStep(md5, s, round, r);
      } else {
        FinishedSettles(md5, s, round, r);
      }
    }
  }

  lemma SettledForStep(md5: string -> string, s: State, round: Round, r: nat)
    requires Inv(md5, s) && SettledFor(s, r)
    ensures SettledFor(AfterRound(md5, s, round), r)
  {
    SettledStays(md5, s, [Decide(round.t)] + round.rest, r);
    assert ([Decide(round.t)] + round.rest)[1..] == round.rest;
  }

  lemma {:induction false} RoundsSettle(md5: string -> string, s: State, rounds: seq<Round>, n: nat)
    requires Inv(md5, s) && s.syncs == [] && Orderly(md5, s, rounds) && n < |rounds|
    ensures var s' := AfterRounds(md5, s, rounds[..n]);
            Inv(md5, s') && Settled(s') && OnceEach(s'.syncs)
  {
    if n > 0 {
      var before := AfterRounds(md5, s, rounds[..n - 1]);
      RoundsSettle(md5, s, rounds, n - 1);
      assert rounds[..n][..n - 1] == rounds[..n - 1];
      assert NoDecision(rounds[n - 1].rest) && FinishedAt(md5, s, rounds, n - 1);
      RoundKeeps(md5, before, rounds[n - 1]);
      RoundSettles(md5, before, rounds[n - 1]);
    }
  }

  /** One request, one converge, over the whole life of a controller: if it decides on one
      item at a time and every run it starts is finished before the next decision, then no
      request ever starts two runs. `before` is what happens before its first decision. */
  lemma OneConvergePerRequest(md5: string -> string, before: seq<Action>, rounds: seq<Round>)
    requires NoDecision(before) && Orderly(md5, After(md5, before), rounds)
    ensures OnceEach(AfterRounds(md5, After(md5, before), rounds).syncs)
  {
    var s := After(md5, before);
    Reachable(md5, before);
    NoDecisionKeepsSyncs(md5, Init, before);
    if rounds != [] {
      var n := |rounds| - 1;
      RoundsSettle(md5, s, rounds, n);
      assert NoDecision(rounds[n].rest);
      RoundKeeps(md5, AfterRounds(md5, s, rounds[..n]), rounds[n]);
    }
  }
}
