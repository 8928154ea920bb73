/** Between two steps of one party of the converge protocol the others may take any steps of
    theirs: what these leave alone. */
module WingOthers {
  import opened Text
  import opened WingProtocol
  import opened WingInvariant
  import opened WingGuarantees

  predicate CliAction(a: Action, id: nat) {
    (a.PutLegacy? || a.PutObject? || a.PutPointer? || a.List? || a.AdmitAsk? || a.CommitAsk?) && a.id == id
  }

  predicate RunAction(a: Action, t: nat) {
    && (a.StartRun? || a.ReadPointer? || a.ReadObject? || a.ReadLegacy? || a.Get? || a.AdmitReport?
        || a.CommitReport? || a.Decide?)
    && a.t == t
  }

  predicate NotCli(w: seq<Action>, id: nat) {
    forall i :: 0 <= i < |w| ==> !CliAction(w[i], id)
  }

  predicate NotRun(w: seq<Action>, t: nat) {
    forall i :: 0 <= i < |w| ==> !RunAction(w[i], t)
  }

  function CliOf(s: State, id: nat): Option<Cli> {
    if id in s.clis then Some(s.clis[id]) else None
  }

  function RunOf(s: State, t: nat): Option<Run> {
    if t in s.runs then Some(s.runs[t]) else None
  }

  lemma {:induction false} OthersKeepCli(md5: string -> string, s: State, w: seq<Action>, id: nat)
    requires NotCli(w, id)
    ensures CliOf(Execute(md5, s, w), id) == CliOf(s, id)
    decreases |w|
  {
    if w != [] {
      OtherStepKeepsCli(md5, s, w[0], id);
      OthersKeepCli(md5, Step(md5, s, w[0]), w[1..], id);
    }
  }

  lemma OtherStepKeepsCli(md5: string -> string, s: State, a: Action, id: nat)
    requires !CliAction(a, id)
    ensures CliOf(Step(md5, s, a), id) == CliOf(s, id)
  {
  }

  lemma {:induction false} OthersKeepRun(md5: string -> string, s: State, w: seq<Action>, t: nat)
    requires NotRun(w, t)
    ensures RunOf(Execute(md5, s, w), t) == RunOf(s, t)
    decreases |w|
  {
    if w != [] {
      OtherStepKeepsRun(md5, s, w[0], t);
      OthersKeepRun(md5, Step(md5, s, w[0]), w[1..], t);
    }
  }

  lemma OtherStepKeepsRun(md5: string -> string, s: State, a: Action, t: nat)
    requires !RunAction(a, t)
    ensures RunOf(Step(md5, s, a), t) == RunOf(s, t)
  {
  }

  /** Steps of others, then one of our own. */
  lemma Then(md5: string -> string, s: State, w: seq<Action>, a: Action)
    ensures Execute(md5, s, w + [a]) == Step(md5, Execute(md5, s, w), a)
  {
    ExecuteConcat(md5, s, w, [a]);
    assert [a][1..] == [];
  }

  lemma {:induction false} PointersStay(md5: string -> string, s: State, w: seq<Action>)
    ensures s.pointers <= Execute(md5, s, w).pointers
    decreases |w|
  {
    if w != [] {
      PointersStayStep(md5, s, w[0]);
      PointersStay(md5, Step(md5, s, w[0]), w[1..]);
    }
  }

  lemma PointersStayStep(md5: string -> string, s: State, a: Action)
    ensures s.pointers <= Step(md5, s, a).pointers
  {
  }

  /** Steps that continue a run of the protocol: what every run keeps, they keep. */
  lemma StillARun(md5: string -> string, before: seq<Action>, steps: seq<Action>)
    ensures Execute(md5, After(md5, before), steps) == After(md5, before + steps)
    ensures Inv(md5, Execute(md5, After(md5, before), steps))
  {
    ExecuteConcat(md5, Init, before, steps);
    Reachable(md5, before + steps);
  }
}
