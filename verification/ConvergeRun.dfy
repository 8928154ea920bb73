/** One converge of the agent: the reports it sends and how they end. */
module ConvergeRun {
  import opened Text
  import opened WingProtocol

  /** The converge section of a status, as deep-copied into a report; its stamp is zero. */
  datatype Snapshot = Snapshot(state: ManifestState, messages: seq<string>, exitCodes: seq<int>, hash: string)

  /** What one `puppet apply` returns. */
  datatype Attempt = Attempt(output: string, retCode: int, error: Option<string>)

  /** Fetching, hashing and unpacking the manifest: an error, or the manifest's hash. */
  datatype Setup = Failed(error: string) | Ready(hash: string)

  function FormatInt(n: int): string {
    if n < 0 then "-" + Decimal(-n) else Decimal(n)
  }

  predicate HasFailed(a: Attempt) {
    a.error.Some? || a.retCode != 0
  }

  function ErrorText(a: Attempt): string
    requires HasFailed(a)
  {
    if a.error.Some? then a.error.value
    else "puppet apply has not converged yet (return code " + FormatInt(a.retCode) + ")"
  }

  function Message(a: Attempt): string {
    if HasFailed(a) then "puppet apply error: " + ErrorText(a) + "\n" + a.output else a.output
  }

  /** The status object the code keeps and overwrites while it runs. */
  class InstanceStatus {
    var state: ManifestState
    var messages: seq<string>
    var exitCodes: seq<int>
    var hash: string

    constructor (state: ManifestState, messages: seq<string>, exitCodes: seq<int>, hash: string)
      ensures DeepCopy() == Snapshot(state, messages, exitCodes, hash)
    {
      this.state, this.messages, this.exitCodes, this.hash := state, messages, exitCodes, hash;
    }

    function DeepCopy(): Snapshot
      reads this
    {
      Snapshot(state, messages, exitCodes, hash)
    }
  }

  /* ---------- what a converge reports ---------- */

  /** The attempts made before the first success or until retrying stops. */
  function Made(attempts: seq<Attempt>): seq<Attempt> {
    if attempts == [] then []
    else if !HasFailed(attempts[0]) then [attempts[0]]
    else [attempts[0]] + Made(attempts[1..])
  }

  function InProgress(hash: string, made: seq<Attempt>): Snapshot {
    Snapshot(Converging,
           seq(|made|, i requires 0 <= i < |made| => Message(made[i])),
           seq(|made|, i requires 0 <= i < |made| => made[i].retCode),
           hash)
  }

  const Started := Snapshot(Converging, [], [], "")

  /** The reports of one converge, in order. */
  function Reports(setup: Setup, attempts: seq<Attempt>): seq<Snapshot> {
    match setup
    case Failed(e) => [Started, Snapshot(Error, [e], [], "")]
    case Ready(hash) =>
      var made := Made(attempts);
      [Started] + Growing(hash, made, |made|) + [InProgress(hash, made).(state := Converged)]
  }

  /** One report after each of the first `n` attempts. */
  function Growing(hash: string, made: seq<Attempt>, n: nat): seq<Snapshot>
    requires n <= |made|
  {
    seq(n, i requires 0 <= i < n => InProgress(hash, made[..i + 1]))
  }

  /** `n` attempts are made and none but the last, if `retry` is false, was a success. */
  ghost predicate StoppedAt(attempts: seq<Attempt>, n: nat, retry: bool) {
    && n <= |attempts|
    && (forall i :: 0 <= i < n - 1 ==> HasFailed(attempts[i]))
    && (if retry then n > 0 ==> HasFailed(attempts[n - 1]) else n > 0 && !HasFailed(attempts[n - 1]))
  }

  lemma {:induction false} MadeAreThose(attempts: seq<Attempt>, n: nat, retry: bool)
    requires StoppedAt(attempts, n, retry) && (retry ==> n == |attempts|)
    ensures Made(attempts) == attempts[..n]
    decreases n
  {
    if n > 1 {
      MadeAreThose(attempts[1..], n - 1, retry);
      assert attempts[..n] == [attempts[0]] + attempts[1..][..n - 1];
    } else if n == 1 && retry {
      assert attempts[1..] == [] && attempts[..1] == [attempts[0]] + [];
    }
  }

  /** One more attempt adds one message, one exit code and one report. */
  lemma OneMore(hash: string, attempts: seq<Attempt>, n: nat)
    requires n < |attempts|
    ensures InProgress(hash, attempts[..n + 1]).messages
            == InProgress(hash, attempts[..n]).messages + [Message(attempts[n])]
    ensures InProgress(hash, attempts[..n + 1]).exitCodes
            == InProgress(hash, attempts[..n]).exitCodes + [attempts[n].retCode]
    ensures Growing(hash, attempts, n + 1) == Growing(hash, attempts, n) + [InProgress(hash, attempts[..n + 1])]
  {
  }

  lemma SameGrowth(hash: string, attempts: seq<Attempt>, n: nat)
    requires n <= |attempts|
    ensures Growing(hash, attempts[..n], n) == Growing(hash, attempts, n)
  {
    var a, b := Growing(hash, attempts[..n], n), Growing(hash, attempts, n);
    forall i | 0 <= i < n ensures a[i] == b[i] {
      assert attempts[..n][..i + 1] == attempts[..i + 1];
    }
  }

  /* ---------- the code ---------- */

  class Wing {
    /** Everything handed to `reportStatus` so far; whether it was stored changes nothing. */
    var reports: seq<Snapshot>

    constructor ()
      ensures reports == []
    {
      reports := [];
    }

    method ReportStatus(status: InstanceStatus)
      modifies this
      ensures reports == old(reports) + [status.DeepCopy()]
    {
      reports := reports + [status.DeepCopy()];
    }

    /** `runPuppet`. `attempts` are the results of puppet until the back-off gives up or is
        cancelled; at least one attempt is always made. */
    method RunPuppet(setup: Setup, attempts: seq<Attempt>) returns (status: InstanceStatus, err: Option<string>)
      requires attempts != []
      modifies this
      ensures fresh(status)
      ensures setup.Failed? ==>
                && err == Some(setup.error) && status.DeepCopy() == Started
                && reports == old(reports) + [Started]
      ensures setup.Ready? ==>
                var made := Made(attempts);
                && err == None && status.DeepCopy() == InProgress(setup.hash, made)
                && reports == old(reports) + [Started] + Growing(setup.hash, made, |made|)
    {
      status := new InstanceStatus(Converging, [], [], "");
      ReportStatus(status);
      if setup.Failed? { return status, Some(setup.error); }
      status := RetryPuppet(setup.hash, attempts);
      err := None;
    }

    /** `backoff.Retry` of the closure that runs puppet and replaces the status. */
    method RetryPuppet(hash: string, attempts: seq<Attempt>) returns (status: InstanceStatus)
      requires attempts != []
      modifies this
      ensures fresh(status) && status.DeepCopy() == InProgress(hash, Made(attempts))
      ensures reports == old(reports) + Growing(hash, Made(attempts), |Made(attempts)|)
    {
      status := new InstanceStatus(Converging, [], [], "");
      var puppetMessages, puppetRetCodes := [], [];
      var n := 0;
      var retry := true;
      ghost var before := reports;
      while retry && n < |attempts|
        invariant n <= |attempts| && fresh(status)
        invariant StoppedAt(attempts, n, retry)
        invariant puppetMessages == InProgress(hash, attempts[..n]).messages
        invariant puppetRetCodes == InProgress(hash, attempts[..n]).exitCodes
        invariant n > 0 ==> status.DeepCopy() == InProgress(hash, attempts[..n])
        invariant reports == before + Growing(hash, attempts, n)
        decreases |attempts| - n
      {
        var a := attempts[n];
        var output := if HasFailed(a) then "puppet apply error: " + ErrorText(a) + "\n" + a.output else a.output;
        puppetMessages := puppetMessages + [output];
        puppetRetCodes := puppetRetCodes + [a.retCode];
        OneMore(hash, attempts, n);
        status := new InstanceStatus(Converging, puppetMessages, puppetRetCodes, hash);
        ReportStatus(status);
        retry := HasFailed(a);
        n := n + 1;
      }
      MadeAreThose(attempts, n, retry);
      SameGrowth(hash, attempts, n);
    }

    /** `converge`. */
    method Converge(setup: Setup, attempts: seq<Attempt>)
      requires attempts != []
      modifies this
      ensures reports == old(reports) + Reports(setup, attempts)
    {
      var status, err := RunPuppet(setup, attempts);
      if err.Some? {
        status.state := Error;
        status.messages := status.messages + [err.value];
      } else {
        status.state := Converged;
      }
      ReportStatus(status);
      assert reports == old(reports) + Reports(setup, attempts) by {
        if setup.Failed? { assert [] + [setup.error] == [setup.error]; }
      }
    }
  }

  /* ---------- the history of a converge ---------- */

  lemma {:induction false} MadeIsPrefix(attempts: seq<Attempt>)
    ensures Made(attempts) <= attempts
    ensures attempts != [] ==> Made(attempts) != []
    ensures forall i :: 0 <= i < |Made(attempts)| - 1 ==> HasFailed(attempts[i])
    ensures |Made(attempts)| < |attempts| ==> Made(attempts) != [] && !HasFailed(attempts[|Made(attempts)| - 1])
  {
    if attempts != [] { MadeIsPrefix(attempts[1..]); }
  }

  ghost predicate Extends(r: Snapshot, q: Snapshot) {
    q.messages <= r.messages && q.exitCodes <= r.exitCodes
  }

  /** After `k` attempts the report has `k` messages and `k` exit codes and extends the one
      before; the last report is Error, with one message and no exit code, exactly when no
      attempt was made, and Converged, repeating the last attempt's report, otherwise. */
  lemma History(setup: Setup, attempts: seq<Attempt>)
    requires attempts != []
    ensures var rs := Reports(setup, attempts);
            var last := rs[|rs| - 1];
            && |rs| >= 2
            && (forall k :: 0 <= k < |rs| - 1 ==>
                  rs[k].state == Converging && |rs[k].messages| == k && |rs[k].exitCodes| == k)
            && (forall k :: 0 < k < |rs| ==> Extends(rs[k], rs[k - 1]))
            && (last.state == Error <==> |rs| == 2)
            && (last.state == Error <==> setup.Failed?)
            && (last.state == Error ==> last.messages == [setup.error] && last.exitCodes == [])
            && (last.state != Error ==> last == rs[|rs| - 2].(state := Converged) && |last.exitCodes| == |rs| - 2)
  {
    if setup.Ready? {
      var made := Made(attempts);
      MadeIsPrefix(attempts);
      var rs := Reports(setup, attempts);
      forall k | 0 < k < |rs| ensures Extends(rs[k], rs[k - 1]) {
        ReportAt(setup.hash, attempts, k);
        if k > 1 {
          ReportAt(setup.hash, attempts, k - 1);
          if k <= |made| { OneMore(setup.hash, made, k - 1); }
        }
      }
      forall k | 0 <= k < |rs| - 1
        ensures rs[k].state == Converging && |rs[k].messages| == k && |rs[k].exitCodes| == k
      {
        if k > 0 { ReportAt(setup.hash, attempts, k); }
      }
      ReportAt(setup.hash, attempts, |made|);
      ReportAt(setup.hash, attempts, |made| + 1);
    }
  }

  lemma ReportAt(hash: string, attempts: seq<Attempt>, k: nat)
    requires 0 < k < |Made(attempts)| + 2
    ensures var rs, made := Reports(Ready(hash), attempts), Made(attempts);
            && |rs| == |made| + 2
            && rs[k] == if k <= |made| then InProgress(hash, made[..k])
                        else InProgress(hash, made[..|made|]).(state := Converged)
  {
    assert Made(attempts)[..|Made(attempts)|] == Made(attempts);
  }

  /** Puppet ran and returned 0. */
  predicate Succeeded(a: Attempt) {
    a.error == None && a.retCode == 0
  }

  /** An attempt is made if and only if none before it succeeded. */
  lemma {:induction false} MadeExactly(attempts: seq<Attempt>, i: nat)
    requires i < |attempts|
    ensures i < |Made(attempts)| <==> forall j :: 0 <= j < i ==> !Succeeded(attempts[j])
  {
    if i > 0 {
      MadeExactly(attempts[1..], i - 1);
      assert forall j :: 0 < j < i ==> attempts[j] == attempts[1..][j - 1];
      assert forall j :: 0 <= j < i - 1 ==> attempts[1..][j] == attempts[j + 1];
    }
  }

  /** How attempt `i` appears in a report: its exit code, and its output alone if it succeeded,
      else after an error. */
  predicate Shown(r: Snapshot, i: nat, a: Attempt) {
    && i < |r.messages| && i < |r.exitCodes| && r.exitCodes[i] == a.retCode
    && (Succeeded(a) ==> r.messages[i] == a.output)
    && (!Succeeded(a) ==>
          HasPrefix(r.messages[i], "puppet apply error: ") && HasSuffix(r.messages[i], "\n" + a.output))
  }

  lemma MessageShown(a: Attempt)
    ensures Succeeded(a) ==> Message(a) == a.output
    ensures !Succeeded(a) ==>
              HasPrefix(Message(a), "puppet apply error: ") && HasSuffix(Message(a), "\n" + a.output)
  {
    if !Succeeded(a) {
      var head := "puppet apply error: ";
      assert Message(a) == head + (ErrorText(a) + "\n" + a.output);
      assert Message(a) == (head + ErrorText(a)) + ("\n" + a.output);
      SuffixOfConcat(head + ErrorText(a), "\n" + a.output);
    }
  }

  /** Every report on a run of puppet names the manifest and shows, in order, the attempts made
      so far, the last report all of them. */
  lemma {:induction false} ReportShows(hash: string, attempts: seq<Attempt>, k: nat, i: nat)
    requires 0 < k < |Reports(Ready(hash), attempts)| && i < k && i < |Made(attempts)|
    ensures var r := Reports(Ready(hash), attempts)[k];
            r.hash == hash && i < |attempts| && Shown(r, i, attempts[i])
  {
    MadeIsPrefix(attempts);
    ReportAt(hash, attempts, k);
    MessageShown(attempts[i]);
  }

  /** Converged says that puppet ran, not that it succeeded: it ends in this state whatever
      puppet returned, and the last attempt is a success exactly when some attempt is. */
  lemma {:induction false} ConvergedDespiteFailure(hash: string, attempts: seq<Attempt>)
    requires attempts != []
    ensures var rs, n := Reports(Ready(hash), attempts), |Made(attempts)|;
            && rs[|rs| - 1].state == Converged && 0 < n <= |attempts|
            && (Succeeded(attempts[n - 1]) <==> exists i :: 0 <= i < |attempts| && Succeeded(attempts[i]))
  {
    var n := |Made(attempts)|;
    MadeIsPrefix(attempts);
    if i :| 0 <= i < |attempts| && Succeeded(attempts[i]) && !Succeeded(attempts[n - 1]) {
      assert HasFailed(attempts[n - 1]) && n == |attempts|;
    }
  }
}
